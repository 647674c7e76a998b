/** The task table, as far as the synchronisation engine reads and writes it. */
module TaskTable {
  import opened Wrappers

  /** A task row: the engine reads the project and the description, and only ever writes the description. */
  datatype TaskRow = TaskRow(projectId: string, description: Option<string>)

  class Tasks {
    var rows: map<string, TaskRow>

    constructor (initial: map<string, TaskRow>)
      ensures rows == initial
    {
      rows := initial;
    }

    /**
     * `db.update(taskTable).set({ description }).where(eq(taskTable.id, id))`:
     * with no such row nothing is updated and nothing fails.
     */
    method UpdateDescription(id: string, description: string, ok: bool) returns (success: bool)
      modifies this
      ensures success == ok
      ensures rows == if ok && id in old(rows) then old(rows)[id := old(rows)[id].(description := Some(description))]
                      else old(rows)
    {
      success := ok;
      if ok && id in rows {
        rows := rows[id := rows[id].(description := Some(description))];
      }
    }
  }
}
