/**
 * What the status and priority handlers share: finding the GitHub issue a
 * task is linked to, and swapping one label for another on it.
 */
module LinkedIssue {
  import opened Wrappers
  import opened OctokitInstance
  import opened RemoteIssues
  import opened TaskTable
  import opened Integrations
  import IssueMarkers

  /** Why a handler stops before any GitHub call. */
  datatype SkipReason = TaskNotFound | NoClient | NotLinked(link: IssueMarkers.LinkState)

  /**
   * The task row, then the project's client, then the issue number read from
   * the description. The issue is looked up in the repository the client is
   * for: the owner and repository written in the URL are not used.
   */
  function Target(rows: map<string, TaskRow>, integrations: map<string, Integration>, env: Environment, taskId: string)
    : (r: Result<IssueKey, SkipReason>)
    ensures taskId !in rows ==> r == Err(TaskNotFound)
    ensures taskId in rows && ClientForProject(integrations, rows[taskId].projectId, env).None? ==> r == Err(NoClient)
    ensures taskId in rows && ClientForProject(integrations, rows[taskId].projectId, env).Some? ==>
      var link := IssueMarkers.DetectLink(rows[taskId].description);
      (r.Ok? <==> link.LinkedIssue?) && (r.Err? ==> r.error == NotLinked(link))
    ensures r.Ok? ==>
      && taskId in rows
      && var c := ClientForProject(integrations, rows[taskId].projectId, env);
      && c.Some?
      && r.value == IssueKey(c.value.owner, c.value.repo, IssueMarkers.DetectLink(rows[taskId].description).number)
      && r.value.number > 0
  {
    match Lookup(rows, taskId)
    case None => Err(TaskNotFound)
    case Some(task) =>
      match ClientForProject(integrations, task.projectId, env)
      case None => Err(NoClient)
      case Some(client) =>
        match IssueMarkers.DetectLink(task.description)
        case LinkedIssue(n) => Ok(IssueKey(client.owner, client.repo, n))
        case link => Err(NotLinked(link))
  }

  /**
   * `removeLabel(oldLabel)` in its own try, then `addLabels([newLabel])` in
   * its own try: a failed removal does not stop the addition.
   */
  function LabelSwap(issues: Issues, key: IssueKey, oldLabel: string, newLabel: string, removeOk: bool, addOk: bool)
    : (r: Issues)
    ensures key !in issues ==> r == issues
    ensures r.Keys == issues.Keys
    ensures forall k | k in issues && k != key :: r[k] == issues[k]
    ensures key in issues ==>
      r[key].title == issues[key].title && r[key].body == issues[key].body && r[key].open == issues[key].open
    ensures key in issues && addOk ==> newLabel in r[key].labels
    ensures key in issues && oldLabel != newLabel ==>
      (oldLabel in r[key].labels <==> oldLabel in issues[key].labels && !removeOk)
    ensures key in issues && !addOk ==>
      (newLabel in r[key].labels <==> newLabel in issues[key].labels && !(removeOk && newLabel == oldLabel))
    ensures key in issues ==>
      forall l | l != oldLabel && l != newLabel :: l in r[key].labels <==> l in issues[key].labels
  {
    var removed := LabelRemoved(issues, key, oldLabel, removeOk && key in issues && oldLabel in issues[key].labels);
    LabelsAdded(removed, key, [newLabel], addOk && key in removed)
  }

  function SwapCalls(key: IssueKey, oldLabel: string, newLabel: string): seq<RemoteCall>
  {
    [RemoveLabelCall(key, oldLabel), AddLabelsCall(key, [newLabel])]
  }

  method SwapLabel(store: IssueStore, key: IssueKey, oldLabel: string, newLabel: string, removeOk: bool, addOk: bool)
    modifies store
    ensures store.calls == old(store.calls) + SwapCalls(key, oldLabel, newLabel)
    ensures store.issues == LabelSwap(old(store.issues), key, oldLabel, newLabel, removeOk, addOk)
  {
    var removed := store.RemoveLabel(key, oldLabel, removeOk);
    var added := store.AddLabels(key, [newLabel], addOk);
  }
}
