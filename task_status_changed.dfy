/**
 * `handleTaskStatusChanged`: moves the linked issue's `status:` label from
 * the old status to the new one, closes the issue when the task becomes
 * done and reopens it when the task leaves done.
 */
module TaskStatusChanged {
  import opened Wrappers
  import opened OctokitInstance
  import opened RemoteIssues
  import opened TaskTable
  import opened Integrations
  import opened LinkedIssue

  datatype StatusChange = StatusChange(taskId: string, oldStatus: string, newStatus: string)

  const Done: string := "done"

  /** The `state` sent to `issues.update`, if any: `Some(false)` closes, `Some(true)` reopens. */
  function StateChange(oldStatus: string, newStatus: string): (r: Option<bool>)
    ensures newStatus == Done ==> r == Some(false)
    ensures newStatus != Done && oldStatus == Done ==> r == Some(true)
    ensures newStatus != Done && oldStatus != Done ==> r == None
  {
    if newStatus == Done then Some(false)
    else if oldStatus == Done then Some(true)
    else None
  }

  function StatusCalls(key: IssueKey, oldStatus: string, newStatus: string): seq<RemoteCall>
  {
    SwapCalls(key, StatusLabel(oldStatus), StatusLabel(newStatus))
    + match StateChange(oldStatus, newStatus)
      case None => []
      case Some(open) => [UpdateStateCall(key, open)]
  }

  /** The new state of the issues after the three steps, each of which may fail on its own. */
  function StatusEffect(issues: Issues, key: IssueKey, oldStatus: string, newStatus: string,
                        removeOk: bool, addOk: bool, stateOk: bool): (r: Issues)
    ensures r.Keys == issues.Keys
    ensures forall k | k in issues && k != key :: r[k] == issues[k]
    ensures key in issues ==>
      && r[key].title == issues[key].title && r[key].body == issues[key].body
      && r[key].labels == LabelSwap(issues, key, StatusLabel(oldStatus), StatusLabel(newStatus), removeOk, addOk)[key].labels
    ensures key in issues && stateOk && newStatus == Done ==> !r[key].open
    ensures key in issues && stateOk && newStatus != Done && oldStatus == Done ==> r[key].open
    ensures key in issues && (!stateOk || (newStatus != Done && oldStatus != Done)) ==> r[key].open == issues[key].open
  {
    var swapped := LabelSwap(issues, key, StatusLabel(oldStatus), StatusLabel(newStatus), removeOk, addOk);
    match StateChange(oldStatus, newStatus)
    case None => swapped
    case Some(open) => StateSet(swapped, key, open, stateOk && key in swapped)
  }

  method HandleTaskStatusChanged(
    e: StatusChange, tasks: Tasks, integrations: map<string, Integration>, env: Environment,
    store: IssueStore, removeOk: bool, addOk: bool, stateOk: bool)
    returns (target: Result<IssueKey, SkipReason>)
    modifies store
    ensures target == Target(tasks.rows, integrations, env, e.taskId)
    ensures target.Err? ==> store.calls == old(store.calls) && store.issues == old(store.issues)
    ensures target.Ok? ==>
      && store.calls == old(store.calls) + StatusCalls(target.value, e.oldStatus, e.newStatus)
      && store.issues == StatusEffect(old(store.issues), target.value, e.oldStatus, e.newStatus, removeOk, addOk, stateOk)
  {
    target := Target(tasks.rows, integrations, env, e.taskId);
    if target.Err? {
      return;
    }
    SyncStatus(store, target.value, e.oldStatus, e.newStatus, removeOk, addOk, stateOk);
  }

  /** The label swap, then `issues.update` to close or reopen when the transition asks for it. */
  method SyncStatus(store: IssueStore, key: IssueKey, oldStatus: string, newStatus: string,
                    removeOk: bool, addOk: bool, stateOk: bool)
    modifies store
    ensures store.calls == old(store.calls) + StatusCalls(key, oldStatus, newStatus)
    ensures store.issues == StatusEffect(old(store.issues), key, oldStatus, newStatus, removeOk, addOk, stateOk)
  {
    SwapLabel(store, key, StatusLabel(oldStatus), StatusLabel(newStatus), removeOk, addOk);
    ghost var swapCalls := store.calls;
    if newStatus == Done {
      var closed := store.UpdateState(key, false, stateOk);
      assert store.calls == swapCalls + [UpdateStateCall(key, false)];
    } else if oldStatus == Done && newStatus != Done {
      var reopened := store.UpdateState(key, true, stateOk);
      assert store.calls == swapCalls + [UpdateStateCall(key, true)];
    } else {
      assert StateChange(oldStatus, newStatus) == None;
    }
  }

  /**
   * With every call succeeding, an issue that was open exactly when its task
   * was not done is again open exactly when the task is not done.
   */
  lemma OpenTracksDone(issues: Issues, key: IssueKey, oldStatus: string, newStatus: string)
    requires key in issues && issues[key].open == (oldStatus != Done)
    ensures var r := StatusEffect(issues, key, oldStatus, newStatus, true, true, true);
      r[key].open == (newStatus != Done) && StatusLabel(newStatus) in r[key].labels
  {
  }
}
