/** `handleTaskPriorityChanged`: moves the linked issue's `priority:` label from the old priority to the new one. */
module TaskPriorityChanged {
  import opened Wrappers
  import opened OctokitInstance
  import opened RemoteIssues
  import opened TaskTable
  import opened Integrations
  import opened LinkedIssue

  datatype PriorityChange = PriorityChange(taskId: string, oldPriority: string, newPriority: string)

  function PriorityCalls(key: IssueKey, oldPriority: string, newPriority: string): (r: seq<RemoteCall>)
    ensures forall i | 0 <= i < |r| :: !r[i].UpdateStateCall? && !r[i].CreateIssueCall?
  {
    SwapCalls(key, PriorityLabel(oldPriority), PriorityLabel(newPriority))
  }

  method HandleTaskPriorityChanged(
    e: PriorityChange, tasks: Tasks, integrations: map<string, Integration>, env: Environment,
    store: IssueStore, removeOk: bool, addOk: bool)
    returns (target: Result<IssueKey, SkipReason>)
    modifies store
    ensures target == Target(tasks.rows, integrations, env, e.taskId)
    ensures target.Err? ==> store.calls == old(store.calls) && store.issues == old(store.issues)
    ensures target.Ok? ==>
      && store.calls == old(store.calls) + PriorityCalls(target.value, e.oldPriority, e.newPriority)
      && store.issues == LabelSwap(old(store.issues), target.value, PriorityLabel(e.oldPriority), PriorityLabel(e.newPriority), removeOk, addOk)
  {
    target := Target(tasks.rows, integrations, env, e.taskId);
    if target.Err? {
      return;
    }
    SwapLabel(store, target.value, PriorityLabel(e.oldPriority), PriorityLabel(e.newPriority), removeOk, addOk);
  }
}
