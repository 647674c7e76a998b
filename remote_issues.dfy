/**
 * The GitHub side as the synchronisation engine sees it: issues addressed by
 * owner, repository and number, each with a label set and an open/closed
 * state, and a log of the REST calls made. Every call takes the outcome the
 * network or GitHub would give (`ok`); GitHub itself also refuses calls on
 * an issue that does not exist, and removing a label the issue lacks (404).
 */
module RemoteIssues {
  import opened Wrappers

  datatype IssueKey = IssueKey(owner: string, repo: string, number: int)
  datatype Issue = Issue(title: string, body: string, labels: set<string>, open: bool)
  type Issues = map<IssueKey, Issue>

  datatype RemoteCall =
    | CreateIssueCall(owner: string, repo: string, title: string, body: string)
    | AddLabelsCall(key: IssueKey, labels: seq<string>)
    | RemoveLabelCall(key: IssueKey, labelName: string)
    | UpdateStateCall(key: IssueKey, open: bool)

  /** What GitHub answers to "create issue": a failure, or the new issue's number and `html_url`. */
  datatype CreateResponse = CreateFailed | Created(number: int, htmlUrl: string)

  /** The labels the engine writes. */
  const KaneoLabel: string := "kaneo"
  function StatusLabel(status: string): string { "status:" + status }
  function PriorityLabel(priority: string): string { "priority:" + priority }

  function LabelsAdded(issues: Issues, key: IssueKey, labels: seq<string>, applied: bool): Issues
    requires applied ==> key in issues
  {
    if applied then issues[key := issues[key].(labels := issues[key].labels + set l | l in labels)] else issues
  }

  function LabelRemoved(issues: Issues, key: IssueKey, labelName: string, applied: bool): Issues
    requires applied ==> key in issues
  {
    if applied then issues[key := issues[key].(labels := issues[key].labels - {labelName})] else issues
  }

  function StateSet(issues: Issues, key: IssueKey, open: bool, applied: bool): Issues
    requires applied ==> key in issues
  {
    if applied then issues[key := issues[key].(open := open)] else issues
  }

  class IssueStore {
    var issues: Issues
    var calls: seq<RemoteCall>

    constructor (initial: Issues)
      ensures issues == initial && calls == []
    {
      issues := initial;
      calls := [];
    }

    /** `octokit.rest.issues.create`: a new open issue without labels. */
    method CreateIssue(owner: string, repo: string, title: string, body: string, response: CreateResponse)
      returns (created: Option<IssueKey>)
      modifies this
      ensures calls == old(calls) + [CreateIssueCall(owner, repo, title, body)]
      ensures created.Some? <==> response.Created?
      ensures response.Created? ==>
        created.value == IssueKey(owner, repo, response.number)
        && issues == old(issues)[created.value := Issue(title, body, {}, true)]
      ensures response.CreateFailed? ==> issues == old(issues)
    {
      calls := calls + [CreateIssueCall(owner, repo, title, body)];
      if response.Created? {
        var key := IssueKey(owner, repo, response.number);
        issues := issues[key := Issue(title, body, {}, true)];
        created := Some(key);
      } else {
        created := None;
      }
    }

    /** `octokit.rest.issues.addLabels`. */
    method AddLabels(key: IssueKey, labels: seq<string>, ok: bool) returns (success: bool)
      modifies this
      ensures calls == old(calls) + [AddLabelsCall(key, labels)]
      ensures success == (ok && key in old(issues))
      ensures issues == LabelsAdded(old(issues), key, labels, success)
    {
      calls := calls + [AddLabelsCall(key, labels)];
      success := ok && key in issues;
      issues := LabelsAdded(issues, key, labels, success);
    }

    /** `octokit.rest.issues.removeLabel`: fails when the issue does not carry the label. */
    method RemoveLabel(key: IssueKey, labelName: string, ok: bool) returns (success: bool)
      modifies this
      ensures calls == old(calls) + [RemoveLabelCall(key, labelName)]
      ensures success == (ok && key in old(issues) && labelName in old(issues)[key].labels)
      ensures issues == LabelRemoved(old(issues), key, labelName, success)
    {
      calls := calls + [RemoveLabelCall(key, labelName)];
      success := ok && key in issues && labelName in issues[key].labels;
      issues := LabelRemoved(issues, key, labelName, success);
    }

    /** `octokit.rest.issues.update` with `state: "open"` or `state: "closed"`. */
    method UpdateState(key: IssueKey, open: bool, ok: bool) returns (success: bool)
      modifies this
      ensures calls == old(calls) + [UpdateStateCall(key, open)]
      ensures success == (ok && key in old(issues))
      ensures issues == StateSet(old(issues), key, open, success)
    {
      calls := calls + [UpdateStateCall(key, open)];
      success := ok && key in issues;
      issues := StateSet(issues, key, open, success);
    }
  }
}
