/**
 * `handleTaskCreated`: mirrors a new task into a new GitHub issue of the
 * project's repository, labels it, and writes a link to the issue back into
 * the task's description. Tasks that were themselves imported from GitHub
 * are skipped, so the two directions do not loop.
 */
module TaskCreated {
  import opened Wrappers
  import opened Text
  import opened OctokitInstance
  import opened RemoteIssues
  import opened TaskTable
  import opened Integrations
  import IssueMarkers

  /** The event payload; `||` in the handler treats a missing and an empty string alike. */
  datatype TaskCreatedEvent = TaskCreatedEvent(
    taskId: string,
    userId: Option<string>,
    title: string,
    description: Option<string>,
    priority: Option<string>,
    status: string,
    projectId: string)

  datatype CreatedOutcome =
    | SkippedImported
    | SkippedNoClient
    /** `issues.create` threw: the outer catch swallows it. */
    | IssueNotCreated
    /** `addLabelsToIssue` threw: the issue exists, the write-back is skipped. */
    | LabelsNotAdded(issue: IssueKey)
    /** The `db.update` threw: the inner catch swallows it, the issue stays. */
    | LinkNotSaved(issue: IssueKey)
    | Linked(issue: IssueKey, description: string)

  /** `description?.includes("Created from GitHub issue:")`. */
  predicate ImportedFromGithub(description: Option<string>)
  {
    description.Some? && Contains(description.value, IssueMarkers.CreatedMarker)
  }

  const TitleTag: string := "[Kaneo] "

  /** The issue title is the task title behind the `[Kaneo] ` tag, so the task title can be read back. */
  function IssueTitle(title: string): (r: string)
    ensures TitleTag <= r && r[|TitleTag|..] == title
  {
    TitleTag + title
  }

  const BodyIntro: string := "**Task created in Kaneo**\n\n**Description:** "
  const BodyDetails: string := "\n\n**Details:**\n- Task ID: "
  const BodyStatus: string := "\n- Status: "
  const BodyPriority: string := "\n- Priority: "
  const BodyAssignee: string := "\n- Assigned to: "
  const BodyFooter: string := "\n\n---\n*This issue was automatically created from Kaneo task management system.*"

  /** The issue body; `IssueBodyLayout` and `IssueBodyFrame` state its form. */
  function IssueBody(e: TaskCreatedEvent): string
  {
    BodyIntro + OrElse(e.description, "No description provided") + BodyFields(e)
  }

  /** Everything after the description: the task's details, then the footer. */
  function BodyFields(e: TaskCreatedEvent): string
  {
    BodyDetails + e.taskId
    + BodyStatus + e.status
    + BodyPriority + OrElse(e.priority, "Not set")
    + BodyAssignee + OrElse(e.userId, "Unassigned")
    + BodyFooter
  }

  /**
   * The description (or a placeholder when it is missing or empty) sits
   * right after the intro, and the footer ends the body.
   */
  lemma IssueBodyFrame(e: TaskCreatedEvent)
    ensures var r := IssueBody(e);
      var shown := if Truthy(e.description) then e.description.value else "No description provided";
      && BodyIntro <= r
      && |BodyIntro| + |shown| <= |r|
      && r[|BodyIntro|..|BodyIntro| + |shown|] == shown
      && |BodyFooter| <= |r| && r[|r| - |BodyFooter|..] == BodyFooter
  {
    var shown := OrElse(e.description, "No description provided");
    var fields := BodyFields(e);
    Framed(BodyIntro, shown, fields);
    var front := fields[..|fields| - |BodyFooter|];
    assert fields == front + BodyFooter;
    Framed(BodyIntro + shown, front, BodyFooter);
    Assoc(BodyIntro + shown, front, BodyFooter);
  }

  /**
   * The body follows the template field by field: intro, description or
   * `No description provided`, task id, status, priority or `Not set`,
   * assignee or `Unassigned`, each behind its heading, then the footer.
   */
  lemma IssueBodyLayout(e: TaskCreatedEvent)
    ensures IssueBody(e)
      == BodyIntro + (if Truthy(e.description) then e.description.value else "No description provided")
         + BodyDetails + e.taskId
         + BodyStatus + e.status
         + BodyPriority + (if Truthy(e.priority) then e.priority.value else "Not set")
         + BodyAssignee + (if Truthy(e.userId) then e.userId.value else "Unassigned")
         + BodyFooter
  {
    var shown := OrElse(e.description, "No description provided");
    var priority := OrElse(e.priority, "Not set");
    var assignee := OrElse(e.userId, "Unassigned");
    assert IssueBody(e) == BodyIntro + shown + BodyFields(e);
    Regroup(BodyIntro, shown, BodyDetails, e.taskId, BodyStatus, e.status,
            BodyPriority, priority, BodyAssignee, assignee, BodyFooter);
  }

  /** Moving the parentheses of an eleven-part concatenation. */
  lemma Regroup(a: string, b: string, c: string, d: string, f: string, g: string,
                h: string, i: string, j: string, k: string, l: string)
    ensures a + b + (c + d + f + g + h + i + j + k + l) == a + b + c + d + f + g + h + i + j + k + l
  {
    var x := a + b;
    assert x + (c + d + f + g + h + i + j + k + l) == x + c + d + f + g + h + i + j + k + l by {
      Assoc(x, c + d + f + g + h + i + j + k, l);
      Assoc(x, c + d + f + g + h + i + j, k);
      Assoc(x, c + d + f + g + h + i, j);
      Assoc(x, c + d + f + g + h, i);
      Assoc(x, c + d + f + g, h);
      Assoc(x, c + d + f, g);
      Assoc(x, c + d, f);
      Assoc(x, c, d);
    }
  }

  /** The labels of a new issue: `kaneo`, the priority (`low` when missing or empty), the status. */
  function InitialLabels(e: TaskCreatedEvent): (r: seq<string>)
    ensures |r| == 3 && r[0] == KaneoLabel && r[2] == StatusLabel(e.status)
    ensures Truthy(e.priority) ==> r[1] == PriorityLabel(e.priority.value)
    ensures !Truthy(e.priority) ==> r[1] == PriorityLabel("low")
  {
    [KaneoLabel, PriorityLabel(OrElse(e.priority, "low")), StatusLabel(e.status)]
  }

  const LinkIntro: string := "\n\n---\n\n*Linked to GitHub issue: "

  /**
   * The description written back: the old one (or nothing) kept whole at the
   * front, and the issue's `html_url` followed by `*` at the end.
   */
  function LinkedDescription(description: Option<string>, htmlUrl: string): (r: string)
    ensures var kept := if Truthy(description) then description.value else "";
      kept <= r && |kept| + |LinkIntro| + |htmlUrl| + 1 == |r|
    ensures |htmlUrl| + 1 <= |r| && r[|r| - |htmlUrl| - 1..] == htmlUrl + "*"
  {
    var base := OrElse(description, "");
    var r := base + LinkIntro + htmlUrl + "*";
    assert r == base + (LinkIntro + htmlUrl + "*");
    assert r == (base + LinkIntro) + (htmlUrl + "*");
    r
  }

  /** Whether the handler gets as far as calling GitHub. */
  predicate Proceeds(e: TaskCreatedEvent, integrations: map<string, Integration>, env: Environment)
  {
    !ImportedFromGithub(e.description) && ClientForProject(integrations, e.projectId, env).Some?
  }

  /**
   * The remote effect of the two GitHub calls, from `calls0`/`issues0` to
   * `calls`/`issues`: the create call, and when the issue was created the
   * label call, with the labels present exactly when that call succeeded.
   */
  predicate IssueOpened(
    calls0: seq<RemoteCall>, issues0: Issues, calls: seq<RemoteCall>, issues: Issues,
    owner: string, repo: string, e: TaskCreatedEvent, response: CreateResponse, labelsOk: bool)
  {
    var create := CreateIssueCall(owner, repo, IssueTitle(e.title), IssueBody(e));
    && (response.CreateFailed? ==> calls == calls0 + [create] && issues == issues0)
    && (response.Created? ==>
          var key := IssueKey(owner, repo, response.number);
          && calls == calls0 + [create, AddLabelsCall(key, InitialLabels(e))]
          && issues == issues0[key :=
               Issue(IssueTitle(e.title), IssueBody(e), if labelsOk then set l | l in InitialLabels(e) else {}, true)])
  }

  method HandleTaskCreated(
    e: TaskCreatedEvent, integrations: map<string, Integration>, env: Environment,
    store: IssueStore, tasks: Tasks,
    response: CreateResponse, labelsOk: bool, writeOk: bool)
    returns (outcome: CreatedOutcome)
    modifies store, tasks
    ensures ImportedFromGithub(e.description) ==> outcome == SkippedImported
    ensures !ImportedFromGithub(e.description) && ClientForProject(integrations, e.projectId, env).None? ==>
      outcome == SkippedNoClient
    ensures !Proceeds(e, integrations, env) ==>
      store.calls == old(store.calls) && store.issues == old(store.issues) && tasks.rows == old(tasks.rows)
    ensures Proceeds(e, integrations, env) ==>
      var c := ClientForProject(integrations, e.projectId, env).value;
      && IssueOpened(old(store.calls), old(store.issues), store.calls, store.issues, c.owner, c.repo, e, response, labelsOk)
      && outcome == (if response.CreateFailed? then IssueNotCreated
                     else if !labelsOk then LabelsNotAdded(IssueKey(c.owner, c.repo, response.number))
                     else if !writeOk then LinkNotSaved(IssueKey(c.owner, c.repo, response.number))
                     else Linked(IssueKey(c.owner, c.repo, response.number), LinkedDescription(e.description, response.htmlUrl)))
    ensures tasks.rows ==
      if outcome.Linked? && e.taskId in old(tasks.rows)
      then old(tasks.rows)[e.taskId := old(tasks.rows)[e.taskId].(description := Some(outcome.description))]
      else old(tasks.rows)
  {
    if ImportedFromGithub(e.description) {
      return SkippedImported;
    }
    var client := ClientForProject(integrations, e.projectId, env);
    if client.None? {
      return SkippedNoClient;
    }
    outcome := OpenAndLink(client.value.owner, client.value.repo, e, store, tasks, response, labelsOk, writeOk);
  }

  /** Everything after the client is resolved: open the issue, label it, write the link back. */
  method OpenAndLink(
    owner: string, repo: string, e: TaskCreatedEvent, store: IssueStore, tasks: Tasks,
    response: CreateResponse, labelsOk: bool, writeOk: bool)
    returns (outcome: CreatedOutcome)
    modifies store, tasks
    ensures IssueOpened(old(store.calls), old(store.issues), store.calls, store.issues, owner, repo, e, response, labelsOk)
    ensures outcome == (if response.CreateFailed? then IssueNotCreated
                        else if !labelsOk then LabelsNotAdded(IssueKey(owner, repo, response.number))
                        else if !writeOk then LinkNotSaved(IssueKey(owner, repo, response.number))
                        else Linked(IssueKey(owner, repo, response.number), LinkedDescription(e.description, response.htmlUrl)))
    ensures tasks.rows ==
      if outcome.Linked? && e.taskId in old(tasks.rows)
      then old(tasks.rows)[e.taskId := old(tasks.rows)[e.taskId].(description := Some(outcome.description))]
      else old(tasks.rows)
  {
    var created, labeled := OpenLabeledIssue(owner, repo, e, store, response, labelsOk);
    if created.None? {
      return IssueNotCreated;
    }
    var key := created.value;
    if !labeled {
      return LabelsNotAdded(key);
    }
    var description := LinkedDescription(e.description, response.htmlUrl);
    var written := tasks.UpdateDescription(e.taskId, description, writeOk);
    if !written {
      return LinkNotSaved(key);
    }
    return Linked(key, description);
  }

  /** The two GitHub calls: create the issue, then label it. */
  method OpenLabeledIssue(
    owner: string, repo: string, e: TaskCreatedEvent, store: IssueStore, response: CreateResponse, labelsOk: bool)
    returns (created: Option<IssueKey>, labeled: bool)
    modifies store
    ensures created.Some? <==> response.Created?
    ensures response.Created? ==> created.value == IssueKey(owner, repo, response.number) && labeled == labelsOk
    ensures IssueOpened(old(store.calls), old(store.issues), store.calls, store.issues, owner, repo, e, response, labelsOk)
  {
    var title, body, labels := IssueTitle(e.title), IssueBody(e), InitialLabels(e);
    created := store.CreateIssue(owner, repo, title, body, response);
    if created.None? {
      return created, false;
    }
    var key := created.value;
    ghost var before, mid := store.calls, store.issues;
    assert mid == old(store.issues)[key := Issue(title, body, {}, true)];
    labeled := store.AddLabels(key, labels, labelsOk);
    assert store.calls == old(store.calls) + [CreateIssueCall(owner, repo, title, body), AddLabelsCall(key, labels)] by {
      assert store.calls == before + [AddLabelsCall(key, labels)];
    }
    assert store.issues == old(store.issues)[key := Issue(title, body, if labelsOk then set l | l in labels else {}, true)] by {
      assert {} + (set l | l in labels) == set l | l in labels;
    }
  }
}
