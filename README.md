# Kaneo GitHub synchronisation engine, modelled in Dafny

Kaneo is a task manager. A project can connect to a GitHub repository in one of two ways:
- a personal access token (PAT), stored encrypted in an `ivHex:cipherHex:tagHex` envelope;
- a GitHub App installation.

Once a project is connected, three event handlers keep its GitHub issues in step with its tasks:
- **Task created:** the handler opens a labelled issue and writes a `Linked to GitHub issue: <url>` marker back into the task's description.
- **Task status changed:** the handler finds the issue number from that marker, or from the `Created from GitHub issue: <url>` marker of imported tasks. It then swaps the `status:` label, and closes or reopens the issue around `done`.
- **Task priority changed:** the handler does the same for the `priority:` label.

Each remote call is best effort. A failure is caught where the code catches it, and the handlers never throw.

Besides the engine, the model covers:
- the PAT connect endpoint;
- the workspace invitation;
- the dashboard analytics;
- the commit-prefix rule of the generative endpoints;
- the rules of the integration settings panel and the team members table.

The model is one Dafny module per source file:
- `Encryption`, with the `Hex` codec and the `Text` string operations;
- `GithubUrl`, `OctokitInstance`, `IssueMarkers`;
- `TaskCreated`, `TaskStatusChanged` and `TaskPriorityChanged`, which run over the mutable `RemoteIssues.IssueStore` and `TaskTable.Tasks` classes;
- `LinkedIssue`, which holds the extraction and label swap the two update handlers share;
- `LinkRoundTrip`, which ties the create path to the update paths;
- `PatConnect`, `InviteWorkspaceUser`, `Analytics` and `CommitPrefix`;
- `IntegrationSettings`, `RoleActions` and `MembersTable`.

External inputs are parameters:
- the cipher, the random IV and the key;
- every GitHub and database outcome, as a success flag or a response value;
- the URL parser's result, the clock ("now") and the language model.

Edge behaviour of the code, which the model keeps:
- **Tampering.** Node's hex decoder reads digits of either case (`encryption.ts:29-31`), so an upper-cased tag still decrypts (`Encryption.UpperCaseTagStillDecrypts`).
- **New status label.** A failure to add the new status label is caught, and the close/reopen step still runs (`task-status-changed.ts:98-108`).
- **Which repository.** The update handlers take only the number from the issue URL. The issue they address is in the repository of the project's client, not in the owner and repository written in the URL (`task-status-changed.ts:74-78, 88-91`).

## Model

| member | source | states |
|---|---|---|
| Encryption.LoadKey | apps/api/src/github-integration/utils/encryption.ts:7-11 | Setup succeeds exactly when the key is present with length 32, and then uses that key |
| Encryption.Decrypt | apps/api/src/github-integration/utils/encryption.ts:24-38 | A format error happens exactly when splitting on `:` does not give three fields; text is returned only when the decoded tag is the one the key computes for that IV and ciphertext |
| Encryption.SplitEnvelope | apps/api/src/github-integration/utils/encryption.ts:21-26 | Three colon-free fields joined by `:` split back into exactly those three fields |
| Encryption.Encrypt | apps/api/src/github-integration/utils/encryption.ts:15-22 | The envelope splits back into exactly hex(IV), hex(ciphertext) and hex(tag), so it always passes the three-field check; the IV field is 32 characters |
| Encryption.DecryptEncrypt | apps/api/src/github-integration/utils/encryption.ts:15-38 | With the same key and an authenticated cipher, decrypting an encrypted text gives the text back |
| Encryption.TamperedTagFails | apps/api/src/github-integration/utils/encryption.ts:33-37 | A well-formed envelope whose tag is not the key's tag for its IV and ciphertext fails with an authentication error |
| Encryption.TamperedCiphertextFails | apps/api/src/github-integration/utils/encryption.ts:33-37 | Replacing the ciphertext of a sealed envelope fails, unless the key computes the same tag for the new ciphertext |
| Encryption.UpperCaseTagStillDecrypts | apps/api/src/github-integration/utils/encryption.ts:29-36 | Writing the tag field in upper case still decrypts to the original text |
| Hex.Encode | apps/api/src/github-integration/utils/encryption.ts:21 | Hex output is two lower-case hex digits per byte |
| Hex.Decode | apps/api/src/github-integration/utils/encryption.ts:29-31 | Decoding never produces more than one byte per two input characters |
| Hex.EncodeHasNoColon | apps/api/src/github-integration/utils/encryption.ts:21 | Hex output never contains the envelope separator |
| Hex.DecodeEncode | apps/api/src/github-integration/utils/encryption.ts:21-31 | Decoding the hex of a byte sequence gives the sequence back |
| Hex.DecodeEncodeThenJunk | apps/api/src/github-integration/utils/encryption.ts:29-31 | Text after well-formed hex that starts with a non-digit is ignored by the decoder |
| Hex.DecodeIgnoresCase | apps/api/src/github-integration/utils/encryption.ts:29-31 | Two strings whose digits have the same values decode to the same bytes |
| Text.SplitFieldsLackSeparator | apps/api/src/github-integration/utils/encryption.ts:25 | No field of a split contains the separator |
| Text.JoinSplit | apps/api/src/github-integration/utils/encryption.ts:25 | Joining the fields of a split with the separator gives the string back |
| Text.SplitJoin | apps/api/src/github-integration/utils/encryption.ts:25 | `split` distributes over a separator: `(a + sep + b).split(sep)` is `a.split(sep)` followed by `b.split(sep)` |
| Text.SplitNoSeparator | apps/api/src/github-integration/utils/encryption.ts:25 | A string without the separator splits into itself alone |
| Text.NonEmptyAppend | apps/api/src/github-integration/utils/parse-github-url.ts:11 | `filter(Boolean)` distributes over concatenation |
| Text.Trim | apps/api/src/genai/index.ts:35 | The trimmed string is a slice of the input with only whitespace before and after it, and it neither starts nor ends with whitespace |
| Wrappers.Lookup | apps/api/src/github-integration/utils/get-octokit-instance.ts:14-16 | A row is found exactly when its key is present, and it is that key's row |
| GithubUrl.StripGitSuffix | apps/api/src/github-integration/utils/parse-github-url.ts:18 | Exactly one trailing `.git` is removed; any other name is unchanged |
| GithubUrl.ParseGithubUrl | apps/api/src/github-integration/utils/parse-github-url.ts:5-23 | Null when the URL does not parse, the host is not exactly `github.com`, or there are fewer than two non-empty segments; otherwise the result is exactly the first non-empty segment as owner and the second, with a trailing `.git` removed, as name |
| GithubUrl.OwnerNamePath | apps/api/src/github-integration/utils/parse-github-url.ts:5-20 | A `github.com` URL with path `/owner/name` gives owner `owner` and name `name` without a trailing `.git` |
| GithubUrl.EmptySegmentsIgnored | apps/api/src/github-integration/utils/parse-github-url.ts:11 | Two paths with the same non-empty segments parse alike |
| GithubUrl.DoubledSlashIgnored | apps/api/src/github-integration/utils/parse-github-url.ts:11 | Doubling a `/` does not change the segments |
| GithubUrl.ExtraSegmentsIgnored | apps/api/src/github-integration/utils/parse-github-url.ts:11-20 | Whatever follows the second segment, the result is that owner and that name |
| GithubUrl.IssuePageUrl | apps/api/src/github-integration/utils/parse-github-url.ts:11-20 | `github.com/o/r/issues/7` gives owner `o` and name `r` |
| GithubUrl.CloneUrl | apps/api/src/github-integration/utils/parse-github-url.ts:17-18 | `/<owner>/<name>.git` gives the bare name |
| OctokitInstance.ResolveClient | apps/api/src/github-integration/utils/get-octokit-instance.ts:18-59 | A missing or inactive record gives null. A result always carries the record's owner and repository. A token client comes only from a PAT record whose envelope decrypts to that token. An App client comes only from an App record with a configured App, a successful exchange and a non-zero installation id |
| OctokitInstance.ClientForProject | apps/api/src/github-integration/utils/get-octokit-instance.ts:11-20 | A project without an integration row gets no client; a client is always for the active row's repository |
| OctokitInstance.PatResolution | apps/api/src/github-integration/utils/get-octokit-instance.ts:24-37 | An active PAT record resolves exactly when its envelope decrypts and the client can be built, and then to a token client |
| OctokitInstance.PatIgnoresInstallationId | apps/api/src/github-integration/utils/get-octokit-instance.ts:24-37 | The PAT strategy gives the same result whatever `installationId` holds |
| OctokitInstance.AppResolution | apps/api/src/github-integration/utils/get-octokit-instance.ts:39-59 | An active App record resolves exactly when the App is configured, the installation id is present and non-zero, and the exchange succeeds |
| IssueMarkers.Segment | apps/api/src/github-integration/utils/task-status-changed.ts:60 | `[^/]+` takes a prefix without `/` that stops only at a `/` or the end |
| IssueMarkers.LeadingDigits | apps/api/src/github-integration/utils/task-status-changed.ts:60 | A greedy `\d+` takes a prefix of digits that stops only at a non-digit or the end |
| IssueMarkers.FirstMatchNone | apps/api/src/github-integration/utils/task-status-changed.ts:59-69 | The search fails exactly when the pattern matches at no position of the description |
| IssueMarkers.FirstMatchLeftmost | apps/api/src/github-integration/utils/task-status-changed.ts:59-61 | A match found is the one at the leftmost position where the pattern matches |
| IssueMarkers.FirstMatchHasMarker | apps/api/src/github-integration/utils/task-status-changed.ts:41-67 | A match implies the description contains the marker, so the `includes` guard never hides a match |
| IssueMarkers.IssueUrlIn | apps/api/src/github-integration/utils/task-status-changed.ts:59-67 | A URL is found only when the linked-to or the created-from pattern matches, and none is found only when neither does. A linked-to match is returned whenever there is one; the created-from match is used only when there is no linked-to match |
| IssueMarkers.ParseInt | apps/api/src/github-integration/utils/task-status-changed.ts:75-78 | A string starting with a digit parses to a non-negative number; an empty string or one starting with anything but whitespace, a digit or a sign is `NaN`; a negative result needs a `-` |
| IssueMarkers.TrailingSlashGivesZero | apps/api/src/github-integration/utils/task-status-changed.ts:74-78 | A URL ending in `/` has an empty last segment, so the fallback text `"0"` is parsed and gives 0 |
| IssueMarkers.ParseDigits | apps/api/src/github-integration/utils/task-status-changed.ts:75-78 | `parseInt` of a digit string is its decimal value |
| IssueMarkers.IssueNumberOfIssueUrl | apps/api/src/github-integration/utils/task-status-changed.ts:74-78 | The last path segment of an issue URL parses to the issue's number |
| IssueMarkers.FirstMatchNumber | apps/api/src/github-integration/utils/task-status-changed.ts:59-78 | Any URL the pattern captures has a number that parses and is non-negative |
| IssueMarkers.DetectLink | apps/api/src/github-integration/utils/task-status-changed.ts:41-83 | A missing description or one with neither marker gives no link. A marker with no matching URL gives `NoIssueUrl`. A found URL whose number parses and is positive gives exactly that link. A link always has a positive number read from the captured URL, with linked-to tried before created-from. A linked-to match never reports a missing URL. A linked-to URL whose number reads as 0 gives `NoIssueNumber`, even when a created-from URL follows |
| RemoteIssues.IssueStore.CreateIssue | apps/api/src/github-integration/utils/task-created.ts:47-63 | Logs the create call; on success adds an open, unlabelled issue under the returned number, and on failure changes nothing else |
| RemoteIssues.IssueStore.AddLabels | apps/api/src/github-integration/utils/task-created.ts:70-76 | Logs the call; succeeds only for an existing issue, and then adds exactly the given labels |
| RemoteIssues.IssueStore.RemoveLabel | apps/api/src/github-integration/utils/task-status-changed.ts:87-96 | Logs the call; succeeds only when the issue carries the label, and then removes exactly that label |
| RemoteIssues.IssueStore.UpdateState | apps/api/src/github-integration/utils/task-status-changed.ts:110-134 | Logs the call; on success sets only the issue's open/closed state |
| TaskTable.Tasks.UpdateDescription | apps/api/src/github-integration/utils/task-created.ts:78-88 | On success only that task's description changes; a missing row changes nothing |
| LinkedIssue.Target | apps/api/src/github-integration/utils/task-status-changed.ts:16-83 | The skip reasons in order: task not found, then no client, then no link. A target exists exactly when a link is detected. It is the client's repository with the detected number, which is positive |
| LinkedIssue.LabelSwap | apps/api/src/github-integration/utils/task-status-changed.ts:85-108 | Only the target issue's labels change. The new label is present when the add succeeds. The old label (if different) is gone exactly when it was there and the removal succeeded. A failed removal does not stop the add. Every other label is untouched |
| LinkedIssue.SwapLabel | apps/api/src/github-integration/utils/task-status-changed.ts:85-108 | Makes the remove call and then the add call, with the effect `LabelSwap` describes |
| TaskStatusChanged.StateChange | apps/api/src/github-integration/utils/task-status-changed.ts:110-134 | Becoming `done` closes, whatever the old status; leaving `done` reopens; any other transition sends no state update |
| TaskStatusChanged.StatusEffect | apps/api/src/github-integration/utils/task-status-changed.ts:85-134 | Only the target issue changes. Its labels are the label swap. It is closed after a successful close, open after a successful reopen, and otherwise keeps its state |
| TaskStatusChanged.SyncStatus | apps/api/src/github-integration/utils/task-status-changed.ts:85-134 | Makes the remove, the add, then the state call when there is one, whatever the earlier calls returned |
| TaskStatusChanged.HandleTaskStatusChanged | apps/api/src/github-integration/utils/task-status-changed.ts:7-142 | A skip makes no remote call and changes nothing; otherwise the calls and the new issue state are those of `SyncStatus` on the target |
| TaskStatusChanged.OpenTracksDone | apps/api/src/github-integration/utils/task-status-changed.ts:110-134 | With every call succeeding, "open exactly when not done" is preserved, and the new status label is present |
| TaskPriorityChanged.PriorityCalls | apps/api/src/github-integration/utils/task-priority-changed.ts:85-112 | The priority handler never sends a state update or a create call |
| TaskPriorityChanged.HandleTaskPriorityChanged | apps/api/src/github-integration/utils/task-priority-changed.ts:7-116 | The skip conditions are those of the status handler, with no calls. Otherwise it makes the remove-then-add calls, the open/closed state never changes, and other labels are untouched |
| TaskCreated.IssueTitle | apps/api/src/github-integration/utils/task-created.ts:50 | The issue title is `[Kaneo] ` followed by the task title, which can be read back from it |
| TaskCreated.IssueBodyFrame | apps/api/src/github-integration/utils/task-created.ts:51-62 | The body starts with the intro, then the description or `No description provided` when it is missing or empty, and ends with the footer |
| TaskCreated.IssueBodyLayout | apps/api/src/github-integration/utils/task-created.ts:51-62 | The whole body: intro, description or `No description provided`, then the task id, the status, the priority or `Not set` and the assignee or `Unassigned` under their labels, then the footer |
| TaskCreated.InitialLabels | apps/api/src/github-integration/utils/task-created.ts:65-69 | Three labels: `kaneo`, then `priority:<priority>` or `priority:low` when it is missing or empty, then `status:<status>` |
| TaskCreated.LinkedDescription | apps/api/src/github-integration/utils/task-created.ts:82-86 | The old description (empty when missing) is kept whole at the front, and the issue URL followed by `*` ends the text |
| TaskCreated.OpenLabeledIssue | apps/api/src/github-integration/utils/task-created.ts:47-76 | Creates the `[Kaneo] `-titled issue with the fixed body. When it exists, labels it with exactly `kaneo`, `priority:<priority or low>` and `status:<status>`, in that order |
| TaskCreated.OpenAndLink | apps/api/src/github-integration/utils/task-created.ts:47-97 | A failed create or label call skips the write-back. A failed write-back is swallowed and leaves the issue. Otherwise the description becomes the old one, a rule and the link marker with the issue's URL |
| TaskCreated.HandleTaskCreated | apps/api/src/github-integration/utils/task-created.ts:7-98 | An imported task or a project without a client causes no remote call and no write. Otherwise the result is `OpenAndLink`'s effect and outcome in the client's repository. The task row changes only when the link is written |
| LinkRoundTrip.MatchIssueUrl | apps/api/src/github-integration/utils/task-status-changed.ts:59-61 | Where the marker is followed by a well-formed issue URL, the pattern captures exactly that URL |
| LinkRoundTrip.SkipNonMatching | apps/api/src/github-integration/utils/task-status-changed.ts:59-61 | Positions where the pattern cannot start do not change the leftmost match |
| LinkRoundTrip.FirstMatchSkipsDescription | apps/api/src/github-integration/utils/task-status-changed.ts:59-61 | A description without the marker, followed by the rule, contributes no match |
| LinkRoundTrip.LinkedDescriptionShape | apps/api/src/github-integration/utils/task-created.ts:82-86 | The written description is the old one, the rule, then the marker, the URL and `*` |
| LinkRoundTrip.TailMatches | apps/api/src/github-integration/utils/task-status-changed.ts:59-61 | The appended marker text matches at its own start, capturing the URL |
| LinkRoundTrip.DetectLinkOfMatch | apps/api/src/github-integration/utils/task-status-changed.ts:59-83 | A leftmost linked-to match with a positive number links that number |
| LinkRoundTrip.CreatedLinkIsDetected | apps/api/src/github-integration/utils/task-status-changed.ts:59-83 | The description the create path writes for issue `https://github.com/o/r/issues/N`, with N > 0, is read back by the update handlers as issue N |
| PatConnect.UpsertPat | apps/api/src/github-integration/controllers/create-pat-github-integration.ts:47-69 | Inserts or overwrites the project's row: PAT type, the sealed token, no installation id, active, the parsed owner and name. An existing row keeps its id and creation time. Other projects' rows are unchanged, and "one row per project" is preserved |
| PatConnect.IntegrationTable.UpsertPatRow | apps/api/src/github-integration/controllers/create-pat-github-integration.ts:47-69 | On success the table becomes the upsert and the returned row is the project's row; on failure it is unchanged |
| PatConnect.ConnectPat | apps/api/src/github-integration/controllers/create-pat-github-integration.ts:10-81 | Returns 400 without a write for each failure: schema, URL, thrown verification, missing `repo.id`, failed upsert. Otherwise returns 200 with the upserted row. A non-200 response never writes |
| PatConnect.ConnectedProjectResolves | apps/api/src/github-integration/controllers/create-pat-github-integration.ts:44-54 | After a connect, the project's resolver builds a token client from exactly the submitted token, for the parsed repository |
| InviteWorkspaceUser.FindUser | apps/api/src/workspace-user/controllers/invite-workspace-user.ts:20-23 | Finds a user exactly when one has that email, and the user found has it |
| InviteWorkspaceUser.FindUserIsFirst | apps/api/src/workspace-user/controllers/invite-workspace-user.ts:20-23 | Of several users with the email, the first one in table order is taken |
| InviteWorkspaceUser.WorkspaceDirectory.Invite | apps/api/src/workspace-user/controllers/invite-workspace-user.ts:10-52 | The errors in order: 404 workspace, 404 user, 400 already invited. Nothing is inserted on error. On success exactly the row `{user.id, workspaceId}` is appended. Unique memberships are preserved |
| Analytics.RecentlyCompleted | apps/api/src/workspace/controllers/get-analytics.ts:20-25 | Every kept task is done and was created no earlier than thirty days ago (`IsRecentlyCompleted`) |
| Analytics.RecentlyCompletedKeepsExactly | apps/api/src/workspace/controllers/get-analytics.ts:20-25 | The filter keeps each task that is `IsRecentlyCompleted` as often as it occurs, and no other task |
| Analytics.CountBuckets | apps/api/src/workspace/controllers/get-analytics.ts:37-48 | The loop leaves in bucket j the count of the tasks created on day `first + j` |
| Analytics.BucketsBound | apps/api/src/workspace/controllers/get-analytics.ts:37-48 | Each task increments at most one bucket, so the buckets add up to at most the number of tasks |
| Analytics.TasksCompletedData | apps/api/src/workspace/controllers/get-analytics.ts:27-48 | 30 buckets, oldest day first and today last. Each counts the recently completed tasks created that day, and the sum is at most their number |
| Analytics.DistinctStatuses | apps/api/src/workspace/controllers/get-analytics.ts:51-59 | The keys are distinct and are exactly the statuses that occur |
| Analytics.StatusStep | apps/api/src/workspace/controllers/get-analytics.ts:51-57 | One reduce step keeps each key's count exact and the total equal to the tasks seen |
| Analytics.TaskStatusData | apps/api/src/workspace/controllers/get-analytics.ts:51-65 | Gives one entry per status, in first-seen order, with that status's count and colour; the values sum to the number of tasks |
| Analytics.GetStatusColor | apps/api/src/workspace/controllers/get-analytics.ts:94-107 | The four known statuses get their colours, and any other status gets `#a1a1aa` |
| Analytics.ResolvedVsRemaining | apps/api/src/workspace/controllers/get-analytics.ts:67-73 | Resolved is the number of done tasks; resolved plus remaining is the total |
| Analytics.CountOverdue | apps/api/src/workspace/controllers/get-analytics.ts:76-79 | At most the number of tasks; zero exactly when no task is overdue, and all of them exactly when every task is |
| Analytics.OverdueVsOnTime | apps/api/src/workspace/controllers/get-analytics.ts:75-84 | Overdue counts tasks that are not done and whose due date is before now; overdue plus on time is the total |
| Analytics.DoneAndOverdueDisjoint | apps/api/src/workspace/controllers/get-analytics.ts:68-84 | A done task is never overdue, so done plus overdue is at most the total |
| Analytics.GetAnalytics | apps/api/src/workspace/controllers/get-analytics.ts:5-92 | The dashboard is the four charts with the properties above |
| CommitPrefix.FindContained | apps/api/src/genai/index.ts:46 | Nothing is found exactly when no candidate occurs; otherwise the first candidate in list order that occurs |
| CommitPrefix.SelectPrefix | apps/api/src/genai/index.ts:35-47 | The result is always one of the eight listed prefixes: the first listed prefix contained in the trimmed, lower-cased answer, or `chore` when none is |
| CommitPrefix.TrimDoesNotMatter | apps/api/src/genai/index.ts:35 | Trimming never changes the choice |
| CommitPrefix.GenerateDescription | apps/api/src/genai/index.ts:11-23 | A falsy title gives 400 with no model call; otherwise one model call, whose text is returned |
| CommitPrefix.GeneratePrefix | apps/api/src/genai/index.ts:25-48 | A falsy title gives 400 with no model call; otherwise one model call and a listed prefix |
| IntegrationSettings.ValidateForm | apps/web/src/components/project/github-integration-settings.tsx:60-95 | App: an owner or name issue exactly when that field is empty. PAT: a URL issue exactly when the URL is empty or invalid, and a token issue exactly when the token is empty. Each type reports only its own fields |
| IntegrationSettings.Classify | apps/web/src/components/project/github-integration-settings.tsx:161-173 | Four verdicts, each matching one combination of installed, permitted and repository exists |
| IntegrationSettings.VerdictToast | apps/web/src/components/project/github-integration-settings.tsx:161-173 | Success exactly for a proper install, error exactly for an inaccessible repository, warnings otherwise |
| IntegrationSettings.HandleVerify | apps/web/src/components/project/github-integration-settings.tsx:149-187 | PAT does nothing. A result is stored and, if asked, reported by its verdict. A failure clears the stored result and, if asked, shows an error |
| IntegrationSettings.Submit | apps/web/src/components/project/github-integration-settings.tsx:231-273 | PAT creates with the URL and token; the App type never makes the PAT create call. App reaches the create call exactly when the fresh verification is installed and permitted. A failed verification ends in the error path, not installed stops first, and installed without the permissions stops with the missing-permissions message |
| IntegrationSettings.MissingPermissionsMessage | apps/web/src/components/project/github-integration-settings.tsx:247-249 | The message names the missing permissions joined by `, ` when that join is non-empty (one non-empty name, or two or more names), and `issues` when the list is absent, empty or a single empty name |
| IntegrationSettings.CanImport | apps/web/src/components/project/github-integration-settings.tsx:334-339 | Import is offered exactly for an active App integration whose stored verification is a proper install; "active" is the helper `IsConnected` (:334), an integration that exists and has `isActive` set |
| IntegrationSettings.SubmitDisabled | apps/web/src/components/project/github-integration-settings.tsx:563-571 | Disabled while creating, deleting or invalid. Otherwise disabled only for the App with a stored result that is not a proper install; no result never disables |
| IntegrationSettings.EnabledAppSubmitCreates | apps/web/src/components/project/github-integration-settings.tsx:231-257 | An enabled App submit whose fresh verification agrees with the stored one reaches the create call |
| RoleActions.ActionsFor | apps/web/src/components/team/ui/role-actions.tsx:11-43 | Owner: only a destructive `remove`. Member: nothing. Pending invitee: `acceptInvite` (default), then `rejectInvite` (destructive) |
| RoleActions.DestructiveActions | apps/web/src/components/team/ui/role-actions.tsx:11-43 | An action is destructive exactly when it is not `acceptInvite`, and is red exactly when destructive |
| RoleActions.ActionKeys | apps/web/src/components/team/ui/role-actions.tsx:45-46 | Each of the three keys occurs in the table |
| RoleActions.KeysDistinct | apps/web/src/components/team/ui/role-actions.tsx:11-43 | No key appears twice within one role |
| MembersTable.CurrentRole | apps/web/src/components/team/members-table.tsx:100-112 | An owner viewer acts as owner on every row. A non-owner is a pending invitee exactly on their own pending row, and a member otherwise |
| MembersTable.RowActions | apps/web/src/components/team/members-table.tsx:113-157 | A row whose role is `owner` has no menu; other rows get the table's actions for the viewer's role |
| MembersTable.OnlyOwnersRemove | apps/web/src/components/team/members-table.tsx:100-113 | A non-owner is never offered `remove` |
| MembersTable.InviteActionsOnOwnPendingRow | apps/web/src/components/team/members-table.tsx:100-113 | Invitation actions appear only on a non-owner viewer's own pending row |
| MembersTable.RoleDisplay | apps/web/src/components/team/members-table.tsx:129-130 | The first character is upper-cased and the rest lower-cased; the length is unchanged |
| MembersTable.RoleDisplayIdempotent | apps/web/src/components/team/members-table.tsx:129-130 | Re-casing a displayed role changes nothing |
| MembersTable.AcceptInviteRequest | apps/web/src/components/team/members-table.tsx:45-49 | Sends status `active`, with the row's user id, or the empty string when it is missing or empty |

## Left out

- The cipher: AES-256-GCM is an abstract `Cipher` of three functions (encipher, decipher, tag). `Authenticated` states its one assumed property: deciphering what was enciphered with the same key and IV gives the text back.
- Encryption: Node's incremental `update`/`final` accumulation is folded into the cipher functions, and UTF-8 conversion is not modelled.
- Randomness: `randomBytes` becomes the IV parameter.
- Encryption.LoadKey: measures the key in Unicode characters. JavaScript measures it in UTF-16 code units, and the two differ outside the Basic Multilingual Plane. Node also needs the key to be 32 bytes in UTF-8. A key of 32 characters with a non-ASCII one passes the check but makes `createCipheriv` throw "Invalid key length"; the model accepts such a key.
- Encryption.Decrypt: lets the abstract tag check decide every envelope. Node's own refusals (an empty IV, a tag of an unsupported length) are not modelled separately. The decipher is created without an `authTagLength` (`encryption.ts:33-34`), so Node also accepts a tag of 4, 8 or 12 to 15 bytes and compares only that many bytes: an envelope carrying a truncated genuine tag decrypts in Node, while the model (and `Encryption.TamperedTagFails`) rejects every tag other than the full one the key computes.
- Analytics.TaskStatusData: keeps the statuses in first-seen order and counts every status. `Object.entries` lists keys that look like array indices first, in ascending numeric order, and a status named `__proto__` is never stored as a key of the accumulator object, so in JavaScript its tasks are missing from the chart and the values can sum to less than the number of tasks. The accumulator is a plain `{}`, so it inherits the truthy members of `Object.prototype` (`constructor`, `toString`, `valueOf`, `hasOwnProperty`, `isPrototypeOf`, `propertyIsEnumerable`, `toLocaleString`). For a status with one of these names, `acc[status] || 0` reads the inherited function, and `+ 1` turns it into a string: the function's source text followed by `1`, with one more `1` appended for each later task. That entry's value is then a string, not a count, and the values no longer sum to the number of tasks. The model gives every status its count.
- URL parsing: the WHATWG parser is abstract; its result (hostname and pathname, or a failure) is an input. zod's URL check in the settings form is a predicate parameter. The PAT endpoint's schema treats a URL as valid exactly when that parse succeeds.
- `addLabelsToIssue` (`create-github-labels.ts`) is not part of this model. It is modelled as the GitHub add-labels call, which either adds the labels or throws.
- `createPatOctokit`, `createGithubApp` and the installation exchange are outcome flags in `OctokitInstance.Environment`. `repos.get` is the `PatConnect.Verification` input.
- InviteWorkspaceUser.WorkspaceDirectory.Invite: the insert always succeeds. A failed insert would surface as a database exception, which the model does not represent.
- RemoteIssues.IssueStore.CreateIssue: does not assume the returned number is fresh. A number already in the store is overwritten by the new open, unlabelled issue.
- Database reads always succeed. A thrown read would be caught by the handlers' outer `try`, and the model does not include that path. The task-description update carries a success flag.
- IssueMarkers.ParseInt: models `parseInt` for radix 10 only, with the leading-whitespace set of `Text.IsWhitespace`. It returns the exact integer, whereas JavaScript returns a double that rounds values above 2^53.
- IssueMarkers.ParseDigits: states the exact decimal value. For a digit string above 2^53 JavaScript gives the nearest double, so the number sent to GitHub would differ.
- IssueMarkers.IssueNumberOfIssueUrl: exact for the same reason. Numbers above 2^53 are read back rounded.
- LinkRoundTrip.CreatedLinkIsDetected: the number read back is N itself only for N up to 2^53. Beyond that JavaScript rounds it, because numbers are doubles.
- Case mapping and `trim`: cover ASCII letters and the whitespace listed in `Text.IsWhitespace`, not the full Unicode tables.
- LinkRoundTrip.CreatedLinkIsDetected: also requires that the old description does not contain `Linked to GitHub issue: ` at all. This is stronger than "no earlier match of the pattern".
- Analytics dates: times are integer milliseconds, and a day is `DayOf(t)`, whole days since the epoch. The time zone and the `toLocaleDateString` labels are not modelled, and "now" is one parameter for all four charts.
- Logging, toasts as user interface, React state, effects and rendering are not modelled. Toast kinds and messages are kept as data.
- Parts of the settings panel not modelled: auto-verification when the fields change, repository selection, delete and issue import.
- IntegrationSettings.Submit: requires values that pass `ValidateForm`, because the form calls it only then. The failure of the create request itself (the outer `catch`) is not modelled.
- MembersTable.CurrentRole: compares the viewer's and the row's user id as optional strings. JavaScript's `undefined === null` is false, but the model treats both as absent and equal.
- The language model, the prompts and the API-key check at startup are not modelled. The model is a function from title to answer.
- HTTP routing and validation middleware: the endpoints are modelled from the parsed request on.
- Concurrency: each handler invocation is one sequential run. Interleavings of handlers for the same task are not modelled.
