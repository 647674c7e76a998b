/**
 * The project's GitHub integration settings panel: the connection form's
 * validation, what a verification of the App installation reports, what
 * submitting does, and when import and submit are available.
 */
module IntegrationSettings {
  import opened Wrappers
  import opened Text
  import opened Integrations

  datatype FormValues = FormValues(
    connectionType: ConnectionType,
    repositoryOwner: Option<string>,
    repositoryName: Option<string>,
    repositoryUrl: Option<string>,
    pat: Option<string>)

  datatype FormIssue = FormIssue(path: string, message: string)

  const OwnerRequired: string := "Repository owner is required for GitHub App"
  const NameRequired: string := "Repository name is required for GitHub App"
  const UrlRequired: string := "A valid repository URL is required for PAT connection"
  const PatRequired: string := "Personal Access Token is required"

  const OwnerIssue := FormIssue("repositoryOwner", OwnerRequired)
  const NameIssue := FormIssue("repositoryName", NameRequired)
  const UrlIssue := FormIssue("repositoryUrl", UrlRequired)
  const PatIssue := FormIssue("pat", PatRequired)

  /**
   * `superRefine`: each connection type checks only its own fields.
   * `validUrl` stands for zod's URL check.
   */
  function ValidateForm(form: FormValues, validUrl: string -> bool): (issues: seq<FormIssue>)
    ensures form.connectionType == GithubApp ==>
      && (OwnerIssue in issues <==> !Truthy(form.repositoryOwner))
      && (NameIssue in issues <==> !Truthy(form.repositoryName))
      && (forall i | 0 <= i < |issues| :: issues[i] == OwnerIssue || issues[i] == NameIssue)
    ensures form.connectionType == Pat ==>
      && (UrlIssue in issues <==> !Truthy(form.repositoryUrl) || !validUrl(form.repositoryUrl.value))
      && (PatIssue in issues <==> !Truthy(form.pat))
      && (forall i | 0 <= i < |issues| :: issues[i] == UrlIssue || issues[i] == PatIssue)
  {
    match form.connectionType
    case GithubApp =>
      (if !Truthy(form.repositoryOwner) then [OwnerIssue] else [])
      + (if !Truthy(form.repositoryName) then [NameIssue] else [])
    case Pat =>
      (if !Truthy(form.repositoryUrl) || !validUrl(form.repositoryUrl.value) then [UrlIssue] else [])
      + (if !Truthy(form.pat) then [PatIssue] else [])
  }

  /** What the installation check returns. */
  datatype VerifyResult = VerifyResult(
    isInstalled: bool,
    hasRequiredPermissions: bool,
    repositoryExists: bool,
    missingPermissions: Option<seq<string>>)

  /** The four ways a verification can come out. */
  datatype Verdict = ProperlyInstalled | PermissionsMissing | NeedsInstall | NotAccessible

  /** The classification behind the verification's report. */
  function Classify(r: VerifyResult): (v: Verdict)
    ensures v == ProperlyInstalled <==> r.isInstalled && r.hasRequiredPermissions
    ensures v == PermissionsMissing <==> r.isInstalled && !r.hasRequiredPermissions
    ensures v == NeedsInstall <==> !r.isInstalled && r.repositoryExists
    ensures v == NotAccessible <==> !r.isInstalled && !r.repositoryExists
  {
    if r.isInstalled && r.hasRequiredPermissions then ProperlyInstalled
    else if r.isInstalled then PermissionsMissing
    else if r.repositoryExists then NeedsInstall
    else NotAccessible
  }

  datatype ToastKind = Success | Warning | Failure
  datatype Toast = Toast(kind: ToastKind, message: string)

  /** The toast each verdict shows. */
  function VerdictToast(v: Verdict): (t: Toast)
    ensures t.kind == Success <==> v == ProperlyInstalled
    ensures t.kind == Failure <==> v == NotAccessible
  {
    match v
    case ProperlyInstalled => Toast(Success, "GitHub App is properly installed!")
    case PermissionsMissing => Toast(Warning, "GitHub App is installed but missing required permissions")
    case NeedsInstall => Toast(Warning, "GitHub App needs to be installed on this repository")
    case NotAccessible => Toast(Failure, "Repository not found or not accessible")
  }

  /** The outcome of the verification request: a result, or a failure carrying the message of a thrown `Error` (`None` for anything else thrown). */
  datatype VerifyOutcome = Verified(result: VerifyResult) | VerifyFailed(message: Option<string>)

  /**
   * `handleVerifyInstallation`: only for the App type; stores the result (or
   * clears it on failure) and, when asked to, reports it.
   */
  function HandleVerify(connectionType: ConnectionType, stored: Option<VerifyResult>, outcome: VerifyOutcome, showToast: bool)
    : (r: (Option<VerifyResult>, Option<Toast>))
    ensures connectionType == Pat ==> r == (stored, None)
    ensures connectionType == GithubApp && outcome.Verified? ==>
      r.0 == Some(outcome.result) && (r.1.Some? <==> showToast) && (showToast ==> r.1.value == VerdictToast(Classify(outcome.result)))
    ensures connectionType == GithubApp && outcome.VerifyFailed? ==>
      r.0.None? && (r.1.Some? <==> showToast) && (showToast ==> r.1.value.kind == Failure)
  {
    if connectionType == Pat then (stored, None)
    else
      match outcome
      case Verified(result) => (Some(result), if showToast then Some(VerdictToast(Classify(result))) else None)
      case VerifyFailed(message) =>
        (None, if showToast then Some(Toast(Failure, message.GetOr("Failed to verify GitHub installation"))) else None)
  }

  const PermissionsLead := "GitHub App is missing required permissions: "
  const PermissionsTail := ". Please update the app permissions."

  /**
   * The error shown when permissions are missing: the missing ones joined by
   * `, ` when that join is non-empty, and `issues` otherwise.
   */
  function MissingPermissionsMessage(missing: Option<seq<string>>): (r: string)
    ensures missing.None? || missing.value == [] || missing.value == [""] ==>
      r == PermissionsLead + "issues" + PermissionsTail
    ensures missing.Some? && |missing.value| == 1 && missing.value[0] != "" ==>
      r == PermissionsLead + missing.value[0] + PermissionsTail
    ensures missing.Some? && |missing.value| >= 2 ==>
      r == PermissionsLead + Join(missing.value, ", ") + PermissionsTail
  {
    var listed := if missing.Some? then Some(Join(missing.value, ", ")) else None;
    PermissionsLead + OrElse(listed, "issues") + PermissionsTail
  }

  datatype SubmitOutcome =
    | NotInstalled
    | MissingPermissions(message: string)
    | CreateApp(repositoryOwner: string, repositoryName: string)
    | CreatePat(repositoryUrl: string, pat: string)
    | VerifyError

  /**
   * `onSubmit`, which the form only calls with values that pass validation.
   * The App type verifies again first and stops before the create call
   * unless the App is installed with the permissions it needs.
   */
  function Submit(data: FormValues, validUrl: string -> bool, verification: VerifyOutcome): (r: SubmitOutcome)
    requires ValidateForm(data, validUrl) == []
    ensures data.connectionType == Pat ==> r == CreatePat(data.repositoryUrl.value, data.pat.value)
    ensures r.CreateApp? <==>
      data.connectionType == GithubApp && verification.Verified?
      && verification.result.isInstalled && verification.result.hasRequiredPermissions
    ensures r.CreateApp? ==> r == CreateApp(data.repositoryOwner.value, data.repositoryName.value)
    ensures data.connectionType == GithubApp ==> !r.CreatePat?
    ensures data.connectionType == GithubApp && verification.VerifyFailed? ==> r == VerifyError
    ensures data.connectionType == GithubApp && verification.Verified? && !verification.result.isInstalled ==> r == NotInstalled
    ensures data.connectionType == GithubApp && verification.Verified?
            && verification.result.isInstalled && !verification.result.hasRequiredPermissions ==>
      r == MissingPermissions(MissingPermissionsMessage(verification.result.missingPermissions))
  {
    match data.connectionType
    case Pat =>
      CreatePat(data.repositoryUrl.value, data.pat.value)
    case GithubApp =>
      match verification
      case VerifyFailed(_) => VerifyError
      case Verified(v) =>
        if !v.isInstalled then NotInstalled
        else if !v.hasRequiredPermissions then MissingPermissions(MissingPermissionsMessage(v.missingPermissions))
        else CreateApp(data.repositoryOwner.value, data.repositoryName.value)
  }

  /** `isConnected`: an integration exists and is active. */
  function IsConnected(integration: Option<Integration>): bool
  {
    integration.Some? && integration.value.isActive
  }

  /** Import is offered only for an active App integration whose stored verification is installed and permitted. */
  function CanImport(integration: Option<Integration>, verification: Option<VerifyResult>): (r: bool)
    ensures r ==> IsConnected(integration)
    ensures r <==> IsConnected(integration) && integration.value.connectionType == GithubApp
                   && verification.Some? && Classify(verification.value) == ProperlyInstalled
  {
    IsConnected(integration) && integration.value.connectionType == GithubApp
    && verification.Some? && verification.value.isInstalled && verification.value.hasRequiredPermissions
  }

  /** The submit button's `disabled`: no stored verification never disables it by itself. */
  function SubmitDisabled(isCreating: bool, isDeleting: bool, formValid: bool,
                          connectionType: ConnectionType, verification: Option<VerifyResult>): (r: bool)
    ensures isCreating || isDeleting || !formValid ==> r
    ensures !isCreating && !isDeleting && formValid && (connectionType == Pat || verification.None?) ==> !r
    ensures r && !isCreating && !isDeleting && formValid ==>
      connectionType == GithubApp && verification.Some? && Classify(verification.value) != ProperlyInstalled
    ensures connectionType == GithubApp && verification.Some? && Classify(verification.value) != ProperlyInstalled ==> r
  {
    isCreating || isDeleting || !formValid
    || (connectionType == GithubApp
        && (if verification.Some? then !verification.value.isInstalled || !verification.value.hasRequiredPermissions
            else false))
  }

  /**
   * When the button is enabled with a stored App verification, and the
   * check made on submit reports the same, the submit reaches the create call.
   */
  lemma EnabledAppSubmitCreates(data: FormValues, validUrl: string -> bool, v: VerifyResult)
    requires ValidateForm(data, validUrl) == [] && data.connectionType == GithubApp
    requires !SubmitDisabled(false, false, true, GithubApp, Some(v))
    ensures Submit(data, validUrl, Verified(v)).CreateApp?
  {
  }
}
