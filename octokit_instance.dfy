/**
 * `getOctokitInstance`: turns a project's integration record into an
 * authenticated client handle for its repository, or into "skip" (`None`).
 * The database read is the `integration` argument; the foreign calls the
 * resolver makes are fields of `Environment`: the credential key and cipher
 * used by `decrypt`, whether building the token client succeeds, whether a
 * GitHub App is configured, and whether the installation exchange succeeds.
 */
module OctokitInstance {
  import opened Wrappers
  import opened Integrations
  import Encryption

  datatype Strategy = PatToken(token: string) | AppInstallation(installationId: int)

  /** `{ octokit, owner, repo }`: the client is represented by the credential it was built from. */
  datatype ClientHandle = ClientHandle(strategy: Strategy, owner: string, repo: string)

  datatype Environment = Environment(
    key: Encryption.Key,
    cipher: Encryption.Cipher,
    patClientOk: bool,
    appConfigured: bool,
    exchangeOk: bool)

  function ResolveClient(integration: Option<Integration>, env: Environment): (r: Option<ClientHandle>)
    ensures integration.None? ==> r.None?
    ensures integration.Some? && !integration.value.isActive ==> r.None?
    ensures r.Some? ==>
      r.value.owner == integration.value.repositoryOwner && r.value.repo == integration.value.repositoryName
    ensures r.Some? && r.value.strategy.PatToken? ==>
      integration.value.connectionType == Pat && integration.value.pat.Some?
      && Encryption.Decrypt(env.key, env.cipher, integration.value.pat.value) == Ok(r.value.strategy.token)
    ensures r.Some? && r.value.strategy.AppInstallation? ==>
      integration.value.connectionType == GithubApp && env.appConfigured && env.exchangeOk
      && integration.value.installationId == Some(r.value.strategy.installationId)
      && r.value.strategy.installationId != 0
  {
    if integration.None? || !integration.value.isActive then None
    else
      var i := integration.value;
      match i.connectionType
      case Pat =>
        // `decrypt(null)` throws inside the try block, like a malformed envelope
        if i.pat.None? then None
        else
          (match Encryption.Decrypt(env.key, env.cipher, i.pat.value)
           case Err(_) => None
           case Ok(token) =>
             if env.patClientOk then Some(ClientHandle(PatToken(token), i.repositoryOwner, i.repositoryName))
             else None)
      case GithubApp =>
        if env.appConfigured && TruthyId(i.installationId) && env.exchangeOk then
          Some(ClientHandle(AppInstallation(i.installationId.value), i.repositoryOwner, i.repositoryName))
        else None
  }

  /**
   * `getOctokitInstance(projectId)`: the integration table is keyed by
   * project (the PAT connect path upserts on `projectId`), so `findFirst` is a lookup.
   */
  function ClientForProject(integrations: map<string, Integration>, projectId: string, env: Environment): (r: Option<ClientHandle>)
    ensures projectId !in integrations ==> r.None?
    ensures r.Some? ==>
      && projectId in integrations && integrations[projectId].isActive
      && r.value.owner == integrations[projectId].repositoryOwner
      && r.value.repo == integrations[projectId].repositoryName
  {
    ResolveClient(Lookup(integrations, projectId), env)
  }

  /** A token integration resolves exactly when its envelope decrypts and the client can be built. */
  lemma PatResolution(i: Integration, env: Environment)
    requires i.isActive && i.connectionType == Pat
    ensures ResolveClient(Some(i), env).Some? <==>
      i.pat.Some? && Encryption.Decrypt(env.key, env.cipher, i.pat.value).Ok? && env.patClientOk
    ensures ResolveClient(Some(i), env).Some? ==> ResolveClient(Some(i), env).value.strategy.PatToken?
  {
  }

  /** The token strategy never looks at `installationId`, and comes first whatever that field holds. */
  lemma PatIgnoresInstallationId(i: Integration, env: Environment, other: Option<int>)
    requires i.connectionType == Pat
    ensures ResolveClient(Some(i), env) == ResolveClient(Some(i.(installationId := other)), env)
  {
  }

  /** An App integration resolves exactly when an App is configured, the installation id is truthy and the exchange succeeds. */
  lemma AppResolution(i: Integration, env: Environment)
    requires i.isActive && i.connectionType == GithubApp
    ensures ResolveClient(Some(i), env).Some? <==>
      env.appConfigured && i.installationId.Some? && i.installationId.value != 0 && env.exchangeOk
  {
  }
}
