/** The per-project GitHub integration record. */
module Integrations {
  import opened Wrappers

  datatype ConnectionType = GithubApp | Pat

  /**
   * One row of the integration table. `pat` holds the encrypted token
   * envelope, `installationId` the GitHub App installation; which of the two
   * is meaningful depends on `connectionType`.
   */
  datatype Integration = Integration(
    id: string,
    projectId: string,
    repositoryOwner: string,
    repositoryName: string,
    connectionType: ConnectionType,
    pat: Option<string>,
    installationId: Option<int>,
    isActive: bool,
    createdAt: string,
    updatedAt: string)

  /** JavaScript truthiness of an optional number: `null` and `0` are falsy. */
  predicate TruthyId(id: Option<int>)
  {
    id.Some? && id.value != 0
  }
}
