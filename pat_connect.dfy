/**
 * `POST /pat-connect`: connects a project to a repository with a personal
 * access token. The token is checked by fetching the repository with it,
 * sealed with `encrypt`, and the project's integration row is inserted or,
 * when the project already has one, overwritten in place.
 */
module PatConnect {
  import opened Wrappers
  import opened Integrations
  import opened GithubUrl
  import opened OctokitInstance
  import Encryption

  datatype PatRequest = PatRequest(projectId: string, repositoryUrl: string, pat: string)

  /** The outcome of `repos.get` with the token: it threw, or it returned the repository's `id`. */
  datatype Verification = VerifyThrew | RepoFetched(repoId: Option<int>)

  datatype ResponseBody = InvalidRequest | ErrorMessage(message: string) | Connected(integration: Integration)
  datatype Response = Response(status: int, body: ResponseBody)

  const InvalidUrlMessage: string := "Invalid GitHub repository URL"
  const NotFoundMessage: string := "Repository not found or PAT is invalid"
  const FailedMessage: string := "Failed to connect with PAT. Check your URL and PAT permissions."

  /**
   * The request schema: every field at least one character long, and the URL
   * accepted by the WHATWG parser (`url` is that parse, `None` when it throws).
   */
  predicate SchemaValid(req: PatRequest, url: Option<UrlParts>)
  {
    |req.projectId| >= 1 && |req.repositoryUrl| >= 1 && url.Some? && |req.pat| >= 1
  }

  /** The table holds at most one integration per project: each row sits under its own `projectId`. */
  predicate KeyedByProject(rows: map<string, Integration>)
  {
    forall p | p in rows :: rows[p].projectId == p
  }

  /**
   * `insert(...).onConflictDoUpdate({ target: projectId, set })`: a new row
   * gets the generated id and creation time; an existing row keeps them and
   * has its repository and credential fields replaced.
   */
  function UpsertPat(rows: map<string, Integration>, projectId: string, repo: Repository, envelope: string,
                     newId: string, now: string): (r: map<string, Integration>)
    ensures r.Keys == rows.Keys + {projectId}
    ensures forall p | p in rows && p != projectId :: r[p] == rows[p]
    ensures var row := r[projectId];
      && row.projectId == projectId
      && row.repositoryOwner == repo.repositoryOwner && row.repositoryName == repo.repositoryName
      && row.connectionType == Pat && row.pat == Some(envelope) && row.installationId.None? && row.isActive
    ensures projectId in rows ==> r[projectId].id == rows[projectId].id && r[projectId].createdAt == rows[projectId].createdAt
    ensures projectId !in rows ==> r[projectId].id == newId && r[projectId].createdAt == now
    ensures KeyedByProject(rows) ==> KeyedByProject(r)
    ensures KeyedByProject(r) ==> forall p | p in r && r[p].projectId == projectId :: p == projectId
  {
    var row :=
      if projectId in rows then
        rows[projectId].(repositoryOwner := repo.repositoryOwner, repositoryName := repo.repositoryName,
                         connectionType := Pat, pat := Some(envelope), installationId := None, isActive := true,
                         projectId := projectId)
      else
        Integration(newId, projectId, repo.repositoryOwner, repo.repositoryName, Pat, Some(envelope), None, true, now, now);
    rows[projectId := row]
  }

  class IntegrationTable {
    var rows: map<string, Integration>

    constructor (initial: map<string, Integration>)
      ensures rows == initial
    {
      rows := initial;
    }

    /** The upsert with `.returning()`; `ok` is false when the database throws. */
    method UpsertPatRow(projectId: string, repo: Repository, envelope: string, newId: string, now: string, ok: bool)
      returns (row: Option<Integration>)
      modifies this
      ensures rows == if ok then UpsertPat(old(rows), projectId, repo, envelope, newId, now) else old(rows)
      ensures row.Some? <==> ok
      ensures ok ==> row.value == rows[projectId]
    {
      if ok {
        rows := UpsertPat(rows, projectId, repo, envelope, newId, now);
        row := Some(rows[projectId]);
      } else {
        row := None;
      }
    }
  }

  /**
   * The handler. `url` is what the WHATWG parser makes of the submitted URL,
   * `iv` the random bytes `encrypt` draws, and `newId`, `now` and `upsertOk`
   * what the database supplies.
   */
  method ConnectPat(req: PatRequest, url: Option<UrlParts>, verification: Verification,
                    key: Encryption.Key, cipher: Encryption.Cipher, iv: Encryption.Iv,
                    table: IntegrationTable, newId: string, now: string, upsertOk: bool)
    returns (resp: Response)
    modifies table
    ensures !SchemaValid(req, url) ==> resp == Response(400, InvalidRequest) && table.rows == old(table.rows)
    ensures SchemaValid(req, url) && ParseGithubUrl(url).None? ==>
      resp == Response(400, ErrorMessage(InvalidUrlMessage)) && table.rows == old(table.rows)
    ensures SchemaValid(req, url) && ParseGithubUrl(url).Some? && verification.VerifyThrew? ==>
      resp == Response(400, ErrorMessage(FailedMessage)) && table.rows == old(table.rows)
    ensures SchemaValid(req, url) && ParseGithubUrl(url).Some? && verification.RepoFetched? && !TruthyId(verification.repoId) ==>
      resp == Response(400, ErrorMessage(NotFoundMessage)) && table.rows == old(table.rows)
    ensures SchemaValid(req, url) && ParseGithubUrl(url).Some? && verification.RepoFetched? && TruthyId(verification.repoId) ==>
      var envelope := Encryption.Encrypt(key, cipher, iv, req.pat);
      && (upsertOk ==>
            table.rows == UpsertPat(old(table.rows), req.projectId, ParseGithubUrl(url).value, envelope, newId, now)
            && resp == Response(200, Connected(table.rows[req.projectId])))
      && (!upsertOk ==> resp == Response(400, ErrorMessage(FailedMessage)) && table.rows == old(table.rows))
    ensures resp.status == 200 || table.rows == old(table.rows)
  {
    if !SchemaValid(req, url) {
      return Response(400, InvalidRequest);
    }
    var parsed := ParseGithubUrl(url);
    if parsed.None? {
      return Response(400, ErrorMessage(InvalidUrlMessage));
    }
    match verification {
      case VerifyThrew =>
        return Response(400, ErrorMessage(FailedMessage));
      case RepoFetched(repoId) =>
        if !TruthyId(repoId) {
          return Response(400, ErrorMessage(NotFoundMessage));
        }
    }
    var envelope := Encryption.Encrypt(key, cipher, iv, req.pat);
    var row := table.UpsertPatRow(req.projectId, parsed.value, envelope, newId, now, upsertOk);
    if row.None? {
      return Response(400, ErrorMessage(FailedMessage));
    }
    return Response(200, Connected(row.value));
  }

  /**
   * After a successful connect the project's client is built from the very
   * token that was submitted, for the parsed repository.
   */
  lemma ConnectedProjectResolves(rows: map<string, Integration>, req: PatRequest, repo: Repository,
                                 iv: Encryption.Iv, newId: string, now: string, env: Environment)
    requires Encryption.Authenticated(env.cipher) && env.patClientOk
    ensures var table := UpsertPat(rows, req.projectId, repo, Encryption.Encrypt(env.key, env.cipher, iv, req.pat), newId, now);
      ClientForProject(table, req.projectId, env)
        == Some(ClientHandle(PatToken(req.pat), repo.repositoryOwner, repo.repositoryName))
  {
    Encryption.DecryptEncrypt(env.key, env.cipher, iv, req.pat);
  }
}
