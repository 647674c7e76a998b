/**
 * `inviteWorkspaceUser(workspaceId, email)`: adds a user, found by email, to
 * a workspace's member table. Three lookups guard the insert, in this order:
 * the workspace, the user, an existing membership.
 */
module InviteWorkspaceUser {
  import opened Wrappers

  datatype User = User(id: string, email: string)
  /** A row of the workspace-user table as the insert writes it; the other columns take their defaults. */
  datatype Membership = Membership(userId: string, workspaceId: string)
  /** An `HTTPException`: status and message. */
  datatype HttpError = HttpError(status: int, message: string)

  const WorkspaceNotFound: HttpError := HttpError(404, "Workspace not found")
  const UserNotFound: HttpError := HttpError(404, "User not found")
  const AlreadyInvited: HttpError := HttpError(400, "User is already invited")

  /** `const [user] = select ... where email = ?`: the first row, in table order. */
  function FindUser(users: seq<User>, email: string): (r: Option<User>)
    ensures r.None? <==> forall i | 0 <= i < |users| :: users[i].email != email
    ensures r.Some? ==> r.value in users && r.value.email == email
  {
    if users == [] then None
    else if users[0].email == email then Some(users[0])
    else FindUser(users[1..], email)
  }

  /** Of several users with the same email, the first one in the table is the one invited. */
  lemma {:induction false} FindUserIsFirst(users: seq<User>, email: string, i: int)
    requires 0 <= i < |users| && users[i].email == email
    ensures FindUser(users, email).Some?
    ensures exists k | 0 <= k <= i :: users[k] == FindUser(users, email).value
                                      && forall j | 0 <= j < k :: users[j].email != email
  {
    if users[0].email == email {
      assert users[0] == FindUser(users, email).value;
    } else {
      FindUserIsFirst(users[1..], email, i - 1);
      var k :| 0 <= k <= i - 1 && users[1..][k] == FindUser(users[1..], email).value
               && forall j | 0 <= j < k :: users[1..][j].email != email;
      assert users[k + 1] == FindUser(users, email).value;
      forall j | 0 <= j < k + 1
        ensures users[j].email != email
      {
        if j > 0 {
          assert users[j] == users[1..][j - 1];
        }
      }
    }
  }

  predicate IsMember(memberships: seq<Membership>, workspaceId: string, userId: string)
  {
    exists i | 0 <= i < |memberships| :: memberships[i] == Membership(userId, workspaceId)
  }

  /** At most one row per (workspace, user) pair. */
  predicate UniqueMemberships(memberships: seq<Membership>)
  {
    forall i, j | 0 <= i < j < |memberships| :: memberships[i] != memberships[j]
  }

  class WorkspaceDirectory {
    var workspaces: set<string>
    var users: seq<User>
    var memberships: seq<Membership>

    constructor (workspaces0: set<string>, users0: seq<User>, memberships0: seq<Membership>)
      ensures workspaces == workspaces0 && users == users0 && memberships == memberships0
    {
      workspaces, users, memberships := workspaces0, users0, memberships0;
    }

    method Invite(workspaceId: string, email: string) returns (r: Result<Membership, HttpError>)
      modifies this
      ensures workspaces == old(workspaces) && users == old(users)
      ensures workspaceId !in workspaces ==> r == Err(WorkspaceNotFound)
      ensures workspaceId in workspaces && FindUser(users, email).None? ==> r == Err(UserNotFound)
      ensures (workspaceId in workspaces && FindUser(users, email).Some?
               && IsMember(old(memberships), workspaceId, FindUser(users, email).value.id)) ==> r == Err(AlreadyInvited)
      ensures (workspaceId in workspaces && FindUser(users, email).Some?
               && !IsMember(old(memberships), workspaceId, FindUser(users, email).value.id)) ==> r.Ok?
      ensures r.Ok? ==>
        && workspaceId in workspaces
        && FindUser(users, email).Some?
        && r.value == Membership(FindUser(users, email).value.id, workspaceId)
        && !IsMember(old(memberships), workspaceId, r.value.userId)
      ensures memberships == if r.Ok? then old(memberships) + [r.value] else old(memberships)
      ensures UniqueMemberships(old(memberships)) ==> UniqueMemberships(memberships)
    {
      if workspaceId !in workspaces {
        return Err(WorkspaceNotFound);
      }
      var user := FindUser(users, email);
      if user.None? {
        return Err(UserNotFound);
      }
      if IsMember(memberships, workspaceId, user.value.id) {
        return Err(AlreadyInvited);
      }
      var row := Membership(user.value.id, workspaceId);
      memberships := memberships + [row];
      return Ok(row);
    }
  }
}
