/** The team members table: which role each row is shown under, and what it offers. */
module MembersTable {
  import opened Wrappers
  import Text
  import opened RoleActions

  /** One row: the membership's user id (possibly missing), role and status. */
  datatype WorkspaceUser = WorkspaceUser(userId: Option<string>, role: string, status: string)

  /**
   * The role the viewer acts with on a row: a workspace owner acts as owner
   * everywhere; anyone else acts on their own row as a pending invitee while
   * it is pending, and as a member otherwise.
   */
  function CurrentRole(viewerIsOwner: bool, viewerId: Option<string>, row: WorkspaceUser): (r: Role)
    ensures viewerIsOwner ==> r == Owner
    ensures !viewerIsOwner ==> r != Owner
    ensures r == InvitedPending <==> !viewerIsOwner && viewerId == row.userId && row.status == "pending"
  {
    if viewerIsOwner then Owner
    else if viewerId == row.userId then (if row.status == "pending" then InvitedPending else Member)
    else Member
  }

  /** The actions in a row's menu; a row whose own role is `owner` has no menu. */
  function RowActions(viewerIsOwner: bool, viewerId: Option<string>, row: WorkspaceUser): (r: seq<Action>)
    ensures row.role == "owner" ==> r == []
    ensures row.role != "owner" ==> r == ActionsFor(CurrentRole(viewerIsOwner, viewerId, row))
  {
    if row.role == "owner" then [] else ActionsFor(CurrentRole(viewerIsOwner, viewerId, row))
  }

  /** Only a workspace owner is ever offered `remove`. */
  lemma OnlyOwnersRemove(viewerIsOwner: bool, viewerId: Option<string>, row: WorkspaceUser, i: int)
    requires 0 <= i < |RowActions(viewerIsOwner, viewerId, row)|
    ensures RowActions(viewerIsOwner, viewerId, row)[i].key == Remove ==> viewerIsOwner
  {
  }

  /** Invitation actions appear only on the viewer's own pending row, and never for an owner. */
  lemma InviteActionsOnOwnPendingRow(viewerIsOwner: bool, viewerId: Option<string>, row: WorkspaceUser, i: int)
    requires 0 <= i < |RowActions(viewerIsOwner, viewerId, row)|
    requires RowActions(viewerIsOwner, viewerId, row)[i].key != Remove
    ensures !viewerIsOwner && viewerId == row.userId && row.status == "pending"
  {
  }

  /** `role.charAt(0).toUpperCase() + role.slice(1).toLowerCase()`. */
  function RoleDisplay(role: string): (r: string)
    ensures |r| == |role|
    ensures |role| > 0 ==> r[0] == Text.UpperChar(role[0])
    ensures forall i | 1 <= i < |role| :: r[i] == Text.LowerChar(role[i])
  {
    if role == [] then [] else Text.ToUpper(role[..1]) + Text.ToLower(role[1..])
  }

  /** The display is idempotent: re-casing a displayed role leaves it as it is. */
  lemma {:induction false} RoleDisplayIdempotent(role: string)
    ensures RoleDisplay(RoleDisplay(role)) == RoleDisplay(role)
  {
    var d := RoleDisplay(role);
    var dd := RoleDisplay(d);
    forall i | 0 <= i < |d| ensures dd[i] == d[i] {
      if i == 0 {
        assert Text.UpperChar(Text.UpperChar(role[0])) == Text.UpperChar(role[0]);
      } else {
        assert Text.LowerChar(Text.LowerChar(role[i])) == Text.LowerChar(role[i]);
      }
    }
  }

  /** The body `acceptInvite` sends for a row. */
  datatype AcceptInvitePayload = AcceptInvitePayload(userId: string, status: string)

  function AcceptInviteRequest(row: WorkspaceUser): (p: AcceptInvitePayload)
    ensures p.status == "active"
    ensures Text.Truthy(row.userId) ==> p.userId == row.userId.value
    ensures !Text.Truthy(row.userId) ==> p.userId == ""
  {
    AcceptInvitePayload(Text.OrElse(row.userId, ""), "active")
  }
}
