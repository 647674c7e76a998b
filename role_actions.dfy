/** The actions a member row offers, by the role the viewer has over it. */
module RoleActions {
  datatype Role = Owner | Member | InvitedPending
  datatype ActionKey = Remove | AcceptInvite | RejectInvite
  datatype Variant = Default | Destructive
  datatype Action = Action(key: ActionKey, title: string, variant: Variant, color: string)

  const Red: string := "#ef4444"
  const Green: string := "#22c55e"

  /** The `roleActions` table. */
  function ActionsFor(role: Role): (r: seq<Action>)
    ensures role == Owner ==> r == [Action(Remove, "Remove member", Destructive, Red)]
    ensures role == Member ==> r == []
    ensures role == InvitedPending ==>
      r == [Action(AcceptInvite, "Accept invitation", Default, Green),
            Action(RejectInvite, "Reject invitation", Destructive, Red)]
  {
    match role
    case Owner => [Action(Remove, "Remove member", Destructive, Red)]
    case Member => []
    case InvitedPending =>
      [Action(AcceptInvite, "Accept invitation", Default, Green),
       Action(RejectInvite, "Reject invitation", Destructive, Red)]
  }

  /** Each action is destructive exactly when it removes someone or turns an invitation down. */
  lemma DestructiveActions(role: Role, i: int)
    requires 0 <= i < |ActionsFor(role)|
    ensures (ActionsFor(role)[i].variant == Destructive) <==> ActionsFor(role)[i].key != AcceptInvite
    ensures ActionsFor(role)[i].color == (if ActionsFor(role)[i].variant == Destructive then Red else Green)
  {
  }

  /** `ActionKey`: the keys used anywhere in the table are exactly the three action kinds. */
  lemma ActionKeys(k: ActionKey)
    ensures exists role: Role, i | 0 <= i < |ActionsFor(role)| :: ActionsFor(role)[i].key == k
  {
    match k
    case Remove => assert ActionsFor(Owner)[0].key == k;
    case AcceptInvite => assert ActionsFor(InvitedPending)[0].key == k;
    case RejectInvite => assert ActionsFor(InvitedPending)[1].key == k;
  }

  /** Within one role no key appears twice. */
  lemma KeysDistinct(role: Role, i: int, j: int)
    requires 0 <= i < j < |ActionsFor(role)|
    ensures ActionsFor(role)[i].key != ActionsFor(role)[j].key
  {
  }
}
