/** `InviteMemberDto` (src/workspaces/dto/invite-member.dto.ts): the body of a
    batch invitation. `@IsEmail` is a library check and is taken as a
    parameter; `@IsEnum(WorkspaceRole)` is `ParseRole`. */
module InviteDto {
  import opened Common
  import opened Model

  function RoleName(r: Role): string {
    match r
    case OWNER => "OWNER"
    case ADMIN => "ADMIN"
    case MEMBER => "MEMBER"
    case VIEWER => "VIEWER"
  }

  /** `@IsEnum(WorkspaceRole)`: the role a value names. */
  function ParseRole(v: Input): (r: Option<Role>)
    ensures r.Some? ==> v == Text(RoleName(r.value))
  {
    match v
    case Text("OWNER") => Some(OWNER)
    case Text("ADMIN") => Some(ADMIN)
    case Text("MEMBER") => Some(MEMBER)
    case Text("VIEWER") => Some(VIEWER)
    case _ => None
  }

  /** `IsNotOwnerRoleConstraint.validate`. */
  function IsNotOwnerRole(role: Role): (ok: bool)
    ensures ok <==> role in {ADMIN, MEMBER, VIEWER}
    ensures !ok <==> role == OWNER
  {
    role != OWNER
  }

  /** One element of `invitations`, as received. */
  datatype ItemInput = ItemInput(email: Input, role: Input)

  /** `InvitationItemDto`: a non-empty email address and a role of the enum
      other than OWNER. */
  function IsValidItem(item: ItemInput, isEmail: string -> bool): (ok: bool)
    ensures ok <==>
      && item.email.Text? && |item.email.s| > 0 && isEmail(item.email.s)
      && item.role in {Text("ADMIN"), Text("MEMBER"), Text("VIEWER")}
  {
    && item.email.Text? && item.email.s != "" && isEmail(item.email.s)
    && match ParseRole(item.role)
       case None => false
       case Some(r) => IsNotOwnerRole(r)
  }

  function AllItemsValid(items: seq<ItemInput>, isEmail: string -> bool): (ok: bool)
    ensures ok <==> forall i :: 0 <= i < |items| ==> IsValidItem(items[i], isEmail)
  {
    if |items| == 0 then true
    else IsValidItem(items[0], isEmail) && AllItemsValid(items[1..], isEmail)
  }

  /** `InviteMemberDto`: an array of 1 to 5 valid items. */
  function IsValidInviteBody(items: seq<ItemInput>, isEmail: string -> bool): (ok: bool)
    ensures ok <==> 1 <= |items| <= 5 && forall i :: 0 <= i < |items| ==> IsValidItem(items[i], isEmail)
  {
    |items| > 0 && |items| >= 1 && |items| <= 5 && AllItemsValid(items, isEmail)
  }

  /** An accepted body parses to a batch in which no item asks for OWNER. */
  lemma AcceptedBodyHasNoOwner(items: seq<ItemInput>, isEmail: string -> bool, i: nat)
    requires IsValidInviteBody(items, isEmail) && i < |items|
    ensures ParseRole(items[i].role).Some? && ParseRole(items[i].role).value != OWNER
  {
  }
}
