# kanbanly-be: workspaces, invitations, boards and accounts, in Dafny

This project models the decision logic of the kanbanly-be NestJS back end and
proves properties about it. It covers:

- **Workspace membership and invitations.** Role checks against an allow-list.
  The two-phase batch invite: every conflict is collected first, then each
  email either refreshes its expired invitation or gets a new one. Accepting an
  invitation, with its ordered refusals. The invitation list: the lazy
  PENDING-to-EXPIRED sweep, synthesised owner rows, the filter and one of four
  sort orders. Cancelling an invitation or removing a member. Token validation.
- **Workspaces and boards.** The quotas (10 owned workspaces, 10 boards per
  workspace), per-user name uniqueness, the bounded slug-collision retry, the
  three-tier board visibility cascade (PUBLIC / WORKSPACE / PRIVATE) and the
  listings with their orders. Create, update and remove of both, with the audit
  record each call asks the activity log to append, carrying the field diff
  each update passes it.
- **Accounts.** Registration, email verification and its resend cooldown,
  login, and the password reset token.
- **Pure leaves.** `buildFieldDiffDeep`, `parseTimeStringToMs`, the username
  and strong-password validators, and the invitation, workspace and board
  request rules.

The relational store is one `Model.Store` object whose tables are sequences in
insertion order. Prisma `findFirst` and `findUnique` return the first matching
row, `update` by id rewrites the rows with that id, and `count`, `findMany`,
`updateMany` and `delete` filter, rewrite or drop rows. Each service operation
is a method that takes the store and states the new contents of every table.
Each is proved against a pure function that decides the outcome: the ordered
refusals, and what is written. The properties are proved as lemmas about those
functions.

Clocks, ids, random tokens, slug suffixes, bcrypt hashes, JWTs and email
delivery are parameters. One `now` stands for every clock reading of a call.
`bcrypt.compare` is the parameter `matches(plain, hash)`.

Module layout, one file per source file or concern:

- `common.dfy`: `Option`, `Result`, HTTP error kinds and their reasons.
- `query.dfy`: first match, filter, count, update-where and delete-where.
- `sorting.dfy`: insertion sort with a comparator, for JavaScript `Array.prototype.sort`.
- `model.dfy`: rows, enums and the store.
- `diff.dfy`, `time_utils.dfy`, `username.dfy`, `password.dfy`,
  `invite_dto.dfy`, `workspace_dto.dfy`, `board_dto.dfy`: the pure leaves.
- `workspaces.dfy`, `boards.dfy`, `invitations.dfy`, `auth.dfy`: the services.

The model follows the code as written, including these behaviours:

- **A repeated email in one batch.** Conflicts are read only from the store as
  it was before the batch, so the batch creates two PENDING rows
  (`Invitations.DuplicateEmailCreatesTwoRows`).
- **A refreshed CANCELLED row.** The refresh keys only on the expiry having
  passed, so it brings a CANCELLED row back to PENDING
  (`Invitations.CancelledInvitationRevived`).
- **An expiry equal to `now`.** It is neither a conflict nor a refresh, so a
  new row is created (`Invitations.RefreshMeansExpired`).
- **`validateToken` lets CANCELLED and EXPIRED tokens through**
  (`Invitations.ValidateTokenWeakerThanAccept`).
- **ADMIN may delete a workspace** (`Workspaces.Remove`).
- **A verification request without `?token`.** The query parameter is not
  validated (src/auth/auth.controller.ts:45-48). Prisma drops the undefined
  filter, so the first account is checked: a verified one gets "Invalid token
  state.", and an unverified one with a live token is verified
  (`Auth.MissingTokenChecksFirstAccount`). The same missing parameter makes
  `validateToken` fail with an internal error (`Invitations.ValidateToken`).
- **`forgotPassword` with no mail transport.** It fails with an internal
  error after the reset token is already stored (`Auth.ForgotPassword`).

## Model

| member | source | states |
|---|---|---|
| DiffUtils.BuildFieldDiffDeep | src/common/utils/diff.utils.ts:5-38 | the loop over `fields` builds exactly `DiffFields`: one entry per requested key whose values differ, recursing into two plain objects |
| DiffUtils.Put | src/common/utils/diff.utils.ts:26-33 | assigning `result[key]` makes that key map to the new diff and leaves every other key as it was |
| DiffUtils.UnionKeys | src/common/utils/diff.utils.ts:23 | a key is in the union exactly when it is a key of either object |
| DiffUtils.DiffFields | src/common/utils/diff.utils.ts:12-35 | every key in the result is one of the requested fields |
| DiffUtils.DiffFieldsLookup | src/common/utils/diff.utils.ts:12-35 | the result's entry for a key is that field's change when the key was requested, and absent otherwise |
| DiffUtils.PrimitiveFieldDiff | src/common/utils/diff.utils.ts:32-33 | a non-object, non-array field appears iff old and new differ, as `{from, to}` with undefined turned into null |
| DiffUtils.ArrayFieldDiff | src/common/utils/diff.utils.ts:28-31 | two arrays appear as `{from, to}` iff their JSON texts differ |
| DiffUtils.ObjectFieldDiff | src/common/utils/diff.utils.ts:19-27 | two plain objects are diffed over the union of their keys; the field appears iff that sub-diff is non-empty |
| DiffUtils.MixedKindsFieldDiff | src/common/utils/diff.utils.ts:16-33 | an object against a non-object, or an array against a non-array, always appears as `{from, to}` |
| DiffUtils.OnlyRequestedFields | src/common/utils/diff.utils.ts:12-35 | a key not requested never appears |
| DiffUtils.ScalarFieldDiff | src/common/utils/diff.utils.ts:32-33 | for string-or-null columns the entry is present iff the key was requested and the value changed, and it then holds the old and new values |
| DiffUtils.FieldUnchanged | src/common/utils/diff.utils.ts:19-34 | a field compared with itself records nothing, nested objects included |
| DiffUtils.SelfDiffEmpty | src/common/utils/diff.utils.ts:12-37 | diffing a record against itself gives an empty result |
| TimeUtils.DigitRun | src/common/utils/time.utils.ts:2 | the greedy `\d+` group is the longest run of digits at the start |
| TimeUtils.MatchIsDigitRun | src/common/utils/time.utils.ts:2 | a match can only split the input at the end of its leading digit run |
| TimeUtils.NoMatchIsZero | src/common/utils/time.utils.ts:2-6 | input not matching digits, optional whitespace and one unit letter yields 0 |
| TimeUtils.MatchIsProduct | src/common/utils/time.utils.ts:8-22 | a match yields the decimal value of the digits times the unit's milliseconds |
| TimeUtils.DecimalRoundTrip | src/common/utils/time.utils.ts:8 | `parseInt` of a number's decimal digits gives that number back |
| TimeUtils.WrittenDuration | src/common/utils/time.utils.ts:11-19 | `Nd`, `Nh`, `Nm`, `Ns` (with any whitespace before the unit) yield N·86400000, N·3600000, N·60000 and N·1000 |
| UsernameValidator.RunMeaning | src/common/decorators/is-valid-username.decorator.ts:14 | the automaton's state after a prefix says whether it is empty, a valid base pattern, or valid up to a trailing special character |
| UsernameValidator.BasePatternMeaning | src/common/decorators/is-valid-username.decorator.ts:14-17 | the base pattern accepts exactly: only a-z, 0-9, `.`, `_`; no special character first or last; no two special characters adjacent |
| UsernameValidator.IsValidUsername | src/common/decorators/is-valid-username.decorator.ts:11-29 | accepted iff a string that meets the base pattern, has length 3 to 20 and at most two of `.`/`_` |
| PasswordValidator.ScanMeaning | src/common/decorators/is-strong-password.decorator.ts:16-17 | the one-pass scan records exactly whether a lower-case letter, upper-case letter, digit, symbol or whitespace occurs |
| PasswordValidator.IsStrongPassword | src/common/decorators/is-strong-password.decorator.ts:13-20 | accepted iff a string of at least 8 characters, no whitespace, with a lower-case letter, an upper-case letter, a digit and one of `!@#$%^&*` |
| PasswordValidator.RegisterRuleIsStrongPassword | src/auth/dto/register.dto.ts:16-22 | the registration body's inline pattern accepts exactly what the decorator accepts |
| WorkspaceDto.RunMeaning | src/workspaces/dto/create-workspace.dto.ts:15 | the name automaton accepts exactly words of letters and digits separated by single spaces |
| WorkspaceDto.IsValidName | src/workspaces/dto/create-workspace.dto.ts:11-19 | a name is accepted iff it is a string of 3 to 100 characters, only ASCII letters, digits and spaces, no space at either end, no two spaces together |
| WorkspaceDto.IsValidDescription | src/workspaces/dto/create-workspace.dto.ts:21-24 | an absent description passes; a present one passes iff it is a string of at most 250 characters |
| WorkspaceDto.IsValidCreateWorkspace | src/workspaces/dto/create-workspace.dto.ts:10-25 | the body passes iff both the name and the description rules hold |
| BoardDto.ParseVisibility | src/boards/dto/create-board.dto.ts:32-33 | a value is read as a visibility only when it is that visibility's name |
| BoardDto.ParseVisibilityName | src/boards/dto/create-board.dto.ts:32-33 | every visibility's name is read back as that visibility |
| BoardDto.IsValidBoardName | src/boards/dto/create-board.dto.ts:14-18 | a name passes iff it is a string of 3 to 100 characters |
| BoardDto.IsValidWorkspaceId | src/boards/dto/create-board.dto.ts:20-22 | workspaceId passes iff it is a non-empty string |
| BoardDto.IsValidCreateBoard | src/boards/dto/create-board.dto.ts:13-34 | the body passes iff name, workspaceId and description pass, the color is a hex color, and the visibility is PUBLIC, WORKSPACE or PRIVATE |
| InviteDto.ParseRole | src/workspaces/dto/invite-member.dto.ts:33-36 | a value is read as a role only when it is that role's name |
| InviteDto.IsNotOwnerRole | src/workspaces/dto/invite-member.dto.ts:17-26 | the constraint refuses OWNER and accepts each of ADMIN, MEMBER, VIEWER |
| InviteDto.IsValidItem | src/workspaces/dto/invite-member.dto.ts:28-37 | an item passes iff its email is a non-empty email string and its role is ADMIN, MEMBER or VIEWER |
| InviteDto.AllItemsValid | src/workspaces/dto/invite-member.dto.ts:44 | nested validation passes iff every item passes |
| InviteDto.IsValidInviteBody | src/workspaces/dto/invite-member.dto.ts:39-47 | a body passes iff it holds 1 to 5 items, each of them valid |
| InviteDto.AcceptedBodyHasNoOwner | src/workspaces/dto/invite-member.dto.ts:17-47 | every item of an accepted body names a role, and it is not OWNER |
| Workspaces.FindMembership | src/workspaces/workspaces.service.ts:288-296 | the membership row of that user in that workspace, absent iff there is none |
| Workspaces.ValidateUserRole | src/workspaces/workspaces.service.ts:272-311 | NotFound iff no membership row; Forbidden iff the row's role is not in the allow-list; otherwise the row, whose role is allowed |
| Workspaces.ValidateUserIsMember | src/workspaces/workspaces.service.ts:313-333 | NotFound exactly when no membership row exists; no role filter |
| Workspaces.IsMemberIsRoleCheckOfAllRoles | src/workspaces/workspaces.service.ts:272-333 | the membership check passes iff the role check with all four roles passes |
| Workspaces.OwnedCount | src/workspaces/workspaces.service.ts:30-39 | the number of workspaces the user owns; zero iff the user owns none |
| Workspaces.CreateRefusal | src/workspaces/workspaces.service.ts:30-63 | refused with Forbidden at 10 owned workspaces, then with Conflict for a name of any workspace the user belongs to, then, when no slug is free, with the slug generator's InternalServerError; otherwise not refused |
| Workspaces.Create | src/workspaces/workspaces.service.ts:29-101 | on refusal nothing changes; otherwise exactly one workspace with the generated slug, one OWNER membership of the creator and one `WORKSPACE_CREATED` record are added |
| Workspaces.CreatedWorkspaceHasOneOwner | src/workspaces/workspaces.service.ts:65-80 | after create, the new workspace has exactly one member: the creator, as OWNER |
| Workspaces.Lower | src/workspaces/workspaces.service.ts:339 | `toLowerCase` on ASCII: upper-case letters shift down, everything else is kept |
| Workspaces.BaseSlug | src/workspaces/workspaces.service.ts:339 | the base slug has no whitespace and no upper-case letter, and is no longer than the name |
| Workspaces.BaseSlugOfSpaceFree | src/workspaces/workspaces.service.ts:339 | a name without whitespace becomes its lower-cased self |
| Workspaces.BaseSlugOfSingleSpaced | src/workspaces/workspaces.service.ts:339 | a name whose whitespace is single spaces becomes the lower-cased name with each space turned into `-` |
| Workspaces.BaseSlugIdempotent | src/workspaces/workspaces.service.ts:339 | slugging a base slug again changes nothing |
| Workspaces.FindBySlug | src/workspaces/workspaces.service.ts:344-346 | the workspace holding that slug, absent iff none does |
| Workspaces.FirstFree | src/workspaces/workspaces.service.ts:343-365 | the index of the first candidate that is free or owned by the workspace being renamed; every earlier one is taken |
| Workspaces.UniqueSlugMeaning | src/workspaces/workspaces.service.ts:335-367 | the slug is unused or the workspace's own, and is the base or the base, `-` and one of five suffixes; InternalServerError iff all six candidates are taken |
| Workspaces.GenerateUniqueSlug | src/workspaces/workspaces.service.ts:335-367 | the retry loop returns exactly the specified slug or error |
| Workspaces.DiffKeys | src/workspaces/workspaces.service.ts:137-138 | the diffed keys are the keys sent, plus `slug` exactly when a non-empty name is sent |
| Workspaces.Applied | src/workspaces/workspaces.service.ts:118-135 | a non-empty name replaces the name and the slug; a description key present replaces the description; nothing else changes |
| Workspaces.OptionJson | src/workspaces/workspaces.service.ts:139-143 | a nullable column reads as null iff it is empty, and as its string otherwise |
| Workspaces.WorkspaceJsonGet | src/workspaces/workspaces.service.ts:139-143 | the record handed to the diff holds each column's value under its name |
| Workspaces.UpdateDiffMeaning | src/workspaces/workspaces.service.ts:137-143 | the logged diff records name, slug and description each iff that key was diffed and the value changed, with the old and new values |
| Workspaces.FindWorkspace | src/workspaces/workspaces.service.ts:114-116 | the workspace with that id, absent iff none has it |
| Workspaces.Update | src/workspaces/workspaces.service.ts:103-161 | OWNER or ADMIN only; a missing workspace is an error, and an exhausted slug on rename is the slug generator's InternalServerError, both changing nothing; otherwise only that workspace changes, and one `WORKSPACE_UPDATED` record with the diff is appended |
| Workspaces.CascadeDeleteMeaning | src/workspaces/workspaces.service.ts:266-268 | deleting a workspace removes it with its members, invitations and boards and the board members of those boards, and keeps every row of other workspaces, including board members of boards elsewhere |
| Workspaces.Remove | src/workspaces/workspaces.service.ts:230-270 | OWNER or ADMIN only; the `WORKSPACE_DELETED` record is kept and the workspace is deleted with everything that belongs to it |
| Workspaces.ViewLeTotalPreorder | src/workspaces/workspaces.service.ts:193-202 | the comparator (role, then newest first) is a total preorder |
| Workspaces.ViewOf | src/workspaces/workspaces.service.ts:177-182 | a membership shows its workspace and role, with `isOwner` iff the role is OWNER |
| Workspaces.ViewMemberCount | src/workspaces/workspaces.service.ts:164-178 | a view's member count (`_count.members`) is the number of membership rows of its workspace, at least 1 for a stored membership |
| Workspaces.Views | src/workspaces/workspaces.service.ts:164-182 | every view carries a workspace of the store and the role of one of the user's memberships there, and every membership of the user with a workspace yields one |
| Workspaces.ViewsMeaning | src/workspaces/workspaces.service.ts:164-182 | one view per membership of the user whose workspace exists, in store order: the k-th view is that k-th membership's workspace, member count, role and owner flag |
| Workspaces.FindAllWhereMember | src/workspaces/workspaces.service.ts:163-205 | no more entries than memberships; `isOwner` iff the role is OWNER |
| Workspaces.FindAllWhereMemberContents | src/workspaces/workspaces.service.ts:163-205 | the listing has exactly as many entries as the user has memberships with a workspace; each entry is the view of one of them, with its member count, and each such membership's view is listed |
| Workspaces.FindAllWhereMemberOrder | src/workspaces/workspaces.service.ts:186-202 | ordered OWNER, ADMIN, MEMBER, VIEWER, and newest workspace first within a role |
| Boards.FindBoard | src/boards/boards.service.ts:223-225 | the board with that id, absent iff none has it |
| Boards.FindBoardMember | src/boards/boards.service.ts:246-248 | a board-member row is found iff the user is on the board |
| Boards.ValidateBoardAccess | src/boards/boards.service.ts:216-255 | NotFound iff no such board; NotFound for a non-PUBLIC board of a workspace the user is not in; Forbidden for a PRIVATE board the user is not on; otherwise the board |
| Boards.PublicBoardIgnoresMembership | src/boards/boards.service.ts:231-233 | a PUBLIC board is granted whatever the memberships are |
| Boards.BoardCount | src/boards/boards.service.ts:37-41 | the number of the workspace's boards; zero iff it has none |
| Boards.Create | src/boards/boards.service.ts:29-78 | OWNER or ADMIN only, then Forbidden at 10 boards; on success exactly one board and one `BOARD_CREATED` record are added |
| Boards.CreateKeepsQuota | src/boards/boards.service.ts:37-56 | a board added under the quota keeps every workspace at 10 boards or fewer |
| Boards.CreatedLeTotalPreorder | src/boards/boards.service.ts:98 | ordering by createdAt is a total preorder |
| Boards.FindAllInWorkspace | src/boards/boards.service.ts:80-100 | NotFound exactly when the user is not a member of the workspace |
| Boards.FindAllInWorkspaceContents | src/boards/boards.service.ts:83-97 | the listing holds exactly the workspace's WORKSPACE and PUBLIC boards and the PRIVATE boards the user is on, each as many times as the store holds it |
| Boards.FindAllInWorkspaceOrder | src/boards/boards.service.ts:98 | the listing is ordered by createdAt ascending |
| Boards.ListingAgreesWithAccess | src/boards/boards.service.ts:80-100 | for a member, a board of the workspace is listed iff access to it is granted |
| Boards.BodyKeys | src/boards/boards.service.ts:163 | the diffed keys are exactly the keys of the request body |
| Boards.Applied | src/boards/boards.service.ts:158-161 | each key sent overwrites its column; the others, the id and createdAt are kept |
| Boards.BoardJsonGet | src/boards/boards.service.ts:164 | the record handed to the diff holds each column's value under its name |
| Boards.VisibilityNameInjective | src/boards/boards.service.ts:164 | two visibilities have the same name iff they are equal |
| Boards.UpdateDiffMeaning | src/boards/boards.service.ts:163-164 | the logged diff records each column iff its key was sent and its value changed; name and visibility hold the old and new values |
| Boards.Update | src/boards/boards.service.ts:145-184 | board access, then OWNER or ADMIN; a `workspaceId` naming no workspace fails the board's foreign key with a 500 and writes nothing; on success only that board changes, and one `BOARD_UPDATED` record with the diff over the sent keys is appended |
| Boards.DeleteBoard | src/boards/boards.service.ts:212 | deleting a board touches only the boards and board members |
| Boards.DeleteBoardMeaning | src/boards/boards.service.ts:212 | the board and its board-member rows are gone; every other board and board-member row is kept |
| Boards.Remove | src/boards/boards.service.ts:186-214 | board access, then OWNER or ADMIN; the `BOARD_DELETED` record is kept and the board is deleted |
| Invitations.FindByToken | src/workspaces/invitations/invitations.service.ts:207-211 | the invitation with that token, absent iff none has it |
| Invitations.FindInvitation | src/workspaces/invitations/invitations.service.ts:81-83 | the first invitation of the workspace for that email, absent iff none |
| Invitations.MemberConflictsMeaning | src/workspaces/invitations/invitations.service.ts:76-89 | `alreadyMember` holds exactly the batch emails of a member of the workspace |
| Invitations.InviteConflictsMeaning | src/workspaces/invitations/invitations.service.ts:76-103 | `alreadyInvited` holds exactly the batch emails whose found invitation is PENDING or CONSUMED and expires after `now` |
| Invitations.CacheOf | src/workspaces/invitations/invitations.service.ts:91-97 | each cached email maps to the id, status and expiry of its first invitation in the workspace |
| Invitations.CacheOfKeys | src/workspaces/invitations/invitations.service.ts:91-97 | the cache holds exactly the batch emails that have an invitation in the workspace |
| Invitations.CheckBatch | src/workspaces/invitations/invitations.service.ts:63-103 | the check loop computes both conflict lists, the member set and the cache, reading only the store as it was before the batch |
| Invitations.WriteBatch | src/workspaces/invitations/invitations.service.ts:113-203 | the write loop leaves exactly the specified invitations, records and result |
| Invitations.Create | src/workspaces/invitations/invitations.service.ts:42-204 | OWNER or ADMIN only; any conflict is one error listing all of them and writes nothing; otherwise each email refreshes its expired invitation or gets a new PENDING one |
| Invitations.RefreshMeansExpired | src/workspaces/invitations/invitations.service.ts:98-135 | an email refreshes iff its found invitation expired strictly before `now`; at expiry equal to `now` it is neither a conflict nor a refresh |
| Invitations.WrittenLog | src/workspaces/invitations/invitations.service.ts:176-196 | exactly one record per email is appended, in batch order: REFRESHED for a refresh, SENT otherwise |
| Invitations.WrittenResult | src/workspaces/invitations/invitations.service.ts:114-202 | `refreshed` and `invited` together hold one entry per email; a send failure puts exactly those emails in `failedEmails` |
| Invitations.DeliveryOnlyAffectsFailed | src/workspaces/invitations/invitations.service.ts:164-174 | email delivery changes nothing but `failedEmails` |
| Invitations.NoOwnerWritten | src/workspaces/invitations/invitations.service.ts:136-158 | a batch without OWNER items writes no OWNER invitation |
| Invitations.DuplicateEmailCreatesTwoRows | src/workspaces/invitations/invitations.service.ts:76-158 | a batch repeating a new email creates two PENDING rows for it |
| Invitations.CancelledInvitationRevived | src/workspaces/invitations/invitations.service.ts:135-147 | an expired CANCELLED invitation is no conflict, and is rewritten as PENDING with a new token, the new role and a fresh expiry |
| Invitations.AcceptCheck | src/workspaces/invitations/invitations.service.ts:207-243 | refusals in order: unknown token NotFound, not PENDING Conflict, expired Conflict, another email Forbidden, already a member Conflict |
| Invitations.Accept | src/workspaces/invitations/invitations.service.ts:206-287 | a refusal changes nothing; success adds one member with the invited role, marks the invitation CONSUMED and appends one `MEMBER_ADDED` record |
| Invitations.AcceptGrantsInvitedRole | src/workspaces/invitations/invitations.service.ts:246-253 | after accepting, the user's membership in the workspace has the invited role |
| Invitations.AcceptedTokenIsSpent | src/workspaces/invitations/invitations.service.ts:254-259 | an accepted token is refused to anyone, at any later time, as no longer valid |
| Invitations.Sweep | src/workspaces/invitations/invitations.service.ts:300-307 | exactly this workspace's PENDING invitations past their expiry become EXPIRED |
| Invitations.OwnerListings | src/workspaces/invitations/invitations.service.ts:320-333 | owner entries are OWNER, CONSUMED, with no expiry and no token |
| Invitations.OwnerListingsMeaning | src/workspaces/invitations/invitations.service.ts:320-333 | the owner entries are, in store order, one per OWNER membership of the workspace, with id `owner-<userId>`, the user's email and the membership's createdAt and updatedAt |
| Invitations.OtherListings | src/workspaces/invitations/invitations.service.ts:335-350 | the other entries are the workspace's invitations minus CANCELLED ones, keeping CONSUMED ones only for a current member |
| Invitations.OrdersAreTotalPreorders | src/workspaces/invitations/invitations.service.ts:355-378 | the four comparators are total preorders |
| Invitations.Arrange | src/workspaces/invitations/invitations.service.ts:352-378 | sorting keeps the entries; any other sort key leaves their order alone |
| Invitations.FindAll | src/workspaces/invitations/invitations.service.ts:289-380 | ADMIN or OWNER only; the sweep is the only write; the result is the listing of the swept store, sorted by status by default |
| Invitations.ListInvitationsContents | src/workspaces/invitations/invitations.service.ts:325-379 | owner entries come first, then exactly the shown invitations, each as many times as the store holds it |
| Invitations.ListInvitationsOrder | src/workspaces/invitations/invitations.service.ts:355-378 | after the owners: status CONSUMED, PENDING, EXPIRED; or createdAt ascending or descending; or role ADMIN, MEMBER, VIEWER |
| Invitations.NoStalePendingListed | src/workspaces/invitations/invitations.service.ts:300-350 | after the sweep no PENDING entry is listed past its expiry |
| Invitations.RemovableMember | src/workspaces/invitations/invitations.service.ts:398-407 | the first non-OWNER member of the workspace with that email, absent iff none |
| Invitations.CancellableInvitation | src/workspaces/invitations/invitations.service.ts:443-450 | the first PENDING or EXPIRED non-OWNER invitation of that email, absent iff none |
| Invitations.UnjoinedMeaning | src/workspaces/invitations/invitations.service.ts:410-422 | removal deletes that one member, keeps every other (owners included), and cancels exactly that email's CONSUMED invitations |
| Invitations.CancelOrRemove | src/workspaces/invitations/invitations.service.ts:382-477 | ADMIN or OWNER; the caller's own email is refused; a member is removed, else an invitation cancelled, each with one record; else NotFound |
| Invitations.ValidateToken | src/workspaces/invitations/invitations.service.ts:479-500 | an internal error for a missing token; otherwise refused only for an unknown token, then an expired one, then a CONSUMED one; otherwise email, workspace and role |
| Invitations.ValidateTokenWeakerThanAccept | src/workspaces/invitations/invitations.service.ts:207-493 | every token accept takes passes validation, and a live CANCELLED or EXPIRED token passes validation yet is refused by accept |
| Auth.FindByEmail | src/users/users.service.ts:16-20 | the account with that email, absent iff none |
| Auth.FindByEmailOrUsername | src/users/users.service.ts:28-37 | an account with that email or username, absent iff none |
| Auth.FindByVerificationToken | src/auth/auth.service.ts:77-79 | for a present token, an account holding it, absent iff none; for a missing token, the first account |
| Auth.FindByResetToken | src/users/users.service.ts:101-105 | an account holding that reset token, absent iff none |
| Auth.UpdateKeepsConsistent | src/users/users.service.ts:39-119 | rewriting one account by a consistency-keeping change keeps the whole table consistent |
| Auth.NewAccount | src/auth/auth.service.ts:44-54 | the new account is unverified, with a token that expires one hour from `now`, and consistent |
| Auth.Register | src/auth/auth.service.ts:33-74 | a taken email or username is a Conflict that changes nothing; otherwise exactly the new account is added |
| Auth.RegisterKeepsInvariants | src/auth/auth.service.ts:36-54 | registration keeps emails and usernames unique, and accounts consistent |
| Auth.VerifyEmailCheck | src/auth/auth.service.ts:76-91 | refusals in order: no account found, no expiry, `now` after expiry; otherwise the account found |
| Auth.VerifyEmail | src/auth/auth.service.ts:76-103 | a refusal changes nothing; otherwise that account becomes verified with token and expiry cleared |
| Auth.InvalidTokenStateNeedsMissingToken | src/auth/auth.service.ts:76-87 | with accounts consistent, the no-expiry refusal happens only when the token is missing |
| Auth.MissingTokenChecksFirstAccount | src/auth/auth.service.ts:76-100 | with the token missing, a verified first account is refused as an invalid token state, and an unverified one within its token's lifetime is let through to be verified |
| Auth.VerifyEmailEffect | src/auth/auth.service.ts:93-169 | verifying keeps accounts consistent, and login with that email is no longer refused for want of verification |
| Auth.ResendCheck | src/auth/auth.service.ts:105-119 | silent for an unknown or verified account; refused while the current token is still alive; otherwise the account |
| Auth.ResendVerificationEmail | src/auth/auth.service.ts:105-141 | only a refusal-free, unverified account gets a new token expiring one hour from `now`; nothing else changes |
| Auth.ResendKeepsConsistent | src/auth/auth.service.ts:121-128 | resending keeps accounts consistent |
| Auth.VerificationExpiryBoundary | src/auth/auth.service.ts:89-113 | at the instant of expiry the token is still accepted and a resend is already allowed |
| Auth.LoginCheck | src/auth/auth.service.ts:164-175 | Unauthorized for an unknown account or one without password; for an unverified one; for a mismatching password; success iff verified with a matching password |
| Auth.Login | src/auth/auth.service.ts:143-184 | a refusal changes nothing; success returns both tokens and stores the login time and the refresh token's hash on that account only |
| Auth.ForgotCheck | src/auth/auth.service.ts:210-215 | silent for an unknown email, refused for an unverified account, otherwise that verified account |
| Auth.ForgotPassword | src/auth/auth.service.ts:210-226 | a reset token expiring one hour from `now` is stored; with no mail transport the call then fails with the token stored |
| Auth.ResetCheck | src/auth/auth.service.ts:228-250 | invalid token for an unknown token, no expiry, `now` after expiry or no password; Unauthorized iff the new password matches the old; otherwise the account |
| Auth.ResetPassword | src/auth/auth.service.ts:228-254 | a refusal changes nothing; otherwise that account gets the new hash and its reset token and expiry are cleared |
| Auth.ResetTokenSingleUse | src/users/users.service.ts:107-119 | with ids and that token unique, a used reset token is refused afterwards whatever the password and time |
| Auth.PasswordUpdatesKeepConsistent | src/users/users.service.ts:53-119 | storing a reset token, a new password or the login data keeps accounts consistent |

## Left out

- Controllers, modules, Passport strategies, throttling and the HTTP layer:
  these are routing and wiring with no decision logic.
- Transactions are not modelled as such: each call's writes are applied
  together. The race between the invite check phase and its write phase is
  concurrency and is not modelled.
- The activity log as written: `activitiesService.log`
  (src/activities/activities.service.ts) destructures an `entity` field that
  its options type does not declare and that no call from the workspace, board
  or invitation services passes; `entity.type.toLowerCase()` then throws a
  TypeError on every such call, and it stores `metadata` only for
  BOARD_DELETED. The model follows the callers' evident intent instead: each
  call appends one record carrying the action, the actor, the workspace, the
  board, the target email and the field diff the caller passes. The failing
  call, which would roll a transaction back, or leave `cancelOrRemove`'s change
  in place behind a 500, is not modelled. The display names in `context` and
  `metadata` are left out.
- Invitations.CancelOrRemove: the log after the removal transaction and after
  the cancellation can fail on its own, leaving the change without a record.
  Only the case where the log succeeds is modelled.
- Email sending is a parameter. The invitation send
  (`sendWorkspaceInvitationEmail`) is not defined in
  src/email/email.service.ts; a failed send only adds the email to
  `failedEmails`, which the `delivered` parameter models. The verification
  email's failures are caught and have no effect. A failed reset email is
  swallowed inside the mailer. The mailer without a transport is the
  `mailerReady` parameter of `Auth.ForgotPassword`.
- `logout` and `refreshTokens` (src/auth/auth.service.ts:186-208) are left out:
  they only clear or compare the stored refresh-token hash through bcrypt.
- bcrypt, JWT signing, `crypto.randomBytes`, `Math.random` and
  `formatDistanceToNow` are opaque. Hashes, tokens, suffixes and ids are
  parameters, and the time left in the resend refusal message is not modelled.
- The `IsEmail` and `IsHexColor` validators are library code; they are the
  parameters `isEmail` and `isHexColor`.
- One clock value `now` per call. The source reads the clock several times in
  one call, for example a fresh `Date.now()` per email in the invite write loop.
- Prisma `@updatedAt` columns are only set where the source writes them
  explicitly (the refreshed invitation). Other rows keep their timestamps.
- The update request bodies are modelled as optional fields. Update DTOs are
  taken to be partial versions of the create DTOs, and an explicit null name or
  visibility is not modelled. The order of keys in the request decides the
  order of the diff; the model fixes it as declared.
- TimeUtils.MatchIsProduct: the model computes the exact integer product,
  while the source's `parseInt` and its products are IEEE doubles: a value past
  2^53 is rounded, and a run of 309 or more digits gives Infinity.
- TimeUtils.DecimalRoundTrip: holds for exact integers; JavaScript `parseInt`
  gives a number back exactly only up to 2^53.
- TimeUtils.WrittenDuration: `N·86400000`, `N·3600000`, `N·60000` and
  `N·1000` are exact in the model; in the source they are doubles, exact only
  while the product stays below 2^53.
- Sorting.Sort: `Array.prototype.sort` is stable. The model's insertion sort
  keeps equal elements in order, but no lemma states it; the lemmas state only
  that the result is sorted and a permutation.
- Workspaces.Lower: `toLowerCase` is modelled on ASCII letters only; other
  Unicode case mappings are left out. Strings are sequences of characters
  with no UTF-16 or normalisation detail, so every length rule counts
  characters where class-validator counts UTF-16 code units: `@MinLength(3)`
  and `@MaxLength(100)` on workspace and board names, `@MaxLength(250)` on
  descriptions, and the 3-20 and at-least-8 bounds of the username and
  password validators. A name of two characters outside the Basic
  Multilingual Plane passes `@MinLength(3)` in the source and fails here.
- Invitations.OwnerListings: an owner membership whose user row is missing is
  skipped; the database's foreign key rules it out.
- Cascades follow the schema as assumed: deleting a workspace deletes its
  members, invitations and boards, and deleting a board deletes its
  board-member rows.
- Boards.Update: moving a board to another workspace through `workspaceId` is
  allowed without a check on the caller's role there; only the foreign key
  on the target workspace is modelled, as a 500 that writes nothing.
- Auth.LoginCheck and Auth.ResetCheck: JavaScript's `!user.password` is also
  true for an empty string, which the model treats as a password; stored
  passwords are bcrypt hashes and never empty, so no request reaches this.
- The workspace name in the accept and token-validation responses is not part
  of the results.
- Auth.Register: the response drops the password hash and other private
  fields; the model returns the stored account.
- Auth.ResetTokenSingleUse and Auth.VerifyEmailEffect assume unique ids,
  emails and tokens. The schema makes ids and emails unique; tokens are
  random and are only assumed distinct.
