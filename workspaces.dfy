/** `WorkspacesService` (src/workspaces/workspaces.service.ts): the role and
    membership checks every other service reuses, and workspace creation,
    update, deletion and listing. */
module Workspaces {
  import opened Common
  import opened Model
  import Query
  import Sorting
  import TimeUtils
  import DiffUtils

  // ---- authorization ----

  /** `workspaceMember.findUnique({ userId_workspaceId })`. */
  function FindMembership(members: seq<Member>, workspaceId: Id, userId: Id): (r: Option<Member>)
    ensures r.Some? ==> r.value in members && r.value.workspaceId == workspaceId && r.value.userId == userId
    ensures r.None? <==>
      forall j :: 0 <= j < |members| ==> !(members[j].workspaceId == workspaceId && members[j].userId == userId)
  {
    match Query.FindFirst(members, (m: Member) => m.workspaceId == workspaceId && m.userId == userId)
    case None => None
    case Some(k) => Some(members[k])
  }

  /** `validateUserRole`: the caller's membership row, if its role is literally
      one of `allowedRoles`. No ordering of roles is implied: OWNER passes only
      when OWNER is listed. */
  function ValidateUserRole(members: seq<Member>, workspaceId: Id, userId: Id, allowedRoles: seq<Role>)
    : (r: Result<Member>)
    ensures r.Err? ==> r.error in {NotFound(NotMemberOrMissing), Forbidden(NoPermission)}
    ensures r == Err(NotFound(NotMemberOrMissing)) <==>
      forall j :: 0 <= j < |members| ==> !(members[j].workspaceId == workspaceId && members[j].userId == userId)
    ensures r == Err(Forbidden(NoPermission)) <==>
      FindMembership(members, workspaceId, userId).Some?
      && FindMembership(members, workspaceId, userId).value.role !in allowedRoles
    ensures r.Ok? ==>
      && r.value in members && r.value.workspaceId == workspaceId && r.value.userId == userId
      && r.value.role in allowedRoles
  {
    match FindMembership(members, workspaceId, userId)
    case None => Err(NotFound(NotMemberOrMissing))
    case Some(m) => if m.role !in allowedRoles then Err(Forbidden(NoPermission)) else Ok(m)
  }

  /** `validateUserIsMember`: any membership row, whatever its role. */
  function ValidateUserIsMember(members: seq<Member>, workspaceId: Id, userId: Id): (r: Result<Member>)
    ensures r.Err? ==> r.error == NotFound(WorkspaceNotFound)
    ensures r.Ok? <==> exists j :: 0 <= j < |members| && members[j].workspaceId == workspaceId && members[j].userId == userId
    ensures r.Ok? ==> r.value in members && r.value.workspaceId == workspaceId && r.value.userId == userId
  {
    match FindMembership(members, workspaceId, userId)
    case None => Err(NotFound(WorkspaceNotFound))
    case Some(m) => Ok(m)
  }

  /** Membership is exactly what an allow-list of every role asks for. */
  lemma IsMemberIsRoleCheckOfAllRoles(members: seq<Member>, workspaceId: Id, userId: Id)
    ensures ValidateUserIsMember(members, workspaceId, userId).Ok?
        <==> ValidateUserRole(members, workspaceId, userId, [OWNER, ADMIN, MEMBER, VIEWER]).Ok?
  {
    var m := FindMembership(members, workspaceId, userId);
    if m.Some? {
      assert m.value.role == OWNER || m.value.role == ADMIN || m.value.role == MEMBER || m.value.role == VIEWER;
    }
  }

  // ---- quotas and uniqueness ----

  /** The user holds an OWNER membership row in workspace `workspaceId`. */
  predicate OwnsWorkspace(members: seq<Member>, userId: Id, workspaceId: Id) {
    exists j :: 0 <= j < |members| && members[j].workspaceId == workspaceId
      && members[j].userId == userId && members[j].role == OWNER
  }

  /** The user holds some membership row in workspace `workspaceId`. */
  predicate BelongsTo(members: seq<Member>, userId: Id, workspaceId: Id) {
    exists j :: 0 <= j < |members| && members[j].workspaceId == workspaceId && members[j].userId == userId
  }

  /** `workspace.count` of the workspaces the user owns. */
  function OwnedCount(workspaces: seq<Workspace>, members: seq<Member>, userId: Id): (n: nat)
    ensures n <= |workspaces|
    ensures n == 0 <==> forall j :: 0 <= j < |workspaces| ==> !OwnsWorkspace(members, userId, workspaces[j].id)
  {
    Query.Count(workspaces, (w: Workspace) => OwnsWorkspace(members, userId, w.id))
  }

  /** The duplicate lookup: a workspace of that name the user belongs to, in
      any role. */
  predicate HasWorkspaceNamed(workspaces: seq<Workspace>, members: seq<Member>, userId: Id, name: string) {
    exists j :: 0 <= j < |workspaces| && workspaces[j].name == name && BelongsTo(members, userId, workspaces[j].id)
  }

  // ---- slugs ----

  /** ASCII `toLowerCase`. */
  function Lower(c: char): (d: char)
    ensures 'A' <= c <= 'Z' ==> d as int == c as int + 32
    ensures !('A' <= c <= 'Z') ==> d == c
  {
    if 'A' <= c <= 'Z' then (c as int + 32) as char else c
  }

  /** `name.toLowerCase().replace(/\s+/g, '-')`. */
  function BaseSlug(name: string): (slug: string)
    ensures |slug| <= |name|
    ensures forall i :: 0 <= i < |slug| ==> !TimeUtils.IsJsSpace(slug[i]) && !('A' <= slug[i] <= 'Z')
  {
    if |name| == 0 then []
    else
      var p := BaseSlug(name[..|name| - 1]);
      var c := name[|name| - 1];
      if !TimeUtils.IsJsSpace(c) then p + [Lower(c)]
      else if |name| >= 2 && TimeUtils.IsJsSpace(name[|name| - 2]) then p   // same run
      else p + ['-']
  }

  /** Each character of a name without white space is lowercased in place. */
  lemma {:induction false} BaseSlugOfSpaceFree(s: string)
    requires forall i :: 0 <= i < |s| ==> !TimeUtils.IsJsSpace(s[i])
    ensures |BaseSlug(s)| == |s|
    ensures forall i :: 0 <= i < |s| ==> BaseSlug(s)[i] == Lower(s[i])
  {
    if |s| > 0 {
      BaseSlugOfSpaceFree(s[..|s| - 1]);
    }
  }

  /** A slug is its own base: making a slug of a slug changes nothing. */
  lemma BaseSlugIdempotent(name: string)
    ensures BaseSlug(BaseSlug(name)) == BaseSlug(name)
  {
    var s := BaseSlug(name);
    BaseSlugOfSpaceFree(s);
  }

  /** A name the creation body accepts (single spaces between words) gets
      its slug character by character: letters lowercased, spaces as `-`. */
  lemma {:induction false} BaseSlugOfSingleSpaced(s: string)
    requires forall i :: 0 <= i < |s| ==> s[i] == ' ' || !TimeUtils.IsJsSpace(s[i])
    requires forall i :: 0 <= i < |s| - 1 ==> !(s[i] == ' ' && s[i + 1] == ' ')
    ensures |BaseSlug(s)| == |s|
    ensures forall i :: 0 <= i < |s| ==> BaseSlug(s)[i] == if s[i] == ' ' then '-' else Lower(s[i])
  {
    if |s| > 0 {
      BaseSlugOfSingleSpaced(s[..|s| - 1]);
    }
  }

  /** `workspace.findUnique({ where: { slug } })`. */
  function FindBySlug(workspaces: seq<Workspace>, slug: string): (r: Option<Workspace>)
    ensures r.Some? ==> r.value in workspaces && r.value.slug == slug
    ensures r.None? <==> forall j :: 0 <= j < |workspaces| ==> workspaces[j].slug != slug
  {
    match Query.FindFirst(workspaces, (w: Workspace) => w.slug == slug)
    case None => None
    case Some(k) => Some(workspaces[k])
  }

  /** `slug` is held by a workspace other than `self`. */
  predicate Taken(workspaces: seq<Workspace>, slug: string, self: Option<Id>) {
    match FindBySlug(workspaces, slug)
    case None => false
    case Some(w) => self != Some(w.id)
  }

  /** The `n`-th slug tried: the base, then the base with a random suffix. */
  function Candidate(base: string, suffix: nat -> string, n: nat): string {
    if n == 0 then base else base + "-" + suffix(n - 1)
  }

  /** Index of the first of candidates `n` to 5 that is free, or 6 when
      all of them are taken; six candidates in all. */
  function FirstFree(workspaces: seq<Workspace>, base: string, self: Option<Id>, suffix: nat -> string, n: nat)
    : (k: nat)
    requires n <= 6
    decreases 6 - n
    ensures n <= k <= 6
    ensures forall m :: n <= m < k ==> Taken(workspaces, Candidate(base, suffix, m), self)
    ensures k < 6 ==> !Taken(workspaces, Candidate(base, suffix, k), self)
  {
    if n == 6 || !Taken(workspaces, Candidate(base, suffix, n), self) then n
    else FirstFree(workspaces, base, self, suffix, n + 1)
  }

  /** What `_generateUniqueSlug(name, self)` returns, `suffix(k)` being the
      `k`-th random suffix it draws. */
  function UniqueSlug(workspaces: seq<Workspace>, name: string, self: Option<Id>, suffix: nat -> string)
    : Result<string>
  {
    var k := FirstFree(workspaces, BaseSlug(name), self, suffix, 0);
    if k == 6 then Err(InternalServerError(SlugExhausted)) else Ok(Candidate(BaseSlug(name), suffix, k))
  }

  /** The slug is the first of the base and five suffixed candidates that no
      other workspace holds; when all six are held, the generation fails. */
  lemma UniqueSlugMeaning(workspaces: seq<Workspace>, name: string, self: Option<Id>, suffix: nat -> string)
    ensures var r := UniqueSlug(workspaces, name, self, suffix);
      && (r.Err? ==> r.error == InternalServerError(SlugExhausted))
      && (r.Err? <==> forall k :: 0 <= k < 6 ==> Taken(workspaces, Candidate(BaseSlug(name), suffix, k), self))
      && (r.Ok? ==> !Taken(workspaces, r.value, self))
      && (r.Ok? ==> r.value == BaseSlug(name)
                    || exists k :: 0 <= k < 5 && r.value == BaseSlug(name) + "-" + suffix(k))
  {
    var k := FirstFree(workspaces, BaseSlug(name), self, suffix, 0);
    if k < 6 {
      assert !Taken(workspaces, Candidate(BaseSlug(name), suffix, k), self);
      if k > 0 {
        assert UniqueSlug(workspaces, name, self, suffix).value == BaseSlug(name) + "-" + suffix(k - 1);
      }
    }
  }

  /** `_generateUniqueSlug`: look the candidate up; stop when it is free or
      already this workspace's; otherwise draw a suffix and, after the sixth
      failed lookup, give up. */
  method GenerateUniqueSlug(workspaces: seq<Workspace>, name: string, self: Option<Id>, suffix: nat -> string)
    returns (r: Result<string>)
    ensures r == UniqueSlug(workspaces, name, self, suffix)
  {
    var baseSlug := BaseSlug(name);
    var uniqueSlug := baseSlug;
    var counter := 0;
    while true
      invariant 0 <= counter <= 5
      invariant uniqueSlug == Candidate(baseSlug, suffix, counter)
      invariant FirstFree(workspaces, baseSlug, self, suffix, counter) == FirstFree(workspaces, baseSlug, self, suffix, 0)
      decreases 6 - counter
    {
      var existing := FindBySlug(workspaces, uniqueSlug);
      if existing.None? {
        break;
      }
      if self == Some(existing.value.id) {
        break;
      }
      var randomSuffix := suffix(counter);
      uniqueSlug := baseSlug + "-" + randomSuffix;
      counter := counter + 1;
      if counter > 5 {
        return Err(InternalServerError(SlugExhausted));
      }
    }
    return Ok(uniqueSlug);
  }

  // ---- create ----

  /** The refusal `create` answers with before writing anything, if any. */
  function CreateRefusal(workspaces: seq<Workspace>, members: seq<Member>, userId: Id, name: string,
                         suffix: nat -> string): (e: Option<Error>)
    ensures OwnedCount(workspaces, members, userId) >= 10 ==> e == Some(Forbidden(WorkspaceLimitReached))
    ensures OwnedCount(workspaces, members, userId) < 10 && HasWorkspaceNamed(workspaces, members, userId, name)
            ==> e == Some(Conflict(DuplicateWorkspaceName))
    ensures OwnedCount(workspaces, members, userId) < 10 && !HasWorkspaceNamed(workspaces, members, userId, name)
            && UniqueSlug(workspaces, name, None, suffix).Err?
            ==> e == Some(UniqueSlug(workspaces, name, None, suffix).error)
    ensures e.None? <==>
      && OwnedCount(workspaces, members, userId) < 10
      && !HasWorkspaceNamed(workspaces, members, userId, name)
      && UniqueSlug(workspaces, name, None, suffix).Ok?
  {
    if OwnedCount(workspaces, members, userId) >= 10 then Some(Forbidden(WorkspaceLimitReached))
    else if HasWorkspaceNamed(workspaces, members, userId, name) then Some(Conflict(DuplicateWorkspaceName))
    else match UniqueSlug(workspaces, name, None, suffix)
      case Err(e) => Some(e)
      case Ok(_) => None
  }

  /** `create`: quota, then name uniqueness, then the slug; then the workspace,
      its one OWNER member (the creator) and a `WORKSPACE_CREATED` record,
      written together. `workspaceId` and `memberId` are the ids the store
      assigns. */
  method Create(db: Store, userId: Id, name: string, description: Option<string>,
                workspaceId: Id, memberId: Id, now: Time, suffix: nat -> string)
    returns (r: Result<Workspace>)
    modifies db
    ensures var refusal := CreateRefusal(old(db.workspaces), old(db.members), userId, name, suffix);
      && (r.Err? <==> refusal.Some?)
      && (r.Err? ==> r.error == refusal.value && db.Snapshot() == old(db.Snapshot()))
    ensures r.Ok? ==>
      && r.value == Workspace(workspaceId, name, UniqueSlug(old(db.workspaces), name, None, suffix).value,
                              description, now)
      && db.Snapshot() == old(db.Snapshot()).(
           workspaces := old(db.workspaces) + [r.value],
           members := old(db.members) + [Member(memberId, workspaceId, userId, OWNER, now, now)],
           activities := old(db.activities) + [Activity(WORKSPACE_CREATED, userId, Some(workspaceId), None, None, None)])
  {
    var workspaceCount := OwnedCount(db.workspaces, db.members, userId);
    if workspaceCount >= 10 {
      return Err(Forbidden(WorkspaceLimitReached));
    }
    if HasWorkspaceNamed(db.workspaces, db.members, userId, name) {
      return Err(Conflict(DuplicateWorkspaceName));
    }
    var slug := GenerateUniqueSlug(db.workspaces, name, None, suffix);
    if slug.Err? {
      return Err(slug.error);
    }
    var newWorkspace := Workspace(workspaceId, name, slug.value, description, now);
    db.workspaces := db.workspaces + [newWorkspace];
    db.members := db.members + [Member(memberId, workspaceId, userId, OWNER, now, now)];
    db.Log(Activity(WORKSPACE_CREATED, userId, Some(workspaceId), None, None, None));
    return Ok(newWorkspace);
  }

  /** After a successful creation the new workspace has exactly one member,
      the creator, as OWNER, provided no member row pointed at its fresh id. */
  lemma CreatedWorkspaceHasOneOwner(members: seq<Member>, m: Member, workspaceId: Id)
    requires forall j :: 0 <= j < |members| ==> members[j].workspaceId != workspaceId
    requires m.workspaceId == workspaceId && m.role == OWNER
    ensures Query.Filter(members + [m], (x: Member) => x.workspaceId == workspaceId) == [m]
  {
    var inWorkspace := (x: Member) => x.workspaceId == workspaceId;
    Query.FilterAppend(members, m, inWorkspace);
    assert Query.Filter(members, inWorkspace) == [] by {
      assert Query.Count(members, inWorkspace) == 0;
    }
  }

  // ---- update ----

  /** The keys an update body may carry: `name` and `description`. */
  datatype UpdateWorkspaceBody = UpdateWorkspaceBody(name: Field<string>, description: Field<Option<string>>)

  /** `if (updateWorkspaceDto.name)`: a name is given and is not empty. */
  predicate NameGiven(body: UpdateWorkspaceBody) { body.name.Present? && body.name.value != "" }

  /** `Object.keys(updateWorkspaceDto)`, plus `slug` when the name is given. */
  function DiffKeys(body: UpdateWorkspaceBody): (keys: seq<string>)
    ensures "name" in keys <==> body.name.Present?
    ensures "description" in keys <==> body.description.Present?
    ensures "slug" in keys <==> NameGiven(body)
  {
    (if body.name.Present? then ["name"] else [])
    + (if body.description.Present? then ["description"] else [])
    + (if NameGiven(body) then ["slug"] else [])
  }

  /** The row after `workspace.update` with the body's data. */
  function Applied(w: Workspace, body: UpdateWorkspaceBody, slug: string): (u: Workspace)
    ensures u.id == w.id && u.createdAt == w.createdAt
    ensures u.name == (if NameGiven(body) then body.name.value else w.name)
    ensures u.slug == (if NameGiven(body) then slug else w.slug)
    ensures u.description == (if body.description.Present? then body.description.value else w.description)
  {
    var named := if NameGiven(body) then w.(name := body.name.value, slug := slug) else w;
    if body.description.Present? then named.(description := body.description.value) else named
  }

  function OptionJson(o: Option<string>): (v: DiffUtils.Json)
    ensures v.Null? || v.Str?
    ensures v.Null? <==> o.None?
    ensures o.Some? ==> v == DiffUtils.Str(o.value)
  {
    match o
    case None => DiffUtils.Null
    case Some(s) => DiffUtils.Str(s)
  }

  /** The row as the diff sees it. `createdAt` is a `Date`, which no update
      key can name, so it is left out. */
  function WorkspaceJson(w: Workspace): seq<DiffUtils.Entry> {
    [DiffUtils.Entry("id", DiffUtils.Str(w.id)),
     DiffUtils.Entry("name", DiffUtils.Str(w.name)),
     DiffUtils.Entry("slug", DiffUtils.Str(w.slug)),
     DiffUtils.Entry("description", OptionJson(w.description))]
  }

  lemma WorkspaceJsonGet(w: Workspace)
    ensures DiffUtils.Get(WorkspaceJson(w), "name") == DiffUtils.Str(w.name)
    ensures DiffUtils.Get(WorkspaceJson(w), "slug") == DiffUtils.Str(w.slug)
    ensures DiffUtils.Get(WorkspaceJson(w), "description") == OptionJson(w.description)
  {
    var e := WorkspaceJson(w);
    DiffUtils.GetFirst(e, 1, "name");
    DiffUtils.GetFirst(e, 2, "slug");
    DiffUtils.GetFirst(e, 3, "description");
  }

  /** The logged diff holds, for each of name, slug and description, the old
      and new value exactly when the key was part of the update and the value
      changed. */
  lemma UpdateDiffMeaning(before: Workspace, after: Workspace, keys: seq<string>)
    ensures var d := DiffUtils.DiffFields(WorkspaceJson(before), WorkspaceJson(after), keys);
      && DiffUtils.Lookup(d, "name") ==
           (if "name" in keys && before.name != after.name
            then Some(DiffUtils.FromTo(DiffUtils.Str(before.name), DiffUtils.Str(after.name))) else None)
      && DiffUtils.Lookup(d, "slug") ==
           (if "slug" in keys && before.slug != after.slug
            then Some(DiffUtils.FromTo(DiffUtils.Str(before.slug), DiffUtils.Str(after.slug))) else None)
      && DiffUtils.Lookup(d, "description") ==
           (if "description" in keys && before.description != after.description
            then Some(DiffUtils.FromTo(OptionJson(before.description), OptionJson(after.description))) else None)
  {
    var o, n := WorkspaceJson(before), WorkspaceJson(after);
    WorkspaceJsonGet(before);
    WorkspaceJsonGet(after);
    if "name" in keys {
      DiffUtils.PrimitiveFieldDiff(o, n, keys, "name");
    } else {
      DiffUtils.OnlyRequestedFields(o, n, keys, "name");
    }
    if "slug" in keys {
      DiffUtils.PrimitiveFieldDiff(o, n, keys, "slug");
    } else {
      DiffUtils.OnlyRequestedFields(o, n, keys, "slug");
    }
    if "description" in keys {
      DiffUtils.PrimitiveFieldDiff(o, n, keys, "description");
    } else {
      DiffUtils.OnlyRequestedFields(o, n, keys, "description");
    }
  }

  /** `workspace.findUnique({ where: { id } })`. */
  function FindWorkspace(workspaces: seq<Workspace>, id: Id): (r: Option<Workspace>)
    ensures r.Some? ==> r.value in workspaces && r.value.id == id
    ensures r.None? <==> forall j :: 0 <= j < |workspaces| ==> workspaces[j].id != id
  {
    match Query.FindFirst(workspaces, (w: Workspace) => w.id == id)
    case None => None
    case Some(k) => Some(workspaces[k])
  }

  /** `update`: role check, then the row (missing: the store's own error),
      then a new slug when a name is given, then the row update and one
      `WORKSPACE_UPDATED` record carrying the diff over the body's keys. */
  method Update(db: Store, userId: Id, workspaceId: Id, body: UpdateWorkspaceBody, suffix: nat -> string)
    returns (r: Result<Workspace>)
    modifies db
    ensures r.Err? ==> db.Snapshot() == old(db.Snapshot())
    ensures ValidateUserRole(old(db.members), workspaceId, userId, [OWNER, ADMIN]).Err? ==>
      r == Err(ValidateUserRole(old(db.members), workspaceId, userId, [OWNER, ADMIN]).error)
    ensures ValidateUserRole(old(db.members), workspaceId, userId, [OWNER, ADMIN]).Ok?
            && FindWorkspace(old(db.workspaces), workspaceId).None? ==>
      r == Err(InternalServerError(RecordNotFound))
    ensures ValidateUserRole(old(db.members), workspaceId, userId, [OWNER, ADMIN]).Ok?
            && FindWorkspace(old(db.workspaces), workspaceId).Some?
            && NameGiven(body) && UniqueSlug(old(db.workspaces), body.name.value, Some(workspaceId), suffix).Err? ==>
      r == Err(UniqueSlug(old(db.workspaces), body.name.value, Some(workspaceId), suffix).error)
    ensures r.Ok? <==>
      && ValidateUserRole(old(db.members), workspaceId, userId, [OWNER, ADMIN]).Ok?
      && FindWorkspace(old(db.workspaces), workspaceId).Some?
      && (NameGiven(body) ==> UniqueSlug(old(db.workspaces), body.name.value, Some(workspaceId), suffix).Ok?)
    ensures r.Ok? ==>
      var before := FindWorkspace(old(db.workspaces), workspaceId).value;
      var slug := if NameGiven(body)
                  then UniqueSlug(old(db.workspaces), body.name.value, Some(workspaceId), suffix).value
                  else before.slug;
      && r.value == Applied(before, body, slug)
      && db.Snapshot() == old(db.Snapshot()).(
           workspaces := Query.UpdateWhere(old(db.workspaces), (w: Workspace) => w.id == workspaceId,
                                           (w: Workspace) => Applied(w, body, slug)),
           activities := old(db.activities) + [Activity(WORKSPACE_UPDATED, userId, Some(workspaceId), None, None,
             Some(DiffUtils.DiffFields(WorkspaceJson(before), WorkspaceJson(r.value), DiffKeys(body))))])
  {
    var check := ValidateUserRole(db.members, workspaceId, userId, [OWNER, ADMIN]);
    if check.Err? {
      return Err(check.error);
    }
    var existing := FindWorkspace(db.workspaces, workspaceId);
    if existing.None? {
      return Err(InternalServerError(RecordNotFound));
    }
    var slug := existing.value.slug;
    if NameGiven(body) {
      var generated := GenerateUniqueSlug(db.workspaces, body.name.value, Some(workspaceId), suffix);
      if generated.Err? {
        return Err(generated.error);
      }
      slug := generated.value;
    }
    var updated := Applied(existing.value, body, slug);
    db.workspaces := Query.UpdateWhere(db.workspaces, (w: Workspace) => w.id == workspaceId,
                                       (w: Workspace) => Applied(w, body, slug));
    var diff := DiffUtils.BuildFieldDiffDeep(WorkspaceJson(existing.value), WorkspaceJson(updated), DiffKeys(body));
    db.Log(Activity(WORKSPACE_UPDATED, userId, Some(workspaceId), None, None, Some(diff)));
    return Ok(updated);
  }

  // ---- remove ----

  /** The store after `workspace.delete`: the workspace goes, and with it its
      members, invitations and boards, and the board members of those boards. */
  function CascadeDelete(t: Tables, workspaceId: Id): Tables
  {
    var doomed := t.boards;
    t.(workspaces := Query.DeleteWhere(t.workspaces, (w: Workspace) => w.id == workspaceId),
       members := Query.DeleteWhere(t.members, (m: Member) => m.workspaceId == workspaceId),
       invitations := Query.DeleteWhere(t.invitations, (i: Invitation) => i.workspaceId == workspaceId),
       boards := Query.DeleteWhere(t.boards, (b: Board) => b.workspaceId == workspaceId),
       boardMembers := Query.DeleteWhere(t.boardMembers, (bm: BoardMember) =>
         exists j :: 0 <= j < |doomed| && doomed[j].id == bm.boardId && doomed[j].workspaceId == workspaceId))
  }

  /** Nothing of the workspace is left, its boards' board members included;
      everything of other workspaces is kept, and so is every board member
      whose board is in another workspace; users and the audit log are
      untouched. */
  lemma CascadeDeleteMeaning(t: Tables, workspaceId: Id)
    ensures var u := CascadeDelete(t, workspaceId);
      && u.users == t.users && u.activities == t.activities
      && (forall j :: 0 <= j < |u.workspaces| ==> u.workspaces[j].id != workspaceId)
      && (forall j :: 0 <= j < |u.members| ==> u.members[j].workspaceId != workspaceId)
      && (forall j :: 0 <= j < |u.invitations| ==> u.invitations[j].workspaceId != workspaceId)
      && (forall j :: 0 <= j < |u.boards| ==> u.boards[j].workspaceId != workspaceId)
      && (forall j :: 0 <= j < |u.boardMembers| ==> u.boardMembers[j] in t.boardMembers)
      && (forall j, k :: 0 <= j < |u.boardMembers| && 0 <= k < |t.boards| && t.boards[k].workspaceId == workspaceId
            ==> u.boardMembers[j].boardId != t.boards[k].id)
      && (forall j :: 0 <= j < |t.boardMembers|
            && (forall k :: 0 <= k < |t.boards| && t.boards[k].id == t.boardMembers[j].boardId
                  ==> t.boards[k].workspaceId != workspaceId)
            ==> t.boardMembers[j] in u.boardMembers)
      && (forall j :: 0 <= j < |t.workspaces| && t.workspaces[j].id != workspaceId ==> t.workspaces[j] in u.workspaces)
      && (forall j :: 0 <= j < |t.members| && t.members[j].workspaceId != workspaceId ==> t.members[j] in u.members)
      && (forall j :: 0 <= j < |t.invitations| && t.invitations[j].workspaceId != workspaceId
            ==> t.invitations[j] in u.invitations)
      && (forall j :: 0 <= j < |t.boards| && t.boards[j].workspaceId != workspaceId ==> t.boards[j] in u.boards)
  {
  }

  /** `remove`: OWNER or ADMIN may delete; the `WORKSPACE_DELETED` record is
      written first, then the workspace is deleted, in one transaction. */
  method Remove(db: Store, userId: Id, workspaceId: Id) returns (r: Result<()>)
    modifies db
    ensures r.Err? ==> db.Snapshot() == old(db.Snapshot())
    ensures ValidateUserRole(old(db.members), workspaceId, userId, [OWNER, ADMIN]).Err? ==>
      r == Err(ValidateUserRole(old(db.members), workspaceId, userId, [OWNER, ADMIN]).error)
    ensures r.Ok? <==>
      ValidateUserRole(old(db.members), workspaceId, userId, [OWNER, ADMIN]).Ok?
      && FindWorkspace(old(db.workspaces), workspaceId).Some?
    ensures r.Ok? ==>
      db.Snapshot() == CascadeDelete(old(db.Snapshot()), workspaceId).(
        activities := old(db.activities) + [Activity(WORKSPACE_DELETED, userId, Some(workspaceId), None, None, None)])
  {
    var check := ValidateUserRole(db.members, workspaceId, userId, [OWNER, ADMIN]);
    if check.Err? {
      return Err(check.error);
    }
    if FindWorkspace(db.workspaces, workspaceId).None? {
      // `workspace.delete` finds no row and the transaction, log included, rolls back
      return Err(InternalServerError(RecordNotFound));
    }
    var after := CascadeDelete(db.Snapshot(), workspaceId);
    db.Log(Activity(WORKSPACE_DELETED, userId, Some(workspaceId), None, None, None));
    db.Replace(after.(activities := db.activities));
    return Ok(());
  }

  // ---- listing ----

  /** One element of `findAllWhereMember`: the workspace with its member count,
      and the caller's role in it. */
  datatype WorkspaceView = WorkspaceView(workspace: Workspace, memberCount: nat, userRole: Role, isOwner: bool)

  /** `roleOrder`. */
  function RoleRank(r: Role): int {
    match r
    case OWNER => 1
    case ADMIN => 2
    case MEMBER => 3
    case VIEWER => 4
  }

  lemma RoleRankInjective(a: Role, b: Role)
    ensures RoleRank(a) == RoleRank(b) ==> a == b
  {
  }

  /** `(a, b) => roleComparison || b.createdAt - a.createdAt` is at most 0:
      role first, then newest first. */
  predicate ViewLe(a: WorkspaceView, b: WorkspaceView) {
    RoleRank(a.userRole) < RoleRank(b.userRole)
    || (RoleRank(a.userRole) == RoleRank(b.userRole) && a.workspace.createdAt >= b.workspace.createdAt)
  }

  lemma ViewLeTotalPreorder()
    ensures Sorting.TotalPreorder(ViewLe)
  {
  }

  /** The user's membership row in workspace `workspaceId` with role `role`. */
  predicate HasMembership(members: seq<Member>, userId: Id, workspaceId: Id, role: Role) {
    exists j :: 0 <= j < |members| && members[j].userId == userId && members[j].workspaceId == workspaceId
      && members[j].role == role
  }

  /** The view of membership `m`, joined with its workspace, if that exists. */
  function ViewOf(m: Member, workspaces: seq<Workspace>, members: seq<Member>): (v: Option<WorkspaceView>)
    ensures v.Some? <==> FindWorkspace(workspaces, m.workspaceId).Some?
    ensures v.Some? ==> && v.value.workspace == FindWorkspace(workspaces, m.workspaceId).value
                        && v.value.userRole == m.role
                        && (v.value.isOwner <==> m.role == OWNER)
  {
    match FindWorkspace(workspaces, m.workspaceId)
    case None => None
    case Some(w) =>
      Some(WorkspaceView(w, Query.Count(members, (x: Member) => x.workspaceId == w.id), m.role, m.role == OWNER))
  }

  /** A view's member count is the number of membership rows of its
      workspace, at least 1 when the viewed membership is stored. */
  lemma ViewMemberCount(m: Member, workspaces: seq<Workspace>, members: seq<Member>)
    requires ViewOf(m, workspaces, members).Some?
    ensures var n := ViewOf(m, workspaces, members).value.memberCount;
      && n == |Query.Filter(members, (x: Member) => x.workspaceId == m.workspaceId)|
      && (m in members ==> n >= 1)
  {
  }

  /** The memberships of `userId` among `ms`, in store order, each joined
      with its workspace and member count. */
  function Views(ms: seq<Member>, workspaces: seq<Workspace>, members: seq<Member>, userId: Id)
    : (vs: seq<WorkspaceView>)
    ensures |vs| <= |ms|
    ensures forall v :: v in vs ==> (v.isOwner <==> v.userRole == OWNER)
    ensures forall v :: v in vs ==> v.workspace in workspaces && HasMembership(ms, userId, v.workspace.id, v.userRole)
    ensures forall j :: 0 <= j < |ms| && ms[j].userId == userId && ViewOf(ms[j], workspaces, members).Some?
              ==> ViewOf(ms[j], workspaces, members).value in vs
  {
    if |ms| == 0 then []
    else
      var rest := Views(ms[1..], workspaces, members, userId);
      assert forall j :: 1 <= j < |ms| ==> ms[j] == ms[1..][j - 1];
      var v := ViewOf(ms[0], workspaces, members);
      if ms[0].userId == userId && v.Some? then [v.value] + rest else rest
  }

  /** The memberships that get a view: the user's own, whose workspace
      exists. */
  function Viewed(workspaces: seq<Workspace>, userId: Id): Member -> bool {
    (m: Member) => m.userId == userId && FindWorkspace(workspaces, m.workspaceId).Some?
  }

  /** `Views` is one view per viewed membership, in store order: its k-th
      entry is `ViewOf` the k-th such membership. */
  lemma {:induction false} ViewsMeaning(ms: seq<Member>, workspaces: seq<Workspace>, members: seq<Member>, userId: Id)
    ensures var vs := Views(ms, workspaces, members, userId);
      var mine := Query.Filter(ms, Viewed(workspaces, userId));
      && |vs| == |mine|
      && forall k :: 0 <= k < |vs| ==>
           && Viewed(workspaces, userId)(mine[k])
           && ViewOf(mine[k], workspaces, members) == Some(vs[k])
  {
    if |ms| > 0 {
      var viewed := Viewed(workspaces, userId);
      var vs := Views(ms, workspaces, members, userId);
      var rest := Views(ms[1..], workspaces, members, userId);
      var mine := Query.Filter(ms, viewed);
      var restMine := Query.Filter(ms[1..], viewed);
      ViewsMeaning(ms[1..], workspaces, members, userId);
      if viewed(ms[0]) {
        assert mine == [ms[0]] + restMine;
        assert vs == [ViewOf(ms[0], workspaces, members).value] + rest;
        forall k | 0 <= k < |vs| ensures viewed(mine[k]) && ViewOf(mine[k], workspaces, members) == Some(vs[k]) {
          if k > 0 {
            assert vs[k] == rest[k - 1] && mine[k] == restMine[k - 1];
          }
        }
      } else {
        assert mine == restMine;
        assert vs == rest;
      }
    }
  }

  /** `findAllWhereMember`. */
  function FindAllWhereMember(workspaces: seq<Workspace>, members: seq<Member>, userId: Id): (r: seq<WorkspaceView>)
    ensures |r| <= |members|
    ensures forall i :: 0 <= i < |r| ==> (r[i].isOwner <==> r[i].userRole == OWNER)
  {
    var vs := Views(members, workspaces, members, userId);
    var r := Sorting.Sort(vs, ViewLe);
    assert forall i :: 0 <= i < |r| ==> r[i] in multiset(vs);
    r
  }

  /** The list holds one view per membership of the user whose workspace
      exists, with the user's role there and the workspace's member count,
      and nothing else. */
  lemma FindAllWhereMemberContents(workspaces: seq<Workspace>, members: seq<Member>, userId: Id)
    ensures var r := FindAllWhereMember(workspaces, members, userId);
      && |r| == |Query.Filter(members, Viewed(workspaces, userId))|
      && (forall v :: v in r ==> v.workspace in workspaces && HasMembership(members, userId, v.workspace.id, v.userRole))
      && (forall v :: v in r ==>
            (exists j :: 0 <= j < |members| && members[j].userId == userId
                         && ViewOf(members[j], workspaces, members) == Some(v)))
      && (forall j :: 0 <= j < |members| && members[j].userId == userId && ViewOf(members[j], workspaces, members).Some?
            ==> ViewOf(members[j], workspaces, members).value in r)
  {
    var vs := Views(members, workspaces, members, userId);
    var r := FindAllWhereMember(workspaces, members, userId);
    var mine := Query.Filter(members, Viewed(workspaces, userId));
    assert multiset(r) == multiset(vs);
    assert |r| == |vs| by {
      assert |multiset(r)| == |multiset(vs)|;
    }
    ViewsMeaning(members, workspaces, members, userId);
    forall v | v in r
      ensures v.workspace in workspaces && HasMembership(members, userId, v.workspace.id, v.userRole)
      ensures exists j :: 0 <= j < |members| && members[j].userId == userId
                && ViewOf(members[j], workspaces, members) == Some(v)
    {
      assert v in multiset(vs);
      var k :| 0 <= k < |vs| && vs[k] == v;
      assert mine[k] in members;
      var j :| 0 <= j < |members| && members[j] == mine[k];
      assert members[j].userId == userId && ViewOf(members[j], workspaces, members) == Some(v);
    }
    forall j | 0 <= j < |members| && members[j].userId == userId && ViewOf(members[j], workspaces, members).Some?
      ensures ViewOf(members[j], workspaces, members).value in r
    {
      assert ViewOf(members[j], workspaces, members).value in multiset(r);
    }
  }

  /** OWNER workspaces come first, then ADMIN, MEMBER and VIEWER; within one
      role the newest workspace comes first. */
  lemma FindAllWhereMemberOrder(workspaces: seq<Workspace>, members: seq<Member>, userId: Id)
    ensures var r := FindAllWhereMember(workspaces, members, userId);
      forall i, j :: 0 <= i < j < |r| ==>
        RoleRank(r[i].userRole) < RoleRank(r[j].userRole)
        || (r[i].userRole == r[j].userRole && r[i].workspace.createdAt >= r[j].workspace.createdAt)
  {
    var vs := Views(members, workspaces, members, userId);
    var r := FindAllWhereMember(workspaces, members, userId);
    assert r == Sorting.Sort(vs, ViewLe);
    ViewLeTotalPreorder();
    Sorting.SortSorted(vs, ViewLe);
    forall i, j | 0 <= i < j < |r|
      ensures RoleRank(r[i].userRole) < RoleRank(r[j].userRole)
              || (r[i].userRole == r[j].userRole && r[i].workspace.createdAt >= r[j].workspace.createdAt)
    {
      assert ViewLe(r[i], r[j]);
      RoleRankInjective(r[i].userRole, r[j].userRole);
    }
  }
}
