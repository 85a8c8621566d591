/** `InvitationsService` (src/workspaces/invitations/invitations.service.ts):
    batch invitation of email addresses to a workspace, acceptance by token,
    the listing an administrator sees, cancellation or removal, and the
    public token check. */
module Invitations {
  import opened Common
  import opened Model
  import Query
  import Sorting
  import Workspaces

  /** Three days, in milliseconds: how long an invitation token lives. */
  const InvitationLifetime: int := 3 * 24 * 60 * 60 * 1000

  /** `workspaceInvitation.findUnique({ where: { token } })`. */
  function FindByToken(invitations: seq<Invitation>, token: string): (r: Option<Invitation>)
    ensures r.Some? ==> r.value in invitations && r.value.token == token
    ensures r.None? <==> forall j :: 0 <= j < |invitations| ==> invitations[j].token != token
  {
    match Query.FindFirst(invitations, HasToken(token))
    case None => None
    case Some(k) => Some(invitations[k])
  }

  function HasToken(token: string): Invitation -> bool {
    (i: Invitation) => i.token == token
  }

  function HasId(id: Id): Invitation -> bool {
    (i: Invitation) => i.id == id
  }

  function WithStatus(status: InvitationStatus): Invitation -> Invitation {
    (i: Invitation) => i.(status := status)
  }

  /** A member of workspace `workspaceId` whose user has this email
      (`workspaceMember.findFirst({ where: { workspaceId, user: { email } } })`). */
  predicate IsMemberEmail(t: Tables, workspaceId: Id, email: string) {
    exists j :: 0 <= j < |t.members| && t.members[j].workspaceId == workspaceId && HasEmail(t.users, t.members[j], email)
  }

  // ---- create, first phase: the conflict check ----

  /** One element of a validated invitation body. */
  datatype Item = Item(email: string, role: Role)

  /** `workspaceInvitation.findFirst({ where: { workspaceId, email } })`. */
  function FindInvitation(invitations: seq<Invitation>, workspaceId: Id, email: string): (r: Option<Invitation>)
    ensures r.Some? ==> r.value in invitations && r.value.workspaceId == workspaceId && r.value.email == email
    ensures r.None? <==>
      forall j :: 0 <= j < |invitations| ==> !(invitations[j].workspaceId == workspaceId && invitations[j].email == email)
  {
    match Query.FindFirst(invitations, (i: Invitation) => i.workspaceId == workspaceId && i.email == email)
    case None => None
    case Some(k) => Some(invitations[k])
  }

  /** `isStillValid`: pending or consumed, and expiring strictly after now. */
  predicate StillValid(i: Invitation, now: Time) {
    (i.status == PENDING || i.status == CONSUMED) && i.expiresAt > now
  }

  /** The invitation found for `email` blocks a new one. */
  predicate AlreadyInvited(t: Tables, workspaceId: Id, email: string, now: Time) {
    FindInvitation(t.invitations, workspaceId, email).Some?
    && StillValid(FindInvitation(t.invitations, workspaceId, email).value, now)
  }

  /** `conflict.alreadyMember`: the batch emails, in order and with
      repetitions, that belong to a member of the workspace. */
  function MemberConflicts(t: Tables, workspaceId: Id, items: seq<Item>): (r: seq<string>)
    ensures |r| <= |items|
  {
    if |items| == 0 then []
    else
      var p := items[..|items| - 1];
      var e := items[|items| - 1].email;
      MemberConflicts(t, workspaceId, p) + (if IsMemberEmail(t, workspaceId, e) then [e] else [])
  }

  /** An email is an `alreadyMember` conflict iff the batch holds it and it
      belongs to a member of the workspace. */
  lemma {:induction false} MemberConflictsMeaning(t: Tables, workspaceId: Id, items: seq<Item>)
    ensures forall e :: e in MemberConflicts(t, workspaceId, items) <==>
      (exists k :: 0 <= k < |items| && items[k].email == e) && IsMemberEmail(t, workspaceId, e)
  {
    if |items| > 0 {
      var p := items[..|items| - 1];
      MemberConflictsMeaning(t, workspaceId, p);
      assert forall k :: 0 <= k < |p| ==> p[k] == items[k];
    }
  }

  /** `conflict.alreadyInvited`: the batch emails whose invitation is still
      valid. */
  function InviteConflicts(t: Tables, workspaceId: Id, items: seq<Item>, now: Time): (r: seq<string>)
    ensures |r| <= |items|
  {
    if |items| == 0 then []
    else
      var p := items[..|items| - 1];
      var e := items[|items| - 1].email;
      InviteConflicts(t, workspaceId, p, now) + (if AlreadyInvited(t, workspaceId, e, now) then [e] else [])
  }

  /** An email is an `alreadyInvited` conflict iff the batch holds it and its
      invitation in the workspace is still valid. */
  lemma {:induction false} InviteConflictsMeaning(t: Tables, workspaceId: Id, items: seq<Item>, now: Time)
    ensures forall e :: e in InviteConflicts(t, workspaceId, items, now) <==>
      (exists k :: 0 <= k < |items| && items[k].email == e) && AlreadyInvited(t, workspaceId, e, now)
  {
    if |items| > 0 {
      var p := items[..|items| - 1];
      InviteConflictsMeaning(t, workspaceId, p, now);
      assert forall k :: 0 <= k < |p| ==> p[k] == items[k];
    }
  }

  /** What `invitationMap` keeps of a found invitation. */
  datatype Cached = Cached(id: Id, status: InvitationStatus, expiresAt: Time)

  /** `invitationMap` after the check loop: for every batch email that has an
      invitation in the workspace, the id, status and expiry of the first. */
  function CacheOf(invitations: seq<Invitation>, workspaceId: Id, items: seq<Item>): (c: map<string, Cached>)
    ensures forall e :: e in c ==>
      && FindInvitation(invitations, workspaceId, e).Some?
      && var i := FindInvitation(invitations, workspaceId, e).value; c[e] == Cached(i.id, i.status, i.expiresAt)
  {
    if |items| == 0 then map[]
    else
      var p := items[..|items| - 1];
      var e := items[|items| - 1].email;
      match FindInvitation(invitations, workspaceId, e)
      case None => CacheOf(invitations, workspaceId, p)
      case Some(i) => CacheOf(invitations, workspaceId, p)[e := Cached(i.id, i.status, i.expiresAt)]
  }

  /** The cache holds exactly the batch emails that have an invitation in the
      workspace. */
  lemma {:induction false} CacheOfKeys(invitations: seq<Invitation>, workspaceId: Id, items: seq<Item>)
    ensures forall e :: e in CacheOf(invitations, workspaceId, items) <==>
      (exists k :: 0 <= k < |items| && items[k].email == e) && FindInvitation(invitations, workspaceId, e).Some?
  {
    if |items| > 0 {
      var p := items[..|items| - 1];
      CacheOfKeys(invitations, workspaceId, p);
      assert forall k :: 0 <= k < |p| ==> p[k] == items[k];
    }
  }

  /** One more item extends each result of the check by that item's email. */
  lemma CheckStep(t: Tables, workspaceId: Id, items: seq<Item>, k: nat, now: Time)
    requires k < |items|
    ensures var e := items[k].email;
      && MemberConflicts(t, workspaceId, items[..k + 1])
         == MemberConflicts(t, workspaceId, items[..k]) + (if IsMemberEmail(t, workspaceId, e) then [e] else [])
      && InviteConflicts(t, workspaceId, items[..k + 1], now)
         == InviteConflicts(t, workspaceId, items[..k], now) + (if AlreadyInvited(t, workspaceId, e, now) then [e] else [])
      && CacheOf(t.invitations, workspaceId, items[..k + 1])
         == match FindInvitation(t.invitations, workspaceId, e)
            case None => CacheOf(t.invitations, workspaceId, items[..k])
            case Some(i) => CacheOf(t.invitations, workspaceId, items[..k])[e := Cached(i.id, i.status, i.expiresAt)]
  {
    assert items[..k + 1][..k] == items[..k];
  }

  /** The check loop: two lookups per email, collecting conflicts and
      remembering what was found. It writes nothing. */
  method CheckBatch(t: Tables, workspaceId: Id, items: seq<Item>, now: Time)
    returns (alreadyMember: seq<string>, alreadyInvited: seq<string>,
             memberMap: set<string>, invitationMap: map<string, Cached>)
    ensures alreadyMember == MemberConflicts(t, workspaceId, items)
    ensures alreadyInvited == InviteConflicts(t, workspaceId, items, now)
    ensures forall e :: e in memberMap <==> e in alreadyMember
    ensures invitationMap == CacheOf(t.invitations, workspaceId, items)
  {
    alreadyMember, alreadyInvited := [], [];
    memberMap, invitationMap := {}, map[];
    var k := 0;
    while k < |items|
      invariant 0 <= k <= |items|
      invariant alreadyMember == MemberConflicts(t, workspaceId, items[..k])
      invariant alreadyInvited == InviteConflicts(t, workspaceId, items[..k], now)
      invariant forall e :: e in memberMap <==> e in alreadyMember
      invariant invitationMap == CacheOf(t.invitations, workspaceId, items[..k])
    {
      CheckStep(t, workspaceId, items, k, now);
      var email := items[k].email;
      var member := IsMemberEmail(t, workspaceId, email);
      var invitation := FindInvitation(t.invitations, workspaceId, email);
      if member {
        alreadyMember := alreadyMember + [email];
        memberMap := memberMap + {email};
      }
      if invitation.Some? {
        invitationMap := invitationMap[email := Cached(invitation.value.id, invitation.value.status,
                                                       invitation.value.expiresAt)];
        if StillValid(invitation.value, now) {
          alreadyInvited := alreadyInvited + [email];
        }
      }
      k := k + 1;
    }
    assert items[..k] == items;
  }

  // ---- create, second phase: the writes ----

  datatype Sent = Sent(email: string, token: string)

  /** The `result` object the batch returns. */
  datatype BatchResult = BatchResult(refreshed: seq<Sent>, invited: seq<Sent>, failedEmails: seq<string>)

  /** What the write loop works with: the request, the clock, the two maps of
      the check loop, and, for the `k`-th item, the random token drawn, the id
      the store gives a new row, and whether the email went out. */
  datatype Writing = Writing(
    workspaceId: Id,
    inviterId: Id,
    now: Time,
    memberMap: set<string>,
    cache: map<string, Cached>,
    tokens: nat -> string,
    ids: nat -> Id,
    delivered: nat -> bool)

  /** The tables the loop writes and the result it builds. */
  datatype Batch = Batch(invitations: seq<Invitation>, activities: seq<Activity>, result: BatchResult)

  /** `cached && cached.expiresAt < now`: the found invitation is refreshed. */
  predicate Refreshes(w: Writing, email: string) {
    email in w.cache && w.cache[email].expiresAt < w.now
  }

  /** The data of the refreshing `workspaceInvitation.update`. */
  function Renewed(token: string, role: Role, now: Time): Invitation -> Invitation {
    (i: Invitation) => i.(token := token, expiresAt := now + InvitationLifetime, status := PENDING,
                          role := role, updatedAt := now)
  }

  /** The row `workspaceInvitation.create` writes for the `k`-th item. */
  function Fresh(w: Writing, k: nat, item: Item): Invitation {
    Invitation(w.ids(k), w.workspaceId, item.email, item.role, w.tokens(k), PENDING, w.inviterId,
               w.now, w.now, w.now + InvitationLifetime)
  }

  /** The record logged for an item. */
  function LogEntry(w: Writing, item: Item): Activity {
    Activity(if Refreshes(w, item.email) then INVITATION_REFRESHED else INVITATION_SENT,
             w.inviterId, Some(w.workspaceId), None, Some(item.email), None)
  }

  /** One turn of the write loop, for the `k`-th item. */
  function WriteOne(b: Batch, w: Writing, k: nat, item: Item): Batch {
    if item.email in w.memberMap then b
    else
      var token := w.tokens(k);
      var b1 :=
        if Refreshes(w, item.email) then
          b.(invitations := Query.UpdateWhere(b.invitations, HasId(w.cache[item.email].id),
                                              Renewed(token, item.role, w.now)),
             result := b.result.(refreshed := b.result.refreshed + [Sent(item.email, token)]))
        else
          b.(invitations := b.invitations + [Fresh(w, k, item)],
             result := b.result.(invited := b.result.invited + [Sent(item.email, token)]));
      var b2 := if w.delivered(k) then b1 else b1.(result := b1.result.(failedEmails := b1.result.failedEmails + [item.email]));
      b2.(activities := b2.activities + [LogEntry(w, item)])
  }

  /** The write loop run over all of `items`. */
  function Written(b: Batch, w: Writing, items: seq<Item>): Batch
    decreases |items|
  {
    if |items| == 0 then b
    else WriteOne(Written(b, w, items[..|items| - 1]), w, |items| - 1, items[|items| - 1])
  }

  /** The write loop: for each item not skipped as a member, refresh the
      found invitation when it has expired, otherwise create a new one; then
      send the email and log. */
  method WriteBatch(db: Store, items: seq<Item>, w: Writing) returns (result: BatchResult)
    modifies db
    ensures var after := Written(Batch(old(db.invitations), old(db.activities), BatchResult([], [], [])), w, items);
      && result == after.result
      && db.Snapshot() == old(db.Snapshot()).(invitations := after.invitations, activities := after.activities)
  {
    ghost var start := Batch(db.invitations, db.activities, BatchResult([], [], []));
    result := BatchResult([], [], []);
    var k := 0;
    while k < |items|
      invariant 0 <= k <= |items|
      invariant var after := Written(start, w, items[..k]);
        && result == after.result
        && db.Snapshot() == old(db.Snapshot()).(invitations := after.invitations, activities := after.activities)
    {
      assert items[..k + 1][..k] == items[..k];
      var item := items[k];
      if item.email in w.memberMap {
        k := k + 1;
        continue;
      }
      var token := w.tokens(k);
      var flag: ActivityType;
      if item.email in w.cache && w.cache[item.email].expiresAt < w.now {
        db.invitations := Query.UpdateWhere(db.invitations, HasId(w.cache[item.email].id),
                                            Renewed(token, item.role, w.now));
        result := result.(refreshed := result.refreshed + [Sent(item.email, token)]);
        flag := INVITATION_REFRESHED;
      } else {
        db.invitations := db.invitations + [Fresh(w, k, item)];
        result := result.(invited := result.invited + [Sent(item.email, token)]);
        flag := INVITATION_SENT;
      }
      if !w.delivered(k) {
        result := result.(failedEmails := result.failedEmails + [item.email]);
      }
      db.Log(Activity(flag, w.inviterId, Some(w.workspaceId), None, Some(item.email), None));
      k := k + 1;
    }
    assert items[..k] == items;
  }

  /** `create`: OWNER or ADMIN; every email checked, all conflicts reported
      together; otherwise the writes, in one transaction. `tokens`, `ids` and
      `delivered` stand for the random generator, the store and the mailer. */
  method Create(db: Store, inviterId: Id, workspaceId: Id, items: seq<Item>, now: Time,
                tokens: nat -> string, ids: nat -> Id, delivered: nat -> bool)
    returns (r: Result<BatchResult>)
    modifies db
    ensures r.Err? ==> db.Snapshot() == old(db.Snapshot())
    ensures Workspaces.ValidateUserRole(old(db.members), workspaceId, inviterId, [OWNER, ADMIN]).Err? ==>
      r == Err(Workspaces.ValidateUserRole(old(db.members), workspaceId, inviterId, [OWNER, ADMIN]).error)
    ensures Workspaces.ValidateUserRole(old(db.members), workspaceId, inviterId, [OWNER, ADMIN]).Ok? ==>
      var alreadyMember := MemberConflicts(old(db.Snapshot()), workspaceId, items);
      var alreadyInvited := InviteConflicts(old(db.Snapshot()), workspaceId, items, now);
      && (|alreadyMember| > 0 || |alreadyInvited| > 0 ==>
            r == Err(Conflict(EmailsCannotBeInvited(alreadyMember, alreadyInvited))))
      && (|alreadyMember| == 0 && |alreadyInvited| == 0 ==>
            var w := Writing(workspaceId, inviterId, now, {}, CacheOf(old(db.invitations), workspaceId, items),
                             tokens, ids, delivered);
            var after := Written(Batch(old(db.invitations), old(db.activities), BatchResult([], [], [])), w, items);
            && r == Ok(after.result)
            && db.Snapshot() == old(db.Snapshot()).(invitations := after.invitations, activities := after.activities))
  {
    var check := Workspaces.ValidateUserRole(db.members, workspaceId, inviterId, [OWNER, ADMIN]);
    if check.Err? {
      return Err(check.error);
    }
    var alreadyMember, alreadyInvited, memberMap, invitationMap := CheckBatch(db.Snapshot(), workspaceId, items, now);
    if |alreadyMember| > 0 || |alreadyInvited| > 0 {
      return Err(Conflict(EmailsCannotBeInvited(alreadyMember, alreadyInvited)));
    }
    assert memberMap == {};
    var result := WriteBatch(db, items, Writing(workspaceId, inviterId, now, memberMap, invitationMap,
                                                tokens, ids, delivered));
    return Ok(result);
  }

  /** Once the check has passed, an item is refreshed exactly when the first
      invitation of its email has expired strictly before now; an invitation
      expiring at `now` itself is neither a conflict nor refreshed. */
  lemma RefreshMeansExpired(t: Tables, workspaceId: Id, inviterId: Id, items: seq<Item>, now: Time,
                            tokens: nat -> string, ids: nat -> Id, delivered: nat -> bool, k: nat)
    requires k < |items|
    ensures var w := Writing(workspaceId, inviterId, now, {}, CacheOf(t.invitations, workspaceId, items),
                             tokens, ids, delivered);
      var found := FindInvitation(t.invitations, workspaceId, items[k].email);
      && (Refreshes(w, items[k].email) <==> found.Some? && found.value.expiresAt < now)
      && (found.Some? && found.value.expiresAt == now ==>
            !Refreshes(w, items[k].email) && !AlreadyInvited(t, workspaceId, items[k].email, now))
  {
    CacheOfKeys(t.invitations, workspaceId, items);
  }

  /** With no member skipped, the log gains exactly one record per item, in
      item order: REFRESHED for a refreshed invitation, SENT otherwise. */
  lemma {:induction false} WrittenLog(b: Batch, w: Writing, items: seq<Item>)
    requires w.memberMap == {}
    ensures |Written(b, w, items).activities| == |b.activities| + |items|
    ensures Written(b, w, items).activities[..|b.activities|] == b.activities
    ensures forall k :: 0 <= k < |items| ==> Written(b, w, items).activities[|b.activities| + k] == LogEntry(w, items[k])
  {
    if |items| > 0 {
      var p := items[..|items| - 1];
      WrittenLog(b, w, p);
      assert forall k :: 0 <= k < |p| ==> p[k] == items[k];
    }
  }

  /** With no member skipped, each item is reported once, as refreshed or as
      invited. */
  lemma {:induction false} WrittenCount(b: Batch, w: Writing, items: seq<Item>)
    requires w.memberMap == {}
    ensures var r := Written(b, w, items).result;
      |r.refreshed| + |r.invited| == |b.result.refreshed| + |b.result.invited| + |items|
  {
    if |items| > 0 {
      WrittenCount(b, w, items[..|items| - 1]);
    }
  }

  /** With no member skipped, the refreshed report holds exactly the items
      whose invitation is refreshed, each with its new token. */
  lemma {:induction false} WrittenRefreshed(b: Batch, w: Writing, items: seq<Item>)
    requires w.memberMap == {}
    ensures var r := Written(b, w, items).result;
      && (forall k :: 0 <= k < |items| && Refreshes(w, items[k].email) ==> Sent(items[k].email, w.tokens(k)) in r.refreshed)
      && (forall s :: s in r.refreshed ==> s in b.result.refreshed || Refreshes(w, s.email))
  {
    if |items| > 0 {
      var p := items[..|items| - 1];
      WrittenRefreshed(b, w, p);
      assert forall k :: 0 <= k < |p| ==> p[k] == items[k];
      var n := |items| - 1;
      var before := Written(b, w, p).result;
      var r := Written(b, w, items).result;
      if Refreshes(w, items[n].email) {
        assert r.refreshed == before.refreshed + [Sent(items[n].email, w.tokens(n))];
      } else {
        assert r.refreshed == before.refreshed;
      }
    }
  }

  /** With no member skipped, the invited report holds exactly the items
      that get a new invitation, each with its token. */
  lemma {:induction false} WrittenInvited(b: Batch, w: Writing, items: seq<Item>)
    requires w.memberMap == {}
    ensures var r := Written(b, w, items).result;
      && (forall k :: 0 <= k < |items| && !Refreshes(w, items[k].email) ==> Sent(items[k].email, w.tokens(k)) in r.invited)
      && (forall s :: s in r.invited ==> s in b.result.invited || !Refreshes(w, s.email))
  {
    if |items| > 0 {
      var p := items[..|items| - 1];
      WrittenInvited(b, w, p);
      assert forall k :: 0 <= k < |p| ==> p[k] == items[k];
      var n := |items| - 1;
      var before := Written(b, w, p).result;
      var r := Written(b, w, items).result;
      if Refreshes(w, items[n].email) {
        assert r.invited == before.invited;
      } else {
        assert r.invited == before.invited + [Sent(items[n].email, w.tokens(n))];
      }
    }
  }

  /** With no member skipped, `failedEmails` gains exactly the emails that
      did not go out. */
  lemma {:induction false} WrittenFailed(b: Batch, w: Writing, items: seq<Item>)
    requires w.memberMap == {}
    ensures var r := Written(b, w, items).result;
      && (forall k :: 0 <= k < |items| && !w.delivered(k) ==> items[k].email in r.failedEmails)
      && (forall e :: e in r.failedEmails ==>
            e in b.result.failedEmails || exists k :: 0 <= k < |items| && items[k].email == e && !w.delivered(k))
  {
    if |items| > 0 {
      var p := items[..|items| - 1];
      WrittenFailed(b, w, p);
      assert forall k :: 0 <= k < |p| ==> p[k] == items[k];
    }
  }

  /** With no member skipped, every item is either refreshed or invited,
      refreshed exactly when its invitation had expired; and an email is
      reported failed exactly when its sending failed. */
  lemma {:induction false} WrittenResult(b: Batch, w: Writing, items: seq<Item>)
    requires w.memberMap == {}
    ensures var r := Written(b, w, items).result;
      && |r.refreshed| + |r.invited| == |b.result.refreshed| + |b.result.invited| + |items|
      && (forall k :: 0 <= k < |items| && Refreshes(w, items[k].email) ==> Sent(items[k].email, w.tokens(k)) in r.refreshed)
      && (forall k :: 0 <= k < |items| && !Refreshes(w, items[k].email) ==> Sent(items[k].email, w.tokens(k)) in r.invited)
      && (forall s :: s in r.refreshed ==> s in b.result.refreshed || Refreshes(w, s.email))
      && (forall s :: s in r.invited ==> s in b.result.invited || !Refreshes(w, s.email))
      && (forall k :: 0 <= k < |items| && !w.delivered(k) ==> items[k].email in r.failedEmails)
      && (forall e :: e in r.failedEmails ==>
            e in b.result.failedEmails || exists k :: 0 <= k < |items| && items[k].email == e && !w.delivered(k))
  {
    WrittenCount(b, w, items);
    WrittenRefreshed(b, w, items);
    WrittenInvited(b, w, items);
    WrittenFailed(b, w, items);
  }

  /** Whether the emails go out changes nothing but `failedEmails`. */
  lemma {:induction false} DeliveryOnlyAffectsFailed(b: Batch, w: Writing, items: seq<Item>, delivered: nat -> bool)
    ensures var x := Written(b, w, items);
      var y := Written(b, w.(delivered := delivered), items);
      && x.invitations == y.invitations && x.activities == y.activities
      && x.result.refreshed == y.result.refreshed && x.result.invited == y.result.invited
  {
    if |items| > 0 {
      DeliveryOnlyAffectsFailed(b, w, items[..|items| - 1], delivered);
    }
  }

  /** A batch whose items ask for no OWNER role writes no OWNER invitation:
      every OWNER row afterwards was already an OWNER row at its place. */
  lemma {:induction false} NoOwnerWritten(b: Batch, w: Writing, items: seq<Item>)
    requires forall k :: 0 <= k < |items| ==> items[k].role != OWNER
    ensures |Written(b, w, items).invitations| >= |b.invitations|
    ensures var after := Written(b, w, items).invitations;
      forall j :: 0 <= j < |after| && after[j].role == OWNER ==> j < |b.invitations| && b.invitations[j].role == OWNER
  {
    if |items| > 0 {
      var p := items[..|items| - 1];
      NoOwnerWritten(b, w, p);
    }
  }

  /** The same new email twice in one batch creates two invitation rows. */
  lemma DuplicateEmailCreatesTwoRows(b: Batch, w: Writing, x: Item)
    requires w.memberMap == {} && x.email !in w.cache
    ensures Written(b, w, [x, x]).invitations == b.invitations + [Fresh(w, 0, x), Fresh(w, 1, x)]
    ensures Fresh(w, 0, x).email == Fresh(w, 1, x).email == x.email
  {
    assert [x, x][..1] == [x];
    assert [x][..0] == [];
    var b1 := Written(b, w, [x]);
    assert Written(b, w, []) == b;
    assert b1 == WriteOne(Written(b, w, []), w, 0, x);
    assert b1.invitations == b.invitations + [Fresh(w, 0, x)];
    assert Written(b, w, [x, x]) == WriteOne(b1, w, 1, x);
  }

  /** A cancelled invitation that has expired passes the check (it is not
      still valid) and is refreshed back to PENDING with a new token. */
  lemma CancelledInvitationRevived(t: Tables, b: Batch, w: Writing, x: Item, j: nat)
    requires w.memberMap == {}
    requires FindInvitation(t.invitations, w.workspaceId, x.email).Some?
    requires FindInvitation(t.invitations, w.workspaceId, x.email).value.status == CANCELLED
    requires w.now > FindInvitation(t.invitations, w.workspaceId, x.email).value.expiresAt
    requires w.cache == CacheOf(t.invitations, w.workspaceId, [x])
    requires j < |b.invitations| && b.invitations[j].id == FindInvitation(t.invitations, w.workspaceId, x.email).value.id
    ensures !AlreadyInvited(t, w.workspaceId, x.email, w.now)
    ensures j < |Written(b, w, [x]).invitations| &&
      var row := Written(b, w, [x]).invitations[j];
      row.status == PENDING && row.token == w.tokens(0) && row.role == x.role
      && row.expiresAt == w.now + InvitationLifetime
  {
  }

  // ---- accept ----

  /** The checks of `accept`, in order, and the invitation they let through. */
  function AcceptCheck(t: Tables, token: string, user: User, now: Time): (r: Result<Invitation>)
    ensures r.Ok? ==> FindByToken(t.invitations, token) == Some(r.value)
    ensures r == Err(NotFound(InvitationNotFound)) <==> FindByToken(t.invitations, token).None?
    ensures r == Err(Conflict(InvitationNoLongerValid)) <==>
      FindByToken(t.invitations, token).Some? && FindByToken(t.invitations, token).value.status != PENDING
    ensures r == Err(Conflict(InvitationExpired)) <==>
      var i := FindByToken(t.invitations, token);
      i.Some? && i.value.status == PENDING && i.value.expiresAt < now
    ensures r == Err(Forbidden(InvitationNotForYou)) <==>
      var i := FindByToken(t.invitations, token);
      i.Some? && i.value.status == PENDING && i.value.expiresAt >= now && i.value.email != user.email
    ensures r == Err(Conflict(AlreadyMember)) <==>
      var i := FindByToken(t.invitations, token);
      && i.Some? && i.value.status == PENDING && i.value.expiresAt >= now && i.value.email == user.email
      && Workspaces.BelongsTo(t.members, user.id, i.value.workspaceId)
    ensures r.Ok? <==>
      var i := FindByToken(t.invitations, token);
      && i.Some? && i.value.status == PENDING && i.value.expiresAt >= now && i.value.email == user.email
      && !Workspaces.BelongsTo(t.members, user.id, i.value.workspaceId)
  {
    match FindByToken(t.invitations, token)
    case None => Err(NotFound(InvitationNotFound))
    case Some(invitation) =>
      if invitation.status != PENDING then Err(Conflict(InvitationNoLongerValid))
      else if invitation.expiresAt < now then Err(Conflict(InvitationExpired))
      else if invitation.email != user.email then Err(Forbidden(InvitationNotForYou))
      else if Workspaces.FindMembership(t.members, invitation.workspaceId, user.id).Some? then
        Err(Conflict(AlreadyMember))
      else Ok(invitation)
  }

  /** The store after a successful acceptance, before the log. */
  function Joined(t: Tables, invitation: Invitation, user: User, memberId: Id, now: Time): Tables {
    t.(members := t.members + [Member(memberId, invitation.workspaceId, user.id, invitation.role, now, now)],
       invitations := Query.UpdateWhere(t.invitations, HasId(invitation.id), WithStatus(CONSUMED)))
  }

  /** `accept`: the checks, then the membership, the invitation marked
      CONSUMED and one `MEMBER_ADDED` record, in one transaction. */
  method Accept(db: Store, token: string, user: User, memberId: Id, now: Time) returns (r: Result<Invitation>)
    modifies db
    ensures r.Err? ==> db.Snapshot() == old(db.Snapshot())
    ensures r == AcceptCheck(old(db.Snapshot()), token, user, now)
    ensures r.Ok? ==>
      db.Snapshot() == Joined(old(db.Snapshot()), r.value, user, memberId, now).(
        activities := old(db.activities) + [Activity(MEMBER_ADDED, user.id, Some(r.value.workspaceId), None,
                                                     Some(user.email), None)])
  {
    var check := AcceptCheck(db.Snapshot(), token, user, now);
    if check.Err? {
      return check;
    }
    var invitation := check.value;
    db.members := db.members + [Member(memberId, invitation.workspaceId, user.id, invitation.role, now, now)];
    db.invitations := Query.UpdateWhere(db.invitations, HasId(invitation.id), WithStatus(CONSUMED));
    db.Log(Activity(MEMBER_ADDED, user.id, Some(invitation.workspaceId), None, Some(user.email), None));
    return Ok(invitation);
  }

  /** After acceptance the user is a member of the workspace with the
      invited role. */
  lemma AcceptGrantsInvitedRole(t: Tables, token: string, user: User, memberId: Id, now: Time)
    requires AcceptCheck(t, token, user, now).Ok?
    ensures var i := AcceptCheck(t, token, user, now).value;
      Workspaces.FindMembership(Joined(t, i, user, memberId, now).members, i.workspaceId, user.id)
        == Some(Member(memberId, i.workspaceId, user.id, i.role, now, now))
  {
    var i := AcceptCheck(t, token, user, now).value;
    var m := Member(memberId, i.workspaceId, user.id, i.role, now, now);
    var ms := t.members + [m];
    var k := Query.FindFirst(ms, (x: Member) => x.workspaceId == i.workspaceId && x.userId == user.id);
    assert ms[|t.members|] == m;
    assert forall j :: 0 <= j < |t.members| ==> ms[j] == t.members[j];
  }

  /** After `i` is marked CONSUMED, looking its token up finds a consumed row. */
  lemma ConsumedTokenFound(invitations: seq<Invitation>, i: Invitation)
    requires FindByToken(invitations, i.token) == Some(i)
    ensures var found := FindByToken(Query.UpdateWhere(invitations, HasId(i.id), WithStatus(CONSUMED)), i.token);
      found.Some? && found.value.status == CONSUMED
  {
    var after := Query.UpdateWhere(invitations, HasId(i.id), WithStatus(CONSUMED));
    var k := Query.FindFirst(invitations, HasToken(i.token)).value;
    assert after[k].token == i.token && after[k].status == CONSUMED;
    assert forall j :: 0 <= j < k ==> !HasToken(i.token)(after[j]) by {
      forall j | 0 <= j < k ensures !HasToken(i.token)(after[j]) {
        assert !HasToken(i.token)(invitations[j]);
      }
    }
    Query.FindFirstAt(after, HasToken(i.token), k);
  }

  /** An accepted token cannot be accepted again, by anyone, at any time. */
  lemma AcceptedTokenIsSpent(t: Tables, token: string, user: User, memberId: Id, now: Time,
                             other: User, later: Time)
    requires AcceptCheck(t, token, user, now).Ok?
    ensures AcceptCheck(Joined(t, AcceptCheck(t, token, user, now).value, user, memberId, now), token, other, later)
         == Err(Conflict(InvitationNoLongerValid))
  {
    var i := AcceptCheck(t, token, user, now).value;
    ConsumedTokenFound(t.invitations, i);
  }

  // ---- listing ----

  /** One element of the listing (`InvitationLike`). Owners have no expiry
      and no token. */
  datatype Listing = Listing(
    id: string,
    email: string,
    role: Role,
    status: InvitationStatus,
    createdAt: Time,
    updatedAt: Time,
    expiresAt: Option<Time>,
    token: Option<string>)

  /** The `updateMany` that marks pending invitations past their expiry. */
  predicate Stale(workspaceId: Id, now: Time, i: Invitation) {
    i.workspaceId == workspaceId && i.status == PENDING && i.expiresAt < now
  }

  function Sweep(invitations: seq<Invitation>, workspaceId: Id, now: Time): (r: seq<Invitation>)
    ensures |r| == |invitations|
    ensures forall j :: 0 <= j < |r| ==> !Stale(workspaceId, now, r[j])
    ensures forall j :: 0 <= j < |r| ==>
      r[j] == if Stale(workspaceId, now, invitations[j]) then invitations[j].(status := EXPIRED) else invitations[j]
  {
    Query.UpdateWhere(invitations, (i: Invitation) => Stale(workspaceId, now, i), WithStatus(EXPIRED))
  }

  /** An OWNER membership of the workspace whose user row exists. */
  function ListedOwner(users: seq<User>, workspaceId: Id): Member -> bool {
    (m: Member) => m.workspaceId == workspaceId && m.role == OWNER && EmailOf(users, m.userId).Some?
  }

  /** The entry an owner membership becomes. */
  function OwnerListingOf(users: seq<User>, m: Member): Listing
    requires EmailOf(users, m.userId).Some?
  {
    Listing("owner-" + m.userId, EmailOf(users, m.userId).value, OWNER, CONSUMED, m.createdAt, m.updatedAt, None, None)
  }

  /** `ownerAsInvitations`: one entry per OWNER member of the workspace. */
  function OwnerListings(members: seq<Member>, users: seq<User>, workspaceId: Id): (r: seq<Listing>)
    ensures |r| <= |members|
    ensures forall l :: l in r ==> l.role == OWNER && l.status == CONSUMED && l.expiresAt.None? && l.token.None?
  {
    if |members| == 0 then []
    else
      var m := members[0];
      var rest := OwnerListings(members[1..], users, workspaceId);
      if ListedOwner(users, workspaceId)(m) then [OwnerListingOf(users, m)] + rest else rest
  }

  /** The owner entries are, in store order, exactly the OWNER memberships of
      the workspace whose user exists, each named `owner-<userId>` and
      carrying the user's email and the membership's timestamps. */
  lemma {:induction false} OwnerListingsMeaning(members: seq<Member>, users: seq<User>, workspaceId: Id)
    ensures var r := OwnerListings(members, users, workspaceId);
      var owners := Query.Filter(members, ListedOwner(users, workspaceId));
      && |r| == |owners|
      && forall k :: 0 <= k < |r| ==>
           && ListedOwner(users, workspaceId)(owners[k])
           && r[k] == OwnerListingOf(users, owners[k])
  {
    if |members| > 0 {
      var listed := ListedOwner(users, workspaceId);
      var m := members[0];
      var r := OwnerListings(members, users, workspaceId);
      var rest := OwnerListings(members[1..], users, workspaceId);
      var owners := Query.Filter(members, listed);
      var restOwners := Query.Filter(members[1..], listed);
      OwnerListingsMeaning(members[1..], users, workspaceId);
      if listed(m) {
        assert owners == [m] + restOwners;
        assert r == [OwnerListingOf(users, m)] + rest;
        forall k | 0 <= k < |r| ensures listed(owners[k]) && r[k] == OwnerListingOf(users, owners[k]) {
          if k > 0 {
            assert r[k] == rest[k - 1] && owners[k] == restOwners[k - 1];
          }
        }
      } else {
        assert owners == restOwners;
        assert r == rest;
      }
    }
  }

  /** The `filter` over the workspace's invitations: no cancelled ones, and a
      consumed one only while its email still belongs to a member. */
  predicate Shown(t: Tables, workspaceId: Id, i: Invitation) {
    && i.workspaceId == workspaceId
    && i.status != CANCELLED
    && (i.status == CONSUMED ==> IsMemberEmail(t, workspaceId, i.email))
  }

  function ListingOf(i: Invitation): Listing {
    Listing(i.id, i.email, i.role, i.status, i.createdAt, i.updatedAt, Some(i.expiresAt), Some(i.token))
  }

  /** `otherInvitations`, in store order. */
  function OtherListings(t: Tables, workspaceId: Id): (r: seq<Listing>)
    ensures |r| == |Query.Filter(t.invitations, (i: Invitation) => Shown(t, workspaceId, i))|
    ensures forall k :: 0 <= k < |r| ==> r[k] == ListingOf(Query.Filter(t.invitations, (i: Invitation) => Shown(t, workspaceId, i))[k])
  {
    var shown := Query.Filter(t.invitations, (i: Invitation) => Shown(t, workspaceId, i));
    seq(|shown|, k requires 0 <= k < |shown| => ListingOf(shown[k]))
  }

  /** `statusOrder`, with 99 for a status it does not name. */
  function StatusRank(s: InvitationStatus): int {
    match s
    case CONSUMED => 0
    case PENDING => 1
    case EXPIRED => 2
    case CANCELLED => 99
  }

  /** `roleOrder`, with 99 for a role it does not name. */
  function InviteeRoleRank(r: Role): int {
    match r
    case ADMIN => 1
    case MEMBER => 2
    case VIEWER => 3
    case OWNER => 99
  }

  predicate StatusLe(a: Listing, b: Listing) { StatusRank(a.status) <= StatusRank(b.status) }
  predicate OldestFirst(a: Listing, b: Listing) { a.createdAt <= b.createdAt }
  predicate NewestFirst(a: Listing, b: Listing) { a.createdAt >= b.createdAt }
  predicate RoleLe(a: Listing, b: Listing) { InviteeRoleRank(a.role) <= InviteeRoleRank(b.role) }

  lemma OrdersAreTotalPreorders()
    ensures Sorting.TotalPreorder(StatusLe) && Sorting.TotalPreorder(OldestFirst)
    ensures Sorting.TotalPreorder(NewestFirst) && Sorting.TotalPreorder(RoleLe)
  {
  }

  /** The sort `sortBy` asks for; any other value leaves the order alone. */
  function Arrange(entries: seq<Listing>, sortBy: string): (r: seq<Listing>)
    ensures multiset(r) == multiset(entries)
    ensures sortBy !in {"status", "asc", "desc", "role"} ==> r == entries
  {
    if sortBy == "status" then Sorting.Sort(entries, StatusLe)
    else if sortBy == "asc" then Sorting.Sort(entries, OldestFirst)
    else if sortBy == "desc" then Sorting.Sort(entries, NewestFirst)
    else if sortBy == "role" then Sorting.Sort(entries, RoleLe)
    else entries
  }

  /** What `findAll` returns, over the store after the sweep. */
  function ListInvitations(t: Tables, workspaceId: Id, sortBy: string): seq<Listing> {
    OwnerListings(t.members, t.users, workspaceId) + Arrange(OtherListings(t, workspaceId), sortBy)
  }

  /** `findAll`: ADMIN or OWNER; the sweep; then the listing. A missing
      `sortBy` means `status`. */
  method FindAll(db: Store, userId: Id, workspaceId: Id, sortBy: Option<string>, now: Time)
    returns (r: Result<seq<Listing>>)
    modifies db
    ensures Workspaces.ValidateUserRole(old(db.members), workspaceId, userId, [ADMIN, OWNER]).Err? ==>
      r == Err(Workspaces.ValidateUserRole(old(db.members), workspaceId, userId, [ADMIN, OWNER]).error)
      && db.Snapshot() == old(db.Snapshot())
    ensures Workspaces.ValidateUserRole(old(db.members), workspaceId, userId, [ADMIN, OWNER]).Ok? ==>
      && db.Snapshot() == old(db.Snapshot()).(invitations := Sweep(old(db.invitations), workspaceId, now))
      && r == Ok(ListInvitations(db.Snapshot(), workspaceId, if sortBy.Some? then sortBy.value else "status"))
  {
    var check := Workspaces.ValidateUserRole(db.members, workspaceId, userId, [ADMIN, OWNER]);
    if check.Err? {
      return Err(check.error);
    }
    db.invitations := Sweep(db.invitations, workspaceId, now);
    var key := if sortBy.Some? then sortBy.value else "status";
    return Ok(ListInvitations(db.Snapshot(), workspaceId, key));
  }

  /** Every entry after the owners lists a shown invitation. */
  lemma ArrangedAreShown(t: Tables, workspaceId: Id, sortBy: string)
    ensures var tail := Arrange(OtherListings(t, workspaceId), sortBy);
      forall k :: 0 <= k < |tail| ==>
        exists i :: i in t.invitations && Shown(t, workspaceId, i) && tail[k] == ListingOf(i)
  {
    var others := OtherListings(t, workspaceId);
    var shown := Query.Filter(t.invitations, (i: Invitation) => Shown(t, workspaceId, i));
    var tail := Arrange(others, sortBy);
    forall k | 0 <= k < |tail|
      ensures exists i :: i in t.invitations && Shown(t, workspaceId, i) && tail[k] == ListingOf(i)
    {
      assert tail[k] in multiset(others);
      var m :| 0 <= m < |others| && others[m] == tail[k];
      assert shown[m] in t.invitations && Shown(t, workspaceId, shown[m]);
    }
  }

  /** Every shown invitation is listed after the owners. */
  lemma ShownAreArranged(t: Tables, workspaceId: Id, sortBy: string)
    ensures var tail := Arrange(OtherListings(t, workspaceId), sortBy);
      forall j :: 0 <= j < |t.invitations| && Shown(t, workspaceId, t.invitations[j]) ==>
        ListingOf(t.invitations[j]) in tail
  {
    var others := OtherListings(t, workspaceId);
    var shown := Query.Filter(t.invitations, (i: Invitation) => Shown(t, workspaceId, i));
    var tail := Arrange(others, sortBy);
    forall j | 0 <= j < |t.invitations| && Shown(t, workspaceId, t.invitations[j])
      ensures ListingOf(t.invitations[j]) in tail
    {
      var i := t.invitations[j];
      assert i in shown;
      var m :| 0 <= m < |shown| && shown[m] == i;
      assert others[m] == ListingOf(i);
      assert ListingOf(i) in multiset(tail);
    }
  }

  /** The listing starts with the owners; after them come exactly the shown
      invitations of the workspace, each as often as the store holds it. */
  lemma ListInvitationsContents(t: Tables, workspaceId: Id, sortBy: string)
    ensures var r := ListInvitations(t, workspaceId, sortBy);
      var owners := OwnerListings(t.members, t.users, workspaceId);
      && r[..|owners|] == owners
      && (forall k :: |owners| <= k < |r| ==>
            exists i :: i in t.invitations && Shown(t, workspaceId, i) && r[k] == ListingOf(i))
      && (forall j :: 0 <= j < |t.invitations| && Shown(t, workspaceId, t.invitations[j]) ==>
            ListingOf(t.invitations[j]) in r[|owners|..])
      && multiset(r[|owners|..]) == multiset(OtherListings(t, workspaceId))
  {
    var r := ListInvitations(t, workspaceId, sortBy);
    var owners := OwnerListings(t.members, t.users, workspaceId);
    var tail := Arrange(OtherListings(t, workspaceId), sortBy);
    ArrangedAreShown(t, workspaceId, sortBy);
    ShownAreArranged(t, workspaceId, sortBy);
    assert r == owners + tail;
    assert r[|owners|..] == tail;
    forall k | |owners| <= k < |r|
      ensures exists i :: i in t.invitations && Shown(t, workspaceId, i) && r[k] == ListingOf(i)
    {
      assert r[k] == tail[k - |owners|];
    }
  }

  /** After the owners, the entries follow the order `sortBy` names. */
  lemma ListInvitationsOrder(t: Tables, workspaceId: Id, sortBy: string)
    ensures var r := ListInvitations(t, workspaceId, sortBy);
      var n := |OwnerListings(t.members, t.users, workspaceId)|;
      forall i, j :: n <= i < j < |r| ==>
        && (sortBy == "status" ==> StatusRank(r[i].status) <= StatusRank(r[j].status))
        && (sortBy == "asc" ==> r[i].createdAt <= r[j].createdAt)
        && (sortBy == "desc" ==> r[i].createdAt >= r[j].createdAt)
        && (sortBy == "role" ==> InviteeRoleRank(r[i].role) <= InviteeRoleRank(r[j].role))
  {
    var r := ListInvitations(t, workspaceId, sortBy);
    var owners := OwnerListings(t.members, t.users, workspaceId);
    var others := OtherListings(t, workspaceId);
    var tail := Arrange(others, sortBy);
    var n := |owners|;
    assert r == owners + tail;
    OrdersAreTotalPreorders();
    if sortBy == "status" {
      Sorting.SortSorted(others, StatusLe);
      forall i, j | n <= i < j < |r| ensures StatusRank(r[i].status) <= StatusRank(r[j].status) {
        assert StatusLe(tail[i - n], tail[j - n]);
      }
    } else if sortBy == "asc" {
      Sorting.SortSorted(others, OldestFirst);
      forall i, j | n <= i < j < |r| ensures r[i].createdAt <= r[j].createdAt {
        assert OldestFirst(tail[i - n], tail[j - n]);
      }
    } else if sortBy == "desc" {
      Sorting.SortSorted(others, NewestFirst);
      forall i, j | n <= i < j < |r| ensures r[i].createdAt >= r[j].createdAt {
        assert NewestFirst(tail[i - n], tail[j - n]);
      }
    } else if sortBy == "role" {
      Sorting.SortSorted(others, RoleLe);
      forall i, j | n <= i < j < |r| ensures InviteeRoleRank(r[i].role) <= InviteeRoleRank(r[j].role) {
        assert RoleLe(tail[i - n], tail[j - n]);
      }
    }
  }

  /** After the sweep no pending invitation of the workspace is listed with an
      expiry in the past. */
  lemma NoStalePendingListed(t: Tables, workspaceId: Id, now: Time, sortBy: string)
    ensures var swept := t.(invitations := Sweep(t.invitations, workspaceId, now));
      var r := ListInvitations(swept, workspaceId, sortBy);
      forall l :: l in r && l.status == PENDING ==> l.expiresAt.Some? && l.expiresAt.value >= now
  {
    var swept := t.(invitations := Sweep(t.invitations, workspaceId, now));
    var r := ListInvitations(swept, workspaceId, sortBy);
    var n := |OwnerListings(swept.members, swept.users, workspaceId)|;
    ListInvitationsContents(swept, workspaceId, sortBy);
    forall k | 0 <= k < n ensures r[k].status == CONSUMED {
      assert r[k] == r[..n][k];
    }
    forall l | l in r && l.status == PENDING ensures l.expiresAt.Some? && l.expiresAt.value >= now {
      var k :| 0 <= k < |r| && r[k] == l;
      if k >= n {
        var i :| i in swept.invitations && Shown(swept, workspaceId, i) && r[k] == ListingOf(i);
        var j :| 0 <= j < |swept.invitations| && swept.invitations[j] == i;
        assert !Stale(workspaceId, now, swept.invitations[j]);
      }
    }
  }

  // ---- cancel or remove ----

  /** `workspaceMember.findFirst` of a non-owner member with that email. */
  function RemovableMember(t: Tables, workspaceId: Id, email: string): (r: Option<Member>)
    ensures r.Some? ==> r.value in t.members && r.value.workspaceId == workspaceId
                        && HasEmail(t.users, r.value, email) && r.value.role != OWNER
    ensures r.None? <==> forall j :: 0 <= j < |t.members| ==>
      !(t.members[j].workspaceId == workspaceId && HasEmail(t.users, t.members[j], email) && t.members[j].role != OWNER)
  {
    match Query.FindFirst(t.members, (m: Member) =>
      m.workspaceId == workspaceId && HasEmail(t.users, m, email) && m.role != OWNER)
    case None => None
    case Some(k) => Some(t.members[k])
  }

  /** `workspaceInvitation.findFirst` of a pending or expired non-owner
      invitation for that email. */
  function CancellableInvitation(invitations: seq<Invitation>, workspaceId: Id, email: string): (r: Option<Invitation>)
    ensures r.Some? ==> r.value in invitations && r.value.workspaceId == workspaceId && r.value.email == email
                        && (r.value.status == PENDING || r.value.status == EXPIRED) && r.value.role != OWNER
    ensures r.None? <==> forall j :: 0 <= j < |invitations| ==>
      !(invitations[j].workspaceId == workspaceId && invitations[j].email == email
        && (invitations[j].status == PENDING || invitations[j].status == EXPIRED) && invitations[j].role != OWNER)
  {
    match Query.FindFirst(invitations, (i: Invitation) =>
      i.workspaceId == workspaceId && i.email == email && (i.status == PENDING || i.status == EXPIRED)
      && i.role != OWNER)
    case None => None
    case Some(k) => Some(invitations[k])
  }

  predicate ConsumedFor(workspaceId: Id, email: string, i: Invitation) {
    i.workspaceId == workspaceId && i.email == email && i.status == CONSUMED
  }

  /** The store after the removal transaction: the member row deleted, and
      the consumed invitations of that email marked CANCELLED. */
  function Unjoined(t: Tables, workspaceId: Id, email: string, m: Member): Tables {
    t.(members := Query.DeleteWhere(t.members, (x: Member) => x.id == m.id),
       invitations := Query.UpdateWhere(t.invitations, (i: Invitation) => ConsumedFor(workspaceId, email, i),
                                        WithStatus(CANCELLED)))
  }

  /** With member ids unique, the removal takes out that one member and keeps
      every other, owners included; the email's consumed invitations in the
      workspace become CANCELLED and no other invitation changes. */
  lemma UnjoinedMeaning(t: Tables, workspaceId: Id, email: string, m: Member)
    requires m in t.members && m.role != OWNER
    requires forall i, j :: 0 <= i < |t.members| && 0 <= j < |t.members| && t.members[i].id == t.members[j].id ==> i == j
    ensures var u := Unjoined(t, workspaceId, email, m);
      && m !in u.members
      && (forall j :: 0 <= j < |t.members| && t.members[j] != m ==> t.members[j] in u.members)
      && (forall j :: 0 <= j < |t.members| && t.members[j].role == OWNER ==> t.members[j] in u.members)
      && |u.invitations| == |t.invitations|
      && (forall j :: 0 <= j < |t.invitations| ==>
            u.invitations[j] == if ConsumedFor(workspaceId, email, t.invitations[j])
                                then t.invitations[j].(status := CANCELLED) else t.invitations[j])
  {
  }

  datatype Removal = MemberRemoved | InvitationCanceled

  /** `cancelOrRemove`: ADMIN or OWNER, not oneself; a non-owner member with
      that email is removed (the log written after the transaction), else a
      pending or expired invitation for it is cancelled, else not found. */
  method CancelOrRemove(db: Store, user: User, workspaceId: Id, email: string) returns (r: Result<Removal>)
    modifies db
    ensures r.Err? ==> db.Snapshot() == old(db.Snapshot())
    ensures Workspaces.ValidateUserRole(old(db.members), workspaceId, user.id, [ADMIN, OWNER]).Err? ==>
      r == Err(Workspaces.ValidateUserRole(old(db.members), workspaceId, user.id, [ADMIN, OWNER]).error)
    ensures Workspaces.ValidateUserRole(old(db.members), workspaceId, user.id, [ADMIN, OWNER]).Ok? ==>
      var member := RemovableMember(old(db.Snapshot()), workspaceId, email);
      var invitation := CancellableInvitation(old(db.invitations), workspaceId, email);
      && (user.email == email ==> r == Err(BadRequest(CannotRemoveYourself)))
      && (user.email != email && member.Some? ==>
            && r == Ok(MemberRemoved)
            && db.Snapshot() == Unjoined(old(db.Snapshot()), workspaceId, email, member.value).(
                 activities := old(db.activities) + [Activity(MEMBER_REMOVED, user.id, Some(workspaceId), None,
                                                              Some(email), None)]))
      && (user.email != email && member.None? && invitation.Some? ==>
            && r == Ok(InvitationCanceled)
            && db.Snapshot() == old(db.Snapshot()).(
                 invitations := Query.UpdateWhere(old(db.invitations), HasId(invitation.value.id), WithStatus(CANCELLED)),
                 activities := old(db.activities) + [Activity(INVITATION_CANCELED, user.id, Some(workspaceId), None,
                                                              Some(invitation.value.email), None)]))
      && (user.email != email && member.None? && invitation.None? ==>
            r == Err(NotFound(MemberOrInvitationNotFound)))
  {
    var check := Workspaces.ValidateUserRole(db.members, workspaceId, user.id, [ADMIN, OWNER]);
    if check.Err? {
      return Err(check.error);
    }
    if user.email == email {
      return Err(BadRequest(CannotRemoveYourself));
    }
    var existingMember := RemovableMember(db.Snapshot(), workspaceId, email);
    if existingMember.Some? {
      var after := Unjoined(db.Snapshot(), workspaceId, email, existingMember.value);
      db.Replace(after);
      db.Log(Activity(MEMBER_REMOVED, user.id, Some(workspaceId), None, Some(email), None));
      return Ok(MemberRemoved);
    }
    var invitation := CancellableInvitation(db.invitations, workspaceId, email);
    if invitation.Some? {
      db.invitations := Query.UpdateWhere(db.invitations, HasId(invitation.value.id), WithStatus(CANCELLED));
      db.Log(Activity(INVITATION_CANCELED, user.id, Some(workspaceId), None, Some(invitation.value.email), None));
      return Ok(InvitationCanceled);
    }
    return Err(NotFound(MemberOrInvitationNotFound));
  }

  // ---- token check ----

  /** What `validateToken` reports; the workspace is named by its id here,
      its name being a join on that id. */
  datatype TokenInfo = TokenInfo(email: string, workspaceId: Id, role: Role)

  /** `validateToken`: found, not expired, not consumed. Neither a cancelled
      nor an expired-status invitation is refused. The token is the
      unvalidated query parameter: when it is missing, `findUnique` rejects
      the undefined key and the request fails with an internal error. */
  function ValidateToken(t: Tables, token: Option<string>, now: Time): (r: Result<TokenInfo>)
    ensures r == Err(InternalServerError(MissingUniqueKey)) <==> token.None?
    ensures r == Err(NotFound(InvitationNotFound)) <==> token.Some? && FindByToken(t.invitations, token.value).None?
    ensures r == Err(BadRequest(TokenExpired)) <==>
      token.Some? && FindByToken(t.invitations, token.value).Some?
      && FindByToken(t.invitations, token.value).value.expiresAt < now
    ensures r == Err(Conflict(TokenAlreadyUsed)) <==>
      token.Some? &&
      var i := FindByToken(t.invitations, token.value);
      i.Some? && i.value.expiresAt >= now && i.value.status == CONSUMED
    ensures r.Ok? <==>
      token.Some? &&
      var i := FindByToken(t.invitations, token.value);
      i.Some? && i.value.expiresAt >= now && i.value.status != CONSUMED
    ensures r.Ok? ==>
      var i := FindByToken(t.invitations, token.value).value;
      r.value == TokenInfo(i.email, i.workspaceId, i.role)
  {
    if token.None? then Err(InternalServerError(MissingUniqueKey))
    else
      match FindByToken(t.invitations, token.value)
      case None => Err(NotFound(InvitationNotFound))
      case Some(invitation) =>
        if invitation.expiresAt < now then Err(BadRequest(TokenExpired))
        else if invitation.status == CONSUMED then Err(Conflict(TokenAlreadyUsed))
        else Ok(TokenInfo(invitation.email, invitation.workspaceId, invitation.role))
  }

  /** The token check is weaker than acceptance: every token `accept` lets
      through passes it, while a cancelled (or expired-status) invitation
      within its lifetime passes it and is still refused by `accept`. */
  lemma ValidateTokenWeakerThanAccept(t: Tables, token: string, user: User, now: Time)
    ensures AcceptCheck(t, token, user, now).Ok? ==> ValidateToken(t, Some(token), now).Ok?
    ensures var i := FindByToken(t.invitations, token);
      i.Some? && i.value.expiresAt >= now && (i.value.status == CANCELLED || i.value.status == EXPIRED) ==>
        ValidateToken(t, Some(token), now).Ok? && AcceptCheck(t, token, user, now) == Err(Conflict(InvitationNoLongerValid))
  {
  }
}
