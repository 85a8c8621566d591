/** `BoardsService` (src/boards/boards.service.ts): who may see a board, and
    board creation, listing, update and deletion. */
module Boards {
  import opened Common
  import opened Model
  import Query
  import Sorting
  import DiffUtils
  import BoardDto
  import Workspaces

  /** `board.findUnique({ where: { id } })`. */
  function FindBoard(boards: seq<Board>, id: Id): (r: Option<Board>)
    ensures r.Some? ==> r.value in boards && r.value.id == id
    ensures r.None? <==> forall j :: 0 <= j < |boards| ==> boards[j].id != id
  {
    match Query.FindFirst(boards, (b: Board) => b.id == id)
    case None => None
    case Some(k) => Some(boards[k])
  }

  /** A `boardMember` row ties the user to the board. */
  predicate OnBoard(boardMembers: seq<BoardMember>, boardId: Id, userId: Id) {
    exists j :: 0 <= j < |boardMembers| && boardMembers[j].boardId == boardId && boardMembers[j].userId == userId
  }

  /** `boardMember.findUnique({ boardId_userId })` found a row. */
  function FindBoardMember(boardMembers: seq<BoardMember>, boardId: Id, userId: Id): (found: bool)
    ensures found <==> OnBoard(boardMembers, boardId, userId)
  {
    Query.FindFirst(boardMembers, (bm: BoardMember) => bm.boardId == boardId && bm.userId == userId).Some?
  }

  /** Who may see board `b`: anyone when it is PUBLIC; otherwise a member of
      its workspace, and for a PRIVATE board only one with a board member row. */
  predicate MaySee(b: Board, members: seq<Member>, boardMembers: seq<BoardMember>, userId: Id) {
    b.visibility == PUBLIC
    || (Workspaces.BelongsTo(members, userId, b.workspaceId)
        && (b.visibility == WORKSPACE || OnBoard(boardMembers, b.id, userId)))
  }

  // ---- access ----

  /** `validateBoardAccess`: the board, if the user may see it. */
  function ValidateBoardAccess(t: Tables, boardId: Id, userId: Id): (r: Result<Board>)
    ensures r.Ok? ==> FindBoard(t.boards, boardId) == Some(r.value)
    ensures r.Ok? <==>
      FindBoard(t.boards, boardId).Some? && MaySee(FindBoard(t.boards, boardId).value, t.members, t.boardMembers, userId)
    ensures r == Err(NotFound(BoardNotFound)) <==> FindBoard(t.boards, boardId).None?
    ensures r == Err(NotFound(WorkspaceNotFound)) <==>
      && FindBoard(t.boards, boardId).Some?
      && FindBoard(t.boards, boardId).value.visibility != PUBLIC
      && !Workspaces.BelongsTo(t.members, userId, FindBoard(t.boards, boardId).value.workspaceId)
    ensures r == Err(Forbidden(BoardAccessDenied)) <==>
      && FindBoard(t.boards, boardId).Some?
      && FindBoard(t.boards, boardId).value.visibility == PRIVATE
      && Workspaces.BelongsTo(t.members, userId, FindBoard(t.boards, boardId).value.workspaceId)
      && !OnBoard(t.boardMembers, boardId, userId)
  {
    match FindBoard(t.boards, boardId)
    case None => Err(NotFound(BoardNotFound))
    case Some(board) =>
      if board.visibility == PUBLIC then Ok(board)
      else match Workspaces.ValidateUserIsMember(t.members, board.workspaceId, userId)
        case Err(e) => Err(e)
        case Ok(_) =>
          if board.visibility == WORKSPACE then Ok(board)
          else if FindBoardMember(t.boardMembers, boardId, userId) then Ok(board)
          else Err(Forbidden(BoardAccessDenied))
  }

  /** A PUBLIC board is returned without looking at any membership: its
      answer is the same whatever the member tables hold. */
  lemma PublicBoardIgnoresMembership(t: Tables, members: seq<Member>, boardMembers: seq<BoardMember>,
                                     boardId: Id, userId: Id)
    requires FindBoard(t.boards, boardId).Some? && FindBoard(t.boards, boardId).value.visibility == PUBLIC
    ensures ValidateBoardAccess(t, boardId, userId) == Ok(FindBoard(t.boards, boardId).value)
    ensures ValidateBoardAccess(t.(members := members, boardMembers := boardMembers), boardId, userId)
         == ValidateBoardAccess(t, boardId, userId)
  {
  }

  // ---- create ----

  function InWorkspace(workspaceId: Id): Board -> bool {
    (b: Board) => b.workspaceId == workspaceId
  }

  /** `board.count({ where: { workspaceId } })`. */
  function BoardCount(boards: seq<Board>, workspaceId: Id): (n: nat)
    ensures n <= |boards|
    ensures n == 0 <==> forall j :: 0 <= j < |boards| ==> boards[j].workspaceId != workspaceId
  {
    Query.Count(boards, InWorkspace(workspaceId))
  }

  /** `create`: OWNER or ADMIN of the workspace, fewer than ten boards in it;
      then the board and one `BOARD_CREATED` record, written together.
      `boardId` is the id the store assigns. */
  method Create(db: Store, userId: Id, workspaceId: Id, name: string, description: Option<string>,
                color: Option<string>, visibility: Visibility, boardId: Id, now: Time)
    returns (r: Result<Board>)
    modifies db
    ensures r.Err? ==> db.Snapshot() == old(db.Snapshot())
    ensures Workspaces.ValidateUserRole(old(db.members), workspaceId, userId, [OWNER, ADMIN]).Err? ==>
      r == Err(Workspaces.ValidateUserRole(old(db.members), workspaceId, userId, [OWNER, ADMIN]).error)
    ensures Workspaces.ValidateUserRole(old(db.members), workspaceId, userId, [OWNER, ADMIN]).Ok?
            && BoardCount(old(db.boards), workspaceId) >= 10 ==>
      r == Err(Forbidden(BoardLimitReached))
    ensures r.Ok? <==>
      Workspaces.ValidateUserRole(old(db.members), workspaceId, userId, [OWNER, ADMIN]).Ok?
      && BoardCount(old(db.boards), workspaceId) < 10
    ensures r.Ok? ==>
      && r.value == Board(boardId, workspaceId, name, description, color, visibility, now)
      && db.Snapshot() == old(db.Snapshot()).(
           boards := old(db.boards) + [r.value],
           activities := old(db.activities) + [Activity(BOARD_CREATED, userId, Some(workspaceId), Some(boardId), None, None)])
  {
    var check := Workspaces.ValidateUserRole(db.members, workspaceId, userId, [OWNER, ADMIN]);
    if check.Err? {
      return Err(check.error);
    }
    var boardCount := BoardCount(db.boards, workspaceId);
    if boardCount >= 10 {
      return Err(Forbidden(BoardLimitReached));
    }
    var board := Board(boardId, workspaceId, name, description, color, visibility, now);
    db.boards := db.boards + [board];
    db.Log(Activity(BOARD_CREATED, userId, Some(workspaceId), Some(board.id), None, None));
    return Ok(board);
  }

  /** A creation the quota lets through leaves at most ten boards in every
      workspace, if there were at most ten before. */
  lemma CreateKeepsQuota(boards: seq<Board>, b: Board)
    requires BoardCount(boards, b.workspaceId) < 10
    requires forall w :: BoardCount(boards, w) <= 10
    ensures forall w :: BoardCount(boards + [b], w) <= 10
  {
    forall w ensures BoardCount(boards + [b], w) <= 10 {
      var p := InWorkspace(w);
      Query.FilterAppend(boards, b, p);
      assert BoardCount(boards + [b], w) == |Query.Filter(boards + [b], p)|;
      assert BoardCount(boards, w) == |Query.Filter(boards, p)|;
    }
  }

  // ---- listing ----

  /** The `findMany` filter: a board of the workspace that is WORKSPACE or
      PUBLIC, or PRIVATE with a board member row for the user. */
  predicate Listed(b: Board, boardMembers: seq<BoardMember>, workspaceId: Id, userId: Id) {
    && b.workspaceId == workspaceId
    && (b.visibility == WORKSPACE || b.visibility == PUBLIC
        || (b.visibility == PRIVATE && OnBoard(boardMembers, b.id, userId)))
  }

  /** `orderBy: { createdAt: 'asc' }`. */
  predicate CreatedLe(a: Board, b: Board) { a.createdAt <= b.createdAt }

  lemma CreatedLeTotalPreorder()
    ensures Sorting.TotalPreorder(CreatedLe)
  {
  }

  /** `findAllInWorkspace`: membership check, then the listed boards, oldest
      first. */
  function FindAllInWorkspace(t: Tables, workspaceId: Id, userId: Id): (r: Result<seq<Board>>)
    ensures r.Err? <==> !Workspaces.BelongsTo(t.members, userId, workspaceId)
    ensures r.Err? ==> r.error == NotFound(WorkspaceNotFound)
    ensures r.Ok? ==> |r.value| <= |t.boards|
  {
    match Workspaces.ValidateUserIsMember(t.members, workspaceId, userId)
    case Err(e) => Err(e)
    case Ok(_) =>
      var listed := Query.Filter(t.boards, (b: Board) => Listed(b, t.boardMembers, workspaceId, userId));
      Ok(Sorting.Sort(listed, CreatedLe))
  }

  /** The list holds every listed board of the store and nothing else, each
      as often as the store holds it. */
  lemma FindAllInWorkspaceContents(t: Tables, workspaceId: Id, userId: Id)
    requires Workspaces.BelongsTo(t.members, userId, workspaceId)
    ensures var r := FindAllInWorkspace(t, workspaceId, userId).value;
      && (forall b :: b in r ==> b in t.boards && Listed(b, t.boardMembers, workspaceId, userId))
      && (forall j :: 0 <= j < |t.boards| && Listed(t.boards[j], t.boardMembers, workspaceId, userId)
            ==> t.boards[j] in r)
      && multiset(r) == multiset(Query.Filter(t.boards, (b: Board) => Listed(b, t.boardMembers, workspaceId, userId)))
  {
    var listed := Query.Filter(t.boards, (b: Board) => Listed(b, t.boardMembers, workspaceId, userId));
    var r := FindAllInWorkspace(t, workspaceId, userId).value;
    assert r == Sorting.Sort(listed, CreatedLe);
    assert multiset(r) == multiset(listed);
    forall b | b in r ensures b in t.boards && Listed(b, t.boardMembers, workspaceId, userId) {
      assert b in multiset(listed);
      var k :| 0 <= k < |listed| && listed[k] == b;
    }
    forall j | 0 <= j < |t.boards| && Listed(t.boards[j], t.boardMembers, workspaceId, userId)
      ensures t.boards[j] in r
    {
      assert t.boards[j] in listed;
      assert t.boards[j] in multiset(r);
    }
  }

  /** The list is ordered by creation time, oldest first. */
  lemma FindAllInWorkspaceOrder(t: Tables, workspaceId: Id, userId: Id)
    requires Workspaces.BelongsTo(t.members, userId, workspaceId)
    ensures var r := FindAllInWorkspace(t, workspaceId, userId).value;
      forall i, j :: 0 <= i < j < |r| ==> r[i].createdAt <= r[j].createdAt
  {
    var listed := Query.Filter(t.boards, (b: Board) => Listed(b, t.boardMembers, workspaceId, userId));
    var r := FindAllInWorkspace(t, workspaceId, userId).value;
    assert r == Sorting.Sort(listed, CreatedLe);
    CreatedLeTotalPreorder();
    Sorting.SortSorted(listed, CreatedLe);
    forall i, j | 0 <= i < j < |r| ensures r[i].createdAt <= r[j].createdAt {
      assert CreatedLe(r[i], r[j]);
    }
  }

  /** For a member of the workspace, the list and the access check agree: a
      board of the workspace is listed exactly when opening it is allowed. */
  lemma ListingAgreesWithAccess(t: Tables, workspaceId: Id, userId: Id, j: nat)
    requires Workspaces.BelongsTo(t.members, userId, workspaceId)
    requires j < |t.boards| && t.boards[j].workspaceId == workspaceId
    requires FindBoard(t.boards, t.boards[j].id) == Some(t.boards[j])
    ensures t.boards[j] in FindAllInWorkspace(t, workspaceId, userId).value
        <==> ValidateBoardAccess(t, t.boards[j].id, userId).Ok?
  {
    FindAllInWorkspaceContents(t, workspaceId, userId);
  }

  // ---- update ----

  /** The keys an update body may carry: every key of the creation body,
      each optional. */
  datatype UpdateBoardBody = UpdateBoardBody(
    name: Field<string>,
    workspaceId: Field<Id>,
    description: Field<Option<string>>,
    color: Field<Option<string>>,
    visibility: Field<Visibility>)

  /** `Object.keys(updateBoardDto)`. */
  function BodyKeys(body: UpdateBoardBody): (keys: seq<string>)
    ensures "name" in keys <==> body.name.Present?
    ensures "workspaceId" in keys <==> body.workspaceId.Present?
    ensures "description" in keys <==> body.description.Present?
    ensures "color" in keys <==> body.color.Present?
    ensures "visibility" in keys <==> body.visibility.Present?
    ensures "id" !in keys
  {
    (if body.name.Present? then ["name"] else [])
    + (if body.workspaceId.Present? then ["workspaceId"] else [])
    + (if body.description.Present? then ["description"] else [])
    + (if body.color.Present? then ["color"] else [])
    + (if body.visibility.Present? then ["visibility"] else [])
  }

  function Pick<T>(f: Field<T>, current: T): T {
    if f.Present? then f.value else current
  }

  /** The row after `board.update({ data: updateBoardDto })`: every given key
      overwrites its column, the others are kept. */
  function Applied(b: Board, body: UpdateBoardBody): (u: Board)
    ensures u.id == b.id && u.createdAt == b.createdAt
    ensures body.name.Absent? ==> u.name == b.name
    ensures body.name.Present? ==> u.name == body.name.value
    ensures body.workspaceId.Absent? ==> u.workspaceId == b.workspaceId
    ensures body.workspaceId.Present? ==> u.workspaceId == body.workspaceId.value
    ensures body.description.Absent? ==> u.description == b.description
    ensures body.description.Present? ==> u.description == body.description.value
    ensures body.color.Absent? ==> u.color == b.color
    ensures body.color.Present? ==> u.color == body.color.value
    ensures body.visibility.Absent? ==> u.visibility == b.visibility
    ensures body.visibility.Present? ==> u.visibility == body.visibility.value
  {
    b.(name := Pick(body.name, b.name),
       workspaceId := Pick(body.workspaceId, b.workspaceId),
       description := Pick(body.description, b.description),
       color := Pick(body.color, b.color),
       visibility := Pick(body.visibility, b.visibility))
  }

  /** The row as the diff sees it; `createdAt` is a `Date` no update key
      names, so it is left out. */
  function BoardJson(b: Board): seq<DiffUtils.Entry> {
    [DiffUtils.Entry("id", DiffUtils.Str(b.id)),
     DiffUtils.Entry("workspaceId", DiffUtils.Str(b.workspaceId)),
     DiffUtils.Entry("name", DiffUtils.Str(b.name)),
     DiffUtils.Entry("description", Workspaces.OptionJson(b.description)),
     DiffUtils.Entry("color", Workspaces.OptionJson(b.color)),
     DiffUtils.Entry("visibility", DiffUtils.Str(BoardDto.VisibilityName(b.visibility)))]
  }

  lemma BoardJsonGet(b: Board)
    ensures DiffUtils.Get(BoardJson(b), "workspaceId") == DiffUtils.Str(b.workspaceId)
    ensures DiffUtils.Get(BoardJson(b), "name") == DiffUtils.Str(b.name)
    ensures DiffUtils.Get(BoardJson(b), "description") == Workspaces.OptionJson(b.description)
    ensures DiffUtils.Get(BoardJson(b), "color") == Workspaces.OptionJson(b.color)
    ensures DiffUtils.Get(BoardJson(b), "visibility") == DiffUtils.Str(BoardDto.VisibilityName(b.visibility))
  {
    var e := BoardJson(b);
    GetAt(e, 1, "workspaceId");
    GetAt(e, 2, "name");
    GetAt(e, 3, "description");
    GetAt(e, 4, "color");
    GetAt(e, 5, "visibility");
  }

  /** The keys of `BoardJson` are distinct, so each is found at its place. */
  lemma GetAt(e: seq<DiffUtils.Entry>, k: nat, key: string)
    requires |e| == 6 && k < 6 && e[k].key == key
    requires e[0].key == "id" && e[1].key == "workspaceId" && e[2].key == "name"
    requires e[3].key == "description" && e[4].key == "color" && e[5].key == "visibility"
    ensures DiffUtils.Get(e, key) == e[k].value
  {
    DiffUtils.GetFirst(e, k, key);
  }

  lemma VisibilityNameInjective(a: Visibility, b: Visibility)
    ensures BoardDto.VisibilityName(a) == BoardDto.VisibilityName(b) <==> a == b
  {
  }

  /** The logged diff holds, for each column of the body, the old and new
      value exactly when the key was sent and the column changed. */
  lemma UpdateDiffMeaning(before: Board, after: Board, keys: seq<string>)
    ensures var d := DiffUtils.DiffFields(BoardJson(before), BoardJson(after), keys);
      && (DiffUtils.Lookup(d, "name").Some? <==> "name" in keys && before.name != after.name)
      && (DiffUtils.Lookup(d, "workspaceId").Some? <==> "workspaceId" in keys && before.workspaceId != after.workspaceId)
      && (DiffUtils.Lookup(d, "description").Some? <==> "description" in keys && before.description != after.description)
      && (DiffUtils.Lookup(d, "color").Some? <==> "color" in keys && before.color != after.color)
      && (DiffUtils.Lookup(d, "visibility").Some? <==> "visibility" in keys && before.visibility != after.visibility)
      && (DiffUtils.Lookup(d, "name").Some? ==>
            DiffUtils.Lookup(d, "name").value == DiffUtils.FromTo(DiffUtils.Str(before.name), DiffUtils.Str(after.name)))
      && (DiffUtils.Lookup(d, "visibility").Some? ==>
            DiffUtils.Lookup(d, "visibility").value
            == DiffUtils.FromTo(DiffUtils.Str(BoardDto.VisibilityName(before.visibility)),
                                DiffUtils.Str(BoardDto.VisibilityName(after.visibility))))
  {
    var o, n := BoardJson(before), BoardJson(after);
    BoardJsonGet(before);
    BoardJsonGet(after);
    DiffUtils.ScalarFieldDiff(o, n, keys, "name");
    DiffUtils.ScalarFieldDiff(o, n, keys, "workspaceId");
    DiffUtils.ScalarFieldDiff(o, n, keys, "description");
    DiffUtils.ScalarFieldDiff(o, n, keys, "color");
    DiffUtils.ScalarFieldDiff(o, n, keys, "visibility");
    VisibilityNameInjective(before.visibility, after.visibility);
  }

  /** The body moves the board to a workspace the store does not hold; the
      board's foreign key then makes `board.update` throw, and the
      transaction writes nothing. */
  predicate TargetMissing(workspaces: seq<Workspace>, body: UpdateBoardBody) {
    body.workspaceId.Present? && Workspaces.FindWorkspace(workspaces, body.workspaceId.value).None?
  }

  /** `update`: access, then OWNER or ADMIN of the board's workspace; then
      the row update and one `BOARD_UPDATED` record carrying the diff over the
      body's keys, unless the new workspace does not exist. */
  method Update(db: Store, userId: Id, boardId: Id, body: UpdateBoardBody) returns (r: Result<Board>)
    modifies db
    ensures r.Err? ==> db.Snapshot() == old(db.Snapshot())
    ensures ValidateBoardAccess(old(db.Snapshot()), boardId, userId).Err? ==>
      r == Err(ValidateBoardAccess(old(db.Snapshot()), boardId, userId).error)
    ensures ValidateBoardAccess(old(db.Snapshot()), boardId, userId).Ok? ==>
      var before := ValidateBoardAccess(old(db.Snapshot()), boardId, userId).value;
      var role := Workspaces.ValidateUserRole(old(db.members), before.workspaceId, userId, [OWNER, ADMIN]);
      && (role.Err? ==> r == Err(role.error))
      && (role.Ok? && TargetMissing(old(db.workspaces), body) ==> r == Err(InternalServerError(ForeignKeyViolation)))
      && (role.Ok? && !TargetMissing(old(db.workspaces), body) ==>
            && r == Ok(Applied(before, body))
            && db.Snapshot() == old(db.Snapshot()).(
                 boards := Query.UpdateWhere(old(db.boards), (b: Board) => b.id == boardId,
                                             (b: Board) => Applied(b, body)),
                 activities := old(db.activities) + [Activity(BOARD_UPDATED, userId, Some(r.value.workspaceId),
                   Some(boardId), None, Some(DiffUtils.DiffFields(BoardJson(before), BoardJson(r.value), BodyKeys(body))))]))
  {
    var access := ValidateBoardAccess(db.Snapshot(), boardId, userId);
    if access.Err? {
      return Err(access.error);
    }
    var board := access.value;
    var check := Workspaces.ValidateUserRole(db.members, board.workspaceId, userId, [OWNER, ADMIN]);
    if check.Err? {
      return Err(check.error);
    }
    var existing := FindBoard(db.boards, boardId);
    if existing.None? {
      // `findUniqueOrThrow`; the access check found the row
      assert false;
      return Err(InternalServerError(RecordNotFound));
    }
    if TargetMissing(db.workspaces, body) {
      return Err(InternalServerError(ForeignKeyViolation));
    }
    var updated := Applied(existing.value, body);
    db.boards := Query.UpdateWhere(db.boards, (b: Board) => b.id == boardId, (b: Board) => Applied(b, body));
    var diff := DiffUtils.BuildFieldDiffDeep(BoardJson(existing.value), BoardJson(updated), BodyKeys(body));
    db.Log(Activity(BOARD_UPDATED, userId, Some(updated.workspaceId), Some(updated.id), None, Some(diff)));
    return Ok(updated);
  }

  // ---- remove ----

  /** The store after `board.delete`: the board goes, and with it its board
      member rows. */
  function DeleteBoard(t: Tables, boardId: Id): (u: Tables)
    ensures u.users == t.users && u.workspaces == t.workspaces && u.members == t.members
    ensures u.invitations == t.invitations && u.activities == t.activities
  {
    t.(boards := Query.DeleteWhere(t.boards, (b: Board) => b.id == boardId),
       boardMembers := Query.DeleteWhere(t.boardMembers, (bm: BoardMember) => bm.boardId == boardId))
  }

  /** No row of the board is left, and every other board and board member
      row is kept. */
  lemma DeleteBoardMeaning(t: Tables, boardId: Id)
    ensures var u := DeleteBoard(t, boardId);
      && FindBoard(u.boards, boardId).None?
      && (forall j :: 0 <= j < |u.boardMembers| ==> u.boardMembers[j].boardId != boardId)
      && (forall j :: 0 <= j < |t.boards| && t.boards[j].id != boardId ==> t.boards[j] in u.boards)
      && (forall j :: 0 <= j < |t.boardMembers| && t.boardMembers[j].boardId != boardId
            ==> t.boardMembers[j] in u.boardMembers)
      && (forall j :: 0 <= j < |u.boards| ==> u.boards[j] in t.boards)
  {
  }

  /** `remove`: access, then OWNER or ADMIN of the board's workspace; then
      one `BOARD_DELETED` record and the deletion, in one transaction. */
  method Remove(db: Store, userId: Id, boardId: Id) returns (r: Result<()>)
    modifies db
    ensures r.Err? ==> db.Snapshot() == old(db.Snapshot())
    ensures ValidateBoardAccess(old(db.Snapshot()), boardId, userId).Err? ==>
      r == Err(ValidateBoardAccess(old(db.Snapshot()), boardId, userId).error)
    ensures ValidateBoardAccess(old(db.Snapshot()), boardId, userId).Ok? ==>
      var board := ValidateBoardAccess(old(db.Snapshot()), boardId, userId).value;
      var role := Workspaces.ValidateUserRole(old(db.members), board.workspaceId, userId, [OWNER, ADMIN]);
      && (role.Err? ==> r == Err(role.error))
      && (role.Ok? ==>
            && r.Ok?
            && db.Snapshot() == DeleteBoard(old(db.Snapshot()), boardId).(
                 activities := old(db.activities)
                   + [Activity(BOARD_DELETED, userId, Some(board.workspaceId), Some(boardId), None, None)]))
  {
    var access := ValidateBoardAccess(db.Snapshot(), boardId, userId);
    if access.Err? {
      return Err(access.error);
    }
    var boardToDelete := access.value;
    var check := Workspaces.ValidateUserRole(db.members, boardToDelete.workspaceId, userId, [OWNER, ADMIN]);
    if check.Err? {
      return Err(check.error);
    }
    var after := DeleteBoard(db.Snapshot(), boardId);
    db.Log(Activity(BOARD_DELETED, userId, Some(boardToDelete.workspaceId), Some(boardToDelete.id), None, None));
    db.Replace(after.(activities := db.activities));
    return Ok(());
  }
}
