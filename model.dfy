/** The rows the services read and write, and the store that holds them.

    The relational store behind `PrismaService` is modelled as one object
    whose tables are sequences of rows in insertion order. The services
    themselves keep no state: each service operation is a method that takes
    the store and says, in its postcondition, what every table holds
    afterwards. Ids, tokens and timestamps are plain values chosen by the
    caller (the store and the random generator choose them in the source). */
module Model {
  import opened Common
  import DiffUtils

  type Id = string

  /** Milliseconds since the epoch. */
  type Time = int

  datatype Role = OWNER | ADMIN | MEMBER | VIEWER

  datatype InvitationStatus = PENDING | CONSUMED | EXPIRED | CANCELLED

  datatype Visibility = PUBLIC | WORKSPACE | PRIVATE

  datatype ActivityType =
    | WORKSPACE_CREATED | WORKSPACE_UPDATED | WORKSPACE_DELETED
    | BOARD_CREATED | BOARD_UPDATED | BOARD_DELETED
    | INVITATION_SENT | INVITATION_REFRESHED | INVITATION_CANCELED
    | MEMBER_ADDED | MEMBER_REMOVED

  /** An account; `password` and the refresh token are bcrypt hashes. */
  datatype User = User(
    id: Id,
    email: string,
    username: string,
    password: Option<string>,
    isEmailVerified: bool,
    emailVerificationToken: Option<string>,
    emailVerificationExpiresAt: Option<Time>,
    passwordResetToken: Option<string>,
    passwordResetExpiresAt: Option<Time>,
    hashedRefreshToken: Option<string>,
    lastLoginAt: Option<Time>)

  datatype Workspace = Workspace(
    id: Id, name: string, slug: string, description: Option<string>, createdAt: Time)

  datatype Member = Member(
    id: Id, workspaceId: Id, userId: Id, role: Role, createdAt: Time, updatedAt: Time)

  datatype Invitation = Invitation(
    id: Id,
    workspaceId: Id,
    email: string,
    role: Role,
    token: string,
    status: InvitationStatus,
    invitedById: Id,
    createdAt: Time,
    updatedAt: Time,
    expiresAt: Time)

  datatype Board = Board(
    id: Id,
    workspaceId: Id,
    name: string,
    description: Option<string>,
    color: Option<string>,
    visibility: Visibility,
    createdAt: Time)

  datatype BoardMember = BoardMember(boardId: Id, userId: Id)

  /** One audit record: what was done, by whom, where, to which email, and the
      field diff of an update. */
  datatype Activity = Activity(
    action: ActivityType,
    userId: Id,
    workspaceId: Option<Id>,
    boardId: Option<Id>,
    target: Option<string>,
    fieldChanges: Option<seq<DiffUtils.KeyDiff>>)

  /** The contents of every table at one instant. */
  datatype Tables = Tables(
    users: seq<User>,
    workspaces: seq<Workspace>,
    members: seq<Member>,
    invitations: seq<Invitation>,
    boards: seq<Board>,
    boardMembers: seq<BoardMember>,
    activities: seq<Activity>)

  class Store {
    var users: seq<User>
    var workspaces: seq<Workspace>
    var members: seq<Member>
    var invitations: seq<Invitation>
    var boards: seq<Board>
    var boardMembers: seq<BoardMember>
    var activities: seq<Activity>

    /** An empty store. */
    constructor ()
      ensures Snapshot() == Tables([], [], [], [], [], [], [])
    {
      users, workspaces, members, invitations := [], [], [], [];
      boards, boardMembers, activities := [], [], [];
    }

    function Snapshot(): Tables
      reads this
    {
      Tables(users, workspaces, members, invitations, boards, boardMembers, activities)
    }

    /** Every table replaced at once. */
    method Replace(t: Tables)
      modifies this
      ensures Snapshot() == t
    {
      users, workspaces, members, invitations := t.users, t.workspaces, t.members, t.invitations;
      boards, boardMembers, activities := t.boards, t.boardMembers, t.activities;
    }

    /** `activitiesService.log`: one record appended, nothing else touched. */
    method Log(a: Activity)
      modifies this
      ensures Snapshot() == old(Snapshot()).(activities := old(activities) + [a])
    {
      activities := activities + [a];
    }
  }

  // ---- lookups shared by the services ----

  /** The email of user `userId`, if that user exists (`member.user.email`). */
  function EmailOf(users: seq<User>, userId: Id): (e: Option<string>)
    ensures e.Some? <==> exists j :: 0 <= j < |users| && users[j].id == userId
    ensures e.Some? ==> exists j :: 0 <= j < |users| && users[j].id == userId && users[j].email == e.value
  {
    if |users| == 0 then None
    else if users[0].id == userId then Some(users[0].email)
    else EmailOf(users[1..], userId)
  }

  /** `member.user.email === email`, for a member row whose user exists. */
  predicate HasEmail(users: seq<User>, m: Member, email: string) {
    EmailOf(users, m.userId) == Some(email)
  }
}
