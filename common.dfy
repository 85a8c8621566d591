/** Values shared by every service: optional values, results carrying the
    HTTP exception the NestJS services throw, and "key present in the request
    body" markers for partial update DTOs. */
module Common {

  datatype Option<+T> = None | Some(value: T)

  /** Why a request was refused; one case per distinct exception message. */
  datatype Why =
    // authorization
    | NotMemberOrMissing
    | NoPermission
    // workspaces
    | WorkspaceLimitReached
    | DuplicateWorkspaceName
    | SlugExhausted
    | WorkspaceNotFound
    // boards
    | BoardLimitReached
    | BoardNotFound
    | BoardAccessDenied
    // invitations
    | EmailsCannotBeInvited(alreadyMember: seq<string>, alreadyInvited: seq<string>)
    | InvitationNotFound
    | InvitationNoLongerValid
    | InvitationExpired
    | InvitationNotForYou
    | AlreadyMember
    | CannotRemoveYourself
    | MemberOrInvitationNotFound
    | TokenExpired
    | TokenAlreadyUsed
    // authentication
    | EmailOrUsernameInUse
    | InvalidVerificationToken
    | InvalidTokenState
    | VerificationTokenExpired
    | VerificationEmailAlreadySent
    | InvalidCredentials
    | VerifyEmailFirst
    | EmailNotVerified
    | InvalidResetToken
    | SamePassword
    // the mailer has no transport configured
    | EmailTransporterMissing
    // the store: `findUniqueOrThrow`, `update` or `delete` found no row
    | RecordNotFound
    // the store: `findUnique` given an undefined unique key
    | MissingUniqueKey
    // the store: a write names a parent row that does not exist
    | ForeignKeyViolation

  /** The NestJS exception class a failure is reported with. */
  datatype Error =
    | NotFound(why: Why)
    | Forbidden(why: Why)
    | Conflict(why: Why)
    | BadRequest(why: Why)
    | Unauthorized(why: Why)
    | InternalServerError(why: Why)

  datatype Result<+T> = Ok(value: T) | Err(error: Error)

  /** A value received from the request body, of which the validators only
      care whether it is a string. */
  datatype Input = Text(s: string) | NotText

  /** A key of a partial update body: absent, or present with a value. */
  datatype Field<+T> = Absent | Present(value: T)
}
