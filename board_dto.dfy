/** `CreateBoardDto` (src/boards/dto/create-board.dto.ts): the request body of
    board creation, as class-validator checks it. `@IsHexColor` is a library
    check and is taken as a parameter. `color` and `visibility` carry no
    `@IsOptional`, so a missing value fails their check: both are required.
    The description rule is the workspace body's one. */
module BoardDto {
  import opened Common
  import opened Model
  import WorkspaceDto

  function VisibilityName(v: Visibility): string {
    match v
    case PUBLIC => "PUBLIC"
    case WORKSPACE => "WORKSPACE"
    case PRIVATE => "PRIVATE"
  }

  /** `@IsIn(['PUBLIC', 'WORKSPACE', 'PRIVATE'])`: the visibility a value names. */
  function ParseVisibility(v: Input): (r: Option<Visibility>)
    ensures r.Some? ==> v == Text(VisibilityName(r.value))
  {
    match v
    case Text("PUBLIC") => Some(PUBLIC)
    case Text("WORKSPACE") => Some(WORKSPACE)
    case Text("PRIVATE") => Some(PRIVATE)
    case _ => None
  }

  /** Every visibility is accepted under its own name. */
  lemma ParseVisibilityName(v: Visibility)
    ensures ParseVisibility(Text(VisibilityName(v))) == Some(v)
  {
  }

  /** `name`: `@IsString`, `@IsNotEmpty`, `@MinLength(3)`, `@MaxLength(100)`. */
  function IsValidBoardName(name: Input): (ok: bool)
    ensures ok <==> name.Text? && 3 <= |name.s| <= 100
  {
    name.Text? && name.s != "" && 3 <= |name.s| && |name.s| <= 100
  }

  /** `workspaceId`: `@IsString`, `@IsNotEmpty`. */
  function IsValidWorkspaceId(workspaceId: Input): (ok: bool)
    ensures ok <==> workspaceId.Text? && |workspaceId.s| > 0
  {
    match workspaceId
    case NotText => false
    case Text(s) => s != ""
  }

  /** The whole body is accepted; a missing `color` or `visibility` is `None`. */
  function IsValidCreateBoard(name: Input, workspaceId: Input, description: Option<Input>,
                              color: Option<Input>, visibility: Option<Input>,
                              isHexColor: string -> bool): (ok: bool)
    ensures ok ==> color.Some? && visibility.Some?
    ensures ok ==> ParseVisibility(visibility.value).Some?
    ensures ok <==>
      && name.Text? && 3 <= |name.s| <= 100
      && workspaceId.Text? && |workspaceId.s| > 0
      && WorkspaceDto.IsValidDescription(description)
      && color.Some? && color.value.Text? && isHexColor(color.value.s)
      && visibility.Some? && visibility.value in {Text("PUBLIC"), Text("WORKSPACE"), Text("PRIVATE")}
  {
    && IsValidBoardName(name)
    && IsValidWorkspaceId(workspaceId)
    && WorkspaceDto.IsValidDescription(description)
    && (match color case Some(Text(c)) => isHexColor(c) case _ => false)
    && visibility.Some? && ParseVisibility(visibility.value).Some?
  }
}
