/** `CreateWorkspaceDto` (src/workspaces/dto/create-workspace.dto.ts): the
    request body of workspace creation, as class-validator checks it.

    The name pattern `^[a-zA-Z0-9]+(?: [a-zA-Z0-9]+)*$` is modelled as the
    automaton a regular-expression engine runs for it, and proved equal to the
    rules it is meant to state: ASCII letters, digits and single spaces, with
    no space at either end. */
module WorkspaceDto {
  import opened Common

  predicate IsAlnum(c: char) { ('a' <= c <= 'z') || ('A' <= c <= 'Z') || ('0' <= c <= '9') }

  // ---- the rules, stated one by one ----

  predicate OnlyAlnumOrSpace(s: string) { forall i :: 0 <= i < |s| ==> IsAlnum(s[i]) || s[i] == ' ' }

  predicate NoSpaceAtEnds(s: string) { |s| > 0 && s[0] != ' ' && s[|s| - 1] != ' ' }

  predicate NoDoubleSpace(s: string) {
    forall i :: 0 <= i < |s| - 1 ==> !(s[i] == ' ' && s[i + 1] == ' ')
  }

  ghost predicate NameRules(s: string) {
    && OnlyAlnumOrSpace(s)
    && NoSpaceAtEnds(s)
    && NoDoubleSpace(s)
    && 3 <= |s| <= 100
  }

  // ---- the automaton for the name pattern ----

  datatype State = Start | InWord | AfterSpace | Dead

  function Step(q: State, c: char): State {
    if q == Dead then Dead
    else if IsAlnum(c) then InWord
    else if c == ' ' && q == InWord then AfterSpace
    else Dead
  }

  function Run(s: string): State {
    if |s| == 0 then Start else Step(Run(s[..|s| - 1]), s[|s| - 1])
  }

  /** The `@Matches` pattern accepts `s`. */
  predicate NamePatternMatches(s: string) { Run(s) == InWord }

  /** The automaton's state says how the prefix read so far stands. */
  lemma {:induction false} RunMeaning(s: string)
    ensures Run(s) == Start <==> |s| == 0
    ensures Run(s) == InWord <==> OnlyAlnumOrSpace(s) && NoSpaceAtEnds(s) && NoDoubleSpace(s)
    ensures Run(s) == AfterSpace <==>
      |s| > 1 && OnlyAlnumOrSpace(s) && s[0] != ' ' && s[|s| - 1] == ' ' && NoDoubleSpace(s)
  {
    if |s| > 0 {
      var p := s[..|s| - 1];
      RunMeaning(p);
      assert forall i :: 0 <= i < |p| ==> p[i] == s[i];
    }
  }

  /** `name`: `@IsString`, `@IsNotEmpty`, `@MinLength(3)`, `@MaxLength(100)`
      and `@Matches`, all of which must hold. */
  function IsValidName(name: Input): (ok: bool)
    ensures ok <==> name.Text? && NameRules(name.s)
  {
    RunMeaning(if name.Text? then name.s else "");
    match name
    case NotText => false
    case Text(s) => s != "" && 3 <= |s| <= 100 && NamePatternMatches(s)
  }

  /** `description`: `@IsOptional` skips a missing or null value (`None`);
      a given one must be a string of at most 250 characters. */
  function IsValidDescription(description: Option<Input>): (ok: bool)
    ensures description.None? ==> ok
    ensures description.Some? ==> (ok <==> description.value.Text? && |description.value.s| <= 250)
  {
    match description
    case None => true
    case Some(Text(s)) => |s| <= 250
    case Some(NotText) => false
  }

  /** The whole body is accepted. */
  function IsValidCreateWorkspace(name: Input, description: Option<Input>): (ok: bool)
    ensures ok ==> name.Text? && 3 <= |name.s| <= 100 && NoSpaceAtEnds(name.s) && NoDoubleSpace(name.s)
    ensures ok ==> forall i :: 0 <= i < |name.s| ==> IsAlnum(name.s[i]) || name.s[i] == ' '
    ensures ok <==> name.Text? && NameRules(name.s) && IsValidDescription(description)
  {
    IsValidName(name) && IsValidDescription(description)
  }
}
