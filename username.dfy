/** `IsValidUsernameConstraint.validate`
    (src/common/decorators/is-valid-username.decorator.ts).

    The pattern `^(?![_.])(?!.*[_.]{2})[a-z0-9._]+(?<![_.])$` is modelled as
    the automaton a regular-expression engine runs for it, and proved equal to
    the rules it is meant to state. */
module UsernameValidator {
  import opened Common
  import Query

  predicate IsSpecial(c: char) { c == '.' || c == '_' }

  predicate IsAllowed(c: char) { ('a' <= c <= 'z') || ('0' <= c <= '9') || IsSpecial(c) }

  // ---- the rules, stated one by one ----

  predicate OnlyAllowedChars(s: string) { forall i :: 0 <= i < |s| ==> IsAllowed(s[i]) }

  predicate NoSpecialAtEnds(s: string) { |s| > 0 && !IsSpecial(s[0]) && !IsSpecial(s[|s| - 1]) }

  predicate NoAdjacentSpecials(s: string) {
    forall i :: 0 <= i < |s| - 1 ==> !(IsSpecial(s[i]) && IsSpecial(s[i + 1]))
  }

  function SpecialCount(s: string): nat { Query.Count(s, IsSpecial) }

  ghost predicate UsernameRules(s: string) {
    && OnlyAllowedChars(s)
    && NoSpecialAtEnds(s)
    && NoAdjacentSpecials(s)
    && 3 <= |s| <= 20
    && SpecialCount(s) <= 2
  }

  // ---- the automaton for the base pattern ----

  datatype State = Start | AfterPlain | AfterSpecial | Dead

  function Step(q: State, c: char): State {
    if q == Dead || !IsAllowed(c) then Dead
    else if !IsSpecial(c) then AfterPlain
    else if q == AfterPlain then AfterSpecial
    else Dead   // a special character first, or right after another one
  }

  function Run(s: string): State {
    if |s| == 0 then Start else Step(Run(s[..|s| - 1]), s[|s| - 1])
  }

  /** `baseRegex.test(s)` */
  predicate BasePatternMatches(s: string) { Run(s) == AfterPlain }

  /** The automaton's state says how the prefix read so far stands. */
  lemma {:induction false} RunMeaning(s: string)
    ensures Run(s) == Start <==> |s| == 0
    ensures Run(s) == AfterPlain <==>
      |s| > 0 && OnlyAllowedChars(s) && NoSpecialAtEnds(s) && NoAdjacentSpecials(s)
    ensures Run(s) == AfterSpecial <==>
      |s| > 1 && OnlyAllowedChars(s) && !IsSpecial(s[0]) && IsSpecial(s[|s| - 1])
      && NoAdjacentSpecials(s)
  {
    if |s| > 0 {
      var p := s[..|s| - 1];
      RunMeaning(p);
      assert forall i :: 0 <= i < |p| ==> p[i] == s[i];
    }
  }

  lemma BasePatternMeaning(s: string)
    ensures BasePatternMatches(s) <==>
      OnlyAllowedChars(s) && NoSpecialAtEnds(s) && NoAdjacentSpecials(s)
  {
    RunMeaning(s);
  }

  /** `validate(username)`: a string matching the base pattern, 3 to 20
      characters long, with at most two dots or underscores. */
  function IsValidUsername(username: Input): (ok: bool)
    ensures ok <==> username.Text? && UsernameRules(username.s)
  {
    BasePatternMeaning(if username.Text? then username.s else "");
    match username
    case NotText => false
    case Text(s) =>
      if !BasePatternMatches(s) then false
      else if |s| < 3 || |s| > 20 then false
      else if SpecialCount(s) > 2 then false
      else true
  }
}
