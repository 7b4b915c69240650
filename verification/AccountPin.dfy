/**
 Compiled subject patterns, and the static test that a pattern names one AWS account: what
 it checks, and exactly when the subjects a pattern accepts really lie in that account.
 */
module AccountPin {
  import opened Wrappers
  import opened Text
  import opened Regex
  import opened RegexSyntax
  import opened SubPattern

  // ---------- Compiling a subject pattern ----------

  /** The matcher for a pattern; no matcher means every subject is accepted. */
  function Compile(pattern: string): Result<Option<Regex>, PatternError> {
    if pattern == "" then Success(None)
    else if RE_PREFIX <= pattern then
      var rest := TrimPrefix(pattern, RE_PREFIX);
      if !("^" <= rest) || !HasSuffix(rest, "$") then Failure(NotAnchored) else Read(rest)
    else Read(GlobText(pattern))
  }

  function Read(text: string): Result<Option<Regex>, PatternError> {
    match Parse(text)
    case Success(r) => Success(Some(r))
    case Failure(e) => Failure(InvalidRegex(e))
  }

  method CompileSub(pattern: string) returns (r: Result<Option<Regex>, PatternError>)
    ensures r == Compile(pattern)
  {
    if pattern == "" {
      return Success(None);
    }
    if RE_PREFIX <= pattern {
      var rest := TrimPrefix(pattern, RE_PREFIX);
      if !("^" <= rest) || !HasSuffix(rest, "$") {
        return Failure(NotAnchored);
      }
      return Read(rest);
    }
    var text := EmitGlob(pattern);
    return Read(text);
  }

  predicate SubMatches(matcher: Option<Regex>, sub: string) {
    matcher.None? || MatchesWhole(matcher.value, sub)
  }

  /** Every glob compiles, and the matcher accepts exactly the subjects the glob stands for. */
  lemma GlobMatcher(pattern: string, sub: string)
    requires IsGlob(pattern)
    ensures Compile(pattern).Success?
    ensures SubMatches(Compile(pattern).value, sub) <==> GlobAccepts(pattern, sub)
  {
    GlobCorrect(pattern, sub);
  }

  /** Without a pattern every subject is accepted. */
  lemma EmptyPattern(sub: string)
    ensures Compile("").Success? && SubMatches(Compile("").value, sub)
  {}

  /** Behind `re:` the text has to begin with `^` and end with `$`, or there is no matcher. */
  lemma UnanchoredRefused(text: string)
    requires text == "" || text[0] != '^' || text[|text| - 1] != '$'
    ensures Compile("re:" + text) == Failure(NotAnchored)
  {
    assert TrimPrefix("re:" + text, RE_PREFIX) == text;
    assert HasSuffix(text, "$") ==> text[|text| - 1..][0] == '$';
  }

  // ---------- Exact subjects ----------

  predicate SubIsExact(pattern: string) {
    IsGlob(pattern) && '*' !in pattern
  }

  lemma StarFreeAccepts(pattern: string, sub: string)
    requires '*' !in pattern
    ensures GlobAccepts(pattern, sub) <==> sub == pattern
  {
    SplitWhole(pattern, '*');
    assert Fills([], [pattern], pattern);
  }

  /** A pattern is called exact when it accepts itself and nothing else. */
  lemma ExactPattern(pattern: string, sub: string)
    requires SubIsExact(pattern)
    ensures Compile(pattern).Success?
    ensures SubMatches(Compile(pattern).value, sub) <==> sub == pattern
  {
    GlobMatcher(pattern, sub);
    StarFreeAccepts(pattern, sub);
  }

  /** The `*`s of the pattern filled with nothing, or the first of them with `w`. */
  lemma {:induction false} FilledFirst(pattern: string, w: string) returns (sub: string)
    requires '*' in pattern && '\n' !in w
    ensures GlobAccepts(pattern, sub) && |sub| == |FilledWithNothing(pattern)| + |w|
  {
    var pieces := Split(pattern, '*');
    StarSplits(pattern);
    var blanks := Blanks(|pieces| - 2);
    var fillings := [w] + blanks;
    assert fillings[1..] == blanks;
    sub := Interleave(pieces, fillings);
    assert Fills(fillings, pieces, sub);
    assert Blanks(|pieces| - 1) == [""] + blanks;
  }

  function FilledWithNothing(pattern: string): string {
    Interleave(Split(pattern, '*'), Blanks(|Split(pattern, '*')| - 1))
  }

  lemma StarSplits(pattern: string)
    requires '*' in pattern
    ensures |Split(pattern, '*')| > 1
  {
    SplitPieces(pattern, '*');
    JoinOfSplit(pattern, '*');
  }

  /** A glob is called exact if and only if it accepts one subject only, itself. */
  lemma {:induction false} ExactMeans(pattern: string)
    requires pattern != "" && !("re:" <= pattern)
    ensures Compile(pattern).Success?
    ensures SubIsExact(pattern) <==> forall sub | SubMatches(Compile(pattern).value, sub) :: sub == pattern
  {
    GlobMatcher(pattern, pattern);
    if '*' in pattern {
      var a := FilledFirst(pattern, "");
      var b := FilledFirst(pattern, "x");
      GlobMatcher(pattern, a);
      GlobMatcher(pattern, b);
    } else {
      forall sub | SubMatches(Compile(pattern).value, sub) ensures sub == pattern {
        ExactPattern(pattern, sub);
      }
    }
  }

  // ---------- The account field ----------

  predicate IsAccountId(s: string) {
    |s| == 12 && forall i | 0 <= i < 12 :: '0' <= s[i] <= '9'
  }

  /** An account id is twelve decimal digits. */
  lemma AccountIdMeans(s: string)
    ensures IsAccountId(s) <==> |s| == 12 && forall c | c in s :: c in "0123456789"
  {
    if IsAccountId(s) {
      forall c | c in s ensures c in "0123456789" {
        DigitListed(c);
      }
    }
    if |s| == 12 && forall c | c in s :: c in "0123456789" {
      forall i | 0 <= i < 12 ensures '0' <= s[i] <= '9' {
        assert s[i] in s;
      }
    }
  }

  lemma DigitListed(c: char)
    requires '0' <= c <= '9'
    ensures c in "0123456789"
  {
    var digits := "0123456789";
    assert digits[c as int - '0' as int] == c;
  }

  function Unanchored(pattern: string): string {
    TrimSuffix(TrimPrefix(TrimPrefix(pattern, RE_PREFIX), "^"), "$")
  }

  predicate AccountPinnedInARN(pattern: string) {
    pattern != "" &&
    var fields := SplitN(Unanchored(pattern), ':', 6);
    |fields| >= 5 && IsAccountId(fields[4])
  }

  /** The account id the static test read from the pattern. */
  function PinnedAccount(pattern: string): string
    requires AccountPinnedInARN(pattern)
  {
    SplitN(Unanchored(pattern), ':', 6)[4]
  }

  /** The fifth colon-separated field of a subject. */
  function FifthField(sub: string): Option<string> {
    var fields := Split(sub, ':');
    if |fields| >= 5 then Some(fields[4]) else None
  }

  /** No `*` before the account field, and a sixth field or no `$` behind the account id. */
  predicate PinIsFirm(pattern: string) {
    var fields := Split(pattern, ':');
    && (forall i | 0 <= i < 4 && i < |fields| :: '*' !in fields[i])
    && !(|fields| == 5 && HasSuffix(pattern, "$"))
  }

  lemma TrimCaret(s: string)
    ensures var whole, trimmed := Split(s, ':'), Split(TrimPrefix(s, "^"), ':');
            |whole| == |trimmed| && whole[1..] == trimmed[1..]
  {
    if "^" <= s {
      assert s == "^" + s[1..];
      SplitPrepend("^", s[1..], ':');
    }
  }

  lemma TrimDollar(s: string)
    ensures var whole, trimmed := Split(s, ':'), Split(TrimSuffix(s, "$"), ':');
            var last := |whole| - 1;
            |whole| == |trimmed| && whole[..last] == trimmed[..last] &&
            whole[last] == trimmed[last] + if HasSuffix(s, "$") then "$" else ""
  {
    if HasSuffix(s, "$") {
      var bare := TrimSuffix(s, "$");
      assert s == bare + "$";
      SplitAppend(bare, "$", ':');
    } else {
      var parts := Split(s, ':');
      assert parts[|parts| - 1] + "" == parts[|parts| - 1];
    }
  }

  /** How the fields of a glob relate to the ones the static test looked at. */
  lemma {:induction false} PinnedGlobFields(pattern: string)
    requires IsGlob(pattern) && AccountPinnedInARN(pattern)
    ensures |Split(pattern, ':')| >= 5
    ensures |Split(pattern, ':')| == 5 && HasSuffix(pattern, "$") ==>
              Split(pattern, ':')[4] == PinnedAccount(pattern) + "$"
    ensures !(|Split(pattern, ':')| == 5 && HasSuffix(pattern, "$")) ==>
              Split(pattern, ':')[4] == PinnedAccount(pattern)
  {
    var unprefixed := TrimPrefix(pattern, "^");
    var bare := TrimSuffix(unprefixed, "$");
    assert bare == Unanchored(pattern) by {
      assert TrimPrefix(pattern, RE_PREFIX) == pattern;
    }
    FifthOfTrimmed(pattern, unprefixed, bare);
  }

  lemma {:induction false} FifthOfTrimmed(pattern: string, unprefixed: string, bare: string)
    requires unprefixed == TrimPrefix(pattern, "^") && bare == TrimSuffix(unprefixed, "$")
    requires |SplitN(bare, ':', 6)| >= 5
    ensures |Split(pattern, ':')| >= 5
    ensures |Split(pattern, ':')| == 5 && HasSuffix(pattern, "$") ==>
              Split(pattern, ':')[4] == SplitN(bare, ':', 6)[4] + "$"
    ensures !(|Split(pattern, ':')| == 5 && HasSuffix(pattern, "$")) ==>
              Split(pattern, ':')[4] == SplitN(bare, ':', 6)[4]
  {
    SplitNAgrees(bare, ':', 6);
    TrimDollar(unprefixed);
    TrimCaret(pattern);
    var fields, middle, inner := Split(pattern, ':'), Split(unprefixed, ':'), Split(bare, ':');
    assert inner[4] == SplitN(bare, ':', 6)[4];
    assert fields[4] == fields[1..][3] == middle[1..][3] == middle[4];
    if |fields| > 5 {
      var last := |fields| - 1;
      assert middle[4] == middle[..last][4] == inner[..last][4];
    } else {
      assert unprefixed != "" by {
        assert unprefixed == "" ==> |middle| == 1;
      }
      assert HasSuffix(pattern, "$") == HasSuffix(unprefixed, "$");
      assert inner[4] + "" == inner[4];
    }
  }

  lemma InterleaveStarts(pieces: seq<string>, fillings: seq<string>)
    requires |pieces| == |fillings| + 1
    ensures pieces[0] <= Interleave(pieces, fillings)
  {}

  /** A subject that continues five known fields with a colon has the fifth of them as its fifth field. */
  lemma FifthOfHead(fields: seq<string>, rest: string)
    requires |fields| == 5 && forall f | f in fields :: ':' !in f
    ensures FifthField(Join(fields, ':') + ":" + rest) == Some(fields[4])
  {
    SplitOfJoin(fields, ':');
    SplitAround(Join(fields, ':'), ':', rest);
    assert ":" == [':'];
  }

  /** A glob with a star-free head and a colon accepts only subjects that continue that head and colon. */
  lemma HeadKept(head: string, tail: string, sub: string) returns (rest: string)
    requires '*' !in head && GlobAccepts(head + ":" + tail, sub)
    ensures sub == head + ":" + rest
  {
    SplitPrepend(head + ":", tail, '*');
    var pieces := Split(head + ":" + tail, '*');
    var fillings :| Fills(fillings, pieces, sub);
    InterleaveStarts(pieces, fillings);
    assert head + ":" <= pieces[0] <= sub;
    rest := sub[|head| + 1..];
  }

  lemma StarFreeHead(pattern: string)
    requires IsGlob(pattern) && AccountPinnedInARN(pattern) && PinIsFirm(pattern)
    ensures |Split(pattern, ':')| >= 5 && Split(pattern, ':')[4] == PinnedAccount(pattern)
    ensures '*' !in Join(Split(pattern, ':')[..5], ':')
  {
    PinnedGlobFields(pattern);
    var first := Split(pattern, ':')[..5];
    forall f | f in first ensures '*' !in f {
      var i :| 0 <= i < 5 && f == first[i];
    }
    JoinLacks(first, ':', '*');
  }

  /** A firm pin holds: every accepted subject lies in the pinned account. */
  lemma {:induction false} FirmPinHolds(pattern: string, sub: string)
    requires IsGlob(pattern) && AccountPinnedInARN(pattern) && PinIsFirm(pattern)
    requires GlobAccepts(pattern, sub)
    ensures FifthField(sub) == Some(PinnedAccount(pattern))
  {
    StarFreeHead(pattern);
    JoinOfSplit(pattern, ':');
    var fields := Split(pattern, ':');
    var first := fields[..5];
    var head := Join(first, ':');
    if |fields| == 5 {
      assert first == fields;
      StarFreeAccepts(pattern, sub);
    } else {
      var tail := Join(fields[5..], ':');
      assert first + fields[5..] == fields;
      JoinAppend(first, fields[5..], ':');
      assert pattern == head + ":" + tail;
      var rest := HeadKept(head, tail, sub);
      SplitPieces(pattern, ':');
      FifthOfHead(first, rest);
    }
  }

  function Blanks(n: nat): (texts: seq<string>)
    ensures |texts| == n && forall w | w in texts :: w == ""
  {
    seq(n, i => "")
  }

  lemma BlanksCons(n: nat, parts: seq<string>)
    requires n > 0
    ensures [""] + (Blanks(n - 1) + parts) == Blanks(n) + parts
  {
    assert Blanks(n) == [""] + Blanks(n - 1);
  }

  lemma {:induction false} SplitAfterColons(n: nat, rest: string)
    ensures Split(Colons(n) + rest, ':') == Blanks(n) + Split(rest, ':')
  {
    if n == 0 {
      assert Colons(0) + rest == rest && Blanks(0) + Split(rest, ':') == Split(rest, ':');
    } else {
      SplitUncons(Colons(n), rest, ':');
      SplitAfterColons(n - 1, rest);
      BlanksCons(n, Split(rest, ':'));
    }
  }

  function Colons(n: nat): string {
    if n == 0 then "" else [':'] + Colons(n - 1)
  }

  /** After a text with at most three colons, five more colons leave the fifth field empty. */
  lemma ColonsEmptyFifth(front: string, rest: string)
    requires |Split(front, ':')| <= 4
    ensures FifthField(front + Colons(5) + rest) == Some("")
  {
    var behind := Colons(4) + rest;
    SplitAfterColons(4, rest);
    SplitAround(front, ':', behind);
    assert front + Colons(5) + rest == front + [':'] + behind;
    var n := 4 - |Split(front, ':')|;
    assert Split(behind, ':')[n] == Blanks(4)[n] == "";
    assert (Split(front, ':') + Split(behind, ':'))[4] == Split(behind, ':')[n];
  }

  /** The text before the first `*` ends within the field that holds it. */
  lemma {:induction false} FrontFields(pattern: string, i: nat)
    requires i < 4 && i < |Split(pattern, ':')| && '*' in Split(pattern, ':')[i]
    ensures |Split(pattern, '*')| > 1 && |Split(Split(pattern, '*')[0], ':')| <= 4
  {
    var pieces := Split(pattern, '*');
    JoinOfSplit(pattern, '*');
    SplitPieces(pattern, '*');
    if |pieces| == 1 {
      SplitLacks(pattern, ':', '*');
      assert false;
    }
    var front := pieces[0];
    var behind := "*" + Join(pieces[1..], '*');
    assert pattern == front + behind;
    if |Split(front, ':')| > 4 {
      SplitLacks(front, ':', '*');
      assert '*' !in Split(front, ':')[i];
      SplitFront(front, behind, ':', i);
      assert false;
    }
  }

  /** An early `*` lets some accepted subject leave the pinned account. */
  lemma {:induction false} EarlyStarEscapes(pattern: string, i: nat) returns (sub: string)
    requires i < 4 && i < |Split(pattern, ':')| && '*' in Split(pattern, ':')[i]
    ensures GlobAccepts(pattern, sub) && FifthField(sub) == Some("")
  {
    FrontFields(pattern, i);
    var pieces := Split(pattern, '*');
    var blanks := Blanks(|pieces| - 2);
    var fillings := [Colons(5)] + blanks;
    assert fillings[1..] == blanks;
    sub := pieces[0] + Colons(5) + Interleave(pieces[1..], blanks);
    assert Fills(fillings, pieces, sub);
    ColonsEmptyFifth(pieces[0], Interleave(pieces[1..], blanks));
  }

  /**
   Exactly when the static test tells the truth about a glob: all accepted subjects carry the
   account id it read as their fifth field, if and only if the pin is firm.
   */
  lemma {:induction false} PinTruthful(pattern: string)
    requires IsGlob(pattern) && AccountPinnedInARN(pattern)
    ensures (forall sub | GlobAccepts(pattern, sub) :: FifthField(sub) == Some(PinnedAccount(pattern)))
              <==> PinIsFirm(pattern)
  {
    if PinIsFirm(pattern) {
      forall sub | GlobAccepts(pattern, sub) ensures FifthField(sub) == Some(PinnedAccount(pattern)) {
        FirmPinHolds(pattern, sub);
      }
    } else {
      PinnedGlobFields(pattern);
      var fields := Split(pattern, ':');
      if i: nat :| i < 4 && i < |fields| && '*' in fields[i] {
        var sub := EarlyStarEscapes(pattern, i);
        assert |PinnedAccount(pattern)| == 12;
      } else {
        JoinOfSplit(pattern, ':');
        forall f | f in fields ensures '*' !in f {
          var i :| 0 <= i < 5 && f == fields[i];
        }
        JoinLacks(fields, ':', '*');
        StarFreeAccepts(pattern, pattern);
        assert FifthField(pattern) != Some(PinnedAccount(pattern));
      }
    }
  }
}
