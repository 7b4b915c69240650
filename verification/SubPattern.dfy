/**
 Subject patterns: compiling them to regular expressions, and what the compiled form accepts.

 Globs go through text: the emitter writes a regular expression, the reader parses it, and
 the leftmost-first search runs it. `GlobAccepts` is what a glob means without any of that.
 */
module SubPattern {
  import opened Wrappers
  import opened Text
  import opened Regex
  import opened RegexSyntax

  datatype PatternError = NotAnchored | InvalidRegex(error: SyntaxError)

  const RE_PREFIX := "re:"
  const ANY := ".*"

  predicate IsGlob(pattern: string) {
    pattern != "" && !(RE_PREFIX <= pattern)
  }

  // ---------- What a glob means ----------

  /** Fills the gap after each piece but the last. */
  function Interleave(pieces: seq<string>, fillings: seq<string>): string
    requires |pieces| == |fillings| + 1
  {
    if fillings == [] then pieces[0]
    else pieces[0] + fillings[0] + Interleave(pieces[1..], fillings[1..])
  }

  ghost predicate Fills(fillings: seq<string>, pieces: seq<string>, s: string) {
    |pieces| == |fillings| + 1 && (forall w | w in fillings :: '\n' !in w) && s == Interleave(pieces, fillings)
  }

  /** The subject is the pattern with a newline-free text in the place of each `*`. */
  ghost predicate GlobAccepts(pattern: string, s: string) {
    exists fillings :: Fills(fillings, Split(pattern, '*'), s)
  }

  // ---------- The emitted text ----------

  /** The pieces, quoted, with `.*` between neighbours. */
  function JoinQuoted(pieces: seq<string>): string
    requires pieces != []
  {
    if |pieces| == 1 then QuoteMeta(pieces[0]) else QuoteMeta(pieces[0]) + ANY + JoinQuoted(pieces[1..])
  }

  function GlobText(pattern: string): string {
    "^" + JoinQuoted(Split(pattern, '*')) + "$"
  }

  /** What the emitter has in its buffer: each of the pieces so far followed by `.*`. */
  ghost function Emitted(pieces: seq<string>): string {
    if pieces == [] then "" else QuoteMeta(pieces[0]) + ANY + Emitted(pieces[1..])
  }

  lemma {:induction false} EmittedAppend(pieces: seq<string>, piece: string)
    ensures Emitted(pieces + [piece]) == Emitted(pieces) + QuoteMeta(piece) + ANY
  {
    if pieces == [] {
      assert pieces + [piece] == [piece];
    } else {
      assert (pieces + [piece])[1..] == pieces[1..] + [piece];
      EmittedAppend(pieces[1..], piece);
    }
  }

  lemma {:induction false} EmittedIsJoined(pieces: seq<string>)
    requires pieces != []
    ensures Emitted(pieces) == JoinQuoted(pieces) + ANY
  {
    if |pieces| > 1 {
      EmittedIsJoined(pieces[1..]);
    }
  }

  lemma EmitOne(buffer: string, pieces: seq<string>, i: nat)
    requires i < |pieces| && buffer == "^" + Emitted(pieces[..i])
    ensures buffer + QuoteMeta(pieces[i]) + ANY == "^" + Emitted(pieces[..i + 1])
  {
    EmittedAppend(pieces[..i], pieces[i]);
    assert pieces[..i] + [pieces[i]] == pieces[..i + 1];
    ConcatAssoc("^", Emitted(pieces[..i]), QuoteMeta(pieces[i]));
    ConcatAssoc("^", Emitted(pieces[..i]) + QuoteMeta(pieces[i]), ANY);
  }

  lemma EmitEnd(buffer: string, pieces: seq<string>)
    requires pieces != [] && buffer == "^" + Emitted(pieces)
    ensures TrimSuffix(buffer, ANY) == "^" + JoinQuoted(pieces)
  {
    EmittedIsJoined(pieces);
    ConcatAssoc("^", JoinQuoted(pieces), ANY);
    TrimOwnSuffix("^" + JoinQuoted(pieces), ANY);
  }

  /** The emitter: every piece is written with a trailing `.*`, and one `.*` is dropped at the end. */
  method EmitGlob(pattern: string) returns (text: string)
    ensures text == GlobText(pattern)
  {
    var pieces := Split(pattern, '*');
    var buffer := "^";
    for i := 0 to |pieces|
      invariant buffer == "^" + Emitted(pieces[..i])
    {
      EmitOne(buffer, pieces, i);
      buffer := buffer + QuoteMeta(pieces[i]);
      buffer := buffer + ANY;
    }
    assert pieces[..|pieces|] == pieces;
    EmitEnd(buffer, pieces);
    text := TrimSuffix(buffer, ANY) + "$";
  }

  lemma TrimOwnSuffix(s: string, suffix: string)
    ensures TrimSuffix(s + suffix, suffix) == s
  {}

  // ---------- Reading the emitted text back ----------

  /** The pieces after the leading anchor: literals with an any-star between them, then the closing anchor. */
  function GlobTail(pieces: seq<string>): Regex
    requires pieces != []
  {
    Literally(pieces[0], if |pieces| == 1 then Cat(End, Empty) else Cat(Star(AnyNotNewline), GlobTail(pieces[1..])))
  }

  function GlobRegex(pattern: string): Regex {
    Cat(Begin, GlobTail(Split(pattern, '*')))
  }

  function GlobTokens(pieces: seq<string>): seq<Token>
    requires pieces != []
  {
    Chars(pieces[0]) + if |pieces| == 1 then [Dollar] else [Dot, Times] + GlobTokens(pieces[1..])
  }

  lemma LexAny(tail: string, ts: seq<Token>)
    requires Lex(tail) == Success(ts)
    ensures Lex(ANY + tail) == Success([Dot, Times] + ts)
  {
    LexSymbol('*', tail);
    LexSymbol('.', ['*'] + tail);
    assert ['.'] + (['*'] + tail) == ANY + tail;
    assert [Dot] + ([Times] + ts) == [Dot, Times] + ts;
  }

  lemma JoinQuotedCons(pieces: seq<string>, end: string)
    requires |pieces| > 1
    ensures JoinQuoted(pieces) + end == QuoteMeta(pieces[0]) + (ANY + (JoinQuoted(pieces[1..]) + end))
  {
    Regroup(QuoteMeta(pieces[0]), ANY, JoinQuoted(pieces[1..]), end);
  }

  lemma Regroup(a: string, b: string, c: string, d: string)
    ensures a + b + c + d == a + (b + (c + d))
  {}

  lemma {:induction false} LexJoined(pieces: seq<string>, end: string)
    requires pieces != [] && Lex(end) == Success([Dollar])
    ensures Lex(JoinQuoted(pieces) + end) == Success(GlobTokens(pieces))
  {
    if |pieces| == 1 {
      LexQuoted(pieces[0], end);
    } else {
      var tail := JoinQuoted(pieces[1..]) + end;
      LexJoined(pieces[1..], end);
      LexAny(tail, GlobTokens(pieces[1..]));
      LexQuoted(pieces[0], ANY + tail);
      JoinQuotedCons(pieces, end);
    }
  }

  lemma {:induction false} ParseGlobTokens(pieces: seq<string>)
    requires pieces != []
    ensures ParseSeq(GlobTokens(pieces)) == Success((GlobTail(pieces), []))
    ensures GlobTokens(pieces) != [] && !GlobTokens(pieces)[0].Times?
  {
    if |pieces| == 1 {
      assert [Dollar][1..] == [];
      assert ParseSeq([]) == Success((Empty, []));
      assert ParseSeq([Dollar]) == Success((Cat(End, Empty), []));
      ParseChars(pieces[0], [Dollar]);
    } else {
      var inner := GlobTokens(pieces[1..]);
      ParseGlobTokens(pieces[1..]);
      var ts := [Dot, Times] + inner;
      assert ts[1..] == [Times] + inner && ts[1..][1..] == inner;
      assert ParseAtom(ts) == Success((AnyNotNewline, ts[1..]));
      assert ParseSeq(ts) == Success((Cat(Star(AnyNotNewline), GlobTail(pieces[1..])), []));
      ParseChars(pieces[0], ts);
    }
  }

  /** The emitted text parses, to the anchored sequence of literals and any-stars. */
  lemma {:induction false} EmittedTextParses(pattern: string)
    ensures Parse(GlobText(pattern)) == Success(GlobRegex(pattern))
  {
    var pieces := Split(pattern, '*');
    LexDollar();
    LexJoined(pieces, ['$']);
    var ts := [Caret] + GlobTokens(pieces);
    assert Lex(GlobText(pattern)) == Success(ts) by {
      LexSymbol('^', JoinQuoted(pieces) + ['$']);
      assert GlobText(pattern) == ['^'] + (JoinQuoted(pieces) + ['$']);
    }
    ParseGlobTokens(pieces);
    assert ts[1..] == GlobTokens(pieces);
    assert ParseAtom(ts) == Success((Begin, ts[1..]));
    assert ParseSeq(ts) == Success((GlobRegex(pattern), []));
    assert ParseAlt(ts) == Success((GlobRegex(pattern), []));
  }

  // ---------- The compiled glob accepts what the glob means ----------

  lemma {:induction false} AnyStarSpans(s: string, i: nat, k: nat)
    ensures Spans(Star(AnyNotNewline), s, i, k) <==> i <= k <= |s| && '\n' !in s[i..k]
  {
    if i <= k <= |s| {
      if '\n' !in s[i..k] {
        RepeatAny(s, i, k);
        assert Repeats(AnyNotNewline, s, i, k, k - i);
      }
      if Spans(Star(AnyNotNewline), s, i, k) {
        var n := StarRepeats(Star(AnyNotNewline), s, i, k);
        RepeatedAny(s, i, k, n);
      }
    }
  }

  lemma {:induction false} RepeatAny(s: string, i: nat, k: nat)
    requires i <= k <= |s| && '\n' !in s[i..k]
    ensures Repeats(AnyNotNewline, s, i, k, k - i)
    decreases k - i
  {
    if i < k {
      assert s[i..k][0] == s[i] && s[i..k][1..] == s[i + 1..k];
      RepeatAny(s, i + 1, k);
      assert Spans(AnyNotNewline, s, i, i + 1);
    }
  }

  lemma {:induction false} RepeatedAny(s: string, i: nat, k: nat, n: nat)
    requires i <= k <= |s| && Repeats(AnyNotNewline, s, i, k, n)
    ensures '\n' !in s[i..k]
    decreases n
  {
    if n > 0 {
      var m: nat :| Spans(AnyNotNewline, s, i, m) && Repeats(AnyNotNewline, s, m, k, n - 1);
      RepeatsForward(AnyNotNewline, s, m, k, n - 1);
      RepeatedAny(s, m, k, n - 1);
      assert s[i..k] == [s[i]] + s[m..k];
    }
  }

  /** What follows the literal piece in front. */
  function AfterPiece(pieces: seq<string>): Regex
    requires pieces != []
  {
    if |pieces| == 1 then Cat(End, Empty) else Cat(Star(AnyNotNewline), GlobTail(pieces[1..]))
  }

  lemma {:induction false} GlobTailSpans(pieces: seq<string>, s: string, i: nat)
    requires pieces != [] && i <= |s|
    ensures Spans(GlobTail(pieces), s, i, |s|) <==> exists fillings :: Fills(fillings, pieces, s[i..])
  {
    if Spans(GlobTail(pieces), s, i, |s|) {
      var fillings := SpansFill(pieces, s, i);
    }
    if fillings :| Fills(fillings, pieces, s[i..]) {
      FillsSpan(pieces, fillings, s, i);
    }
  }

  lemma {:induction false} SpansFill(pieces: seq<string>, s: string, i: nat) returns (fillings: seq<string>)
    requires pieces != [] && i <= |s| && Spans(GlobTail(pieces), s, i, |s|)
    ensures Fills(fillings, pieces, s[i..])
    decreases |pieces|
  {
    if |pieces| == 1 {
      LastPiece(pieces, s, i);
      fillings := [];
    } else {
      var k := OnePiece(pieces, s, i);
      var rest := SpansFill(pieces[1..], s, k);
      var w := s[i + |pieces[0]|..k];
      FillOneMore(pieces, w, rest, s[k..]);
      fillings := [w] + rest;
    }
  }

  lemma LastPiece(pieces: seq<string>, s: string, i: nat)
    requires |pieces| == 1 && i <= |s| && Spans(GlobTail(pieces), s, i, |s|)
    ensures s[i..] == pieces[0]
  {
    LiterallySpans(pieces[0], AfterPiece(pieces), s, i, |s|);
    var m := i + |pieces[0]|;
    var k := CatSpans(AfterPiece(pieces), s, m, |s|);
    assert s[i..] == s[i..m];
  }

  lemma OnePiece(pieces: seq<string>, s: string, i: nat) returns (k: nat)
    requires |pieces| > 1 && i <= |s| && Spans(GlobTail(pieces), s, i, |s|)
    ensures i + |pieces[0]| <= k <= |s| && '\n' !in s[i + |pieces[0]|..k]
    ensures s[i..] == pieces[0] + s[i + |pieces[0]|..k] + s[k..]
    ensures Spans(GlobTail(pieces[1..]), s, k, |s|)
  {
    LiterallySpans(pieces[0], AfterPiece(pieces), s, i, |s|);
    var m := i + |pieces[0]|;
    k := CatSpans(AfterPiece(pieces), s, m, |s|);
    AnyStarSpans(s, m, k);
    assert s[i..] == s[i..m] + s[m..k] + s[k..];
  }

  lemma FillOneMore(pieces: seq<string>, w: string, rest: seq<string>, s: string)
    requires |pieces| > 1 && Fills(rest, pieces[1..], s) && '\n' !in w
    ensures Fills([w] + rest, pieces, pieces[0] + w + s)
  {
    assert ([w] + rest)[1..] == rest;
  }

  /** Where the three parts of a text lie. */
  lemma ThreeParts(s: string, i: nat, q: string, w: string, rest: string)
    requires i <= |s| && s[i..] == q + w + rest
    ensures var m := i + |q|; var k := m + |w|;
            k <= |s| && s[i..m] == q && s[m..k] == w && s[k..] == rest
  {
    var tail := s[i..];
    assert |tail| == |q| + |w| + |rest|;
    assert s[i..i + |q|] == tail[..|q|];
    assert s[i + |q|..i + |q| + |w|] == tail[|q|..|q| + |w|];
    assert s[i + |q| + |w|..] == tail[|q| + |w|..];
  }

  lemma {:induction false} FillsSpan(pieces: seq<string>, fillings: seq<string>, s: string, i: nat)
    requires i <= |s| && Fills(fillings, pieces, s[i..])
    ensures Spans(GlobTail(pieces), s, i, |s|)
    decreases |pieces|
  {
    var q, next := pieces[0], AfterPiece(pieces);
    LiterallySpans(q, next, s, i, |s|);
    if fillings == [] {
      LastPieceSpans(s);
      assert q + "" + "" == q;
      ThreeParts(s, i, q, "", "");
    } else {
      var w, rest := fillings[0], Interleave(pieces[1..], fillings[1..]);
      ThreeParts(s, i, q, w, rest);
      AnyStarSpans(s, i + |q|, i + |q| + |w|);
      FillsSpan(pieces[1..], fillings[1..], s, i + |q| + |w|);
    }
  }

  lemma LastPieceSpans(s: string)
    ensures Spans(Cat(End, Empty), s, |s|, |s|)
  {
    assert Spans(End, s, |s|, |s|) && Spans(Empty, s, |s|, |s|);
  }

  lemma {:induction false} GlobTailAnchored(pieces: seq<string>)
    requires pieces != []
    ensures EndAnchored(GlobTail(pieces))
  {
    if |pieces| == 1 {
      LiterallyAnchored(pieces[0], Cat(End, Empty));
    } else {
      GlobTailAnchored(pieces[1..]);
      LiterallyAnchored(pieces[0], Cat(Star(AnyNotNewline), GlobTail(pieces[1..])));
    }
  }

  lemma {:induction false} LiterallyAnchored(q: string, next: Regex)
    requires EndAnchored(next)
    ensures EndAnchored(Literally(q, next))
  {
    if q != "" {
      LiterallyAnchored(q[1..], next);
    }
  }

  /**
   Compiler correctness for globs: the expression read back from the emitted text, run by the
   leftmost-first search with the full-span check, accepts exactly what the glob means.
   */
  lemma {:induction false} GlobCorrect(pattern: string, s: string)
    ensures Parse(GlobText(pattern)).Success?
    ensures MatchesWhole(Parse(GlobText(pattern)).value, s) <==> GlobAccepts(pattern, s)
  {
    EmittedTextParses(pattern);
    var pieces := Split(pattern, '*');
    var r := GlobRegex(pattern);
    GlobTailAnchored(pieces);
    WholeMatchExact(r, s);
    GlobTailSpans(pieces, s, 0);
    assert s[0..] == s;
    assert Spans(Begin, s, 0, 0);
    if Spans(r, s, 0, |s|) {
      var k := CatSpans(r, s, 0, |s|);
    }
  }
}
