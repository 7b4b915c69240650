/**
 Regular expressions given as text between `^` and `$`: what the whole text reads as, and which
 subjects it accepts. The two anchors belong to the first and the last branch of the body only.
 */
module AnchoredPattern {
  import opened Wrappers
  import opened Text
  import opened Regex
  import opened RegexSyntax

  const TO_END := Cat(End, Empty)

  // ---------- Groups ----------

  /** In front of a closing parenthesis tokens are read as they are without it. */
  lemma {:induction false} AtomBeforeClose(ts: seq<Token>, more: seq<Token>)
    requires ts != [] && !ts[0].Bar? && !ts[0].Close? && ParseAtom(ts).Success? && more != [] && more[0].Close?
    ensures ParseAtom(ts + more) == Success((ParseAtom(ts).value.0, ParseAtom(ts).value.1 + more))
    decreases |ts|, 0
  {
    TailBefore(ts, more);
    if ts[0].Open? {
      AltBeforeClose(ts[1..], more);
      TailBefore(ParseAlt(ts[1..]).value.1, more);
    }
  }

  lemma TailBefore(ts: seq<Token>, more: seq<Token>)
    requires ts != []
    ensures (ts + more)[0] == ts[0] && (ts + more)[1..] == ts[1..] + more
  {}

  lemma {:induction false} SeqBeforeClose(ts: seq<Token>, more: seq<Token>)
    requires ParseSeq(ts).Success? && more != [] && more[0].Close?
    ensures ParseSeq(ts + more) == Success((ParseSeq(ts).value.0, ParseSeq(ts).value.1 + more))
    decreases |ts|, 1
  {
    if ts == [] {
      assert ts + more == more;
    } else {
      TailBefore(ts, more);
      if !ts[0].Bar? && !ts[0].Close? {
        AtomBeforeClose(ts, more);
        var rest := ParseAtom(ts).value.1;
        if rest == [] {
          assert rest + more == more;
        } else {
          TailBefore(rest, more);
          if rest[0].Times? {
            if |rest| > 1 {
              TailBefore(rest[1..], more);
            } else {
              assert rest[1..] + more == more;
            }
            SeqBeforeClose(rest[1..], more);
          } else {
            SeqBeforeClose(rest, more);
          }
        }
      }
    }
  }

  lemma {:induction false} AltBeforeClose(ts: seq<Token>, more: seq<Token>)
    requires ParseAlt(ts).Success? && more != [] && more[0].Close?
    ensures ParseAlt(ts + more) == Success((ParseAlt(ts).value.0, ParseAlt(ts).value.1 + more))
    decreases |ts|, 2
  {
    SeqBeforeClose(ts, more);
    var rest := ParseSeq(ts).value.1;
    if rest == [] {
      assert rest + more == more;
    } else {
      TailBefore(rest, more);
      if rest[0].Bar? {
        AltBeforeClose(rest[1..], more);
      }
    }
  }

  /** A group is one atom, and reads as its contents, whatever follows it. */
  lemma {:induction false} GroupIsAtom(ts: seq<Token>, more: seq<Token>)
    requires ParseAlt(ts).Success? && ParseAlt(ts).value.1 == []
    ensures ParseAtom([Open] + (ts + ([Close] + more))) == Success((ParseAlt(ts).value.0, more))
  {
    var behind := [Close] + more;
    var whole := [Open] + (ts + behind);
    assert whole[1..] == ts + behind && [] + behind == behind && behind[1..] == more;
    AltBeforeClose(ts, behind);
  }

  lemma LexGroup(body: string, tail: string)
    requires Lex(body).Success? && Lex(tail).Success?
    ensures Lex("(" + (body + (")" + tail))) == Success([Open] + (Lex(body).value + ([Close] + Lex(tail).value)))
  {
    LexSymbol(')', tail);
    LexConcat(body, ")" + tail);
    LexSymbol('(', body + (")" + tail));
  }

  /** A parenthesised body matches what the body matches; a starred one any number of times in a row. */
  lemma {:induction false} GroupReads(body: string, s: string, i: nat, j: nat)
    requires Parse(body).Success?
    ensures Parse("(" + (body + ")")).Success? && Parse("(" + (body + ")*")).Success?
    ensures Spans(Parse("(" + (body + ")")).value, s, i, j) <==> Spans(Parse(body).value, s, i, j)
    ensures Spans(Parse("(" + (body + ")*")).value, s, i, j) <==>
              exists n: nat :: Repeats(Parse(body).value, s, i, j, n)
  {
    var r := Parse(body).value;
    PlainGroup(body);
    StarredGroup(body);
    CatEmpty(r, s, i, j);
    CatEmpty(Star(r), s, i, j);
    var star := Star(r);
    if Spans(star, s, i, j) {
      var n := StarRepeats(star, s, i, j);
      assert Repeats(r, s, i, j, n);
    }
    if n: nat :| Repeats(r, s, i, j, n) {
      assert Repeats(star.body, s, i, j, n);
      StarSpans(star, s, i, j, n);
      assert Spans(star, s, i, j);
    }
    assert Spans(star, s, i, j) <==> exists n: nat :: Repeats(r, s, i, j, n);
  }

  lemma CatEmpty(r: Regex, s: string, i: nat, j: nat)
    ensures Spans(Cat(r, Empty), s, i, j) <==> Spans(r, s, i, j)
  {
    if Spans(Cat(r, Empty), s, i, j) {
      var k := CatSpans(Cat(r, Empty), s, i, j);
    }
    if Spans(r, s, i, j) {
      SpansInside(r, s, i, j);
      assert Spans(Empty, s, j, j);
    }
  }

  lemma SpansInside(r: Regex, s: string, i: nat, j: nat)
    requires Spans(r, s, i, j)
    ensures i <= j <= |s|
  {}

  lemma PlainGroup(body: string)
    requires Parse(body).Success?
    ensures Parse("(" + (body + ")")) == Success(Cat(Parse(body).value, Empty))
  {
    var ts := Lex(body).value;
    assert ")" + "" == ")" && [Close] + [] == [Close];
    LexGroup(body, "");
    GroupIsAtom(ts, []);
    GroupAlone([Open] + (ts + [Close]), Parse(body).value);
  }

  lemma StarredGroup(body: string)
    requires Parse(body).Success?
    ensures Parse("(" + (body + ")*")) == Success(Cat(Star(Parse(body).value), Empty))
  {
    var ts := Lex(body).value;
    assert ")" + "*" == ")*" && ['*'] + "" == "*" && [Times] + [] == [Times];
    LexSymbol('*', "");
    LexGroup(body, "*");
    GroupIsAtom(ts, [Times]);
    GroupStarred([Open] + (ts + ([Close] + [Times])), Parse(body).value);
  }

  lemma GroupAlone(ts: seq<Token>, r: Regex)
    requires ts != [] && ts[0].Open? && ParseAtom(ts) == Success((r, []))
    ensures ParseAlt(ts) == Success((Cat(r, Empty), []))
  {
    assert ParseSeq([]) == Success((Empty, []));
    assert ParseSeq(ts) == Success((Cat(r, Empty), []));
  }

  lemma GroupStarred(ts: seq<Token>, r: Regex)
    requires ts != [] && ts[0].Open? && ParseAtom(ts) == Success((r, [Times]))
    ensures ParseAlt(ts) == Success((Cat(Star(r), Empty), []))
  {
    assert [Times][1..] == [];
    assert ParseSeq([]) == Success((Empty, []));
    assert ParseSeq(ts) == Success((Cat(Star(r), Empty), []));
  }

  // ---------- What the anchors are attached to ----------

  /** `r` and then `next`, in the right-nested form in which the reader writes a sequence. */
  function Then(r: Regex, next: Regex): Regex {
    match r
    case Empty => next
    case Cat(a, b) => Cat(a, Then(b, next))
    case _ => Cat(r, next)
  }

  /** The closing `$` goes to the last branch. */
  function AnchorLast(r: Regex): Regex {
    match r
    case Alt(a, b) => Alt(a, AnchorLast(b))
    case _ => Then(r, TO_END)
  }

  /** The opening `^` goes to the first branch. */
  function AnchorFirst(r: Regex): Regex {
    match r
    case Alt(a, b) => Alt(Cat(Begin, a), b)
    case _ => Cat(Begin, r)
  }

  // ---------- Reading the text ----------

  lemma {:induction false} LexConcat(s: string, tail: string)
    requires Lex(s).Success?
    ensures Lex(s + tail) == Prefixed(Lex(s).value, Lex(tail))
  {
    var whole := s + tail;
    if s == "" {
      assert whole == tail;
      PrefixedNone(Lex(tail));
    } else {
      var n := if s[0] == '\\' then 2 else 1;
      assert whole[n..] == s[n..] + tail;
      LexConcat(s[n..], tail);
      var first := if s[0] == '\\' then [Char(s[1])] else [Symbol(s[0])];
      PrefixedTwice(first, Lex(s[n..]).value, Lex(tail));
    }
  }

  function Extended(ts: seq<Token>): seq<Token> {
    ts + [Dollar]
  }

  lemma ExtendedTail(ts: seq<Token>)
    requires ts != []
    ensures Extended(ts)[0] == ts[0] && Extended(ts)[1..] == Extended(ts[1..])
  {}

  /** A `$` behind an atom does not change how the atom is read. */
  lemma {:induction false} AtomExtends(ts: seq<Token>)
    requires ts != [] && !ts[0].Bar? && !ts[0].Close? && ParseAtom(ts).Success?
    ensures ParseAtom(Extended(ts)) == Success((ParseAtom(ts).value.0, Extended(ParseAtom(ts).value.1)))
    decreases |ts|, 0
  {
    ExtendedTail(ts);
    if ts[0].Open? {
      AltExtends(ts[1..]);
      ExtendedTail(ParseAlt(ts[1..]).value.1);
    }
  }

  /** A `$` behind a sequence joins the sequence, unless the sequence has ended before it. */
  lemma {:induction false} SeqExtends(ts: seq<Token>)
    requires ParseSeq(ts).Success?
    ensures var (r, rest) := ParseSeq(ts).value;
            ParseSeq(Extended(ts)) == Success(if rest == [] then (Then(r, TO_END), []) else (r, Extended(rest)))
    decreases |ts|, 1
  {
    if ts == [] {
      EndAlone();
    } else {
      ExtendedTail(ts);
      if !ts[0].Bar? && !ts[0].Close? {
        AtomExtends(ts);
        var rest := ParseAtom(ts).value.1;
        if rest == [] {
          EndAlone();
        } else {
          ExtendedTail(rest);
          if rest[0].Times? {
            if |rest| > 1 {
              ExtendedTail(rest[1..]);
            }
            SeqExtends(rest[1..]);
          } else {
            SeqExtends(rest);
          }
        }
      }
    }
  }

  lemma EndAlone()
    ensures Extended([]) == [Dollar] && ParseSeq([Dollar]) == Success((TO_END, []))
            && ParseSeq([]) == Success((Empty, []))
  {
    assert [Dollar][1..] == [];
    assert ParseAtom([Dollar]) == Success((End, []));
  }

  /** A `$` behind an alternation joins its last branch. */
  lemma {:induction false} AltExtends(ts: seq<Token>)
    requires ParseAlt(ts).Success?
    ensures var (r, rest) := ParseAlt(ts).value;
            ParseAlt(Extended(ts)) == Success(if rest == [] then (AnchorLast(r), []) else (r, Extended(rest)))
    decreases |ts|, 2
  {
    SeqExtends(ts);
    var (left, rest) := ParseSeq(ts).value;
    if rest != [] {
      ExtendedTail(rest);
      if rest[0].Bar? {
        AltExtends(rest[1..]);
      }
    }
  }

  /** A `^` in front of an alternation joins its first branch. */
  lemma CaretJoinsFirst(ts: seq<Token>)
    requires ParseAlt(ts).Success? && (ts == [] || !ts[0].Times?)
    ensures ParseAlt([Caret] + ts) == Success((AnchorFirst(ParseAlt(ts).value.0), ParseAlt(ts).value.1))
  {
    var whole := [Caret] + ts;
    assert whole[1..] == ts;
    assert ParseAtom(whole) == Success((Begin, ts));
    var (left, rest) := ParseSeq(ts).value;
    assert ParseSeq(whole) == Success((Cat(Begin, left), rest));
  }

  lemma NoLeadingTimes(ts: seq<Token>)
    ensures ParseAlt(ts).Success? ==> ts == [] || !ts[0].Times?
  {
    if ts != [] && ts[0].Times? {
      assert ParseAtom(ts) == Failure(MissingArgument);
      assert ParseSeq(ts).Failure?;
    }
  }

  lemma LexAnchored(body: string)
    requires Lex(body).Success?
    ensures Lex("^" + body + "$") == Success([Caret] + Extended(Lex(body).value))
  {
    ConcatAssoc("^", body, "$");
    LexConcat(body, ['$']);
    LexDollar();
    LexSymbol('^', body + ['$']);
  }

  /** Every body that is an expression by itself is one between the anchors, which its outer branches take. */
  lemma {:induction false} AnchoredTextParses(body: string)
    requires Parse(body).Success?
    ensures Parse("^" + body + "$") == Success(AnchorFirst(AnchorLast(Parse(body).value)))
  {
    var ts := Lex(body).value;
    LexAnchored(body);
    AltExtends(ts);
    NoLeadingTimes(ts);
    CaretJoinsFirst(Extended(ts));
  }

  // ---------- The subjects the text accepts ----------

  lemma {:induction false} ThenToEnd(r: Regex, s: string, i: nat)
    requires i <= |s|
    ensures Spans(Then(r, TO_END), s, i, |s|) <==> Spans(r, s, i, |s|)
    decreases r
  {
    EndSpans(s);
    match r {
      case Empty =>
        ToEndSpans(s, i);
      case Cat(a, b) =>
        if Spans(Then(r, TO_END), s, i, |s|) {
          var k := CatSpans(Then(r, TO_END), s, i, |s|);
          ThenToEnd(b, s, k);
        }
        if Spans(r, s, i, |s|) {
          var k := CatSpans(r, s, i, |s|);
          ThenToEnd(b, s, k);
        }
      case _ =>
        if Spans(Then(r, TO_END), s, i, |s|) {
          var k := CatSpans(Then(r, TO_END), s, i, |s|);
          ToEndSpans(s, k);
        }
    }
  }

  lemma EndSpans(s: string)
    ensures Spans(TO_END, s, |s|, |s|)
  {
    assert Spans(End, s, |s|, |s|) && Spans(Empty, s, |s|, |s|);
  }

  lemma ToEndSpans(s: string, k: nat)
    ensures Spans(TO_END, s, k, |s|) <==> k == |s|
  {
    EndSpans(s);
    if Spans(TO_END, s, k, |s|) {
      var m := CatSpans(TO_END, s, k, |s|);
    }
  }

  lemma {:induction false} ThenAnchored(r: Regex)
    ensures EndAnchored(Then(r, TO_END))
  {
    if r.Cat? {
      ThenAnchored(r.second);
    }
  }

  /**
   Which branch of a body takes the subject: the first one that matches anything at the start. A
   branch before the last has to prefer the whole subject; the last has only to match it.
   */
  ghost predicate BranchTakes(r: Regex, s: string) {
    match r
    case Alt(a, b) => if MatchesAtStart(a, s) then MatchesWhole(a, s) else BranchTakes(b, s)
    case _ => Spans(r, s, 0, |s|)
  }

  lemma {:induction false} LastAnchorAccepts(r: Regex, s: string)
    ensures MatchesWhole(AnchorLast(r), s) <==> BranchTakes(r, s)
  {
    if r.Alt? {
      LeftBranchDecides(r.left, AnchorLast(r.right), s);
      LastAnchorAccepts(r.right, s);
    } else {
      ThenAnchored(r);
      WholeMatchExact(Then(r, TO_END), s);
      ThenToEnd(r, s, 0);
    }
  }

  /** At the start of the text a `^` in front of the first branch makes no difference. */
  lemma FirstAnchorAccepts(r: Regex, s: string)
    ensures MatchesWhole(AnchorFirst(r), s) <==> MatchesWhole(r, s)
  {
    WholeAtStart(r, s);
    WholeAtStart(AnchorFirst(r), s);
    BeginFirst(if r.Alt? then r.left else r, s);
  }

  lemma BeginFirst(r: Regex, s: string)
    ensures Ends(Cat(Begin, r), s, 0) == Ends(r, s, 0)
  {
    assert Ends(Begin, s, 0) == [0] && [0][1..] == [];
    assert EndsFromEach(r, s, 0, [0]) == Ends(r, s, 0) + EndsFromEach(r, s, 0, []);
  }

  /** The text `^body$`, read and searched with the full-span check, accepts what a branch of the body takes. */
  lemma {:induction false} AnchoredTextAccepts(body: string, s: string)
    requires Parse(body).Success?
    ensures Parse("^" + body + "$").Success?
    ensures MatchesWhole(Parse("^" + body + "$").value, s) <==> BranchTakes(Parse(body).value, s)
  {
    AnchoredTextParses(body);
    var r := Parse(body).value;
    FirstAnchorAccepts(AnchorLast(r), s);
    LastAnchorAccepts(r, s);
  }

  /** Every branch but the last, which the pattern's own `$` closes, carries a `$` of its own. */
  predicate BranchesEnd(r: Regex) {
    match r
    case Alt(a, b) => EndAnchored(a) && BranchesEnd(b)
    case _ => true
  }

  lemma {:induction false} AnchoredThroughout(r: Regex)
    requires BranchesEnd(r)
    ensures EndAnchored(AnchorLast(r))
  {
    if r.Alt? {
      AnchoredThroughout(r.right);
    } else {
      ThenAnchored(r);
    }
  }

  /** Over a whole subject the outer anchors add nothing to what the body means. */
  lemma {:induction false} AnchorsKeepMeaning(r: Regex, s: string)
    ensures Spans(AnchorFirst(AnchorLast(r)), s, 0, |s|) <==> Spans(r, s, 0, |s|)
  {
    LastAnchorMeaning(r, s);
    var x := AnchorLast(r);
    FirstAnchorMeaning(if x.Alt? then x.left else x, s);
  }

  lemma {:induction false} LastAnchorMeaning(r: Regex, s: string)
    ensures Spans(AnchorLast(r), s, 0, |s|) <==> Spans(r, s, 0, |s|)
  {
    if r.Alt? {
      LastAnchorMeaning(r.right, s);
    } else {
      ThenToEnd(r, s, 0);
    }
  }

  lemma FirstAnchorMeaning(r: Regex, s: string)
    ensures Spans(Cat(Begin, r), s, 0, |s|) <==> Spans(r, s, 0, |s|)
  {
    assert Spans(Begin, s, 0, 0);
    if Spans(Cat(Begin, r), s, 0, |s|) {
      var k := CatSpans(Cat(Begin, r), s, 0, |s|);
    }
  }

  // ---------- Bodies of plain branches ----------

  predicate IsPlain(s: string) {
    forall c | c in s :: c !in META
  }

  lemma {:induction false} QuotePlain(s: string)
    requires IsPlain(s)
    ensures QuoteMeta(s) == s
  {
    if s != "" {
      QuotePlain(s[1..]);
    }
  }

  /** A plain text reads as its own characters, whatever follows it. */
  lemma LexPlain(q: string, tail: string)
    requires IsPlain(q)
    ensures Lex(q + tail) == Prefixed(Chars(q), Lex(tail))
  {
    QuotePlain(q);
    LexQuoted(q, tail);
  }

  /** A body of literal branches, as the reader builds it. */
  function LiteralBranches(branches: seq<string>): Regex
    requires branches != []
  {
    var first := Literally(branches[0], Empty);
    if |branches| == 1 then first else Alt(first, LiteralBranches(branches[1..]))
  }

  lemma {:induction false} PlainBranchesParse(branches: seq<string>)
    requires branches != [] && forall p | p in branches :: IsPlain(p)
    ensures Parse(Join(branches, '|')) == Success(LiteralBranches(branches))
  {
    PlainBranchTokens(branches);
  }

  function BranchTokens(branches: seq<string>): seq<Token>
    requires branches != []
  {
    Chars(branches[0]) + if |branches| == 1 then [] else [Bar] + BranchTokens(branches[1..])
  }

  lemma {:induction false} PlainBranchTokens(branches: seq<string>)
    requires branches != [] && forall p | p in branches :: IsPlain(p)
    ensures Lex(Join(branches, '|')) == Success(BranchTokens(branches))
    ensures ParseAlt(BranchTokens(branches)) == Success((LiteralBranches(branches), []))
  {
    var p := branches[0];
    if |branches| == 1 {
      assert p + "" == p;
      LexPlain(p, "");
      ParseChars(p, []);
    } else {
      var tail := Join(branches[1..], '|');
      var rest := BranchTokens(branches[1..]);
      PlainBranchTokens(branches[1..]);
      LexSymbol('|', tail);
      LexPlain(p, ['|'] + tail);
      ConcatAssoc(p, ['|'], tail);
      var bar := [Bar] + rest;
      assert bar[1..] == rest;
      assert ParseSeq(bar) == Success((Empty, bar));
      ParseChars(p, bar);
    }
  }

  lemma LiteralSpans(q: string, s: string, j: nat)
    ensures Spans(Literally(q, Empty), s, 0, j) <==> q <= s && j == |q|
  {
    LiterallySpans(q, Empty, s, 0, j);
  }

  lemma LiteralAccepts(q: string, s: string)
    ensures MatchesWhole(Literally(q, Empty), s) <==> s == q
    ensures MatchesAtStart(Literally(q, Empty), s) <==> q <= s
  {
    var r := Literally(q, Empty);
    LiteralSpans(q, s, |q|);
    LiteralSpans(q, s, |s|);
    if MatchesWhole(r, s) {
      WholeMatchSound(r, s);
    }
    if s == q {
      WholeAtStart(r, s);
      EndsComplete(r, s, 0, |s|);
      EndsSound(r, s, 0, Ends(r, s, 0)[0]);
      LiteralSpans(q, s, Ends(r, s, 0)[0]);
    }
    if j: nat :| Spans(r, s, 0, j) {
      LiteralSpans(q, s, j);
    }
  }

  /** The subject is one of the branches, and no earlier branch is a beginning of it. */
  predicate Reached(branches: seq<string>, s: string) {
    exists i :: 0 <= i < |branches| && s == branches[i] && forall k | 0 <= k < i :: !(branches[k] <= s)
  }

  lemma ReachedUncons(branches: seq<string>, s: string)
    requires branches != []
    ensures Reached(branches, s) <==> s == branches[0] || (!(branches[0] <= s) && Reached(branches[1..], s))
  {
    var rest := branches[1..];
    if i :| 0 <= i < |branches| && s == branches[i] && forall k | 0 <= k < i :: !(branches[k] <= s) {
      if i > 0 {
        assert rest[i - 1] == s && forall k | 0 <= k < i - 1 :: rest[k] == branches[k + 1];
      }
    }
    if !(branches[0] <= s) && Reached(rest, s) {
      var i :| 0 <= i < |rest| && s == rest[i] && forall k | 0 <= k < i :: !(rest[k] <= s);
      assert branches[i + 1] == s && forall k | 0 < k < i + 1 :: branches[k] == rest[k - 1];
    }
  }

  lemma {:induction false} LiteralBranchesAccept(branches: seq<string>, s: string)
    requires branches != []
    ensures BranchTakes(LiteralBranches(branches), s) <==> Reached(branches, s)
    ensures Spans(LiteralBranches(branches), s, 0, |s|) <==> s in branches
  {
    var p := branches[0];
    LiteralAccepts(p, s);
    LiteralSpans(p, s, |s|);
    ReachedUncons(branches, s);
    if |branches| > 1 {
      LiteralBranchesAccept(branches[1..], s);
    }
  }
}
