/**
 The part of Go's `regexp` package that subject patterns use: what a regular expression
 means, and how the matcher searches for it.

 `Spans` is the meaning: it says which stretches of a text an expression matches and knows
 nothing about priorities. `Ends` is the search: it lists the ends a backtracking matcher
 reaches from a start, best first, as leftmost-first matching orders them.
 */
module Regex {
  import opened Wrappers

  /** `AnyNotNewline` is the syntax `.`, `Begin` and `End` are `^` and `$` without multi-line mode. */
  datatype Regex =
    | Empty
    | Lit(c: char)
    | AnyNotNewline
    | Begin
    | End
    | Cat(first: Regex, second: Regex)
    | Alt(left: Regex, right: Regex)
    | Star(body: Regex)

  // ---------- Meaning ----------

  /** `r` matches `s[i..j]`, where the anchors look at the position in the whole of `s`. */
  ghost predicate Spans(r: Regex, s: string, i: nat, j: nat)
    decreases r, 0
  {
    i <= j <= |s| &&
    match r
    case Empty => i == j
    case Lit(c) => j == i + 1 && s[i] == c
    case AnyNotNewline => j == i + 1 && s[i] != '\n'
    case Begin => i == j == 0
    case End => i == j == |s|
    case Cat(a, b) => exists k: nat :: Spans(a, s, i, k) && Spans(b, s, k, j)
    case Alt(a, b) => Spans(a, s, i, j) || Spans(b, s, i, j)
    case Star(b) => exists n: nat :: Repeats(b, s, i, j, n)
  }

  /** `n` consecutive matches of `r` lead from `i` to `j`. */
  ghost predicate Repeats(r: Regex, s: string, i: nat, j: nat, n: nat)
    decreases r, n + 1
  {
    if n == 0 then i == j <= |s|
    else exists k: nat :: Spans(r, s, i, k) && Repeats(r, s, k, j, n - 1)
  }

  // ---------- Search ----------

  predicate Between(low: nat, positions: seq<nat>, high: nat) {
    forall n | 0 <= n < |positions| :: low <= positions[n] <= high
  }

  /**
   The ends of the matches of `r` that start at `i`, in order of preference: left branches
   first, and greedy repetition. A repetition that consumed nothing ends the loop at once.
   */
  function Ends(r: Regex, s: string, i: nat): (ends: seq<nat>)
    requires i <= |s|
    ensures Between(i, ends, |s|)
    decreases r, |s| - i, 1, 0
  {
    match r
    case Empty => [i]
    case Lit(c) => if i < |s| && s[i] == c then [i + 1] else []
    case AnyNotNewline => if i < |s| && s[i] != '\n' then [i + 1] else []
    case Begin => if i == 0 then [i] else []
    case End => if i == |s| then [i] else []
    case Cat(a, b) => EndsFromEach(b, s, i, Ends(a, s, i))
    case Alt(a, b) => Ends(a, s, i) + Ends(b, s, i)
    case Star(b) => EndsOfLoop(r, s, i, Ends(b, s, i)) + [i]
  }

  /** Continues with `r` from each of `starts` in turn. */
  function EndsFromEach(r: Regex, s: string, i: nat, starts: seq<nat>): (ends: seq<nat>)
    requires Between(i, starts, |s|)
    ensures Between(i, ends, |s|)
    decreases r, |s| + 1, 0, |starts|
  {
    if starts == [] then [] else Ends(r, s, starts[0]) + EndsFromEach(r, s, i, starts[1..])
  }

  /** Continues the repetition `star`, begun at `i`, after each first iteration in turn. */
  function EndsOfLoop(star: Regex, s: string, i: nat, starts: seq<nat>): (ends: seq<nat>)
    requires Between(i, starts, |s|)
    ensures Between(i, ends, |s|)
    decreases star, |s| - i, 0, |starts|
  {
    if starts == [] then []
    else (if starts[0] > i then Ends(star, s, starts[0]) else [i]) + EndsOfLoop(star, s, i, starts[1..])
  }

  /** The first match: the smallest start that has one, with its preferred end. */
  function FindFrom(r: Regex, s: string, start: nat): Option<(nat, nat)>
    requires start <= |s|
    decreases |s| - start
  {
    var ends := Ends(r, s, start);
    if ends != [] then Some((start, ends[0]))
    else if start < |s| then FindFrom(r, s, start + 1)
    else None
  }

  /** Whether the first match covers the whole text. */
  predicate MatchesWhole(r: Regex, s: string) {
    FindFrom(r, s, 0) == Some((0, |s|))
  }

  // ---------- The search finds exactly the meaning ----------

  lemma {:induction false} EachEnd(r: Regex, s: string, i: nat, starts: seq<nat>, e: nat)
    requires Between(i, starts, |s|)
    ensures e in EndsFromEach(r, s, i, starts) <==> exists n :: 0 <= n < |starts| && e in Ends(r, s, starts[n])
  {
    if starts != [] {
      var rest := starts[1..];
      EachEnd(r, s, i, rest, e);
      assert forall n | 0 <= n < |starts| :: starts[n] == if n == 0 then starts[0] else rest[n - 1];
      assert forall n | 0 <= n < |rest| :: rest[n] == starts[n + 1];
    }
  }

  lemma {:induction false} LoopEnd(star: Regex, s: string, i: nat, starts: seq<nat>, e: nat)
    requires i <= |s|
    requires Between(i, starts, |s|)
    ensures e in EndsOfLoop(star, s, i, starts) <==>
              exists n :: 0 <= n < |starts| && (if starts[n] > i then e in Ends(star, s, starts[n]) else e == i)
  {
    if starts != [] {
      var rest := starts[1..];
      LoopEnd(star, s, i, rest, e);
      assert forall n | 0 <= n < |starts| :: starts[n] == if n == 0 then starts[0] else rest[n - 1];
      assert forall n | 0 <= n < |rest| :: rest[n] == starts[n + 1];
    }
  }

  /** Every end the search reaches closes a match. */
  lemma {:induction false} EndsSound(r: Regex, s: string, i: nat, e: nat)
    requires i <= |s| && e in Ends(r, s, i)
    ensures Spans(r, s, i, e)
    decreases r, |s| - i
  {
    match r {
      case Cat(a, b) =>
        EachEnd(b, s, i, Ends(a, s, i), e);
        var n :| 0 <= n < |Ends(a, s, i)| && e in Ends(b, s, Ends(a, s, i)[n]);
        var k := Ends(a, s, i)[n];
        EndsSound(a, s, i, k);
        EndsSound(b, s, k, e);
      case Alt(a, b) =>
        if e in Ends(a, s, i) {
          EndsSound(a, s, i, e);
        } else {
          EndsSound(b, s, i, e);
        }
      case Star(b) =>
        assert Repeats(b, s, i, i, 0);
        if e != i {
          LoopEnd(r, s, i, Ends(b, s, i), e);
          var m :| 0 <= m < |Ends(b, s, i)| && Ends(b, s, i)[m] > i && e in Ends(r, s, Ends(b, s, i)[m]);
          var k := Ends(b, s, i)[m];
          EndsSound(b, s, i, k);
          EndsSound(r, s, k, e);
          var n: nat :| Repeats(b, s, k, e, n);
          assert Repeats(b, s, i, e, n + 1);
        }
      case _ =>
    }
  }

  /** Every match is among the ends the search reaches, empty iterations included. */
  lemma {:induction false} EndsComplete(r: Regex, s: string, i: nat, e: nat)
    requires i <= |s| && Spans(r, s, i, e)
    ensures e in Ends(r, s, i)
    decreases r, 0
  {
    match r {
      case Cat(a, b) =>
        var k: nat :| Spans(a, s, i, k) && Spans(b, s, k, e);
        EndsComplete(a, s, i, k);
        EndsComplete(b, s, k, e);
        EachEnd(b, s, i, Ends(a, s, i), e);
      case Alt(a, b) =>
        if Spans(a, s, i, e) {
          EndsComplete(a, s, i, e);
        } else {
          EndsComplete(b, s, i, e);
        }
      case Star(b) =>
        var n: nat :| Repeats(b, s, i, e, n);
        RepeatsComplete(b, s, i, e, n);
      case _ =>
    }
  }

  lemma {:induction false} RepeatsComplete(b: Regex, s: string, i: nat, e: nat, n: nat)
    requires i <= |s| && Repeats(b, s, i, e, n)
    ensures e in Ends(Star(b), s, i)
    decreases b, n + 1
  {
    if n > 0 {
      var k: nat :| Spans(b, s, i, k) && Repeats(b, s, k, e, n - 1);
      RepeatsComplete(b, s, k, e, n - 1);
      if k > i {
        EndsComplete(b, s, i, k);
        LoopEnd(Star(b), s, i, Ends(b, s, i), e);
      }
    }
  }

  // ---------- Full-span acceptance ----------

  /** A search that covers the whole subject proves the subject matches, wherever the anchors sit. */
  lemma {:induction false} WholeMatchSound(r: Regex, s: string)
    requires MatchesWhole(r, s)
    ensures Spans(r, s, 0, |s|)
  {
    if Ends(r, s, 0) != [] {
      EndsSound(r, s, 0, Ends(r, s, 0)[0]);
    } else if |s| > 0 {
      FirstMatchStart(r, s, 1);
    }
  }

  lemma {:induction false} FirstMatchStart(r: Regex, s: string, start: nat)
    requires start <= |s|
    ensures FindFrom(r, s, start).Some? ==> FindFrom(r, s, start).value.0 >= start
    decreases |s| - start
  {
    if Ends(r, s, start) == [] && start < |s| {
      FirstMatchStart(r, s, start + 1);
    }
  }

  /** Every way through `r` passes a `$`, so every match runs to the end of the text. */
  predicate EndAnchored(r: Regex) {
    match r
    case End => true
    case Cat(a, b) => EndAnchored(a) || EndAnchored(b)
    case Alt(a, b) => EndAnchored(a) && EndAnchored(b)
    case _ => false
  }

  lemma {:induction false} EndAnchoredSpans(r: Regex, s: string, i: nat, j: nat)
    requires EndAnchored(r) && Spans(r, s, i, j)
    ensures j == |s|
  {
    match r {
      case End =>
      case Cat(a, b) =>
        var k: nat :| Spans(a, s, i, k) && Spans(b, s, k, j);
        if EndAnchored(a) {
          EndAnchoredSpans(a, s, i, k);
        } else {
          EndAnchoredSpans(b, s, k, j);
        }
      case Alt(a, b) =>
        if Spans(a, s, i, j) {
          EndAnchoredSpans(a, s, i, j);
        } else {
          EndAnchoredSpans(b, s, i, j);
        }
    }
  }

  /** With the end anchored on every path, the search accepts exactly the subjects that match. */
  lemma {:induction false} WholeMatchExact(r: Regex, s: string)
    requires EndAnchored(r)
    ensures MatchesWhole(r, s) <==> Spans(r, s, 0, |s|)
  {
    if MatchesWhole(r, s) {
      WholeMatchSound(r, s);
    }
    if Spans(r, s, 0, |s|) {
      EndsComplete(r, s, 0, |s|);
      EndsSound(r, s, 0, Ends(r, s, 0)[0]);
      EndAnchoredSpans(r, s, 0, Ends(r, s, 0)[0]);
    }
  }

  lemma CatSpans(r: Regex, s: string, i: nat, j: nat) returns (k: nat)
    requires r.Cat? && Spans(r, s, i, j)
    ensures Spans(r.first, s, i, k) && Spans(r.second, s, k, j)
  {
    match r
    case Cat(a, b) => k :| Spans(a, s, i, k) && Spans(b, s, k, j);
  }

  lemma StarRepeats(r: Regex, s: string, i: nat, j: nat) returns (n: nat)
    requires r.Star? && Spans(r, s, i, j)
    ensures Repeats(r.body, s, i, j, n)
  {
    match r
    case Star(b) => n :| Repeats(b, s, i, j, n);
  }

  lemma {:induction false} RepeatsForward(r: Regex, s: string, i: nat, j: nat, n: nat)
    requires Repeats(r, s, i, j, n)
    ensures i <= j <= |s|
    decreases n
  {
    if n > 0 {
      var k: nat :| Spans(r, s, i, k) && Repeats(r, s, k, j, n - 1);
      RepeatsForward(r, s, k, j, n - 1);
    }
  }

  lemma StarSpans(r: Regex, s: string, i: nat, j: nat, n: nat)
    requires r.Star? && Repeats(r.body, s, i, j, n)
    ensures Spans(r, s, i, j)
  {
    RepeatsForward(r.body, s, i, j, n);
  }

  /** Only a match that starts at the start can cover the whole text. */
  lemma {:induction false} WholeAtStart(r: Regex, s: string)
    ensures MatchesWhole(r, s) <==> Ends(r, s, 0) != [] && Ends(r, s, 0)[0] == |s|
  {
    if Ends(r, s, 0) == [] && |s| > 0 {
      FirstMatchStart(r, s, 1);
    }
  }

  ghost predicate MatchesAtStart(r: Regex, s: string) {
    exists j: nat :: Spans(r, s, 0, j)
  }

  /**
   Alternation: as soon as the left branch matches some stretch at the start, it alone decides
   whether the subject is accepted; only otherwise is the right branch tried.
   */
  lemma {:induction false} LeftBranchDecides(a: Regex, b: Regex, s: string)
    ensures MatchesWhole(Alt(a, b), s) <==>
              if MatchesAtStart(a, s) then MatchesWhole(a, s) else MatchesWhole(b, s)
  {
    WholeAtStart(Alt(a, b), s);
    WholeAtStart(a, s);
    WholeAtStart(b, s);
    var left, right := Ends(a, s, 0), Ends(b, s, 0);
    assert Ends(Alt(a, b), s, 0) == left + right;
    if left == [] {
      assert left + right == right;
      if j: nat :| Spans(a, s, 0, j) {
        EndsComplete(a, s, 0, j);
      }
    } else {
      EndsSound(a, s, 0, left[0]);
      assert (left + right)[0] == left[0];
      assert MatchesWhole(Alt(a, b), s) <==> left[0] == |s|;
      assert MatchesWhole(a, s) <==> left[0] == |s|;
      assert MatchesAtStart(a, s);
    }
  }
}
