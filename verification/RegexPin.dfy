/**
 Subject patterns given as regular expressions: when exactly such a pattern accepts the
 subjects it matches, and when the account the static test reads from it is the account of
 every subject it accepts.
 */
module RegexPin {
  import opened Wrappers
  import opened Text
  import opened Regex
  import opened RegexSyntax
  import opened SubPattern
  import opened AnchoredPattern
  import opened AccountPin

  /** The pattern `re:^body$`. */
  function ByRegex(body: string): string {
    RE_PREFIX + ("^" + body + "$")
  }

  lemma CompileByRegex(body: string)
    ensures Compile(ByRegex(body)) == Read("^" + body + "$")
  {
    var text := "^" + body + "$";
    assert TrimPrefix(ByRegex(body), RE_PREFIX) == text && text[0] == '^' && text[|text| - 1..] == "$";
  }

  // ---------- What a pattern accepts ----------

  /**
   For every body: the pattern compiles, the expression it compiles to has the meaning of the
   body, and a subject is accepted exactly when a branch of the body takes it.
   */
  lemma {:induction false} RegexAccepts(body: string, s: string)
    requires Parse(body).Success?
    ensures Compile(ByRegex(body)).Success? && Compile(ByRegex(body)).value.Some?
    ensures Spans(Compile(ByRegex(body)).value.value, s, 0, |s|) <==> Spans(Parse(body).value, s, 0, |s|)
    ensures SubMatches(Compile(ByRegex(body)).value, s) <==> BranchTakes(Parse(body).value, s)
  {
    CompileByRegex(body);
    AnchoredTextParses(body);
    AnchoredTextAccepts(body, s);
    AnchorsKeepMeaning(Parse(body).value, s);
  }

  /**
   A pattern without a top-level `|`, or with a `$` in front of each, accepts exactly the subjects
   its body matches as a whole.
   */
  lemma {:induction false} RegexExact(body: string, s: string)
    requires Parse(body).Success? && BranchesEnd(Parse(body).value)
    ensures Compile(ByRegex(body)).Success?
    ensures SubMatches(Compile(ByRegex(body)).value, s) <==> Spans(Parse(body).value, s, 0, |s|)
  {
    RegexAccepts(body, s);
    CompileByRegex(body);
    AnchoredTextParses(body);
    AnchoredThroughout(Parse(body).value);
    WholeMatchExact(AnchorFirst(AnchorLast(Parse(body).value)), s);
  }

  /** Plain branches: the subject has to be a branch that no earlier branch is a beginning of. */
  lemma {:induction false} PlainBranchesAccept(branches: seq<string>, s: string)
    requires branches != [] && forall p | p in branches :: IsPlain(p)
    ensures Compile(ByRegex(Join(branches, '|'))).Success? && Compile(ByRegex(Join(branches, '|'))).value.Some?
    ensures Spans(Compile(ByRegex(Join(branches, '|'))).value.value, s, 0, |s|) <==> s in branches
    ensures SubMatches(Compile(ByRegex(Join(branches, '|'))).value, s) <==> Reached(branches, s)
  {
    PlainBranchesParse(branches);
    RegexAccepts(Join(branches, '|'), s);
    LiteralBranchesAccept(branches, s);
  }

  /** No branch comes behind a shorter beginning of itself, unless something before that begins it too. */
  ghost predicate NoneCutShort(branches: seq<string>) {
    forall i, j | 0 <= i < j < |branches| && branches[i] < branches[j] ::
      exists k :: 0 <= k < i && branches[k] <= branches[j]
  }

  lemma {:induction false} FirstBeginning(branches: seq<string>, j: nat) returns (i: nat)
    requires j < |branches|
    ensures i <= j && branches[i] <= branches[j] && forall k | 0 <= k < i :: !(branches[k] <= branches[j])
  {
    i := 0;
    while !(branches[i] <= branches[j])
      invariant i <= j
      invariant forall k | 0 <= k < i :: !(branches[k] <= branches[j])
      decreases j - i
    {
      i := i + 1;
    }
  }

  /**
   Exactly when a pattern of plain branches accepts every subject it matches: if and only if no
   branch is cut short by an earlier one. So `re:^p|q$` refuses a matching subject exactly when
   `p` is a proper beginning of `q`.
   */
  lemma {:induction false} PlainBranchesComplete(branches: seq<string>)
    requires branches != [] && forall p | p in branches :: IsPlain(p)
    ensures var matcher := Compile(ByRegex(Join(branches, '|')));
            matcher.Success? && matcher.value.Some? &&
            ((forall s | Spans(matcher.value.value, s, 0, |s|) :: SubMatches(matcher.value, s))
               <==> NoneCutShort(branches))
  {
    forall s {
      PlainBranchesAccept(branches, s);
    }
    PlainBranchesAccept(branches, "");
    AllReached(branches);
  }

  lemma BranchReached(branches: seq<string>, j: nat)
    requires NoneCutShort(branches) && j < |branches|
    ensures Reached(branches, branches[j])
  {
    var i := FirstBeginning(branches, j);
    assert branches[i] == branches[j];
  }

  lemma NotCutShort(branches: seq<string>, i: nat, j: nat) returns (k: nat)
    requires i < j < |branches| && branches[i] < branches[j] && Reached(branches, branches[j])
    ensures k < i && branches[k] <= branches[j]
  {
    var s := branches[j];
    k :| 0 <= k < |branches| && s == branches[k] && forall m | 0 <= m < k :: !(branches[m] <= s);
    assert !(i < k);
  }

  lemma {:induction false} AllReached(branches: seq<string>)
    ensures (forall s | s in branches :: Reached(branches, s)) <==> NoneCutShort(branches)
  {
    if NoneCutShort(branches) {
      forall s | s in branches ensures Reached(branches, s) {
        var j :| 0 <= j < |branches| && branches[j] == s;
        BranchReached(branches, j);
      }
    }
    if forall s | s in branches :: Reached(branches, s) {
      forall i, j | 0 <= i < j < |branches| && branches[i] < branches[j]
        ensures exists k :: 0 <= k < i && branches[k] <= branches[j]
      {
        var k := NotCutShort(branches, i, j);
      }
    }
  }

  /** The smallest case: `ab` matches `re:^a|ab$` and is refused. */
  lemma BranchLosesMatch()
    ensures var matcher := Compile("re:^a|ab$");
            matcher.Success? && matcher.value.Some? &&
            Spans(matcher.value.value, "ab", 0, 2) && !SubMatches(matcher.value, "ab")
  {
    var branches := ["a", "ab"];
    assert branches[1..] == ["ab"];
    assert Join(branches, '|') == "a|ab";
    assert ByRegex("a|ab") == "re:^a|ab$";
    NotMeta('a');
    NotMeta('b');
    PlainBranchesAccept(branches, "ab");
    assert branches[0] <= "ab";
  }

  // ---------- The account ----------

  /**
   The account fields of the pattern are plain text: no metacharacter in the first five fields,
   and no repetition of the colon behind them.
   */
  predicate HeadIsPlain(pattern: string) {
    var fields := SplitN(Unanchored(pattern), ':', 6);
    && |fields| >= 5
    && (forall i | 0 <= i < 5 :: IsPlain(fields[i]))
    && (|fields| == 6 && fields[5] != "" ==> fields[5][0] != '*')
  }

  predicate OneBranch(matcher: Option<Regex>) {
    matcher.Some? && !matcher.value.Alt?
  }

  lemma LexFirst(s: string)
    requires s != "" && s[0] != '*' && Lex(s).Success?
    ensures Lex(s).value == [] || !Lex(s).value[0].Times?
  {}

  /**
   A text `^` plus plain characters plus `rest`, of one branch, reads as the anchor, those literals,
   and something.
   */
  lemma {:induction false} ReadPlainHead(head: string, rest: string) returns (next: Regex)
    requires head != "" && IsPlain(head) && rest != "" && rest[0] != '*'
    requires Parse(['^'] + (head + rest)).Success? && !Parse(['^'] + (head + rest)).value.Alt?
    ensures Parse(['^'] + (head + rest)) == Success(Cat(Begin, Literally(head, next)))
  {
    LexPlain(head, rest);
    var text := ['^'] + (head + rest);
    assert text[1..] == head + rest;
    assert Lex(rest).Success?;
    var ts := Lex(rest).value;
    LexFirst(rest);
    var after := Chars(head) + ts;
    LexSymbol('^', head + rest);
    var all := [Caret] + after;
    assert Lex(text) == Success(all);
    assert all[1..] == after && after[0] == Char(head[0]);
    assert ParseAtom(all) == Success((Begin, after));
    ParseChars(head, ts);
    assert ParseSeq(ts).Success? by {
      assert ParseAlt(all).Success? && ParseSeq(all).Success?;
      assert ParseSeq(after).Success?;
    }
    next := ParseSeq(ts).value.0;
    assert ParseSeq(all) == Success((Cat(Begin, Literally(head, next)), ParseSeq(ts).value.1));
  }

  lemma PlainJoin(fields: seq<string>)
    requires fields != [] && forall f | f in fields :: IsPlain(f)
    ensures IsPlain(Join(fields, ':'))
  {
    forall c | c in META ensures c !in Join(fields, ':') {
      JoinLacks(fields, ':', c);
    }
  }

  /** A pattern that compiles is its own body between the anchors. */
  lemma AnchorsAround(pattern: string)
    requires RE_PREFIX <= pattern && Compile(pattern).Success?
    ensures pattern == ByRegex(Unanchored(pattern))
  {
    var text := TrimPrefix(pattern, RE_PREFIX);
    assert pattern == RE_PREFIX + text;
    assert "^" <= text && HasSuffix(text, "$");
    assert text[0] == '^' && text[|text| - 1] == '$';
    assert TrimPrefix(text, "^") == text[1..];
    assert TrimSuffix(text[1..], "$") == text[1..|text| - 1];
    assert text == "^" + text[1..|text| - 1] + "$";
  }

  /**
   A regular expression of one branch whose account fields are plain text accepts only subjects
   of the account the static test reads from it, whatever follows the account fields.
   */
  lemma {:induction false} RegexPinHolds(pattern: string, sub: string)
    requires RE_PREFIX <= pattern && AccountPinnedInARN(pattern) && HeadIsPlain(pattern)
    requires Compile(pattern).Success? && OneBranch(Compile(pattern).value)
    requires SubMatches(Compile(pattern).value, sub)
    ensures FifthField(sub) == Some(PinnedAccount(pattern))
  {
    var body := Unanchored(pattern);
    var fields := SplitN(body, ':', 6);
    AnchorsAround(pattern);
    PlainFields(pattern);
    JoinOfSplitN(body, ':', 6);
    if |fields| == 5 {
      assert fields[..5] == fields;
      SplitNAgrees(body, ':', 6);
      PlainJoin(fields);
      AcceptsItself(body, sub);
    } else {
      assert fields[..5] + [fields[5]] == fields;
      JoinAppend(fields[..5], [fields[5]], ':');
      PlainFieldsFirst(fields[..5], fields[5], sub);
    }
  }

  lemma PlainFields(pattern: string)
    requires HeadIsPlain(pattern)
    ensures forall f | f in SplitN(Unanchored(pattern), ':', 6)[..5] :: IsPlain(f) && ':' !in f
  {
    var body := Unanchored(pattern);
    SplitNAgrees(body, ':', 6);
    SplitPieces(body, ':');
    forall f | f in SplitN(body, ':', 6)[..5] ensures IsPlain(f) && ':' !in f {
      var i :| 0 <= i < 5 && SplitN(body, ':', 6)[i] == f;
      assert f == Split(body, ':')[i];
    }
  }

  /** The patterns whose account field can be relied on, globs and regular expressions alike. */
  predicate PinIsReliable(pattern: string) {
    && AccountPinnedInARN(pattern) && Compile(pattern).Success?
    && if RE_PREFIX <= pattern then HeadIsPlain(pattern) && OneBranch(Compile(pattern).value) else PinIsFirm(pattern)
  }

  /** Every subject accepted by such a pattern lies in the account the static test reads from it. */
  lemma ReliablePinHolds(pattern: string, sub: string)
    requires PinIsReliable(pattern) && SubMatches(Compile(pattern).value, sub)
    ensures FifthField(sub) == Some(PinnedAccount(pattern))
  {
    if RE_PREFIX <= pattern {
      RegexPinHolds(pattern, sub);
    } else {
      GlobMatcher(pattern, sub);
      FirmPinHolds(pattern, sub);
    }
  }

  lemma AcceptsItself(body: string, sub: string)
    requires IsPlain(body) && Compile(ByRegex(body)).Success? && SubMatches(Compile(ByRegex(body)).value, sub)
    ensures sub == body
  {
    PlainBranchesAccept([body], sub);
  }

  lemma {:induction false} PlainFieldsFirst(first: seq<string>, behind: string, sub: string)
    requires |first| == 5 && forall f | f in first :: IsPlain(f) && ':' !in f
    requires behind != "" ==> behind[0] != '*'
    requires var matcher := Compile(ByRegex(Join(first, ':') + [':'] + behind));
             matcher.Success? && OneBranch(matcher.value) && SubMatches(matcher.value, sub)
    ensures FifthField(sub) == Some(first[4])
  {
    var head := Join(first, ':') + [':'];
    CompileByRegex(head + behind);
    ConcatAssoc("^", head + behind, "$");
    ConcatAssoc(head, behind, "$");
    PlainJoin(first);
    var next := ReadPlainHead(head, behind + "$");
    HeadMatched(head, next, sub);
    FifthOfHead(first, sub[|head|..]);
  }

  /** What is accepted begins with the literal head. */
  lemma HeadMatched(head: string, next: Regex, sub: string)
    requires MatchesWhole(Cat(Begin, Literally(head, next)), sub)
    ensures |head| <= |sub| && head + sub[|head|..] == sub
  {
    var r := Cat(Begin, Literally(head, next));
    WholeMatchSound(r, sub);
    var k := CatSpans(r, sub, 0, |sub|);
    LiterallySpans(head, next, sub, 0, |sub|);
    assert sub == sub[..|head|] + sub[|head|..];
  }

  /** The bar between two texts lies in the last field of the first. */
  lemma JointField(p: string, q: string, last: nat)
    requires last == |Split(p, ':')| - 1
    ensures last < |Split(p + "|" + q, ':')| && '|' in Split(p + "|" + q, ':')[last]
  {
    SplitAppend(p, "|", ':');
    SplitLast(p + "|", q, ':');
    var field := Split(p + "|", ':')[last];
    assert field[|field| - 1] == '|';
    assert Split(p + "|" + q, ':')[last][|field| - 1] == '|';
  }

  /** The static test reads the fifth field of the body. */
  lemma PinIsFifth(body: string)
    requires AccountPinnedInARN(ByRegex(body))
    ensures FifthField(body) == Some(PinnedAccount(ByRegex(body))) && IsAccountId(Split(body, ':')[4])
  {
    UnanchoredBody(body);
    SplitNAgrees(body, ':', 6);
  }

  /** What the static test reads from the text of a pattern: its body's fifth field, if that is an account id. */
  lemma PinReadsBody(body: string)
    ensures AccountPinnedInARN(ByRegex(body)) <==> |Split(body, ':')| >= 5 && IsAccountId(Split(body, ':')[4])
    ensures body != "" && !("re:" <= body) && body[0] != '^' && body[|body| - 1] != '$' ==>
              (AccountPinnedInARN(body) <==> |Split(body, ':')| >= 5 && IsAccountId(Split(body, ':')[4]))
  {
    UnanchoredBody(body);
    SplitNAgrees(body, ':', 6);
    if body != "" && !("re:" <= body) && body[0] != '^' && body[|body| - 1] != '$' {
      assert TrimPrefix(body, RE_PREFIX) == body;
      assert body[|body| - 1..] == [body[|body| - 1]];
      assert Unanchored(body) == body;
    }
  }

  /** Of two branches, the first has more than the account fields, and the account read is its own. */
  lemma {:induction false} PinOfTwo(p: string, q: string)
    requires AccountPinnedInARN(ByRegex(p + "|" + q)) && |Split(p, ':')| >= 5
    ensures |Split(p, ':')| >= 6 && FifthField(p) == Some(PinnedAccount(ByRegex(p + "|" + q)))
  {
    PinIsFifth(p + "|" + q);
    if |Split(p, ':')| == 5 {
      JointField(p, q, 4);
      assert false;
    }
    ConcatAssoc(p, "|", q);
    SplitFront(p, "|" + q, ':', 4);
  }

  lemma UnanchoredBody(body: string)
    ensures Unanchored(ByRegex(body)) == body
  {
    var text := "^" + body + "$";
    assert TrimPrefix(ByRegex(body), RE_PREFIX) == text;
    assert TrimPrefix(text, "^") == body + "$";
    assert TrimSuffix(body + "$", "$") == body;
  }

  /**
   Exactly when the static test tells the truth about plain branches, however many: all accepted
   subjects lie in the account it read if and only if every branch that is reached names it.
   */
  lemma {:induction false} RegexPinTruthful(branches: seq<string>)
    requires branches != [] && forall p | p in branches :: IsPlain(p)
    requires AccountPinnedInARN(ByRegex(Join(branches, '|')))
    ensures var pattern := ByRegex(Join(branches, '|'));
            Compile(pattern).Success? &&
            ((forall sub | SubMatches(Compile(pattern).value, sub) :: FifthField(sub) == Some(PinnedAccount(pattern)))
               <==> forall p | p in branches && Reached(branches, p) :: FifthField(p) == Some(PinnedAccount(pattern)))
  {
    PlainBranchesAccept(branches, "");
    forall sub {
      PlainBranchesAccept(branches, sub);
    }
  }

  /**
   The case of two branches: all subjects that `re:^p|q$` accepts lie in the account the test read
   if and only if both branches name that account, the one that is never reached included.
   */
  lemma {:induction false} TwoBranchPinTruthful(p: string, q: string)
    requires IsPlain(p) && IsPlain(q) && AccountPinnedInARN(ByRegex(p + "|" + q))
    ensures var pattern := ByRegex(p + "|" + q);
            Compile(pattern).Success? &&
            ((forall sub | SubMatches(Compile(pattern).value, sub) :: FifthField(sub) == Some(PinnedAccount(pattern)))
               <==> FifthField(p) == FifthField(q) == Some(PinnedAccount(pattern)))
  {
    TwoBranches(p, q);
    RegexPinTruthful([p, q]);
    if FifthField(p) == Some(PinnedAccount(ByRegex(p + "|" + q))) && p <= q {
      UnreachedNamesToo(p, q);
    }
  }

  /** A branch cut short by one with the account in it has the same account. */
  lemma {:induction false} UnreachedNamesToo(p: string, q: string)
    requires AccountPinnedInARN(ByRegex(p + "|" + q)) && FifthField(p).Some? && p <= q
    ensures FifthField(q) == FifthField(p)
  {
    PinOfTwo(p, q);
    assert q == p + q[|p|..];
    SplitFront(p, q[|p|..], ':', 4);
  }

  lemma TwoBranches(p: string, q: string)
    ensures Join([p, q], '|') == p + "|" + q
    ensures Reached([p, q], p) && (Reached([p, q], q) <==> q == p || !(p <= q))
  {
    assert [p, q][1..] == [q];
    ReachedUncons([p, q], p);
    ReachedUncons([p, q], q);
    ReachedUncons([q], q);
  }

  // ---------- A branch in front of the account ----------

  /** For every body `q`: the first branch of `re:^.*|q$` accepts every one-line subject, whatever account `q` names. */
  lemma {:induction false} RegexPinCanMiss(q: string, sub: string)
    requires Parse(q).Success? && |Split(q, ':')| >= 5 && IsAccountId(Split(q, ':')[4])
    requires '\n' !in sub
    ensures AccountPinnedInARN(ByRegex(".*|" + q)) && PinnedAccount(ByRegex(".*|" + q)) == Split(q, ':')[4]
    ensures Compile(ByRegex(".*|" + q)).Success? && SubMatches(Compile(ByRegex(".*|" + q)).value, sub)
  {
    UnanchoredBody(".*|" + q);
    SplitPrepend(".*|", q, ':');
    SplitNAgrees(".*|" + q, ':', 6);
    AnyBranchParses(q);
    RegexAccepts(".*|" + q, sub);
    var left := Cat(Star(AnyNotNewline), Empty);
    AnyTakesAll(sub, 0);
    FirstOfEach(Empty, sub, 0, Ends(Star(AnyNotNewline), sub, 0));
    WholeAtStart(left, sub);
    EndsSound(left, sub, 0, |sub|);
    assert MatchesAtStart(left, sub);
  }

  lemma LexAnyBranch(q: string)
    requires Lex(q).Success?
    ensures Lex(".*|" + q) == Success([Dot, Times] + ([Bar] + Lex(q).value))
  {
    LexSymbol('|', q);
    LexAny(['|'] + q, [Bar] + Lex(q).value);
    ConcatAssoc(ANY, ['|'], q);
    assert ANY + ['|'] == ".*|";
  }

  lemma AnyBranchParses(q: string)
    requires Parse(q).Success?
    ensures Parse(".*|" + q) == Success(Alt(Cat(Star(AnyNotNewline), Empty), Parse(q).value))
  {
    var ts := Lex(q).value;
    var bar := [Bar] + ts;
    var any := [Dot, Times] + bar;
    LexAnyBranch(q);
    assert bar[1..] == ts && any[1..] == [Times] + bar && any[1..][1..] == bar;
    assert ParseSeq(bar) == Success((Empty, bar));
    assert ParseAtom(any) == Success((AnyNotNewline, any[1..]));
    assert ParseSeq(any) == Success((Cat(Star(AnyNotNewline), Empty), bar));
  }

  /** A loop that can go round once, and on from there, prefers to. */
  lemma LoopPrefersOn(star: Regex, s: string, i: nat)
    requires star.Star? && i < |s| && Ends(star.body, s, i) == [i + 1] && Ends(star, s, i + 1) != []
    ensures Ends(star, s, i) != [] && Ends(star, s, i)[0] == Ends(star, s, i + 1)[0]
  {
    var once := [i + 1];
    assert once[1..] == [];
    assert EndsOfLoop(star, s, i, once) == Ends(star, s, i + 1) + EndsOfLoop(star, s, i, []);
  }

  /** The greedy `.*` prefers to run to the end of a one-line text. */
  lemma {:induction false} AnyTakesAll(s: string, i: nat)
    requires i <= |s| && '\n' !in s
    ensures Ends(Star(AnyNotNewline), s, i) != [] && Ends(Star(AnyNotNewline), s, i)[0] == |s|
    decreases |s| - i
  {
    if i < |s| {
      AnyTakesAll(s, i + 1);
      LoopPrefersOn(Star(AnyNotNewline), s, i);
    } else {
      AtEnd(Star(AnyNotNewline), s);
    }
  }

  lemma AtEnd(star: Regex, s: string)
    requires star == Star(AnyNotNewline)
    ensures Ends(star, s, |s|) == [|s|]
  {
    assert Ends(AnyNotNewline, s, |s|) == [];
    assert EndsOfLoop(star, s, |s|, []) == [];
  }

  lemma FirstOfEach(r: Regex, s: string, i: nat, starts: seq<nat>)
    requires Between(i, starts, |s|) && starts != [] && Ends(r, s, starts[0]) != []
    ensures EndsFromEach(r, s, i, starts) != []
    ensures EndsFromEach(r, s, i, starts)[0] == Ends(r, s, starts[0])[0]
  {}
}
