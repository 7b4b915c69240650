/**
 The text form of regular expressions: quoting, and reading a text back into an expression.

 The reader covers literals, escaped punctuation, `.`, `*`, `|`, groups, `^` and `$`. The rest
 of Go's syntax is reported as `Unsupported`.
 */
module RegexSyntax {
  import opened Wrappers
  import opened Text
  import opened Regex

  datatype Token = Char(c: char) | Dot | Times | Bar | Open | Close | Caret | Dollar

  datatype SyntaxError =
    | TrailingBackslash | MissingArgument | NestedRepeat | MissingParen | UnexpectedParen | Unsupported

  // ---------- Quoting ----------

  const META := "\\.+*?()|[]{}^$"

  /** `regexp.QuoteMeta`: a backslash in front of every metacharacter. */
  function QuoteMeta(s: string): string {
    if s == "" then "" else Quoted(s[0]) + QuoteMeta(s[1..])
  }

  function Quoted(c: char): string {
    if c in META then ['\\', c] else [c]
  }

  // ---------- Tokens ----------

  predicate IsWordChar(c: char) {
    '0' <= c <= '9' || 'a' <= c <= 'z' || 'A' <= c <= 'Z'
  }

  function Lex(s: string): Result<seq<Token>, SyntaxError> {
    if s == "" then Success([])
    else if s[0] == '\\' then
      if |s| == 1 then Failure(TrailingBackslash)
      else if IsWordChar(s[1]) || s[1] >= '\U{80}' then Failure(Unsupported)
      else
        var rest :- Lex(s[2..]);
        Success([Char(s[1])] + rest)
    else if s[0] in "+?[{" then Failure(Unsupported)
    else
      var rest :- Lex(s[1..]);
      Success([Symbol(s[0])] + rest)
  }

  function Symbol(c: char): Token {
    match c
    case '.' => Dot
    case '*' => Times
    case '|' => Bar
    case '(' => Open
    case ')' => Close
    case '^' => Caret
    case '$' => Dollar
    case _ => Char(c)
  }

  function Chars(s: string): seq<Token> {
    if s == "" then [] else [Char(s[0])] + Chars(s[1..])
  }

  // ---------- Expressions ----------

  /** An alternation, up to the end of the tokens or an unmatched closing parenthesis. */
  function ParseAlt(ts: seq<Token>): (r: Result<(Regex, seq<Token>), SyntaxError>)
    ensures r.Success? ==> |r.value.1| <= |ts|
    decreases |ts|, 2
  {
    var (left, rest) :- ParseSeq(ts);
    if rest != [] && rest[0].Bar? then
      var (right, rest') :- ParseAlt(rest[1..]);
      Success((Alt(left, right), rest'))
    else Success((left, rest))
  }

  /** A concatenation of atoms, each possibly starred. */
  function ParseSeq(ts: seq<Token>): (r: Result<(Regex, seq<Token>), SyntaxError>)
    ensures r.Success? ==> |r.value.1| <= |ts|
    decreases |ts|, 1
  {
    if ts == [] || ts[0].Bar? || ts[0].Close? then Success((Empty, ts))
    else
      var (atom, rest) :- ParseAtom(ts);
      if rest != [] && rest[0].Times? then
        if |rest| > 1 && rest[1].Times? then Failure(NestedRepeat)
        else
          var (tail, rest') :- ParseSeq(rest[1..]);
          Success((Cat(Star(atom), tail), rest'))
      else
        var (tail, rest') :- ParseSeq(rest);
        Success((Cat(atom, tail), rest'))
  }

  function ParseAtom(ts: seq<Token>): (r: Result<(Regex, seq<Token>), SyntaxError>)
    requires ts != [] && !ts[0].Bar? && !ts[0].Close?
    ensures r.Success? ==> |r.value.1| < |ts|
    decreases |ts|, 0
  {
    match ts[0]
    case Char(c) => Success((Lit(c), ts[1..]))
    case Dot => Success((AnyNotNewline, ts[1..]))
    case Caret => Success((Begin, ts[1..]))
    case Dollar => Success((End, ts[1..]))
    case Times => Failure(MissingArgument)
    case Open =>
      var (inner, rest) :- ParseAlt(ts[1..]);
      if rest == [] then Failure(MissingParen) else Success((inner, rest[1..]))
  }

  /** `regexp.Compile`, for the syntax covered here. */
  function Parse(text: string): Result<Regex, SyntaxError> {
    var ts :- Lex(text);
    var (r, rest) :- ParseAlt(ts);
    if rest == [] then Success(r) else Failure(UnexpectedParen)
  }

  // ---------- Quoting round-trips ----------

  function Prefixed(front: seq<Token>, r: Result<seq<Token>, SyntaxError>): Result<seq<Token>, SyntaxError> {
    if r.Failure? then r else Success(front + r.value)
  }

  lemma PrefixedTwice(a: seq<Token>, b: seq<Token>, r: Result<seq<Token>, SyntaxError>)
    ensures Prefixed(a, Prefixed(b, r)) == Prefixed(a + b, r)
  {
    if r.Success? {
      assert a + (b + r.value) == (a + b) + r.value;
    }
  }

  lemma PrefixedNone(r: Result<seq<Token>, SyntaxError>)
    ensures Prefixed([], r) == r
  {
    if r.Success? {
      assert [] + r.value == r.value;
    }
  }

  lemma QuoteMetaCons(s: string, rest: string)
    requires s != ""
    ensures QuoteMeta(s) + rest == Quoted(s[0]) + (QuoteMeta(s[1..]) + rest)
  {
    ConcatAssoc(Quoted(s[0]), QuoteMeta(s[1..]), rest);
  }

  /** A quoted text reads back as its own characters, whatever follows it. */
  lemma {:induction false} LexQuoted(s: string, rest: string)
    ensures Lex(QuoteMeta(s) + rest) == Prefixed(Chars(s), Lex(rest))
  {
    if s == "" {
      assert QuoteMeta(s) + rest == rest;
      PrefixedNone(Lex(rest));
    } else {
      QuoteMetaCons(s, rest);
      LexQuotedChar(s[0], QuoteMeta(s[1..]) + rest);
      LexQuoted(s[1..], rest);
      PrefixedTwice([Char(s[0])], Chars(s[1..]), Lex(rest));
    }
  }

  lemma LexQuotedChar(c: char, tail: string)
    ensures Lex(Quoted(c) + tail) == Prefixed([Char(c)], Lex(tail))
  {
    var whole := Quoted(c) + tail;
    if c in META {
      assert whole[0] == '\\' && whole[1] == c && whole[2..] == tail;
    } else {
      NotMeta(c);
      assert whole[0] == c && whole[1..] == tail;
    }
  }

  lemma LexSymbol(c: char, rest: string)
    requires c != '\\' && c !in "+?[{" && Lex(rest).Success?
    ensures Lex([c] + rest) == Success([Symbol(c)] + Lex(rest).value)
  {
    assert ([c] + rest)[1..] == rest;
  }

  lemma LexDollar()
    ensures Lex(['$']) == Success([Dollar])
  {
    LexSymbol('$', "");
    assert ['$'] + "" == ['$'] && [Dollar] + [] == [Dollar];
  }

  lemma NotMeta(c: char)
    requires c !in META
    ensures c != '\\' && c !in "+?[{" && Symbol(c) == Char(c)
  {
    assert META[0] == '\\' && META[1] == '.' && META[2] == '+' && META[3] == '*' && META[4] == '?';
    assert META[5] == '(' && META[6] == ')' && META[7] == '|' && META[8] == '[' && META[9] == ']';
    assert META[10] == '{' && META[11] == '}' && META[12] == '^' && META[13] == '$';
  }

  /** The literal `q`, then `next`. */
  function Literally(q: string, next: Regex): Regex {
    if q == "" then next else Cat(Lit(q[0]), Literally(q[1..], next))
  }

  /** Characters parse to literals in front of whatever the remaining tokens parse to. */
  lemma {:induction false} ParseChars(q: string, ts: seq<Token>)
    requires ts == [] || !ts[0].Times?
    ensures ParseSeq(ts).Failure? ==> ParseSeq(Chars(q) + ts) == ParseSeq(ts)
    ensures ParseSeq(ts).Success? ==>
              ParseSeq(Chars(q) + ts) == Success((Literally(q, ParseSeq(ts).value.0), ParseSeq(ts).value.1))
  {
    var whole := Chars(q) + ts;
    if q == "" {
      assert whole == ts;
    } else {
      assert whole[0] == Char(q[0]) && whole[1..] == Chars(q[1..]) + ts;
      if q[1..] == "" {
        assert whole[1..] == ts;
      }
      ParseChars(q[1..], ts);
    }
  }

  /** `Literally` matches its text followed by a match of what comes next. */
  lemma {:induction false} LiterallySpans(q: string, next: Regex, s: string, i: nat, j: nat)
    ensures Spans(Literally(q, next), s, i, j) <==>
              i + |q| <= |s| && s[i..i + |q|] == q && Spans(next, s, i + |q|, j)
  {
    if q != "" {
      LiterallySpans(q[1..], next, s, i + 1, j);
      if i + |q| <= |s| {
        assert s[i..i + |q|] == [s[i]] + s[i + 1..i + |q|];
        assert q == [q[0]] + q[1..];
      }
      var r := Literally(q, next);
      if Spans(r, s, i, j) {
        var k := CatSpans(r, s, i, j);
      }
      if i + |q| <= |s| && s[i..i + |q|] == q && Spans(next, s, i + |q|, j) {
        assert s[i..i + |q|][0] == q[0];
        assert Spans(Lit(q[0]), s, i, i + 1);
      }
    }
  }
}
