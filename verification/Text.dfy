/** The string operations of Go's `strings` package that the service relies on. */
module Text {

  lemma ConcatAssoc(a: string, b: string, c: string)
    ensures (a + b) + c == a + (b + c)
  {}

  /** Removes one leading `prefix`, if there is one. */
  function TrimPrefix(s: string, prefix: string): string {
    if prefix <= s then s[|prefix|..] else s
  }

  predicate HasSuffix(s: string, suffix: string) {
    |suffix| <= |s| && s[|s| - |suffix|..] == suffix
  }

  /** Removes one trailing `suffix`, if there is one. */
  function TrimSuffix(s: string, suffix: string): string {
    if HasSuffix(s, suffix) then s[..|s| - |suffix|] else s
  }

  /** `len` of a Go string: the number of bytes of its UTF-8 encoding. */
  function Utf8Length(s: string): (n: nat)
    ensures n >= |s| && (n == 0 <==> s == "")
  {
    if s == "" then 0
    else (if s[0] < '\U{80}' then 1 else if s[0] < '\U{800}' then 2 else if s[0] < '\U{10000}' then 3 else 4)
         + Utf8Length(s[1..])
  }

  function Join(parts: seq<string>, sep: char): string
    requires parts != []
  {
    if |parts| == 1 then parts[0] else parts[0] + [sep] + Join(parts[1..], sep)
  }

  /** Puts one more character in front of the first piece. */
  function Extend(c: char, parts: seq<string>): (extended: seq<string>)
    requires parts != []
    ensures |extended| == |parts| && extended[0] == [c] + parts[0] && extended[1..] == parts[1..]
  {
    [[c] + parts[0]] + parts[1..]
  }

  /** Splits at every `sep`. */
  function Split(s: string, sep: char): (parts: seq<string>)
    ensures parts != []
  {
    if s == "" then [""] else SplitStep(s[0], Split(s[1..], sep), sep)
  }

  /** One more character in front of a split text. */
  function SplitStep(c: char, parts: seq<string>, sep: char): (stepped: seq<string>)
    requires parts != []
    ensures stepped != []
  {
    if c == sep then [""] + parts else Extend(c, parts)
  }

  /** Splits at the first `n - 1` separators only. */
  function SplitN(s: string, sep: char, n: nat): (parts: seq<string>)
    requires n >= 1
    ensures 1 <= |parts| <= n
    decreases |s|
  {
    if n == 1 || s == "" then [s]
    else if s[0] == sep then [""] + SplitN(s[1..], sep, n - 1)
    else Extend(s[0], SplitN(s[1..], sep, n))
  }

  /** No piece contains the separator. */
  lemma {:induction false} SplitPieces(s: string, sep: char)
    ensures forall part | part in Split(s, sep) :: sep !in part
  {
    if s != "" {
      SplitPieces(s[1..], sep);
    }
  }

  /** Joining undoes splitting. */
  lemma {:induction false} JoinOfSplit(s: string, sep: char)
    ensures Join(Split(s, sep), sep) == s
  {
    if s != "" {
      var rest := Split(s[1..], sep);
      JoinOfSplit(s[1..], sep);
      if s[0] == sep {
        assert ([""] + rest)[1..] == rest;
      } else {
        assert Join(Extend(s[0], rest), sep) == [s[0]] + Join(rest, sep);
      }
    }
  }

  /** Splitting undoes joining pieces that do not contain the separator. */
  lemma {:induction false} SplitOfJoin(parts: seq<string>, sep: char)
    requires parts != []
    requires forall part | part in parts :: sep !in part
    ensures Split(Join(parts, sep), sep) == parts
  {
    if |parts| == 1 {
      SplitWhole(parts[0], sep);
    } else {
      var rest := parts[1..];
      SplitOfJoin(rest, sep);
      SplitAround(parts[0], sep, Join(rest, sep));
      SplitWhole(parts[0], sep);
      assert parts == [parts[0]] + rest;
    }
  }

  lemma SplitUncons(s: string, behind: string, sep: char)
    requires s != ""
    ensures Split(s + behind, sep) == SplitStep(s[0], Split(s[1..] + behind, sep), sep)
  {
    assert (s + behind)[1..] == s[1..] + behind;
  }

  lemma StepConcat(c: char, a: seq<string>, b: seq<string>, sep: char)
    requires a != []
    ensures SplitStep(c, a + b, sep) == SplitStep(c, a, sep) + b
  {
    if c == sep {
      assert [""] + (a + b) == ([""] + a) + b;
    } else {
      assert (a + b)[1..] == a[1..] + b;
    }
  }

  /** Splitting around an explicit separator splits the two sides independently. */
  lemma {:induction false} SplitAround(a: string, sep: char, b: string)
    ensures Split(a + [sep] + b, sep) == Split(a, sep) + Split(b, sep)
  {
    assert a + [sep] + b == a + ([sep] + b);
    assert ([sep] + b)[1..] == b;
    SplitBefore(a, sep, [sep] + b, Split(b, sep));
  }

  lemma {:induction false} SplitBefore(a: string, sep: char, behind: string, parts: seq<string>)
    requires Split(behind, sep) == [""] + parts
    ensures Split(a + behind, sep) == Split(a, sep) + parts
  {
    if a == "" {
      assert a + behind == behind;
    } else {
      SplitUncons(a, behind, sep);
      SplitBefore(a[1..], sep, behind, parts);
      StepConcat(a[0], Split(a[1..], sep), parts, sep);
    }
  }

  /** A text without the separator is its own single piece. */
  lemma {:induction false} SplitWhole(s: string, sep: char)
    requires sep !in s
    ensures Split(s, sep) == [s]
  {
    if s != "" {
      SplitWhole(s[1..], sep);
      assert s == [s[0]] + s[1..];
    }
  }

  /** Characters put in front of, or behind, a text stay in its first, or last, piece. */
  lemma {:induction false} SplitPrepend(a: string, s: string, sep: char)
    requires sep !in a
    ensures Split(a + s, sep) == [a + Split(s, sep)[0]] + Split(s, sep)[1..]
  {
    var whole := a + s;
    var parts := Split(s, sep);
    if a == "" {
      assert whole == s && "" + parts[0] == parts[0];
    } else {
      assert whole[1..] == a[1..] + s;
      SplitPrepend(a[1..], s, sep);
      assert [a[0]] + (a[1..] + parts[0]) == a + parts[0];
    }
  }

  /** Puts a text behind the last piece. */
  function AppendLast(parts: seq<string>, a: string): seq<string>
    requires parts != []
  {
    parts[..|parts| - 1] + [parts[|parts| - 1] + a]
  }

  lemma StepAppendLast(c: char, parts: seq<string>, a: string, sep: char)
    requires parts != []
    ensures AppendLast(SplitStep(c, parts, sep), a) == SplitStep(c, AppendLast(parts, a), sep)
  {
    assert [c] + (parts[0] + a) == ([c] + parts[0]) + a;
  }

  lemma {:induction false} SplitAppend(s: string, a: string, sep: char)
    requires sep !in a
    ensures Split(s + a, sep) == AppendLast(Split(s, sep), a)
  {
    if s == "" {
      assert s + a == a;
      SplitWhole(a, sep);
    } else {
      SplitUncons(s, a, sep);
      SplitAppend(s[1..], a, sep);
      StepAppendLast(s[0], Split(s[1..], sep), a, sep);
    }
  }

  /** `SplitN` keeps the first pieces of `Split` and leaves the remainder unsplit. */
  lemma {:induction false} SplitNAgrees(s: string, sep: char, n: nat)
    requires n >= 1
    ensures |SplitN(s, sep, n)| == if |Split(s, sep)| < n then |Split(s, sep)| else n
    ensures forall i | 0 <= i < |SplitN(s, sep, n)| && (i < n - 1 || |Split(s, sep)| < n) ::
              SplitN(s, sep, n)[i] == Split(s, sep)[i]
    decreases |s|
  {
    if n > 1 && s != "" {
      if s[0] == sep {
        SplitNAgrees(s[1..], sep, n - 1);
      } else {
        SplitNAgrees(s[1..], sep, n);
        var full, parts := Split(s[1..], sep), SplitN(s[1..], sep, n);
        assert SplitN(s, sep, n) == Extend(s[0], parts);
        assert forall i | 0 < i < |parts| :: Extend(s[0], parts)[i] == parts[i];
        assert forall i | 0 < i < |full| :: Extend(s[0], full)[i] == full[i];
      }
    }
  }

  lemma {:induction false} JoinOfSplitN(s: string, sep: char, n: nat)
    requires n >= 1
    ensures Join(SplitN(s, sep, n), sep) == s
    decreases |s|
  {
    if n > 1 && s != "" {
      if s[0] == sep {
        var rest := SplitN(s[1..], sep, n - 1);
        JoinOfSplitN(s[1..], sep, n - 1);
        assert ([""] + rest)[1..] == rest;
      } else {
        var rest := SplitN(s[1..], sep, n);
        JoinOfSplitN(s[1..], sep, n);
        assert Join(Extend(s[0], rest), sep) == [s[0]] + Join(rest, sep);
      }
    }
  }

  lemma {:induction false} JoinAppend(a: seq<string>, b: seq<string>, sep: char)
    requires a != [] && b != []
    ensures Join(a + b, sep) == Join(a, sep) + [sep] + Join(b, sep)
  {
    if |a| == 1 {
      assert (a + b)[1..] == b;
    } else {
      JoinAppend(a[1..], b, sep);
      assert (a + b)[1..] == a[1..] + b;
    }
  }

  /** Whatever follows `a`, all pieces of `a` but its last are pieces of the whole text. */
  lemma {:induction false} SplitFront(a: string, b: string, sep: char, i: nat)
    requires i < |Split(a, sep)| - 1
    ensures i < |Split(a + b, sep)| && Split(a + b, sep)[i] == Split(a, sep)[i]
  {
    var whole := a + b;
    if a != "" {
      assert whole[1..] == a[1..] + b;
      var rest := Split(a[1..], sep);
      if a[0] == sep {
        if i > 0 {
          SplitFront(a[1..], b, sep, i - 1);
        }
      } else {
        SplitFront(a[1..], b, sep, i);
        var more := Split(whole[1..], sep);
        assert i > 0 ==> Extend(a[0], rest)[i] == rest[i] && Extend(a[0], more)[i] == more[i];
      }
    }
  }

  /** Whatever follows `a`, the last piece of `a` begins a piece of the whole text. */
  lemma {:induction false} SplitLast(a: string, b: string, sep: char)
    ensures var last := |Split(a, sep)| - 1;
            last < |Split(a + b, sep)| && Split(a, sep)[last] <= Split(a + b, sep)[last]
  {
    if a == "" {
      assert Split(a, sep) == [""];
    } else {
      SplitUncons(a, b, sep);
      SplitLast(a[1..], b, sep);
      StepLast(a[0], Split(a[1..], sep), Split(a[1..] + b, sep), sep);
    }
  }

  lemma StepLast(c: char, x: seq<string>, y: seq<string>, sep: char)
    requires 0 < |x| <= |y| && x[|x| - 1] <= y[|x| - 1]
    ensures var x', y' := SplitStep(c, x, sep), SplitStep(c, y, sep);
            |x'| <= |y'| && x'[|x'| - 1] <= y'[|x'| - 1]
  {
    if c != sep && |x| > 1 {
      var last := |x| - 1;
      assert Extend(c, x)[last] == x[last] && Extend(c, y)[last] == y[last];
    }
  }

  /** A character missing from a text is missing from its pieces, and conversely for non-separators. */
  lemma {:induction false} SplitLacks(s: string, sep: char, c: char)
    requires c !in s
    ensures forall part | part in Split(s, sep) :: c !in part
  {
    if s != "" {
      SplitLacks(s[1..], sep, c);
    }
  }

  lemma {:induction false} JoinLacks(parts: seq<string>, sep: char, c: char)
    requires parts != [] && c != sep && forall part | part in parts :: c !in part
    ensures c !in Join(parts, sep)
  {
    if |parts| > 1 {
      JoinLacks(parts[1..], sep, c);
    }
  }

  // ---------- The three segments of a JWT ----------

  /** Three dot-free segments joined by dots are split into just those. */
  lemma SegmentsSplit(header: string, payload: string, signature: string)
    requires '.' !in header && '.' !in payload && '.' !in signature
    ensures Split(header + ['.'] + payload + ['.'] + signature, '.') == [header, payload, signature]
  {
    SplitAround(header + ['.'] + payload, '.', signature);
    SplitAround(header, '.', payload);
    SplitWhole(header, '.');
    SplitWhole(payload, '.');
    SplitWhole(signature, '.');
  }

  lemma ThreeSegments(token: string) returns (header: string, payload: string, signature: string)
    requires |Split(token, '.')| == 3
    ensures Split(token, '.') == [header, payload, signature]
    ensures '.' !in header && '.' !in payload && '.' !in signature
    ensures token == header + ['.'] + payload + ['.'] + signature
  {
    var parts := Split(token, '.');
    header, payload, signature := parts[0], parts[1], parts[2];
    SplitPieces(token, '.');
    JoinOfSplit(token, '.');
    assert parts[1..] == [payload, signature] && parts[1..][1..] == [signature];
    assert Join([signature], '.') == signature;
    assert Join([payload, signature], '.') == payload + ['.'] + signature;
    assert token == header + ['.'] + (payload + ['.'] + signature);
  }
}
