/** The octets of an RSA public exponent in a JSON Web Key. */
module Exponent {

  newtype Byte = b: int | 0 <= b < 256

  const TWO_TO_63 := 0x8000_0000_0000_0000
  const TWO_TO_64 := 0x1_0000_0000_0000_0000

  /** A Go `int` on a 64-bit machine. */
  type Int64 = n: int | -TWO_TO_63 <= n < TWO_TO_63

  /** Conversion to `uint64` wraps around. */
  function ToUint64(e: Int64): (v: nat)
    ensures v < TWO_TO_64
    ensures v == if e >= 0 then e else e + TWO_TO_64
  {
    e % TWO_TO_64
  }

  /** The number a sequence of octets stands for, most significant first. */
  function Value(octets: seq<Byte>): nat {
    if octets == [] then 0 else Value(octets[..|octets| - 1]) * 256 + octets[|octets| - 1] as int
  }

  /** The low `n` octets of `v`. */
  function Octets(v: nat, n: nat): (octets: seq<Byte>)
    ensures |octets| == n
  {
    if n == 0 then [] else Octets(v / 256, n - 1) + [(v % 256) as Byte]
  }

  method PutUint64(buf: array<Byte>, v: nat)
    requires buf.Length == 8
    modifies buf
    ensures buf[..] == Octets(v, 8)
  {
    var rest := v;
    for i := 8 downto 0
      invariant Octets(rest, i) + buf[i..] == Octets(v, 8)
    {
      buf[i] := (rest % 256) as Byte;
      assert buf[i..] == [(rest % 256) as Byte] + buf[i + 1..];
      assert Octets(rest, i + 1) + buf[i + 1..] == Octets(rest / 256, i) + buf[i..];
      rest := rest / 256;
    }
  }

  /** Sections 2 and 6.3.1.2 of RFC 7518: as few octets as the value needs, and one for zero. */
  predicate Minimal(octets: seq<Byte>) {
    octets != [] && (octets[0] == 0 ==> |octets| == 1)
  }

  /** Leading zero octets are dropped, all but the last octet. */
  method EncodeExponent(e: Int64) returns (octets: seq<Byte>)
    ensures Value(octets) == ToUint64(e)
    ensures Value(octets) == if e >= 0 then e else e + 0x1_0000_0000_0000_0000
    ensures Minimal(octets) && |octets| <= 8
  {
    var buf := new Byte[8];
    PutUint64(buf, ToUint64(e));
    octets := buf[..];
    PowerEight();
    ValueOfOctets(ToUint64(e), 8);
    while |octets| > 1 && octets[0] == 0
      invariant 1 <= |octets| <= 8 && Value(octets) == ToUint64(e)
    {
      DropZero(octets);
      octets := octets[1..];
    }
  }

  function Power(n: nat): nat {
    if n == 0 then 1 else Power(n - 1) * 256
  }

  lemma PowerEight()
    ensures Power(8) == TWO_TO_64
  {
    assert Power(4) == 0x1_0000_0000;
  }

  lemma {:induction false} ValueOfOctets(v: nat, n: nat)
    requires v < Power(n)
    ensures Value(Octets(v, n)) == v
  {
    if n > 0 {
      ValueOfOctets(v / 256, n - 1);
      assert Octets(v, n)[..n - 1] == Octets(v / 256, n - 1);
    }
  }

  lemma {:induction false} DropZero(octets: seq<Byte>)
    requires octets != [] && octets[0] == 0
    ensures Value(octets[1..]) == Value(octets)
  {
    var last := |octets| - 1;
    if last > 0 {
      DropZero(octets[..last]);
      assert octets[..last][1..] == octets[1..][..last - 1];
    } else {
      assert octets[..0] == [] && octets[1..] == [];
    }
  }

  lemma {:induction false} ValueBounds(octets: seq<Byte>)
    ensures Value(octets) < Power(|octets|)
    ensures octets != [] && octets[0] != 0 ==> Value(octets) >= Power(|octets| - 1)
  {
    if octets != [] {
      var front := octets[..|octets| - 1];
      ValueBounds(front);
      if front == [] {
        assert Value(octets) == octets[0] as int;
      }
    }
  }

  lemma {:induction false} PowerMonotone(m: nat, n: nat)
    requires m <= n
    ensures 1 <= Power(m) <= Power(n)
    decreases n
  {
    if m < n {
      PowerMonotone(m, n - 1);
    } else if m > 0 {
      PowerMonotone(m - 1, m - 1);
    }
  }

  /** No non-empty encoding of the same number is shorter than a minimal one. */
  lemma {:induction false} MinimalIsShortest(a: seq<Byte>, b: seq<Byte>)
    requires Minimal(a) && b != [] && Value(a) == Value(b)
    ensures |a| <= |b|
  {
    if |a| > |b| {
      ValueBounds(a);
      ValueBounds(b);
      PowerMonotone(|b|, |a| - 1);
    }
  }

  /** The minimal encoding of a number is unique, so two exponents are encoded alike only if they are equal. */
  lemma {:induction false} MinimalIsUnique(a: seq<Byte>, b: seq<Byte>)
    requires Minimal(a) && Minimal(b) && Value(a) == Value(b)
    ensures a == b
  {
    MinimalIsShortest(a, b);
    MinimalIsShortest(b, a);
    SameLength(a, b);
  }

  lemma SameDigits(high: nat, low: nat, high': nat, low': nat)
    requires low < 256 && low' < 256 && high * 256 + low == high' * 256 + low'
    ensures high == high' && low == low'
  {}

  lemma {:induction false} SameLength(a: seq<Byte>, b: seq<Byte>)
    requires |a| == |b| && Value(a) == Value(b)
    ensures a == b
  {
    if a != [] {
      var last := |a| - 1;
      SameDigits(Value(a[..last]), a[last] as int, Value(b[..last]), b[last] as int);
      SameLength(a[..last], b[..last]);
      assert a == a[..last] + [a[last]] && b == b[..last] + [b[last]];
    }
  }
}
