/**
 * Dotted-decimal version strings and the precedence the handler uses to pick the
 * latest release. Numeric identifiers are compared left to right as numbers, in the
 * manner of section 11 of Semantic Versioning 2.0.0; a version with fewer parts is
 * compared as if padded with zeros, so "1.2" and "1.2.0.0" rank equal.
 */
module VersionOrder {
  import opened Wrappers

  predicate IsDigit(c: char)
  {
    '0' <= c <= '9'
  }

  predicate AllDigits(s: string)
  {
    forall i :: 0 <= i < |s| ==> IsDigit(s[i])
  }

  /** The number a run of decimal digits denotes. */
  function DecimalValue(s: string): nat
    requires AllDigits(s)
    decreases |s|
  {
    if s == "" then 0 else 10 * DecimalValue(s[..|s| - 1]) + (s[|s| - 1] as int - '0' as int)
  }

  /** The decimal rendering of a natural number, without leading zeros. */
  function Decimal(n: nat): (r: string)
    ensures r != "" && AllDigits(r)
  {
    var d := ['0' + (n % 10) as char];
    if n < 10 then d else Decimal(n / 10) + d
  }

  /** `split('.')`: the dot-separated parts of `s`, empty parts included. */
  function Segments(s: string): (r: seq<string>)
    ensures |r| >= 1
  {
    if s == "" then [""]
    else if s[0] == '.' then [""] + Segments(s[1..])
    else
      var rest := Segments(s[1..]);
      [[s[0]] + rest[0]] + rest[1..]
  }

  predicate IsNumericPart(part: string)
  {
    part != "" && AllDigits(part)
  }

  /**
   * The numeric identifiers of a dotted-decimal version, or None when `s` is not one
   * (an empty part, or a part holding anything but digits): the comparison refuses such
   * a string.
   */
  function ParseDotted(s: string): Option<seq<nat>>
  {
    var parts := Segments(s);
    if forall i :: 0 <= i < |parts| ==> IsNumericPart(parts[i])
    then Some(seq(|parts|, i requires 0 <= i < |parts| => DecimalValue(parts[i])))
    else None
  }

  /** The dotted-decimal rendering of a non-empty list of numeric identifiers. */
  function Show(v: seq<nat>): string
    requires v != []
  {
    if |v| == 1 then Decimal(v[0]) else Decimal(v[0]) + "." + Show(v[1..])
  }

  function Head(v: seq<nat>): nat
  {
    if v == [] then 0 else v[0]
  }

  function Tail(v: seq<nat>): seq<nat>
  {
    if v == [] then [] else v[1..]
  }

  /**
   * Three-way comparison of two versions: -1 when `a` has lower precedence than `b`,
   * 1 when higher, 0 when they are equal once padded with zeros to the same length.
   */
  function Cmp(a: seq<nat>, b: seq<nat>): (r: int)
    decreases |a| + |b|
  {
    if a == [] && b == [] then 0
    else if Head(a) < Head(b) then -1
    else if Head(a) > Head(b) then 1
    else Cmp(Tail(a), Tail(b))
  }

  /** The all-zero version, "0.0.0.0". */
  const Zero: seq<nat> := [0, 0, 0, 0]

  // ---------------------------------------------------------------------------
  // Parsing is the inverse of rendering.

  lemma {:induction false} DecimalRoundTrip(n: nat)
    ensures DecimalValue(Decimal(n)) == n
  {
    var d := ['0' + (n % 10) as char];
    if n >= 10 {
      var s := Decimal(n / 10) + d;
      assert s[..|s| - 1] == Decimal(n / 10);
      DecimalRoundTrip(n / 10);
    }
  }

  lemma {:induction false} SegmentsOfPart(a: string)
    requires '.' !in a
    ensures Segments(a) == [a]
  {
    if a != "" {
      assert a[0] != '.';
      SegmentsOfPart(a[1..]);
      assert [a[0]] + a[1..] == a;
    }
  }

  lemma {:induction false} SegmentsOfJoin(a: string, b: string)
    requires '.' !in a
    ensures Segments(a + "." + b) == [a] + Segments(b)
  {
    if a == "" {
      assert a + "." + b == "." + b;
      assert ("." + b)[1..] == b;
    } else {
      var s := a + "." + b;
      assert s[0] == a[0] && s[1..] == a[1..] + "." + b;
      SegmentsOfJoin(a[1..], b);
      assert [a[0]] + a[1..] == a;
    }
  }

  lemma DigitsHaveNoDot(s: string)
    requires AllDigits(s)
    ensures '.' !in s
  {
  }

  lemma {:induction false} SegmentsOfShow(v: seq<nat>)
    requires v != []
    ensures |Segments(Show(v))| == |v|
    ensures forall i :: 0 <= i < |v| ==> Segments(Show(v))[i] == Decimal(v[i])
  {
    DigitsHaveNoDot(Decimal(v[0]));
    if |v| == 1 {
      SegmentsOfPart(Decimal(v[0]));
    } else {
      SegmentsOfJoin(Decimal(v[0]), Show(v[1..]));
      SegmentsOfShow(v[1..]);
    }
  }

  /** Every dotted-decimal rendering parses back to the identifiers it was made from. */
  lemma ParseShow(v: seq<nat>)
    requires v != []
    ensures ParseDotted(Show(v)) == Some(v)
  {
    var parts := Segments(Show(v));
    SegmentsOfShow(v);
    forall i | 0 <= i < |parts|
      ensures IsNumericPart(parts[i]) && DecimalValue(parts[i]) == v[i]
    {
      DecimalRoundTrip(v[i]);
    }
    assert seq(|parts|, i requires 0 <= i < |parts| => DecimalValue(parts[i])) == v;
  }

  /** The seed version of the latest-release search parses to the all-zero version. */
  lemma SeedParses()
    ensures ParseDotted("0.0.0.0") == Some(Zero)
  {
    assert Show(Zero) == "0.0.0.0";
    ParseShow(Zero);
  }

  // ---------------------------------------------------------------------------
  // Cmp is a total preorder whose equivalence is "equal up to trailing zeros".

  lemma {:induction false} CmpReflexive(a: seq<nat>)
    ensures Cmp(a, a) == 0
  {
    if a != [] {
      CmpReflexive(Tail(a));
    }
  }

  lemma {:induction false} CmpAntisymmetric(a: seq<nat>, b: seq<nat>)
    ensures Cmp(a, b) == -Cmp(b, a)
    ensures -1 <= Cmp(a, b) <= 1
    decreases |a| + |b|
  {
    if !(a == [] && b == []) && Head(a) == Head(b) {
      CmpAntisymmetric(Tail(a), Tail(b));
    }
  }

  lemma {:induction false} CmpTransitive(a: seq<nat>, b: seq<nat>, c: seq<nat>)
    requires Cmp(a, b) <= 0 && Cmp(b, c) <= 0
    ensures Cmp(a, c) <= 0
    ensures Cmp(a, b) < 0 || Cmp(b, c) < 0 ==> Cmp(a, c) < 0
    decreases |a| + |b| + |c|
  {
    if a == [] && b == [] && c == [] {
    } else if Head(a) == Head(b) == Head(c) {
      assert Cmp(a, b) == Cmp(Tail(a), Tail(b)) by { CmpHeadEqual(a, b); }
      assert Cmp(b, c) == Cmp(Tail(b), Tail(c)) by { CmpHeadEqual(b, c); }
      CmpTransitive(Tail(a), Tail(b), Tail(c));
      CmpHeadEqual(a, c);
    } else {
      CmpHeadOrder(a, b);
      CmpHeadOrder(b, c);
    }
  }

  lemma CmpHeadEqual(a: seq<nat>, b: seq<nat>)
    requires Head(a) == Head(b)
    ensures Cmp(a, b) == Cmp(Tail(a), Tail(b))
  {
    if a == [] && b == [] {
      assert Tail(a) == [] && Tail(b) == [];
    }
  }

  lemma CmpHeadOrder(a: seq<nat>, b: seq<nat>)
    ensures Head(a) < Head(b) ==> Cmp(a, b) == -1
    ensures Head(a) > Head(b) ==> Cmp(a, b) == 1
    ensures Cmp(a, b) <= 0 ==> Head(a) <= Head(b)
  {
  }

  /** Nothing ranks below the all-zero version, and only a version with a non-zero part ranks above it. */
  lemma {:induction false} ZeroIsLeast(v: seq<nat>)
    ensures Cmp(Zero, v) <= 0
    ensures Cmp(Zero, v) < 0 <==> exists i :: 0 <= i < |v| && v[i] > 0
  {
    ZerosAreLeast(Zero, v);
  }

  lemma {:induction false} ZerosAreLeast(z: seq<nat>, v: seq<nat>)
    requires forall i :: 0 <= i < |z| ==> z[i] == 0
    ensures Cmp(z, v) <= 0
    ensures Cmp(z, v) < 0 <==> exists i :: 0 <= i < |v| && v[i] > 0
    decreases |z| + |v|
  {
    if z == [] && v == [] {
    } else if Head(v) > 0 {
      assert v[0] > 0;
    } else {
      ZerosAreLeast(Tail(z), Tail(v));
      if exists i :: 0 <= i < |v| && v[i] > 0 {
        var i :| 0 <= i < |v| && v[i] > 0;
        assert i > 0 && Tail(v)[i - 1] > 0;
      }
      if exists i :: 0 <= i < |Tail(v)| && Tail(v)[i] > 0 {
        var i :| 0 <= i < |Tail(v)| && Tail(v)[i] > 0;
        assert v[i + 1] > 0;
      }
    }
  }
}
