/**
  What several parts share: quotients, the machine's integers, and where something stands in a
  sequence.
 */
module Basics {

  function Min(a: int, b: int): int {
    if a < b then a else b
  }

  function Max(a: int, b: int): int {
    if a < b then b else a
  }

  lemma MulMonotone(m: int, d: int)
    requires m > 0
    ensures d >= 1 ==> m * d >= m
    ensures d <= -1 ==> m * d <= -m
  {
  }

  lemma DivModUnique(x: int, q: int, r: int, m: int)
    requires 0 <= r < m
    requires x == r + m * q
    ensures x / m == q
    ensures x % m == r
  {
    var d := x / m - q;
    assert m * d == m * (x / m) - m * q;
    assert m * d == r - x % m;
    MulMonotone(m, d);
    assert d == 0;
  }

  /** Division and remainder that truncate toward zero. */
  function Quotient(a: int, b: int): (q: int)
    requires b > 0
    ensures (a >= 0 ==> q >= 0) && (a <= 0 ==> q <= 0)
  {
    if a >= 0 then a / b else -((-a) / b)
  }

  function Remainder(a: int, b: int): (r: int)
    requires b > 0
    ensures -b < r < b && (a >= 0 ==> r >= 0) && (a <= 0 ==> r <= 0)
    ensures Quotient(a, b) * b + r == a
  {
    if a >= 0 then a % b else -((-a) % b)
  }

  // ---------------------------------------------------------------------------------------
  // Machine integers
  // ---------------------------------------------------------------------------------------

  const MIN64 := -0x8000_0000_0000_0000
  const MAX64 := 0x7FFF_FFFF_FFFF_FFFF

  type int64 = v: int | -0x8000_0000_0000_0000 <= v <= 0x7FFF_FFFF_FFFF_FFFF
  type uint32 = v: int | 0 <= v < 0x1_0000_0000

  predicate InRange64(v: int) {
    MIN64 <= v <= MAX64
  }

  /** What 64 bits keep of a number, in two's complement. */
  function Wrap64(v: int): (r: int64)
    ensures InRange64(v) ==> r == v
  {
    (v - MIN64) % 0x1_0000_0000_0000_0000 + MIN64
  }

  /** Negation in 64 bits: the smallest number is its own negative. */
  function Negate(v: int64): (r: int64)
    ensures r == if v == MIN64 then v else -(v as int)
  {
    Wrap64(-(v as int))
  }

  /** What 32 bits keep of a number, without a sign and with one. */
  function Unsigned32(v: int): (r: uint32)
    ensures 0 <= v < 0x1_0000_0000 ==> r == v
  {
    v % 0x1_0000_0000
  }

  function Signed32(v: uint32): int {
    if v < 0x8000_0000 then v else v - 0x1_0000_0000
  }

  /** Wrapping only at the end, or at every step, makes no difference. */
  lemma WrapStep(v: int, d: int)
    ensures Wrap64(Wrap64(v) * 10 + d) == Wrap64(v * 10 + d)
    ensures Wrap64(Wrap64(v * 10) + d) == Wrap64(v * 10 + d)
  {
    var m := 0x1_0000_0000_0000_0000;
    WrapQuotient(v);
    WrapQuotient(v * 10);
    SameWrap(Wrap64(v) * 10 + d, v * 10 + d, 10 * ((v - MIN64) / m));
    SameWrap(Wrap64(v * 10) + d, v * 10 + d, (v * 10 - MIN64) / m);
  }

  lemma WrapQuotient(v: int)
    ensures v == Wrap64(v) + 0x1_0000_0000_0000_0000 * ((v - MIN64) / 0x1_0000_0000_0000_0000)
  {
  }

  lemma SameWrap(a: int, b: int, k: int)
    requires b == a + 0x1_0000_0000_0000_0000 * k
    ensures Wrap64(a) == Wrap64(b)
  {
    var m := 0x1_0000_0000_0000_0000;
    DivModUnique(b - MIN64, (a - MIN64) / m + k, (a - MIN64) % m, m);
  }

  // ---------------------------------------------------------------------------------------
  // Parts of a sequence
  // ---------------------------------------------------------------------------------------

  /** The part `w` stands at position `p`. */
  ghost predicate At<T>(s: seq<T>, p: nat, w: seq<T>) {
    p + |w| <= |s| && s[p..p + |w|] == w
  }

  lemma AtSplit<T>(s: seq<T>, p: nat, a: seq<T>, b: seq<T>)
    requires At(s, p, a + b)
    ensures At(s, p, a) && At(s, p + |a|, b)
  {
    var w := s[p..p + |a + b|];
    assert s[p..p + |a|] == w[..|a|];
    assert s[p + |a|..p + |a| + |b|] == w[|a|..];
  }

  lemma AtItem<T>(s: seq<T>, p: nat, w: seq<T>, i: nat)
    requires At(s, p, w) && i < |w|
    ensures s[p + i] == w[i]
  {
    assert s[p..p + |w|][i] == w[i];
  }

  /** The first position of `x` at or after `i`, or the length of the sequence. */
  function FindFrom<T(==)>(s: seq<T>, i: nat, x: T): (j: nat)
    requires i <= |s|
    ensures i <= j <= |s|
    ensures j < |s| ==> s[j] == x
    ensures forall k :: i <= k < j ==> s[k] != x
    decreases |s| - i
  {
    if i == |s| || s[i] == x then i else FindFrom(s, i + 1, x)
  }
}
