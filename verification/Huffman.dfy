/**
  Canonical Huffman codes as section 3.2.2 of RFC 1951 defines them from a list of code
  lengths, and the tables and the bit-by-bit walk that decode them.
 */
module Huffman {
  import opened BitStream

  const MAXBITS := 15

  ghost predicate ValidLengths(lengths: seq<nat>) {
    forall i :: 0 <= i < |lengths| ==> lengths[i] <= MAXBITS
  }

  // ---------------------------------------------------------------------------------------
  // The code that the lengths stand for
  // ---------------------------------------------------------------------------------------

  /** bl_count: how many symbols have length `l`. */
  function Count(lengths: seq<nat>, l: nat): nat {
    if lengths == [] then 0
    else Count(lengths[..|lengths| - 1], l) + (if lengths[|lengths| - 1] == l then 1 else 0)
  }

  /** How many codes of length `l` there are; length zero means "not used". */
  function Used(lengths: seq<nat>, l: nat): nat {
    if l == 0 then 0 else Count(lengths, l)
  }

  /** next_code: the smallest code of length `l`. */
  function NextCode(lengths: seq<nat>, l: nat): nat {
    if l == 0 then 0 else 2 * (NextCode(lengths, l - 1) + Used(lengths, l - 1))
  }

  /** The code of symbol `s`, as a number of `lengths[s]` bits. */
  function Code(lengths: seq<nat>, s: nat): nat
    requires s < |lengths|
  {
    NextCode(lengths, lengths[s]) + Count(lengths[..s], lengths[s])
  }

  /** The code of a used symbol stands at position `p` of the stream. */
  ghost predicate Matches(lengths: seq<nat>, bs: seq<bit>, p: nat, s: nat) {
    && s < |lengths|
    && lengths[s] > 0
    && p + lengths[s] <= |bs|
    && CodeBits(bs, p, lengths[s]) == Code(lengths, s)
  }

  datatype Decoded = Symbol(sym: nat, next: nat) | Invalid | OutOfInput

  /** What the symbol at position `p` is, by the definition of the code alone. */
  ghost function SymbolAt(lengths: seq<nat>, bs: seq<bit>, p: nat): (r: Decoded)
    ensures r.Symbol? ==> r.sym < |lengths| && p < r.next <= |bs|
  {
    if exists s: nat :: Matches(lengths, bs, p, s) then
      var s: nat :| Matches(lengths, bs, p, s);
      Symbol(s, p + lengths[s])
    else if p + MAXBITS <= |bs| then Invalid
    else OutOfInput
  }

  // ---------------------------------------------------------------------------------------
  // The Kraft sum
  // ---------------------------------------------------------------------------------------

  /** Sum over the symbols with a length in 1..l of 2^(l - length). */
  function KraftUpTo(lengths: seq<nat>, l: nat): nat {
    if lengths == [] then 0
    else
      var x := lengths[|lengths| - 1];
      KraftUpTo(lengths[..|lengths| - 1], l) + (if 0 < x <= l then Pow2(l - x) else 0)
  }

  function Kraft(lengths: seq<nat>): nat {
    KraftUpTo(lengths, MAXBITS)
  }

  /** How many codes of length `l` are not used and do not extend a used code. */
  function Left(lengths: seq<nat>, l: nat): int {
    Pow2(l) - NextCode(lengths, l) - Used(lengths, l)
  }

  lemma LeftStep(lengths: seq<nat>, l: nat)
    requires l > 0
    ensures Left(lengths, l) == 2 * Left(lengths, l - 1) - Used(lengths, l)
  {
  }

  lemma {:induction false} KraftStep(lengths: seq<nat>, l: nat)
    requires l > 0
    ensures KraftUpTo(lengths, l) == 2 * KraftUpTo(lengths, l - 1) + Count(lengths, l)
  {
    if lengths != [] {
      KraftStep(lengths[..|lengths| - 1], l);
    }
  }

  lemma {:induction false} KraftZero(lengths: seq<nat>)
    ensures KraftUpTo(lengths, 0) == 0
  {
    if lengths != [] {
      KraftZero(lengths[..|lengths| - 1]);
    }
  }

  lemma {:induction false} LeftIsKraft(lengths: seq<nat>, l: nat)
    ensures Left(lengths, l) == Pow2(l) - KraftUpTo(lengths, l)
  {
    if l == 0 {
      KraftZero(lengths);
    } else {
      LeftIsKraft(lengths, l - 1);
      KraftStep(lengths, l);
    }
  }

  /** Once oversubscribed, a code stays oversubscribed at every greater length. */
  lemma {:induction false} LeftNegative(lengths: seq<nat>, l: nat, m: nat)
    requires l <= m
    requires Left(lengths, l) < 0
    ensures Left(lengths, m) < 0
    decreases m - l
  {
    if l < m {
      LeftStep(lengths, l + 1);
      LeftNegative(lengths, l + 1, m);
    }
  }

  lemma KraftStepUp(lengths: seq<nat>)
    requires ValidLengths(lengths) && lengths != []
    ensures var n := |lengths| - 1; var front := lengths[..n];
      && (lengths[n] == 0 ==> Kraft(lengths) == Kraft(front) && Count(lengths, 0) == Count(front, 0) + 1)
      && (lengths[n] != 0 ==>
          Kraft(lengths) <= Kraft(front) + Pow2(MAXBITS - 1) && Count(lengths, 0) == Count(front, 0))
  {
    var n := |lengths| - 1;
    if lengths[n] != 0 {
      Pow2Monotone(MAXBITS - lengths[n], MAXBITS - 1);
    }
  }

  lemma {:induction false} KraftPerSymbol(lengths: seq<nat>)
    requires ValidLengths(lengths)
    ensures Kraft(lengths) <= (|lengths| - Count(lengths, 0)) * Pow2(MAXBITS - 1)
  {
    if lengths != [] {
      hide Kraft, Pow2, Count;
      var n := |lengths| - 1;
      KraftPerSymbol(lengths[..n]);
      KraftStepUp(lengths);
      var u, k := Pow2(MAXBITS - 1), n - Count(lengths[..n], 0);
      assert k * u + u == (k + 1) * u;
    }
  }

  lemma {:induction false} Pow2Monotone(a: nat, b: nat)
    requires a <= b
    ensures Pow2(a) <= Pow2(b)
    decreases b
  {
    if a < b {
      Pow2Monotone(a, b - 1);
    }
  }

  lemma Pow2Double()
    ensures Pow2(MAXBITS) == 2 * Pow2(MAXBITS - 1)
  {
  }

  // ---------------------------------------------------------------------------------------
  // The decoding tables: the symbols sorted by length
  // ---------------------------------------------------------------------------------------

  /** The symbols of length `l`, in ascending order. */
  function SymbolsOf(lengths: seq<nat>, l: nat): (r: seq<nat>)
    ensures |r| == Count(lengths, l)
  {
    if lengths == [] then []
    else
      var n := |lengths| - 1;
      SymbolsOf(lengths[..n], l) + (if lengths[n] == l then [n] else [])
  }

  /** The symbols of the lengths 1..l, by length and then by symbol. */
  function Sorted(lengths: seq<nat>, l: nat): seq<nat> {
    if l == 0 then [] else Sorted(lengths, l - 1) + SymbolsOf(lengths, l)
  }

  lemma {:induction false} SymbolsOfAt(lengths: seq<nat>, l: nat, k: nat)
    requires k < Count(lengths, l)
    ensures var s := SymbolsOf(lengths, l)[k];
      s < |lengths| && lengths[s] == l && Count(lengths[..s], l) == k
  {
    var n := |lengths| - 1;
    var front := lengths[..n];
    if k < Count(front, l) {
      SymbolsOfAt(front, l, k);
      var s := SymbolsOf(front, l)[k];
      assert front[..s] == lengths[..s];
    }
  }

  lemma {:induction false} SymbolsOfHas(lengths: seq<nat>, s: nat)
    requires s < |lengths|
    ensures Count(lengths[..s], lengths[s]) < Count(lengths, lengths[s])
    ensures SymbolsOf(lengths, lengths[s])[Count(lengths[..s], lengths[s])] == s
  {
    var n := |lengths| - 1;
    if s < n {
      var front := lengths[..n];
      SymbolsOfHas(front, s);
      assert front[..s] == lengths[..s];
    }
  }

  lemma {:induction false} SortedPrefix(lengths: seq<nat>, l: nat, m: nat)
    requires l <= m
    ensures |Sorted(lengths, l)| <= |Sorted(lengths, m)|
    ensures Sorted(lengths, m)[..|Sorted(lengths, l)|] == Sorted(lengths, l)
    decreases m - l
  {
    if l < m {
      SortedPrefix(lengths, l, m - 1);
      var a, b := Sorted(lengths, l), Sorted(lengths, m - 1);
      assert Sorted(lengths, m)[..|a|] == b[..|a|];
    }
  }

  /** The place of a length's symbols in the table. */
  lemma SortedAt(lengths: seq<nat>, l: nat, m: nat, k: nat)
    requires 0 < l <= m && k < Count(lengths, l)
    ensures |Sorted(lengths, l - 1)| + k < |Sorted(lengths, m)|
    ensures Sorted(lengths, m)[|Sorted(lengths, l - 1)| + k] == SymbolsOf(lengths, l)[k]
  {
    SortedPrefix(lengths, l, m);
    var i := |Sorted(lengths, l - 1)| + k;
    assert Sorted(lengths, l)[i] == SymbolsOf(lengths, l)[k];
    assert Sorted(lengths, m)[i] == Sorted(lengths, m)[..|Sorted(lengths, l)|][i];
  }

  /** `a` comes before `b` in the canonical order. */
  ghost predicate Before(lengths: seq<nat>, a: nat, b: nat)
    requires a < |lengths| && b < |lengths|
  {
    lengths[a] < lengths[b] || (lengths[a] == lengths[b] && a < b)
  }

  /** The table holds exactly the used symbols of length at most `l`. */
  lemma {:induction false} SortedHas(lengths: seq<nat>, l: nat, s: nat)
    ensures s in Sorted(lengths, l) <==> s < |lengths| && 0 < lengths[s] <= l
  {
    hide SymbolsOf, Count;
    if l > 0 {
      SortedHas(lengths, l - 1, s);
      SymbolsOfIn(lengths, l, s);
    }
  }

  lemma SymbolsOfIn(lengths: seq<nat>, l: nat, s: nat)
    ensures s in SymbolsOf(lengths, l) <==> s < |lengths| && lengths[s] == l
  {
    hide SymbolsOf, Count;
    if s < |lengths| && lengths[s] == l {
      SymbolsOfHas(lengths, s);
    }
    if s in SymbolsOf(lengths, l) {
      var k :| 0 <= k < |SymbolsOf(lengths, l)| && SymbolsOf(lengths, l)[k] == s;
      SymbolsOfAt(lengths, l, k);
    }
  }

  lemma {:induction false} CountMonotone(lengths: seq<nat>, a: nat, b: nat, l: nat)
    requires a <= b <= |lengths|
    ensures Count(lengths[..a], l) <= Count(lengths[..b], l)
    decreases b
  {
    if a < b {
      CountMonotone(lengths, a, b - 1, l);
      assert lengths[..b][..b - 1] == lengths[..b - 1];
    }
  }

  /** The table is a stable sort: by length, and by symbol within a length. */
  lemma {:induction false} SortedOrdered(lengths: seq<nat>, l: nat, i: nat, j: nat)
    requires i < j < |Sorted(lengths, l)|
    ensures var t := Sorted(lengths, l);
      t[i] < |lengths| && t[j] < |lengths| && Before(lengths, t[i], t[j])
  {
    hide SymbolsOf, Count;
    var t, u := Sorted(lengths, l), Sorted(lengths, l - 1);
    if j < |u| {
      SortedOrdered(lengths, l - 1, i, j);
    } else {
      SymbolsOfAt(lengths, l, j - |u|);
      if i < |u| {
        assert t[i] in u;
        SortedHas(lengths, l - 1, t[i]);
      } else {
        SymbolsOfAt(lengths, l, i - |u|);
        if t[j] <= t[i] {
          CountMonotone(lengths, t[j], t[i], l);
        }
      }
    }
  }

  ghost predicate IsTable(lengths: seq<nat>, count: seq<nat>, symbol: seq<nat>) {
    && |count| == MAXBITS + 1
    && (forall l :: 0 <= l <= MAXBITS ==> count[l] == Count(lengths, l))
    && Sorted(lengths, MAXBITS) <= symbol
  }

  // ---------------------------------------------------------------------------------------
  // The walk
  // ---------------------------------------------------------------------------------------

  function SumFrom(count: seq<nat>, l: nat): nat
    decreases |count| - l
  {
    if l >= |count| then 0 else count[l] + SumFrom(count, l + 1)
  }

  /** Room for every symbol that the counts promise. */
  ghost predicate HasRoom(count: seq<nat>, symbol: seq<nat>) {
    |count| == MAXBITS + 1 && SumFrom(count, 1) <= |symbol|
  }

  /**
    Reading one bit at a time: `code` holds the bits read so far, shifted up by one, `first`
    the first code of length `len`, and `index` the place of that code's symbol.
   */
  function Walk(count: seq<nat>, symbol: seq<nat>, bs: seq<bit>, p: nat,
                len: nat, code: nat, first: nat, index: nat): Decoded
    requires 1 <= len <= |count| == MAXBITS + 1
    requires first <= code
    requires index + SumFrom(count, len) <= |symbol|
    decreases |bs| - p
  {
    if len > MAXBITS then Invalid
    else if p >= |bs| then OutOfInput
    else
      var c := code + bs[p];
      if c < first + count[len] then Symbol(symbol[index + (c - first)], p + 1)
      else Walk(count, symbol, bs, p + 1, len + 1, 2 * c, 2 * (first + count[len]), index + count[len])
  }

  /** One step of the walk: a code of length `len` was read, or one more bit is needed. */
  lemma WalkStep(count: seq<nat>, symbol: seq<nat>, bs: seq<bit>, p: nat,
                 len: nat, code: nat, first: nat, index: nat)
    requires 1 <= len < |count| == MAXBITS + 1 && p < |bs|
    requires first <= code && index + SumFrom(count, len) <= |symbol|
    ensures index + count[len] + SumFrom(count, len + 1) <= |symbol|
    ensures var c := code + bs[p];
      Walk(count, symbol, bs, p, len, code, first, index) ==
      if c < first + count[len] then Symbol(symbol[index + (c - first)], p + 1)
      else Walk(count, symbol, bs, p + 1, len + 1, 2 * c, 2 * (first + count[len]), index + count[len])
  {
  }

  lemma WalkStop(count: seq<nat>, symbol: seq<nat>, bs: seq<bit>, p: nat,
                 len: nat, code: nat, first: nat, index: nat)
    requires 1 <= len <= |count| == MAXBITS + 1 && (len == MAXBITS + 1 || p >= |bs|)
    requires first <= code && index + SumFrom(count, len) <= |symbol|
    ensures Walk(count, symbol, bs, p, len, code, first, index) ==
            if len == MAXBITS + 1 then Invalid else OutOfInput
  {
  }

  /** The walk that ends in `w` has come to position `p` with these values. */
  ghost predicate OnWalk(w: Decoded, count: seq<nat>, symbol: seq<nat>, bs: seq<bit>, p: nat,
                         len: nat, code: nat, first: nat, index: nat)
  {
    && 1 <= len <= |count| == MAXBITS + 1
    && first <= code
    && index + SumFrom(count, len) <= |symbol|
    && w == Walk(count, symbol, bs, p, len, code, first, index)
  }

  lemma OnWalkStart(count: seq<nat>, symbol: seq<nat>, bs: seq<bit>, p: nat)
    requires HasRoom(count, symbol)
    ensures OnWalk(Walk(count, symbol, bs, p, 1, 0, 0, 0), count, symbol, bs, p, 1, 0, 0, 0)
  {
  }

  lemma OnWalkStep(w: Decoded, count: seq<nat>, symbol: seq<nat>, bs: seq<bit>, p: nat,
                   len: nat, code: nat, first: nat, index: nat)
    requires OnWalk(w, count, symbol, bs, p, len, code, first, index)
    requires len < |count| && p < |bs|
    ensures first <= code
    ensures var c := code + bs[p];
      if c < first + count[len] then
        index + (c - first) < |symbol| && w == Symbol(symbol[index + (c - first)], p + 1)
      else
        OnWalk(w, count, symbol, bs, p + 1, len + 1, 2 * c, 2 * (first + count[len]), index + count[len])
  {
    WalkStep(count, symbol, bs, p, len, code, first, index);
  }

  lemma OnWalkStop(w: Decoded, count: seq<nat>, symbol: seq<nat>, bs: seq<bit>, p: nat,
                   len: nat, code: nat, first: nat, index: nat)
    requires OnWalk(w, count, symbol, bs, p, len, code, first, index)
    requires len == MAXBITS + 1 || p >= |bs|
    ensures w == if len == MAXBITS + 1 then Invalid else OutOfInput
  {
    WalkStop(count, symbol, bs, p, len, code, first, index);
  }

  lemma {:induction false} SortedSize(lengths: seq<nat>, count: seq<nat>, symbol: seq<nat>, len: nat)
    requires IsTable(lengths, count, symbol)
    requires 1 <= len <= MAXBITS + 1
    ensures |Sorted(lengths, len - 1)| + SumFrom(count, len) == |Sorted(lengths, MAXBITS)| <= |symbol|
    decreases MAXBITS + 1 - len
  {
    hide SymbolsOf, Count;
    if len <= MAXBITS {
      SortedSize(lengths, count, symbol, len + 1);
    }
  }

  /** No code shorter than `m` is a prefix of a string that is not below the codes of length `m`. */
  lemma {:induction false} NotEarlier(lengths: seq<nat>, bs: seq<bit>, p: nat, m: nat, k: nat)
    requires k < m && p + m <= |bs|
    requires CodeBits(bs, p, m) >= NextCode(lengths, m)
    ensures CodeBits(bs, p, k) >= NextCode(lengths, k) + Used(lengths, k)
    decreases m
  {
    CodeBitsLast(bs, p, m - 1);
    if k < m - 1 {
      NotEarlier(lengths, bs, p, m - 1, k);
    }
  }

  /** The code is prefix free: at most one code stands at a position. */
  lemma MatchUnique(lengths: seq<nat>, bs: seq<bit>, p: nat, s: nat, t: nat)
    requires Matches(lengths, bs, p, s) && Matches(lengths, bs, p, t)
    ensures s == t
  {
    SymbolsOfHas(lengths, s);
    SymbolsOfHas(lengths, t);
    if lengths[s] < lengths[t] {
      NotEarlier(lengths, bs, p, lengths[t], lengths[s]);
    } else if lengths[t] < lengths[s] {
      NotEarlier(lengths, bs, p, lengths[s], lengths[t]);
    }
  }

  lemma SymbolAtMatch(lengths: seq<nat>, bs: seq<bit>, p: nat, s: nat)
    requires Matches(lengths, bs, p, s)
    ensures SymbolAt(lengths, bs, p) == Symbol(s, p + lengths[s])
  {
    forall t: nat | Matches(lengths, bs, p, t) ensures t == s {
      MatchUnique(lengths, bs, p, s, t);
    }
  }

  /** A string past the codes of length `m` does not start with a code of length at most `m`. */
  lemma NoMatch(lengths: seq<nat>, bs: seq<bit>, p: nat, m: nat, s: nat)
    requires p + m <= |bs|
    requires CodeBits(bs, p, m) >= NextCode(lengths, m) + Used(lengths, m)
    requires s < |lengths| && lengths[s] <= m
    ensures !Matches(lengths, bs, p, s)
  {
    SymbolsOfHas(lengths, s);
    if lengths[s] < m {
      NotEarlier(lengths, bs, p, m, lengths[s]);
    }
  }

  lemma SymbolAtNone(lengths: seq<nat>, bs: seq<bit>, p: nat, m: nat)
    requires ValidLengths(lengths)
    requires p + m <= |bs| && m <= MAXBITS
    requires m == MAXBITS || p + m == |bs|
    requires CodeBits(bs, p, m) >= NextCode(lengths, m) + Used(lengths, m)
    ensures SymbolAt(lengths, bs, p) == if m == MAXBITS then Invalid else OutOfInput
  {
    forall s: nat ensures !Matches(lengths, bs, p, s) {
      if s < |lengths| && lengths[s] <= m {
        NoMatch(lengths, bs, p, m, s);
      }
    }
  }

  /** A string among the codes of length `len` starts with the code of the symbol in that place. */
  lemma Hit(lengths: seq<nat>, bs: seq<bit>, p: nat, len: nat)
    requires 1 <= len && p + len <= |bs|
    requires NextCode(lengths, len) <= CodeBits(bs, p, len) < NextCode(lengths, len) + Count(lengths, len)
    ensures SymbolAt(lengths, bs, p) ==
            Symbol(SymbolsOf(lengths, len)[CodeBits(bs, p, len) - NextCode(lengths, len)], p + len)
  {
    var k := CodeBits(bs, p, len) - NextCode(lengths, len);
    SymbolsOfAt(lengths, len, k);
    SymbolAtMatch(lengths, bs, p, SymbolsOf(lengths, len)[k]);
  }

  lemma WalkHit(lengths: seq<nat>, count: seq<nat>, symbol: seq<nat>, bs: seq<bit>, p: nat, len: nat, k: nat)
    requires IsTable(lengths, count, symbol)
    requires 1 <= len <= MAXBITS && p + len <= |bs|
    requires CodeBits(bs, p, len) == NextCode(lengths, len) + k
    requires k < Count(lengths, len)
    ensures |Sorted(lengths, len - 1)| + k < |symbol|
    ensures SymbolAt(lengths, bs, p) == Symbol(symbol[|Sorted(lengths, len - 1)| + k], p + len)
  {
    hide Sorted, SymbolsOf, SymbolAt, NextCode, CodeBits, Count;
    Hit(lengths, bs, p, len);
    SortedAt(lengths, len, MAXBITS, k);
  }

  lemma TableStep(lengths: seq<nat>, count: seq<nat>, symbol: seq<nat>, len: nat)
    requires IsTable(lengths, count, symbol)
    requires 1 <= len <= MAXBITS
    ensures NextCode(lengths, len + 1) == 2 * (NextCode(lengths, len) + count[len])
    ensures |Sorted(lengths, len)| == |Sorted(lengths, len - 1)| + count[len]
  {
  }

  /** The walk at length `len`, when no shorter code stands at position `p`. */
  lemma {:induction false} WalkFrom(lengths: seq<nat>, count: seq<nat>, symbol: seq<nat>, bs: seq<bit>, p: nat,
                                    len: nat, code: nat, first: nat, index: nat)
    requires IsTable(lengths, count, symbol) && ValidLengths(lengths)
    requires 1 <= len <= MAXBITS + 1 && p + len - 1 <= |bs|
    requires code == 2 * CodeBits(bs, p, len - 1)
    requires first == NextCode(lengths, len) <= code
    requires index == |Sorted(lengths, len - 1)|
    requires index + SumFrom(count, len) <= |symbol|
    ensures Walk(count, symbol, bs, p + len - 1, len, code, first, index) == SymbolAt(lengths, bs, p)
    decreases MAXBITS + 1 - len
  {
    hide Walk, Sorted, Count, SumFrom, CodeBits, SymbolsOf, Pow2;
    if len > MAXBITS || p + len - 1 == |bs| {
      WalkStop(count, symbol, bs, p + len - 1, len, code, first, index);
      assert CodeBits(bs, p, len - 1) >= NextCode(lengths, len - 1) + Used(lengths, len - 1);
      SymbolAtNone(lengths, bs, p, len - 1);
    } else {
      WalkStep(count, symbol, bs, p + len - 1, len, code, first, index);
      CodeBitsLast(bs, p, len - 1);
      var c := code + bs[p + len - 1];
      if c < first + count[len] {
        WalkHit(lengths, count, symbol, bs, p, len, c - first);
      } else {
        TableStep(lengths, count, symbol, len);
        WalkFrom(lengths, count, symbol, bs, p, len + 1, 2 * c, 2 * (first + count[len]), index + count[len]);
      }
    }
  }

  /** Decoding with the tables is decoding by the definition of the code. */
  lemma WalkIsSymbolAt(lengths: seq<nat>, count: seq<nat>, symbol: seq<nat>, bs: seq<bit>, p: nat)
    requires IsTable(lengths, count, symbol) && ValidLengths(lengths)
    requires p <= |bs|
    ensures HasRoom(count, symbol)
    ensures Walk(count, symbol, bs, p, 1, 0, 0, 0) == SymbolAt(lengths, bs, p)
  {
    assert NextCode(lengths, 1) == 0;
    SortedSize(lengths, count, symbol, 1);
    WalkFrom(lengths, count, symbol, bs, p, 1, 0, 0, 0);
  }

  // ---------------------------------------------------------------------------------------
  // What the lengths promise
  // ---------------------------------------------------------------------------------------

  lemma {:induction false} LeftNonNegative(lengths: seq<nat>, l: nat)
    requires l <= MAXBITS
    requires Kraft(lengths) <= Pow2(MAXBITS)
    ensures Left(lengths, l) >= 0
  {
    LeftIsKraft(lengths, MAXBITS);
    if Left(lengths, l) < 0 {
      LeftNegative(lengths, l, MAXBITS);
    }
  }

  /** The bits of a code, most significant first. */
  function CodeString(c: nat, n: nat): (bs: seq<bit>)
    ensures |bs| == n
  {
    if n == 0 then [] else CodeString(c / 2, n - 1) + [c % 2]
  }

  lemma {:induction false} CodeStringValue(c: nat, n: nat)
    requires c < Pow2(n)
    ensures CodeValue(CodeString(c, n)) == c
  {
    if n > 0 {
      CodeStringValue(c / 2, n - 1);
      assert CodeString(c, n)[..n - 1] == CodeString(c / 2, n - 1);
    }
  }

  function Encode(lengths: seq<nat>, s: nat): (bs: seq<bit>)
    requires s < |lengths|
    ensures |bs| == lengths[s]
  {
    CodeString(Code(lengths, s), lengths[s])
  }

  /** Codes fit their lengths unless the lengths are oversubscribed. */
  lemma CodeFits(lengths: seq<nat>, s: nat)
    requires ValidLengths(lengths) && Kraft(lengths) <= Pow2(MAXBITS)
    requires s < |lengths| && lengths[s] > 0
    ensures Code(lengths, s) < Pow2(lengths[s])
  {
    LeftNonNegative(lengths, lengths[s]);
    SymbolsOfHas(lengths, s);
  }

  /** Encoding a symbol and decoding it, whatever comes before and after. */
  lemma EncodeDecode(lengths: seq<nat>, s: nat, before: seq<bit>, after: seq<bit>)
    requires ValidLengths(lengths) && Kraft(lengths) <= Pow2(MAXBITS)
    requires s < |lengths| && lengths[s] > 0
    ensures SymbolAt(lengths, before + Encode(lengths, s) + after, |before|) ==
            Symbol(s, |before| + lengths[s])
  {
    var bs := before + Encode(lengths, s) + after;
    CodeFits(lengths, s);
    CodeStringValue(Code(lengths, s), lengths[s]);
    assert bs[|before|..|before| + lengths[s]] == Encode(lengths, s);
    assert Matches(lengths, bs, |before|, s);
    SymbolAtMatch(lengths, bs, |before|, s);
  }

  ghost predicate HasSymbol(lengths: seq<nat>) {
    exists i :: 0 <= i < |lengths| && lengths[i] > 0
  }

  /** In a complete code every string of MAXBITS bits starts with a code. */
  lemma {:induction false} CompleteFrom(lengths: seq<nat>, bs: seq<bit>, p: nat, len: nat)
    requires ValidLengths(lengths) && Left(lengths, MAXBITS) == 0
    requires 1 <= len <= MAXBITS && p + MAXBITS <= |bs|
    requires NextCode(lengths, len) <= 2 * CodeBits(bs, p, len - 1)
    ensures exists s: nat :: Matches(lengths, bs, p, s)
    decreases MAXBITS - len
  {
    CodeBitsLast(bs, p, len - 1);
    var c, first := CodeBits(bs, p, len), NextCode(lengths, len);
    if c < first + Count(lengths, len) {
      SymbolsOfAt(lengths, len, c - first);
      assert Matches(lengths, bs, p, SymbolsOf(lengths, len)[c - first]);
    } else {
      CodeValueBound(bs[p..p + len]);
      assert len < MAXBITS;
      CompleteFrom(lengths, bs, p, len + 1);
    }
  }

  /**
    A complete code decodes any MAXBITS bits, and no other code does: decoding never fails
    exactly when the Kraft sum is one.
   */
  lemma CompleteNeverInvalid(lengths: seq<nat>, bs: seq<bit>, p: nat)
    requires ValidLengths(lengths) && Kraft(lengths) == Pow2(MAXBITS)
    ensures SymbolAt(lengths, bs, p) != Invalid
  {
    LeftIsKraft(lengths, MAXBITS);
    if p + MAXBITS <= |bs| {
      assert NextCode(lengths, 1) == 0;
      CompleteFrom(lengths, bs, p, 1);
    }
  }

  function Ones(n: nat): (bs: seq<bit>)
    ensures |bs| == n
  {
    if n == 0 then [] else Ones(n - 1) + [1]
  }

  lemma {:induction false} OnesPrefix(n: nat, k: nat)
    requires k <= n
    ensures Ones(n)[..k] == Ones(k)
  {
    if k < n {
      OnesPrefix(n - 1, k);
      assert Ones(n)[..k] == Ones(n - 1)[..k];
    }
  }

  lemma {:induction false} OnesValue(k: nat)
    ensures CodeValue(Ones(k)) == Pow2(k) - 1
  {
    if k > 0 {
      OnesValue(k - 1);
      assert Ones(k)[..k - 1] == Ones(k - 1);
    }
  }

  /** An incomplete code, or a code without symbols, has a string that decodes to nothing. */
  lemma IncompleteHasInvalid(lengths: seq<nat>)
    requires ValidLengths(lengths) && Kraft(lengths) < Pow2(MAXBITS)
    ensures SymbolAt(lengths, Ones(MAXBITS), 0) == Invalid
  {
    var bs := Ones(MAXBITS);
    LeftIsKraft(lengths, MAXBITS);
    forall s: nat | Matches(lengths, bs, 0, s) ensures false {
      var l := lengths[s];
      OnesPrefix(MAXBITS, l);
      OnesValue(l);
      SymbolsOfHas(lengths, s);
      assert Left(lengths, l) > 0 by { LeftPositive(lengths, l); }
    }
  }

  lemma {:induction false} LeftPositive(lengths: seq<nat>, l: nat)
    requires l <= MAXBITS && Left(lengths, MAXBITS) > 0
    ensures Left(lengths, l) > 0
    decreases MAXBITS - l
  {
    if l < MAXBITS {
      LeftPositive(lengths, l + 1);
      LeftStep(lengths, l + 1);
    }
  }

  lemma CompleteHasSymbol(lengths: seq<nat>)
    requires ValidLengths(lengths) && Kraft(lengths) == Pow2(MAXBITS)
    ensures HasSymbol(lengths)
  {
    if !HasSymbol(lengths) {
      KraftOfZeros(lengths);
    }
  }

  lemma {:induction false} KraftOfZeros(lengths: seq<nat>)
    requires forall i :: 0 <= i < |lengths| ==> lengths[i] == 0
    ensures Kraft(lengths) == 0
  {
    if lengths != [] {
      KraftOfZeros(lengths[..|lengths| - 1]);
    }
  }


  /**
    A code for which `construct` returns zero is complete or has no symbols; decoding with it
    never fails exactly when it has a symbol.
   */
  lemma ZeroNeverFails(lengths: seq<nat>)
    requires ValidLengths(lengths)
    requires !HasSymbol(lengths) || Kraft(lengths) == Pow2(MAXBITS)
    ensures (forall bs: seq<bit>, p: nat :: SymbolAt(lengths, bs, p) != Invalid) <==> HasSymbol(lengths)
  {
    hide Kraft, SymbolAt, Pow2;
    if HasSymbol(lengths) {
      forall bs: seq<bit>, p: nat ensures SymbolAt(lengths, bs, p) != Invalid {
        CompleteNeverInvalid(lengths, bs, p);
      }
    } else {
      KraftOfZeros(lengths);
      IncompleteHasInvalid(lengths);
    }
  }
}
