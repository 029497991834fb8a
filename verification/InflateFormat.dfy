/**
  The deflate format of sections 3.2.3 to 3.2.7 of RFC 1951, as functions of the bit stream.

  Nothing here mentions decoding tables, bit buffers or copy loops: a symbol is whatever the
  definition of the Huffman code says stands in the stream, and a back-reference is the
  periodic extension of what was produced so far.
 */
module InflateFormat {
  import opened Basics
  import opened BitStream
  import opened Huffman

  const MAXLCODES := 286
  const MAXDCODES := 30
  const FIXLCODES := 288

  /** How much output may be produced; `Unlimited` when the output is only measured. */
  datatype Room = Unlimited | Limited(bytes: nat)

  predicate Fits(room: Room, n: nat) {
    room.Unlimited? || n <= room.bytes
  }

  /**
    The end of a run: everything decoded, or an error of the format (with the error code, the
    bits consumed and the output produced until then), or too little input or output space.
    `Undefined` stands for the one kind of input on which the inflater has no behaviour, see `EmptyCode`.
   */
  datatype Result =
    | Done(pos: nat, out: seq<uint8>)
    | Failed(code: int, pos: nat, out: seq<uint8>)
    | NeedInput
    | NeedOutput
    | Undefined

  /** A run from position `p` moves forward, keeps the output there was, and fails with a negative code. */
  ghost predicate Extends(r: Result, bs: seq<bit>, p: nat, out: seq<uint8>) {
    && (r.Done? ==> p < r.pos <= |bs| && out <= r.out)
    && (r.Failed? ==> -10 <= r.code < 0 && out <= r.out)
  }

  // ---------------------------------------------------------------------------------------
  // Literals and back-references (sections 3.2.3 and 3.2.5)
  // ---------------------------------------------------------------------------------------

  const LENGTH_BASE: seq<nat> := [
    3, 4, 5, 6, 7, 8, 9, 10, 11, 13, 15, 17, 19, 23, 27, 31,
    35, 43, 51, 59, 67, 83, 99, 115, 131, 163, 195, 227, 258]
  const LENGTH_EXTRA: seq<nat> := [
    0, 0, 0, 0, 0, 0, 0, 0, 1, 1, 1, 1, 2, 2, 2, 2,
    3, 3, 3, 3, 4, 4, 4, 4, 5, 5, 5, 5, 0]
  const DIST_BASE: seq<nat> := [
    1, 2, 3, 4, 5, 7, 9, 13, 17, 25, 33, 49, 65, 97, 129, 193,
    257, 385, 513, 769, 1025, 1537, 2049, 3073, 4097, 6145,
    8193, 12289, 16385, 24577]
  const DIST_EXTRA: seq<nat> := [
    0, 0, 0, 0, 1, 1, 2, 2, 3, 3, 4, 4, 5, 5, 6, 6,
    7, 7, 8, 8, 9, 9, 10, 10, 11, 11,
    12, 12, 13, 13]

  function LengthBase(i: nat): (r: nat)
    requires i < 29
    ensures r > 0
  {
    LENGTH_BASE[i]
  }

  function LengthExtra(i: nat): (r: nat)
    requires i < 29
    ensures r <= 5
  {
    LENGTH_EXTRA[i]
  }

  function DistBase(i: nat): (r: nat)
    requires i < 30
    ensures r > 0
  {
    DIST_BASE[i]
  }

  function DistExtra(i: nat): (r: nat)
    requires i < 30
    ensures r <= 13
  {
    DIST_EXTRA[i]
  }

  datatype Token =
    | Literal(byte: uint8, next: nat)
    | Copy(len: nat, dist: nat, next: nat)
    | EndOfBlock(next: nat)
    | BadToken(next: nat)
    | ShortToken

  ghost function DistanceAt(len: nat, distLengths: seq<nat>, bs: seq<bit>, p: nat): (t: Token)
    requires p <= |bs| && len > 0 && |distLengths| <= MAXDCODES
    ensures !t.Literal? && !t.EndOfBlock?
    ensures t.Copy? ==> p < t.next <= |bs| && t.len == len && t.dist > 0
  {
    match SymbolAt(distLengths, bs, p)
    case OutOfInput => ShortToken
    case Invalid => BadToken(p + MAXBITS)
    case Symbol(s, q) =>
      var extra := DistExtra(s);
      if q + extra > |bs| then ShortToken
      else Copy(len, DistBase(s) + Field(bs, q, extra), q + extra)
  }

  /** The literal, back-reference or end mark at position `p`. */
  ghost function TokenAt(litLengths: seq<nat>, distLengths: seq<nat>, bs: seq<bit>, p: nat): (t: Token)
    requires p <= |bs| && |distLengths| <= MAXDCODES
    ensures (t.Literal? || t.Copy? || t.EndOfBlock?) ==> p < t.next <= |bs|
    ensures t.Copy? ==> t.dist > 0 && t.len > 0
  {
    match SymbolAt(litLengths, bs, p)
    case OutOfInput => ShortToken
    case Invalid => BadToken(p + MAXBITS)
    case Symbol(s, q) =>
      if s < 256 then Literal(s, q)
      else if s == 256 then EndOfBlock(q)
      else if s - 257 >= 29 then BadToken(q)
      else
        var extra := LengthExtra(s - 257);
        if q + extra > |bs| then ShortToken
        else DistanceAt(LengthBase(s - 257) + Field(bs, q, extra), distLengths, bs, q + extra)
  }

  /** The last `dist` bytes repeated for `len` bytes, `len` greater than `dist` or not. */
  function CopyBack(out: seq<uint8>, len: nat, dist: nat): (r: seq<uint8>)
    requires 0 < dist <= |out|
    ensures |r| == |out| + len && out <= r
  {
    out + seq(len, i requires 0 <= i < len => out[|out| - dist + i % dist])
  }

  /** One more byte of a back-reference is the byte `dist` before it. */
  lemma CopyBackStep(out: seq<uint8>, len: nat, dist: nat)
    requires 0 < dist <= |out|
    ensures var r := CopyBack(out, len, dist);
      CopyBack(out, len + 1, dist) == r + [r[|r| - dist]]
  {
    var r := CopyBack(out, len, dist);
    if len >= dist {
      DivModUnique(len, len / dist, len % dist, dist);
      assert len - dist == len % dist + dist * (len / dist - 1);
      DivModUnique(len - dist, len / dist - 1, len % dist, dist);
      assert r[|r| - dist] == out[|out| - dist + (len - dist) % dist];
    } else {
      DivModUnique(len, 0, len, dist);
      assert r[|r| - dist] == out[|out| - dist + len];
    }
  }

  /** The whole back-reference: every new byte equals the byte `dist` before it. */
  lemma CopyBackPeriodic(out: seq<uint8>, len: nat, dist: nat, i: nat)
    requires 0 < dist <= |out| <= i < |out| + len
    ensures CopyBack(out, len, dist)[i] == CopyBack(out, len, dist)[i - dist]
  {
    var k := i - |out|;
    CopyBackStep(out, k, dist);
    var r := CopyBack(out, len, dist);
    assert r[..i] == CopyBack(out, k, dist);
    assert r[..i + 1] == CopyBack(out, k + 1, dist);
    assert r[i] == r[..i + 1][i];
    assert r[i - dist] == r[..i][i - dist];
  }

  /** The symbols from position `p` to the end of the block. */
  ghost function Symbols(litLengths: seq<nat>, distLengths: seq<nat>, bs: seq<bit>, p: nat,
                         out: seq<uint8>, room: Room): (r: Result)
    requires p <= |bs| && |distLengths| <= MAXDCODES
    ensures Extends(r, bs, p, out) && (room.Unlimited? ==> r != NeedOutput)
    decreases |bs| - p
  {
    match TokenAt(litLengths, distLengths, bs, p)
    case ShortToken => NeedInput
    case BadToken(q) => Failed(-9, q, out)
    case EndOfBlock(q) => Done(q, out)
    case Literal(b, q) =>
      if !Fits(room, |out| + 1) then NeedOutput
      else Symbols(litLengths, distLengths, bs, q, out + [b], room)
    case Copy(len, dist, q) =>
      if dist > |out| then Failed(-10, q, out)
      else if !Fits(room, |out| + len) then NeedOutput
      else Symbols(litLengths, distLengths, bs, q, CopyBack(out, len, dist), room)
  }

  // ---------------------------------------------------------------------------------------
  // Stored blocks (section 3.2.4)
  // ---------------------------------------------------------------------------------------

  /** The first byte boundary at or after `p`. */
  function AlignUp(p: nat): (q: nat)
    ensures p <= q < p + 8 && q % 8 == 0
  {
    (p + 7) / 8 * 8
  }

  function BytesAt(bs: seq<bit>, p: nat, n: nat): (r: seq<uint8>)
    requires p + 8 * n <= |bs|
    ensures |r| == n
    decreases n
  {
    if n == 0 then []
    else
      FieldBound(bs, p, 8);
      Pow2Small();
      [Field(bs, p, 8)] + BytesAt(bs, p + 8, n - 1)
  }

  lemma {:induction false} BytesOfStream(input: seq<uint8>, k: nat, n: nat)
    requires k + n <= |input|
    ensures BytesAt(StreamOf(input), 8 * k, n) == input[k..k + n]
    decreases n
  {
    hide StreamOf, Field, Pow2;
    if n > 0 {
      FieldByte(input, k);
      BytesOfStream(input, k + 1, n - 1);
      assert input[k..k + n] == [input[k]] + input[k + 1..k + n];
    }
  }

  ghost function Stored(bs: seq<bit>, p: nat, out: seq<uint8>, room: Room): (r: Result)
    requires p <= |bs|
    ensures Extends(r, bs, p, out) && (room.Unlimited? ==> r != NeedOutput)
  {
    var q := AlignUp(p);
    if q + 32 > |bs| then NeedInput
    else
      var len := Field(bs, q, 16);
      if Field(bs, q + 16, 8) != 255 - len % 256 then Failed(-2, q + 24, out)
      else if Field(bs, q + 24, 8) != 255 - len / 256 then Failed(-2, q + 32, out)
      else if q + 32 + 8 * len > |bs| then NeedInput
      else if !Fits(room, |out| + len) then NeedOutput
      else Done(q + 32 + 8 * len, out + BytesAt(bs, q + 32, len))
  }

  // ---------------------------------------------------------------------------------------
  // Fixed codes (section 3.2.6)
  // ---------------------------------------------------------------------------------------

  function FixedLength(s: nat): nat {
    if s < 144 then 8 else if s < 256 then 9 else if s < 280 then 7 else 8
  }

  function FixedLitLengths(): (r: seq<nat>)
    ensures |r| == FIXLCODES
  {
    seq(FIXLCODES, s requires 0 <= s => FixedLength(s))
  }

  function FixedDistLengths(): seq<nat> {
    seq(MAXDCODES, _ => 5)
  }

  function Repeat(x: nat, n: nat): (r: seq<nat>)
    ensures |r| == n
  {
    seq(n, _ => x)
  }

  lemma KraftSnoc(a: seq<nat>, x: nat)
    requires 0 < x <= MAXBITS
    ensures Kraft(a + [x]) == Kraft(a) + Pow2(MAXBITS - x)
  {
    assert (a + [x])[..|a|] == a;
  }

  lemma {:induction false} KraftRun(a: seq<nat>, x: nat, n: nat)
    requires 0 < x <= MAXBITS
    ensures Kraft(a + Repeat(x, n)) == Kraft(a) + n * Pow2(MAXBITS - x)
  {
    hide Kraft, Pow2;
    if n == 0 {
      assert a + Repeat(x, n) == a;
    } else {
      KraftRun(a, x, n - 1);
      KraftSnoc(a + Repeat(x, n - 1), x);
      assert a + Repeat(x, n) == a + Repeat(x, n - 1) + [x];
    }
  }

  /** The fixed literal code is complete; the fixed distance code leaves two codes out. */
  lemma KraftFixed()
    ensures Kraft(FixedLitLengths()) == Pow2(MAXBITS)
    ensures Kraft(FixedDistLengths()) < Pow2(MAXBITS)
    ensures ValidLengths(FixedLitLengths()) && ValidLengths(FixedDistLengths())
  {
    Pow2Small();
    hide Kraft, Pow2;
    var a := [] + Repeat(8, 144);
    var b := a + Repeat(9, 112);
    var c := b + Repeat(7, 24);
    assert FixedLitLengths() == c + Repeat(8, 8);
    KraftNone();
    KraftRun([], 8, 144);
    KraftRun(a, 9, 112);
    KraftRun(b, 7, 24);
    KraftRun(c, 8, 8);
    assert FixedDistLengths() == [] + Repeat(5, 30);
    KraftRun([], 5, 30);
    Pow2Ten();
  }

  lemma KraftNone()
    ensures Kraft([]) == 0
  {
  }

  lemma Pow2Ten()
    ensures Pow2(10) == 1024
  {
    Pow2Small();
    assert Pow2(9) == 2 * Pow2(8);
  }

  // ---------------------------------------------------------------------------------------
  // Dynamic codes (section 3.2.7)
  // ---------------------------------------------------------------------------------------

  const ORDER: seq<nat> := [16, 17, 18, 0, 8, 7, 9, 6, 10, 5, 11, 4, 12, 3, 13, 2, 14, 1, 15]

  /** Where the length of each code-length symbol is sent. */
  const ORDER_OF: seq<nat> := [3, 17, 15, 13, 11, 9, 7, 5, 4, 6, 8, 10, 12, 14, 16, 18, 0, 1, 2]

  function OrderAt(i: nat): (s: nat)
    requires i < 19
    ensures s < 19
  {
    ORDER[i]
  }

  function OrderOf(s: nat): (i: nat)
    requires s < 19
    ensures i < 19
  {
    ORDER_OF[s]
  }

  lemma OrderInverse(i: nat)
    requires i < 19
    ensures OrderOf(OrderAt(i)) == i && OrderAt(OrderOf(i)) == i
  {
    assert ORDER[ORDER_OF[i]] == i;
  }

  function CodeLengthLengths(bs: seq<bit>, p: nat, ncode: nat): (r: seq<nat>)
    requires ncode <= 19 && p + 3 * ncode <= |bs|
    ensures |r| == 19
  {
    seq(19, s requires 0 <= s < 19 =>
      if OrderOf(s) < ncode then Field(bs, p + 3 * OrderOf(s), 3) else 0)
  }

  datatype LengthsResult =
    | Lengths(lengths: seq<nat>, next: nat)
    | BadLengths(code: int, pos: nat)
    | ShortLengths

  /** A run of `base` plus an `extra`-bit number of copies of `x`, then the rest of the lengths. */
  ghost function RunAt(clLengths: seq<nat>, bs: seq<bit>, p: nat, total: nat, acc: seq<nat>,
                       x: nat, base: nat, extra: nat): (r: LengthsResult)
    requires p <= |bs| && extra > 0 && x <= MAXBITS && |acc| <= total && ValidLengths(acc)
    ensures r.Lengths? ==> p <= r.next <= |bs| && |r.lengths| == total && ValidLengths(r.lengths)
    ensures r.BadLengths? ==> -10 <= r.code < 0
    decreases |bs| - p, 0
  {
    if p + extra > |bs| then ShortLengths
    else
      var n := base + Field(bs, p, extra);
      if |acc| + n > total then BadLengths(-6, p + extra)
      else LengthsFrom(clLengths, bs, p + extra, total, acc + Repeat(x, n))
  }

  /** The run-length coded code lengths, `total` in all. */
  ghost function LengthsFrom(clLengths: seq<nat>, bs: seq<bit>, p: nat, total: nat, acc: seq<nat>): (r: LengthsResult)
    requires p <= |bs| && |acc| <= total && ValidLengths(acc)
    ensures r.Lengths? ==> p <= r.next <= |bs| && |r.lengths| == total && ValidLengths(r.lengths)
    ensures r.BadLengths? ==> -10 <= r.code < 0
    decreases |bs| - p, 1
  {
    if |acc| == total then Lengths(acc, p)
    else
      match SymbolAt(clLengths, bs, p)
      case OutOfInput => ShortLengths
      case Invalid => BadLengths(-9, p + MAXBITS)
      case Symbol(s, q) =>
        if s < 16 then LengthsFrom(clLengths, bs, q, total, acc + [s])
        else if s == 16 then
          if acc == [] then BadLengths(-5, q)
          else RunAt(clLengths, bs, q, total, acc, acc[|acc| - 1], 3, 2)
        else if s == 17 then RunAt(clLengths, bs, q, total, acc, 0, 3, 3)
        else RunAt(clLengths, bs, q, total, acc, 0, 11, 7)
  }

  /** A complete code, or a code of at most one symbol. */
  ghost predicate Acceptable(lengths: seq<nat>) {
    Kraft(lengths) == Pow2(MAXBITS) || |lengths| - Count(lengths, 0) <= 1
  }

  /** The code lengths of a dynamic block and what they encode. */
  ghost function CodedBlock(clLengths: seq<nat>, nlen: nat, ndist: nat, bs: seq<bit>, p: nat,
                            out: seq<uint8>, room: Room): (r: Result)
    requires p <= |bs| && ndist <= MAXDCODES
    ensures Extends(r, bs, p, out) && (room.Unlimited? ==> r != NeedOutput)
  {
    match LengthsFrom(clLengths, bs, p, nlen + ndist, [])
    case ShortLengths => NeedInput
    case BadLengths(code, at) => Failed(code, at, out)
    case Lengths(lengths, next) =>
      var lit, dist := lengths[..nlen], lengths[nlen..];
      if !Acceptable(lit) then Failed(-7, next, out)
      else if !Acceptable(dist) then Failed(-8, next, out)
      else Symbols(lit, dist, bs, next, out, room)
  }

  /**
    A code-length code without a symbol. Each of the lengths then fails to decode, which takes the
    fifteen bits of the longest code: the bits left over of a byte, which stay, and whole bytes.
    The input may run out; otherwise the error code serves as a length, and what that does is not
    defined.
   */
  function EmptyCode(size: nat, p: nat, total: nat): Result
    requires p <= size
  {
    var each := if p % 8 == 1 then 1 else 2;
    if (size - p) / 8 < each * total then NeedInput else Undefined
  }

  ghost function Dynamic(bs: seq<bit>, p: nat, out: seq<uint8>, room: Room): (r: Result)
    requires p <= |bs|
    ensures Extends(r, bs, p, out) && (room.Unlimited? ==> r != NeedOutput)
  {
    if p + 14 > |bs| then NeedInput
    else
      var nlen, ndist, ncode := Field(bs, p, 5) + 257, Field(bs, p + 5, 5) + 1, Field(bs, p + 10, 4) + 4;
      if nlen > MAXLCODES || ndist > MAXDCODES then Failed(-3, p + 14, out)
      else if p + 14 + 3 * ncode > |bs| then NeedInput
      else
        var q := p + 14 + 3 * ncode;
        FieldBound(bs, p + 10, 4);
        Pow2Small();
        var clLengths := CodeLengthLengths(bs, p + 14, ncode);
        if !HasSymbol(clLengths) then EmptyCode(|bs|, q, nlen + ndist)
        else if Kraft(clLengths) != Pow2(MAXBITS) then Failed(-4, q, out)
        else CodedBlock(clLengths, nlen, ndist, bs, q, out, room)
  }

  // ---------------------------------------------------------------------------------------
  // The block sequence (section 3.2.3)
  // ---------------------------------------------------------------------------------------

  ghost function Block(kind: nat, bs: seq<bit>, p: nat, out: seq<uint8>, room: Room): (r: Result)
    requires p <= |bs|
    ensures Extends(r, bs, p, out) && (room.Unlimited? ==> r != NeedOutput)
  {
    if kind == 0 then Stored(bs, p, out, room)
    else if kind == 1 then Symbols(FixedLitLengths(), FixedDistLengths(), bs, p, out, room)
    else if kind == 2 then Dynamic(bs, p, out, room)
    else Failed(-1, p, out)
  }

  /** The blocks from position `p` to the end of the last one. */
  ghost function Blocks(bs: seq<bit>, p: nat, out: seq<uint8>, room: Room): (r: Result)
    requires p <= |bs|
    ensures Extends(r, bs, p, out) && (room.Unlimited? ==> r != NeedOutput)
    decreases |bs| - p
  {
    if p + 3 > |bs| then NeedInput
    else
      var r := Block(Field(bs, p + 1, 2), bs, p + 3, out, room);
      if r.Done? && bs[p] == 0 then Blocks(bs, r.pos, r.out, room) else r
  }

  /** The meaning of a deflate stream. */
  ghost function Inflate(input: seq<uint8>, room: Room): (r: Result)
  {
    Blocks(StreamOf(input), 0, [], room)
  }
}
