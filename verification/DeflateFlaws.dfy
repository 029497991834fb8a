/**
  Streams that are no good: what a stream that is cut off gives, and which error is reported for
  which flaw, after any number of good blocks.
 */
module DeflateFlaws {
  import opened Basics
  import opened BitStream
  import opened DeflateEncode
  import opened DeflateTables
  import opened Huffman
  import opened InflateFormat

  // ---------------------------------------------------------------------------------------
  // Streams that are cut off
  // ---------------------------------------------------------------------------------------

  /** On a part of a stream inflating wants more, or ends as it does on the whole. */
  predicate Sooner(part: Result, whole: Result) {
    part == NeedInput || part == whole
  }

  lemma FieldPart(a: seq<bit>, b: seq<bit>, p: nat, n: nat)
    requires a <= b && p + n <= |a|
    ensures Field(a, p, n) == Field(b, p, n)
  {
    assert a[p..p + n] == b[p..p + n];
  }

  lemma MatchPart(lengths: seq<nat>, a: seq<bit>, b: seq<bit>, p: nat, s: nat)
    requires a <= b && s < |lengths| && p + lengths[s] <= |a|
    ensures Matches(lengths, a, p, s) <==> Matches(lengths, b, p, s)
  {
    hide Code;
    assert a[p..p + lengths[s]] == b[p..p + lengths[s]];
  }

  lemma SymbolPart(lengths: seq<nat>, a: seq<bit>, b: seq<bit>, p: nat)
    requires a <= b && ValidLengths(lengths)
    ensures SymbolAt(lengths, a, p) == OutOfInput || SymbolAt(lengths, a, p) == SymbolAt(lengths, b, p)
  {
    hide Matches;
    if s: nat :| Matches(lengths, a, p, s) {
      MatchFits(lengths, a, p, s);
      MatchPart(lengths, a, b, p, s);
      SymbolAtMatch(lengths, a, p, s);
      SymbolAtMatch(lengths, b, p, s);
    } else if p + MAXBITS <= |a| {
      forall s: nat | Matches(lengths, b, p, s)
        ensures Matches(lengths, a, p, s)
      {
        MatchFits(lengths, b, p, s);
        MatchPart(lengths, a, b, p, s);
      }
    }
  }

  lemma MatchFits(lengths: seq<nat>, bs: seq<bit>, p: nat, s: nat)
    requires ValidLengths(lengths) && Matches(lengths, bs, p, s)
    ensures s < |lengths| && lengths[s] <= MAXBITS && p + lengths[s] <= |bs|
  {
  }

  lemma DistancePart(len: nat, dl: seq<nat>, a: seq<bit>, b: seq<bit>, p: nat)
    requires a <= b && p <= |a| && len > 0 && |dl| <= MAXDCODES && ValidLengths(dl)
    ensures DistanceAt(len, dl, a, p) == ShortToken || DistanceAt(len, dl, a, p) == DistanceAt(len, dl, b, p)
  {
    hide SymbolAt, Field, DistBase, DistExtra, ValidLengths;
    SymbolPart(dl, a, b, p);
    var s := SymbolAt(dl, a, p);
    if s.Symbol? && s.next + DistExtra(s.sym) <= |a| {
      FieldPart(a, b, s.next, DistExtra(s.sym));
    }
  }

  lemma TokenPart(ll: seq<nat>, dl: seq<nat>, a: seq<bit>, b: seq<bit>, p: nat)
    requires a <= b && p <= |a| && |dl| <= MAXDCODES && ValidLengths(ll) && ValidLengths(dl)
    ensures TokenAt(ll, dl, a, p) == ShortToken || TokenAt(ll, dl, a, p) == TokenAt(ll, dl, b, p)
  {
    hide SymbolAt, Field, LengthBase, LengthExtra, ValidLengths, DistanceAt;
    SymbolPart(ll, a, b, p);
    var s := SymbolAt(ll, a, p);
    if s.Symbol? && s.sym > 256 && s.sym - 257 < 29 && s.next + LengthExtra(s.sym - 257) <= |a| {
      var extra := LengthExtra(s.sym - 257);
      FieldPart(a, b, s.next, extra);
      DistancePart(LengthBase(s.sym - 257) + Field(a, s.next, extra), dl, a, b, s.next + extra);
    }
  }

  lemma {:induction false} SymbolsPart(ll: seq<nat>, dl: seq<nat>, a: seq<bit>, b: seq<bit>, p: nat, out: seq<uint8>,
                                       room: Room)
    requires a <= b && p <= |a| && |dl| <= MAXDCODES && ValidLengths(ll) && ValidLengths(dl)
    ensures Sooner(Symbols(ll, dl, a, p, out, room), Symbols(ll, dl, b, p, out, room))
    decreases |a| - p
  {
    hide TokenAt, ValidLengths, CopyBack;
    TokenPart(ll, dl, a, b, p);
    match TokenAt(ll, dl, a, p)
    case Literal(x, q) =>
      SymbolsPart(ll, dl, a, b, q, out + [x], room);
    case Copy(len, dist, q) =>
      if dist <= |out| {
        SymbolsPart(ll, dl, a, b, q, CopyBack(out, len, dist), room);
      }
    case _ =>
  }

  lemma {:induction false} BytesPart(a: seq<bit>, b: seq<bit>, p: nat, n: nat)
    requires a <= b && p + 8 * n <= |a|
    ensures BytesAt(a, p, n) == BytesAt(b, p, n)
    decreases n
  {
    hide Field;
    if n > 0 {
      FieldPart(a, b, p, 8);
      BytesPart(a, b, p + 8, n - 1);
    }
  }

  lemma StoredPart(a: seq<bit>, b: seq<bit>, p: nat, out: seq<uint8>, room: Room)
    requires a <= b && p <= |a|
    ensures Sooner(Stored(a, p, out, room), Stored(b, p, out, room))
  {
    hide Field, BytesAt, AlignUp;
    var q := AlignUp(p);
    if q + 32 <= |a| {
      FieldPart(a, b, q, 16);
      FieldPart(a, b, q + 16, 8);
      FieldPart(a, b, q + 24, 8);
      var len := Field(a, q, 16);
      if q + 32 + 8 * len <= |a| {
        BytesPart(a, b, q + 32, len);
      }
    }
  }

  lemma {:induction false} LengthsPart(cl: seq<nat>, a: seq<bit>, b: seq<bit>, p: nat, total: nat, acc: seq<nat>)
    requires a <= b && p <= |a| && |acc| <= total && ValidLengths(acc) && ValidLengths(cl)
    ensures
      var r := LengthsFrom(cl, a, p, total, acc);
      r == ShortLengths || r == LengthsFrom(cl, b, p, total, acc)
    decreases |a| - p, 1
  {
    hide SymbolAt, RunAt;
    SymbolPart(cl, a, b, p);
    var s := SymbolAt(cl, a, p);
    if |acc| < total && s.Symbol? {
      if s.sym < 16 {
        LengthsPart(cl, a, b, s.next, total, acc + [s.sym]);
      } else if s.sym == 16 {
        if acc != [] {
          RunPart(cl, a, b, s.next, total, acc, acc[|acc| - 1], 3, 2);
        }
      } else if s.sym == 17 {
        RunPart(cl, a, b, s.next, total, acc, 0, 3, 3);
      } else {
        RunPart(cl, a, b, s.next, total, acc, 0, 11, 7);
      }
    }
  }

  lemma {:induction false} RunPart(cl: seq<nat>, a: seq<bit>, b: seq<bit>, p: nat, total: nat, acc: seq<nat>, x: nat,
                                   base: nat, extra: nat)
    requires a <= b && p <= |a| && extra > 0 && x <= MAXBITS && |acc| <= total && ValidLengths(acc) && ValidLengths(cl)
    ensures
      var r := RunAt(cl, a, p, total, acc, x, base, extra);
      r == ShortLengths || r == RunAt(cl, b, p, total, acc, x, base, extra)
    decreases |a| - p, 0
  {
    hide Field, LengthsFrom;
    if p + extra <= |a| {
      FieldPart(a, b, p, extra);
      var n := base + Field(a, p, extra);
      if |acc| + n <= total {
        LengthsPart(cl, a, b, p + extra, total, acc + Repeat(x, n));
      }
    }
  }

  lemma CodedPart(cl: seq<nat>, nlen: nat, ndist: nat, a: seq<bit>, b: seq<bit>, p: nat, out: seq<uint8>, room: Room)
    requires a <= b && p <= |a| && ndist <= MAXDCODES && ValidLengths(cl)
    ensures Sooner(CodedBlock(cl, nlen, ndist, a, p, out, room), CodedBlock(cl, nlen, ndist, b, p, out, room))
  {
    hide LengthsFrom, Symbols, Acceptable;
    LengthsPart(cl, a, b, p, nlen + ndist, []);
    var r := LengthsFrom(cl, a, p, nlen + ndist, []);
    if r.Lengths? {
      SymbolsPart(r.lengths[..nlen], r.lengths[nlen..], a, b, r.next, out, room);
    }
  }

  lemma ClPart(a: seq<bit>, b: seq<bit>, p: nat, ncode: nat)
    requires a <= b && ncode <= 19 && p + 3 * ncode <= |a|
    ensures CodeLengthLengths(a, p, ncode) == CodeLengthLengths(b, p, ncode)
    ensures ValidLengths(CodeLengthLengths(a, p, ncode))
  {
    hide Field, OrderOf;
    Pow2Small();
    forall s | 0 <= s < 19 && OrderOf(s) < ncode
      ensures Field(a, p + 3 * OrderOf(s), 3) == Field(b, p + 3 * OrderOf(s), 3) < 8
    {
      FieldPart(a, b, p + 3 * OrderOf(s), 3);
      FieldBound(a, p + 3 * OrderOf(s), 3);
    }
  }

  lemma DynamicPart(a: seq<bit>, b: seq<bit>, p: nat, out: seq<uint8>, room: Room)
    requires a <= b && p <= |a|
    ensures Sooner(Dynamic(a, p, out, room), Dynamic(b, p, out, room))
  {
    hide Field, CodeLengthLengths, CodedBlock, HasSymbol, Kraft, Pow2;
    if p + 14 <= |a| {
      FieldPart(a, b, p, 5);
      FieldPart(a, b, p + 5, 5);
      FieldPart(a, b, p + 10, 4);
      var nlen, ndist, ncode := Field(a, p, 5) + 257, Field(a, p + 5, 5) + 1, Field(a, p + 10, 4) + 4;
      FieldBound(a, p + 10, 4);
      Pow2Small();
      var q := p + 14 + 3 * ncode;
      if nlen <= MAXLCODES && ndist <= MAXDCODES && q <= |a| {
        ClPart(a, b, p + 14, ncode);
        CodedPart(CodeLengthLengths(a, p + 14, ncode), nlen, ndist, a, b, q, out, room);
      }
    }
  }

  lemma BlockPart(kind: nat, a: seq<bit>, b: seq<bit>, p: nat, out: seq<uint8>, room: Room)
    requires a <= b && p <= |a|
    ensures Sooner(Block(kind, a, p, out, room), Block(kind, b, p, out, room))
  {
    hide Stored, Symbols, Dynamic, ValidLengths, Kraft, Pow2;
    if kind == 0 {
      StoredPart(a, b, p, out, room);
    } else if kind == 1 {
      KraftFixed();
      SymbolsPart(FixedLitLengths(), FixedDistLengths(), a, b, p, out, room);
    } else if kind == 2 {
      DynamicPart(a, b, p, out, room);
    }
  }

  lemma {:induction false} BlocksPart(a: seq<bit>, b: seq<bit>, p: nat, out: seq<uint8>, room: Room)
    requires a <= b && p <= |a|
    ensures Sooner(Blocks(a, p, out, room), Blocks(b, p, out, room))
    decreases |a| - p
  {
    hide Field, Block;
    if p + 3 <= |a| {
      FieldPart(a, b, p + 1, 2);
      var kind := Field(a, p + 1, 2);
      BlockPart(kind, a, b, p + 3, out, room);
      var r := Block(kind, a, p + 3, out, room);
      if r.Done? && a[p] == 0 {
        BlocksPart(a, b, r.pos, r.out, room);
      }
    }
  }

  /** Inflating a part of the input wants more, or ends as it does with all of it. */
  lemma PartOfInput(input: seq<uint8>, k: nat, room: Room)
    requires k <= |input|
    ensures Sooner(Inflate(input[..k], room), Inflate(input, room))
  {
    hide Blocks;
    StreamPart(input, k);
    BlocksPart(StreamOf(input[..k]), StreamOf(input), 0, [], room);
  }

  lemma {:induction false} StreamPart(input: seq<uint8>, k: nat)
    requires k <= |input|
    ensures StreamOf(input[..k]) <= StreamOf(input) && |StreamOf(input[..k])| == 8 * k
  {
    hide LowBits;
    if k > 0 {
      StreamPart(input[1..], k - 1);
      assert input[..k][1..] == input[1..][..k - 1];
    }
  }

  /** A good stream that is cut off before its end wants more input. */
  lemma CutOff(input: seq<uint8>, k: nat, room: Room)
    requires k <= |input| && Inflate(input, room).Done? && 8 * k < Inflate(input, room).pos
    ensures Inflate(input[..k], room) == NeedInput
  {
    hide Blocks;
    PartOfInput(input, k, room);
    StreamPart(input, k);
  }

  // ---------------------------------------------------------------------------------------
  // Flawed blocks
  // ---------------------------------------------------------------------------------------

  /** The codes of a block. */
  datatype Coding = Fixed | Coded(h: Header)

  function CodingKind(c: Coding): nat {
    if c.Fixed? then 1 else 2
  }

  ghost predicate CodingOk(c: Coding) {
    c.Coded? ==> HeaderOk(c.h)
  }

  ghost function CodingBits(c: Coding): seq<bit>
    requires CodingOk(c)
  {
    if c.Fixed? then [] else HeaderBits(c.h)
  }

  ghost function LitCode(c: Coding): seq<nat>
    requires CodingOk(c)
  {
    if c.Fixed? then FixedLitLengths() else LitOf(c.h)
  }

  ghost function DistCode(c: Coding): (r: seq<nat>)
    requires CodingOk(c)
    ensures |r| <= MAXDCODES
  {
    if c.Fixed? then FixedDistLengths() else DistOf(c.h)
  }

  /** Reading on after the codes. */
  lemma CodingRead(c: Coding, bs: seq<bit>, p: nat, out: seq<uint8>)
    requires CodingOk(c) && At(bs, p, CodingBits(c))
    ensures GoodCode(LitCode(c)) && GoodCode(DistCode(c)) && p + |CodingBits(c)| <= |bs|
    ensures Block(CodingKind(c), bs, p, out, Unlimited) ==
      Symbols(LitCode(c), DistCode(c), bs, p + |CodingBits(c)|, out, Unlimited)
  {
    hide HeaderOk, HeaderBits, LitOf, DistOf, Symbols, Dynamic, GoodCode;
    if c.Fixed? {
      FixedGood();
    } else {
      HeaderRead(p, out, c.h, bs);
    }
  }

  /** Flaws before the symbols of a block: in its kind, its length, its counts, its codes. */
  datatype HeadFlaw =
    | Reserved
    | NoComplement(pad: seq<bit>, len: nat, third: uint8, fourth: uint8)
    | TooManyCodes(h: Header)
    | IncompleteCode(h: Header)
    | NothingToRepeat(h: Header)
    | TooManyLengths(h: Header, op: Op)
    | UnfitCodes(h: Header)

  function HeadKind(f: HeadFlaw): nat {
    match f
    case Reserved => 3
    case NoComplement(_, _, _, _) => 0
    case _ => 2
  }

  /** Counts that are allowed, a code for the code lengths, and lengths sent with it. */
  predicate CountsOk(h: Header) {
    257 <= h.nlen <= MAXLCODES && 1 <= h.ndist <= MAXDCODES && 4 <= h.ncode <= 19
  }

  ghost predicate OpsSent(h: Header) {
    hide Kraft, Pow2, Sent;
    && CountsOk(h) && ClOk(h) && Kraft(h.cl) == Pow2(MAXBITS) && OpsOk(h.cl, [], h.ops)
  }

  ghost predicate CodesSent(h: Header) {
    OpsSent(h) && |ApplyOps(h.cl, [], h.ops)| == h.nlen + h.ndist
  }

  ghost predicate HeadFlawOk(f: HeadFlaw, start: nat) {
    match f
    case Reserved => true
    case NoComplement(pad, len, third, fourth) =>
      && |pad| == AlignUp(start) - start && len < 0x1_0000
      && !(third == 255 - len % 256 && fourth == 255 - len / 256)
    case TooManyCodes(h) =>
      257 <= h.nlen <= 288 && 1 <= h.ndist <= 32 && 4 <= h.ncode <= 19 && (h.nlen > MAXLCODES || h.ndist > MAXDCODES)
    case IncompleteCode(h) => CountsOk(h) && ClOk(h) && HasSymbol(h.cl) && Kraft(h.cl) != Pow2(MAXBITS)
    case NothingToRepeat(h) => OpsSent(h) && h.ops == [] && HasCode(h.cl, 16)
    case TooManyLengths(h, op) =>
      && OpsSent(h) && |ApplyOps(h.cl, [], h.ops)| < h.nlen + h.ndist && OpOk(h.cl, ApplyOps(h.cl, [], h.ops), op)
      && |ApplyOp(h.cl, ApplyOps(h.cl, [], h.ops), op)| > h.nlen + h.ndist
    case UnfitCodes(h) => CodesSent(h) && !(Acceptable(LitOf(h)) && Acceptable(DistOf(h)))
  }

  ghost function HeadCode(f: HeadFlaw): int
    requires f.UnfitCodes? ==> CodesSent(f.h)
  {
    match f
    case Reserved => -1
    case NoComplement(_, _, _, _) => -2
    case TooManyCodes(_) => -3
    case IncompleteCode(_) => -4
    case NothingToRepeat(_) => -5
    case TooManyLengths(_, _) => -6
    case UnfitCodes(h) => if Acceptable(LitOf(h)) then -8 else -7
  }

  ghost function SentBits(h: Header): seq<bit>
    requires OpsSent(h)
  {
    CountBits(h) + ClBits(h.cl, h.ncode) + OpsBits(h.cl, [], h.ops)
  }

  /** The bits of the block, up to where the flaw is seen. */
  ghost function HeadFlawBits(f: HeadFlaw, start: nat): seq<bit>
    requires HeadFlawOk(f, start)
  {
    match f
    case Reserved => []
    case NoComplement(pad, len, third, fourth) => pad + StreamOf([len % 256, len / 256, third, fourth])
    case TooManyCodes(h) => CountBits(h)
    case IncompleteCode(h) => CountBits(h) + ClBits(h.cl, h.ncode)
    case NothingToRepeat(h) => SentBits(h) + Encode(h.cl, 16)
    case TooManyLengths(h, op) => SentBits(h) + OpBits(h.cl, ApplyOps(h.cl, [], h.ops), op)
    case UnfitCodes(h) => SentBits(h)
  }

  /** How many bits were taken: a wrong third byte of a stored block is seen before the fourth. */
  ghost function HeadFlawEnd(f: HeadFlaw, start: nat): nat
    requires HeadFlawOk(f, start)
  {
    var n := |HeadFlawBits(f, start)|;
    if f.NoComplement? && f.third != 255 - f.len % 256 then start + n - 8 else start + n
  }

  /** Flaws among the symbols: bits that are no code, symbols without a meaning, a reference to before the start. */
  datatype BodyFlaw =
    | NoCode(bits: seq<bit>)
    | NoMeaning(symbol: nat)
    | NoDistance(ls: nat, lx: nat, bits: seq<bit>)
    | TooFar(it: Item)

  ghost predicate BodyFlawOk(f: BodyFlaw, ll: seq<nat>, dl: seq<nat>, out: seq<uint8>) {
    match f
    case NoCode(bits) => |bits| == MAXBITS && SymbolAt(ll, bits, 0) == Invalid
    case NoMeaning(symbol) => symbol >= 286 && HasCode(ll, symbol)
    case NoDistance(ls, lx, bits) =>
      && ls < 29 && lx < Pow2(LengthBits(ls)) && HasCode(ll, 257 + ls)
      && |bits| == MAXBITS && SymbolAt(dl, bits, 0) == Invalid
    case TooFar(it) => it.Ref? && ItemOk(ll, dl, it) && ItemDistance(it) > |out|
  }

  ghost function BodyFlawBits(f: BodyFlaw, ll: seq<nat>, dl: seq<nat>, out: seq<uint8>): seq<bit>
    requires BodyFlawOk(f, ll, dl, out)
  {
    match f
    case NoCode(bits) => bits
    case NoMeaning(symbol) => Encode(ll, symbol)
    case NoDistance(ls, lx, bits) => Encode(ll, 257 + ls) + LowBits(lx, LengthBits(ls)) + bits
    case TooFar(it) => ItemBits(ll, dl, it)
  }

  function BodyCode(f: BodyFlaw): int {
    if f.TooFar? then -10 else -9
  }

  // ---------------------------------------------------------------------------------------
  // What is reported
  // ---------------------------------------------------------------------------------------

  lemma StoredFlaw(bs: seq<bit>, start: nat, out: seq<uint8>, f: HeadFlaw)
    requires f.NoComplement? && HeadFlawOk(f, start) && At(bs, start, HeadFlawBits(f, start))
    ensures Stored(bs, start, out, Unlimited) == Failed(-2, HeadFlawEnd(f, start), out)
  {
    hide StreamOf, Field, AlignUp, BytesAt, At;
    var bytes: seq<uint8> := [f.len % 256, f.len / 256, f.third, f.fourth];
    AtSplit(bs, start, f.pad, StreamOf(bytes));
    FirstBytes(bs, AlignUp(start), bytes);
    assert |StreamOf(bytes)| == 32;
  }

  lemma CountsFlaw(bs: seq<bit>, start: nat, out: seq<uint8>, h: Header)
    requires HeadFlawOk(TooManyCodes(h), start) && At(bs, start, CountBits(h))
    ensures Dynamic(bs, start, out, Unlimited) == Failed(-3, start + 14, out)
  {
    hide Field, CountBits, CodedBlock, CodeLengthLengths;
    CountsRead(h, bs, start);
  }

  lemma CodeFlaw(bs: seq<bit>, start: nat, out: seq<uint8>, h: Header)
    requires HeadFlawOk(IncompleteCode(h), start) && At(bs, start, CountBits(h) + ClBits(h.cl, h.ncode))
    ensures Dynamic(bs, start, out, Unlimited) == Failed(-4, start + 14 + 3 * h.ncode, out)
  {
    hide Dynamic, CountBits, ClBits, Kraft, Pow2, HasSymbol, Sent;
    DynamicRead(start, out, h, bs);
  }

  /** What comes after the lengths: the codes are looked at, and the symbols read. */
  ghost function AfterLengths(r: LengthsResult, h: Header, bs: seq<bit>, out: seq<uint8>): Result
    requires r.Lengths? ==> r.next <= |bs| && |r.lengths| == h.nlen + h.ndist
    requires h.ndist <= MAXDCODES
  {
    match r
    case ShortLengths => NeedInput
    case BadLengths(code, at) => Failed(code, at, out)
    case Lengths(lengths, next) =>
      var lit, dist := lengths[..h.nlen], lengths[h.nlen..];
      if !Acceptable(lit) then Failed(-7, next, out)
      else if !Acceptable(dist) then Failed(-8, next, out)
      else Symbols(lit, dist, bs, next, out, Unlimited)
  }

  lemma GoodCl(h: Header)
    requires ClOk(h) && Kraft(h.cl) == Pow2(MAXBITS)
    ensures |h.cl| == 19 && h.ncode <= 19 && GoodCode(h.cl) && HasSymbol(h.cl) && ValidLengths([])
  {
    hide Kraft, Pow2;
    CompleteHasSymbol(h.cl);
  }

  lemma AtBounds(bs: seq<bit>, p: nat, w: seq<bit>)
    requires At(bs, p, w)
    ensures p + |w| <= |bs|
  {
  }

  lemma HeadSent(bs: seq<bit>, start: nat, out: seq<uint8>, h: Header)
    requires OpsSent(h) && At(bs, start, CountBits(h) + ClBits(h.cl, h.ncode))
    ensures start + 14 + 3 * h.ncode <= |bs|
    ensures Dynamic(bs, start, out, Unlimited) ==
      CodedBlock(h.cl, h.nlen, h.ndist, bs, start + 14 + 3 * h.ncode, out, Unlimited)
  {
    hide Dynamic, CodedBlock, CountBits, ClBits, Kraft, Pow2, HasSymbol, Sent, OpsOk, At, ClOk, GoodCode, ValidLengths;
    GoodCl(h);
    DynamicRead(start, out, h, bs);
  }

  lemma CodedIs(h: Header, bs: seq<bit>, p: nat, out: seq<uint8>)
    requires p <= |bs| && h.ndist <= MAXDCODES
    ensures CodedBlock(h.cl, h.nlen, h.ndist, bs, p, out, Unlimited) ==
      AfterLengths(LengthsFrom(h.cl, bs, p, h.nlen + h.ndist, []), h, bs, out)
  {
    hide LengthsFrom, Acceptable, Symbols;
  }

  lemma CodedSent(bs: seq<bit>, p: nat, out: seq<uint8>, h: Header)
    requires OpsSent(h) && |ApplyOps(h.cl, [], h.ops)| <= h.nlen + h.ndist && At(bs, p, OpsBits(h.cl, [], h.ops))
    ensures
      var q := p + |OpsBits(h.cl, [], h.ops)|;
      && q <= |bs| && GoodCode(h.cl) && ValidLengths(ApplyOps(h.cl, [], h.ops))
      && CodedBlock(h.cl, h.nlen, h.ndist, bs, p, out, Unlimited) ==
         AfterLengths(LengthsFrom(h.cl, bs, q, h.nlen + h.ndist, ApplyOps(h.cl, [], h.ops)), h, bs, out)
  {
    hide OpsBits, Kraft, Pow2, HasSymbol, Sent, ApplyOps, OpsOk, LengthsFrom, At, ClOk, GoodCode, ValidLengths,
      CodedBlock, AfterLengths;
    GoodCl(h);
    AtBounds(bs, p, OpsBits(h.cl, [], h.ops));
    CodedIs(h, bs, p, out);
    LengthsOfOps(h.cl, [], h.ops, h.nlen + h.ndist, bs, p);
  }

  lemma SentSplit(bs: seq<bit>, start: nat, h: Header)
    requires OpsSent(h) && At(bs, start, SentBits(h))
    ensures CountsOk(h) && |h.cl| == 19 && h.ndist <= MAXDCODES && OpsOk(h.cl, [], h.ops)
    ensures h.ncode <= 19 && 257 <= h.nlen && 1 <= h.ndist && 4 <= h.ncode
    ensures At(bs, start, CountBits(h) + ClBits(h.cl, h.ncode))
    ensures At(bs, start + 14 + 3 * h.ncode, OpsBits(h.cl, [], h.ops))
    ensures |SentBits(h)| == 14 + 3 * h.ncode + |OpsBits(h.cl, [], h.ops)|
  {
    hide Kraft, Pow2, Sent, OpsOk, At, CountBits, ClBits, OpsBits;
    AtSplit(bs, start, CountBits(h) + ClBits(h.cl, h.ncode), OpsBits(h.cl, [], h.ops));
  }

  /** Reading on after the lengths that were sent. */
  lemma SentRead(bs: seq<bit>, start: nat, out: seq<uint8>, h: Header)
    requires OpsSent(h) && |ApplyOps(h.cl, [], h.ops)| <= h.nlen + h.ndist
    requires At(bs, start, SentBits(h))
    ensures
      var q := start + |SentBits(h)|;
      && q <= |bs| && GoodCode(h.cl) && ValidLengths(ApplyOps(h.cl, [], h.ops))
      && Dynamic(bs, start, out, Unlimited) ==
         AfterLengths(LengthsFrom(h.cl, bs, q, h.nlen + h.ndist, ApplyOps(h.cl, [], h.ops)), h, bs, out)
  {
    hide *;
    SentSplit(bs, start, h);
    HeadSent(bs, start, out, h);
    CodedSent(bs, start + 14 + 3 * h.ncode, out, h);
  }

  lemma RepeatFlaw(bs: seq<bit>, start: nat, out: seq<uint8>, h: Header)
    requires HeadFlawOk(NothingToRepeat(h), start) && At(bs, start, SentBits(h) + Encode(h.cl, 16))
    ensures Dynamic(bs, start, out, Unlimited) == Failed(-5, start + |SentBits(h) + Encode(h.cl, 16)|, out)
  {
    hide Dynamic, SentBits, Kraft, Pow2, Sent, Encode, SymbolAt, Symbols, Acceptable, GoodCode;
    AtSplit(bs, start, SentBits(h), Encode(h.cl, 16));
    SentRead(bs, start, out, h);
    SymbolAtCode(h.cl, 16, bs, start + |SentBits(h)|);
  }

  lemma LengthsFlaw(bs: seq<bit>, start: nat, out: seq<uint8>, h: Header, op: Op)
    requires HeadFlawOk(TooManyLengths(h, op), start)
    requires At(bs, start, SentBits(h) + OpBits(h.cl, ApplyOps(h.cl, [], h.ops), op))
    ensures Dynamic(bs, start, out, Unlimited) ==
      Failed(-6, start + |SentBits(h) + OpBits(h.cl, ApplyOps(h.cl, [], h.ops), op)|, out)
  {
    hide Dynamic, SentBits, Kraft, Pow2, Sent, OpBits, ApplyOps, OpsOk, Symbols, Acceptable, GoodCode, LengthsFrom,
      ApplyOp, OpOk;
    var acc := ApplyOps(h.cl, [], h.ops);
    AtSplit(bs, start, SentBits(h), OpBits(h.cl, acc, op));
    SentRead(bs, start, out, h);
    TooMany(h.cl, acc, op, h.nlen + h.ndist, bs, start + |SentBits(h)|);
  }

  lemma TooMany(cl: seq<nat>, acc: seq<nat>, op: Op, total: nat, bs: seq<bit>, p: nat)
    requires GoodCode(cl) && |cl| == 19 && ValidLengths(acc) && OpOk(cl, acc, op) && At(bs, p, OpBits(cl, acc, op))
    requires |acc| < total < |ApplyOp(cl, acc, op)|
    ensures LengthsFrom(cl, bs, p, total, acc) == BadLengths(-6, p + |OpBits(cl, acc, op)|)
  {
    hide SymbolAt, Field, GoodCode, Pow2, Encode, LowBits, At;
    Pow2Small();
    match op
    case Again(n) => RunFlaw(cl, acc, 16, acc[|acc| - 1], 3, 2, n, total, bs, p);
    case Zeros(n) => RunFlaw(cl, acc, 17, 0, 3, 3, n, total, bs, p);
    case ManyZeros(n) => RunFlaw(cl, acc, 18, 0, 11, 7, n, total, bs, p);
    case _ =>
  }

  lemma RunFlaw(cl: seq<nat>, acc: seq<nat>, s: nat, x: nat, base: nat, extra: nat, n: nat, total: nat, bs: seq<bit>,
                p: nat)
    requires GoodCode(cl) && HasCode(cl, s) && ValidLengths(acc) && x <= MAXBITS && extra > 0
    requires base <= n < base + Pow2(extra) && |acc| <= total < |acc| + n
    requires At(bs, p, Encode(cl, s) + LowBits(n - base, extra))
    ensures SymbolAt(cl, bs, p) == Symbol(s, p + cl[s]) && p + cl[s] + extra <= |bs|
    ensures RunAt(cl, bs, p + cl[s], total, acc, x, base, extra) == BadLengths(-6, p + cl[s] + extra)
  {
    hide SymbolAt, Field, GoodCode, Pow2, Encode, LowBits;
    AtSplit(bs, p, Encode(cl, s), LowBits(n - base, extra));
    SymbolAtCode(cl, s, bs, p);
    FieldAt(bs, p + cl[s], n - base, extra);
  }

  lemma CodesFlaw(bs: seq<bit>, start: nat, out: seq<uint8>, h: Header)
    requires HeadFlawOk(UnfitCodes(h), start) && At(bs, start, SentBits(h))
    ensures Dynamic(bs, start, out, Unlimited) == Failed(HeadCode(UnfitCodes(h)), start + |SentBits(h)|, out)
  {
    hide Dynamic, SentBits, Kraft, Pow2, Sent, ApplyOps, OpsOk, Symbols, Acceptable, GoodCode, LengthsFrom;
    SentRead(bs, start, out, h);
    LengthsEnd(h.cl, ApplyOps(h.cl, [], h.ops), bs, start + |SentBits(h)|);
  }

  lemma HeadFlawRead(bs: seq<bit>, start: nat, out: seq<uint8>, f: HeadFlaw)
    requires HeadFlawOk(f, start) && At(bs, start, HeadFlawBits(f, start))
    ensures Block(HeadKind(f), bs, start, out, Unlimited) == Failed(HeadCode(f), HeadFlawEnd(f, start), out)
  {
    hide Stored, Dynamic, OpsSent, CodesSent, SentBits, Kraft, Pow2, HasSymbol, ClOk, Acceptable, ApplyOps, ApplyOp,
      OpOk, OpBits, Encode, StreamOf, CountBits, ClBits, At;
    match f
    case Reserved =>
    case NoComplement(_, _, _, _) => StoredFlaw(bs, start, out, f);
    case TooManyCodes(h) => CountsFlaw(bs, start, out, h);
    case IncompleteCode(h) => CodeFlaw(bs, start, out, h);
    case NothingToRepeat(h) => RepeatFlaw(bs, start, out, h);
    case TooManyLengths(h, op) => LengthsFlaw(bs, start, out, h, op);
    case UnfitCodes(h) => CodesFlaw(bs, start, out, h);
  }

  lemma InvalidAt(lengths: seq<nat>, bits: seq<bit>, bs: seq<bit>, p: nat)
    requires ValidLengths(lengths) && |bits| == MAXBITS && SymbolAt(lengths, bits, 0) == Invalid && At(bs, p, bits)
    ensures SymbolAt(lengths, bs, p) == Invalid
  {
    hide Code, CodeValue;
    forall s: nat | Matches(lengths, bs, p, s)
      ensures Matches(lengths, bits, 0, s)
    {
      var n := lengths[s];
      assert bs[p..p + n] == bs[p..p + MAXBITS][..n] == bits[0..0 + n];
    }
  }

  lemma BodyFlawRead(ll: seq<nat>, dl: seq<nat>, bs: seq<bit>, p: nat, out: seq<uint8>, f: BodyFlaw)
    requires GoodCode(ll) && GoodCode(dl) && |dl| <= MAXDCODES
    requires BodyFlawOk(f, ll, dl, out) && At(bs, p, BodyFlawBits(f, ll, dl, out))
    ensures Symbols(ll, dl, bs, p, out, Unlimited) == Failed(BodyCode(f), p + |BodyFlawBits(f, ll, dl, out)|, out)
  {
    hide TokenAt, SymbolAt, Kraft, Pow2, Encode, LowBits, ItemBits, LengthBits, DistanceBits, CopyBack, At;
    BadTokenAt(ll, dl, bs, p, out, f);
  }

  lemma BadTokenAt(ll: seq<nat>, dl: seq<nat>, bs: seq<bit>, p: nat, out: seq<uint8>, f: BodyFlaw)
    requires GoodCode(ll) && GoodCode(dl) && |dl| <= MAXDCODES
    requires BodyFlawOk(f, ll, dl, out) && At(bs, p, BodyFlawBits(f, ll, dl, out))
    ensures
      var q := p + |BodyFlawBits(f, ll, dl, out)|;
      && p <= |bs|
      && TokenAt(ll, dl, bs, p) ==
         if f.TooFar? then Copy(ItemLength(f.it), ItemDistance(f.it), q) else BadToken(q)
  {
    hide GoodCode, TokenAt, SymbolAt, Pow2, Encode, LowBits, ItemBits, LengthBits, ItemLength, ItemDistance, ItemOk, At;
    AtBounds(bs, p, BodyFlawBits(f, ll, dl, out));
    match f
    case NoCode(bits) => NoCodeAt(ll, dl, bs, p, bits);
    case NoMeaning(symbol) => NoMeaningAt(ll, dl, bs, p, symbol);
    case NoDistance(ls, lx, bits) => BadDistanceAt(ll, dl, bs, p, ls, lx, bits);
    case TooFar(it) => TokenAtItem(ll, dl, it, bs, p);
  }

  lemma NoCodeAt(ll: seq<nat>, dl: seq<nat>, bs: seq<bit>, p: nat, bits: seq<bit>)
    requires GoodCode(ll) && |dl| <= MAXDCODES && p <= |bs|
    requires |bits| == MAXBITS && SymbolAt(ll, bits, 0) == Invalid && At(bs, p, bits)
    ensures TokenAt(ll, dl, bs, p) == BadToken(p + |bits|)
  {
    hide SymbolAt, Field, DistanceAt, Kraft, Pow2, At;
    InvalidAt(ll, bits, bs, p);
  }

  lemma NoMeaningAt(ll: seq<nat>, dl: seq<nat>, bs: seq<bit>, p: nat, symbol: nat)
    requires GoodCode(ll) && |dl| <= MAXDCODES && p <= |bs|
    requires symbol >= 286 && HasCode(ll, symbol) && At(bs, p, Encode(ll, symbol))
    ensures TokenAt(ll, dl, bs, p) == BadToken(p + |Encode(ll, symbol)|)
  {
    hide SymbolAt, Field, DistanceAt, GoodCode, Pow2, At, Code;
    SymbolAtCode(ll, symbol, bs, p);
  }

  lemma BadDistanceAt(ll: seq<nat>, dl: seq<nat>, bs: seq<bit>, p: nat, ls: nat, lx: nat, bits: seq<bit>)
    requires GoodCode(ll) && GoodCode(dl) && |dl| <= MAXDCODES
    requires ls < 29 && lx < Pow2(LengthBits(ls)) && HasCode(ll, 257 + ls)
    requires |bits| == MAXBITS && SymbolAt(dl, bits, 0) == Invalid
    requires At(bs, p, Encode(ll, 257 + ls) + LowBits(lx, LengthBits(ls)) + bits)
    ensures p <= |bs|
    ensures TokenAt(ll, dl, bs, p) == BadToken(p + |Encode(ll, 257 + ls) + LowBits(lx, LengthBits(ls)) + bits|)
  {
    hide SymbolAt, Field, Kraft, Pow2, Encode, LowBits, LengthBits, LengthBase, LengthExtra, FirstLength;
    var a, b := Encode(ll, 257 + ls), LowBits(lx, LengthBits(ls));
    LengthTable(ls);
    AtSplit(bs, p, a + b, bits);
    AtSplit(bs, p, a, b);
    SymbolAtCode(ll, 257 + ls, bs, p);
    FieldAt(bs, p + ll[257 + ls], lx, LengthBits(ls));
    InvalidAt(dl, bits, bs, p + ll[257 + ls] + LengthBits(ls));
  }

  /** The head of a block, whether it is the last one, and its kind. */
  function KindBits(last: bit, kind: nat): (r: seq<bit>)
    ensures |r| == 3
  {
    [last] + LowBits(kind, 2)
  }

  lemma KindRead(bs: seq<bit>, p: nat, last: bit, kind: nat, out: seq<uint8>)
    requires kind < 4 && At(bs, p, KindBits(last, kind))
    ensures p + 3 <= |bs|
    ensures
      var r := Block(kind, bs, p + 3, out, Unlimited);
      r.Failed? ==> Blocks(bs, p, out, Unlimited) == r
  {
    hide Field, LowBits, Block;
    Pow2Small();
    AtSplit(bs, p, [last], LowBits(kind, 2));
    FieldAt(bs, p + 1, kind, 2);
  }

  /** After any good blocks, a flaw before the symbols of a block is reported for what it is. */
  lemma HeadFlawReported(input: seq<uint8>, blocks: seq<Blk>, last: bit, f: HeadFlaw)
    requires StreamOk(0, [], blocks)
    requires
      var start := |StreamBits(0, [], blocks, true)| + 3;
      && HeadFlawOk(f, start)
      && StreamBits(0, [], blocks, true) + (KindBits(last, HeadKind(f)) + HeadFlawBits(f, start)) <= StreamOf(input)
    ensures
      var start := |StreamBits(0, [], blocks, true)| + 3;
      Inflate(input, Unlimited) == Failed(HeadCode(f), HeadFlawEnd(f, start), StreamOut(0, [], blocks))
  {
    hide StreamOf, StreamBits, StreamOk, StreamOut, Blocks, Block, HeadFlawOk, HeadFlawBits, HeadFlawEnd, HeadCode,
      KindBits;
    var bs, w := StreamOf(input), StreamBits(0, [], blocks, true);
    var out := StreamOut(0, [], blocks);
    var head, bits := KindBits(last, HeadKind(f)), HeadFlawBits(f, |w| + 3);
    assert At(bs, 0, w + (head + bits));
    AtSplit(bs, 0, w, head + bits);
    AtSplit(bs, |w|, head, bits);
    BlocksOfStream(0, [], blocks, true, bs);
    KindRead(bs, |w|, last, HeadKind(f), out);
    HeadFlawRead(bs, |w| + 3, out, f);
  }

  /** A block that is good up to a flaw among its symbols. */
  ghost predicate FlawedOk(c: Coding, items: seq<Item>, f: BodyFlaw, out: seq<uint8>) {
    && CodingOk(c) && ItemsOk(LitCode(c), DistCode(c), out, items)
    && BodyFlawOk(f, LitCode(c), DistCode(c), OutBefore(c, items, out))
  }

  /** What the items before the flaw put out. */
  ghost function OutBefore(c: Coding, items: seq<Item>, out: seq<uint8>): seq<uint8>
    requires CodingOk(c) && ItemsOk(LitCode(c), DistCode(c), out, items)
  {
    ApplyAll(LitCode(c), DistCode(c), out, items)
  }

  ghost function FlawedBody(c: Coding, items: seq<Item>, f: BodyFlaw, out: seq<uint8>): seq<bit>
    requires FlawedOk(c, items, f, out)
  {
    hide CodingOk, LitCode, DistCode, ItemsOk, ApplyAll, BodyFlawOk, ItemsBits, BodyFlawBits, CodingBits;
    var ll, dl := LitCode(c), DistCode(c);
    CodingBits(c) + (ItemsBits(ll, dl, out, items) + BodyFlawBits(f, ll, dl, OutBefore(c, items, out)))
  }

  lemma FlawedBodyRead(bs: seq<bit>, p: nat, out: seq<uint8>, c: Coding, items: seq<Item>, f: BodyFlaw)
    requires FlawedOk(c, items, f, out) && At(bs, p, FlawedBody(c, items, f, out))
    ensures Block(CodingKind(c), bs, p, out, Unlimited) ==
      Failed(BodyCode(f), p + |FlawedBody(c, items, f, out)|, OutBefore(c, items, out))
  {
    hide Block, Symbols, CodingOk, CodingBits, LitCode, DistCode, ItemsOk, ItemsBits, ApplyAll, BodyFlawOk,
      BodyFlawBits, GoodCode, At, CodingKind;
    var ll, dl := LitCode(c), DistCode(c);
    var out' := ApplyAll(ll, dl, out, items);
    var a, b, d := CodingBits(c), ItemsBits(ll, dl, out, items), BodyFlawBits(f, ll, dl, out');
    AtSplit(bs, p, a, b + d);
    AtSplit(bs, p + |a|, b, d);
    CodingRead(c, bs, p, out);
    SymbolsOfItems(ll, dl, out, items, bs, p + |a|);
    BodyFlawRead(ll, dl, bs, p + |a| + |b|, out', f);
  }

  /** And so is a flaw among the symbols, after any good blocks and items. */
  lemma BodyFlawReported(input: seq<uint8>, blocks: seq<Blk>, last: bit, c: Coding, items: seq<Item>, f: BodyFlaw)
    requires StreamOk(0, [], blocks)
    requires
      var w, out := StreamBits(0, [], blocks, true), StreamOut(0, [], blocks);
      && FlawedOk(c, items, f, out)
      && w + (KindBits(last, CodingKind(c)) + FlawedBody(c, items, f, out)) <= StreamOf(input)
    ensures
      var w, out := StreamBits(0, [], blocks, true), StreamOut(0, [], blocks);
      Inflate(input, Unlimited) ==
        Failed(BodyCode(f), |w| + 3 + |FlawedBody(c, items, f, out)|, OutBefore(c, items, out))
  {
    hide StreamOf, StreamBits, StreamOk, StreamOut, Blocks, Block, CodingOk, LitCode, DistCode, ItemsOk, ApplyAll,
      BodyFlawOk, FlawedBody, KindBits, OutBefore;
    var bs, w, out := StreamOf(input), StreamBits(0, [], blocks, true), StreamOut(0, [], blocks);
    var head, bits := KindBits(last, CodingKind(c)), FlawedBody(c, items, f, out);
    assert At(bs, 0, w + (head + bits));
    AtSplit(bs, 0, w, head + bits);
    AtSplit(bs, |w|, head, bits);
    BlocksOfStream(0, [], blocks, true, bs);
    KindRead(bs, |w|, last, CodingKind(c), out);
    FlawedBodyRead(bs, |w| + 3, out, c, items, f);
  }
}
