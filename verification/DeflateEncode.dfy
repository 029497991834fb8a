/**
  A deflate encoder for the whole format, and the theorem that inflating what it writes gives
  back the data. The encoder leaves every choice that the format leaves to a compressor
  open: how data is split into blocks, which codes a block uses and how their lengths are
  run-length coded, and which literals and back-references stand for the data.
 */
module DeflateEncode {
  import opened Basics
  import opened BitStream
  import opened DeflateTables
  import opened Huffman
  import opened InflateFormat

  lemma FieldAt(bs: seq<bit>, p: nat, x: nat, n: nat)
    requires x < Pow2(n) && At(bs, p, LowBits(x, n))
    ensures Field(bs, p, n) == x
  {
    ValueOfLowBits(x, n);
  }

  ghost predicate GoodCode(lengths: seq<nat>) {
    ValidLengths(lengths) && Kraft(lengths) <= Pow2(MAXBITS)
  }

  predicate HasCode(lengths: seq<nat>, s: nat) {
    s < |lengths| && lengths[s] > 0
  }

  lemma SymbolAtCode(lengths: seq<nat>, s: nat, bs: seq<bit>, p: nat)
    requires GoodCode(lengths) && HasCode(lengths, s) && At(bs, p, Encode(lengths, s))
    ensures SymbolAt(lengths, bs, p) == Symbol(s, p + lengths[s])
  {
    hide Code, Kraft, Pow2;
    CodeFits(lengths, s);
    CodeStringValue(Code(lengths, s), lengths[s]);
    SymbolAtMatch(lengths, bs, p, s);
  }

  // ---------------------------------------------------------------------------------------
  // Literals and back-references
  // ---------------------------------------------------------------------------------------

  /** A literal, or a back-reference given by its two symbols and the numbers that refine them. */
  datatype Item = Lit(b: uint8) | Ref(ls: nat, lx: nat, ds: nat, dx: nat)

  ghost predicate ItemOk(ll: seq<nat>, dl: seq<nat>, it: Item) {
    match it
    case Lit(b) => HasCode(ll, b)
    case Ref(ls, lx, ds, dx) =>
      && ls < 29 && lx < Pow2(LengthBits(ls)) && HasCode(ll, 257 + ls)
      && ds < 30 && dx < Pow2(DistanceBits(ds)) && HasCode(dl, ds)
  }

  function ItemLength(it: Item): nat
    requires it.Ref? && it.ls < 29
  {
    FirstLength(it.ls) + it.lx
  }

  function ItemDistance(it: Item): (d: nat)
    requires it.Ref? && it.ds < 30
    ensures d > 0
  {
    FirstDistance(it.ds) + it.dx
  }

  /** Any length from 3 to 258 and any distance up to 32768 can be referred to. */
  lemma ItemFor(len: nat, dist: nat) returns (it: Item)
    requires 3 <= len <= 258 && 1 <= dist <= 32768
    ensures it.Ref? && it.ls < 29 && it.lx < Pow2(LengthBits(it.ls)) && ItemLength(it) == len
    ensures it.ds < 30 && it.dx < Pow2(DistanceBits(it.ds)) && ItemDistance(it) == dist
  {
    var ls, lx := LengthCoded(len);
    var ds, dx := DistanceCoded(dist);
    it := Ref(ls, lx, ds, dx);
  }

  ghost function ItemBits(ll: seq<nat>, dl: seq<nat>, it: Item): seq<bit>
    requires ItemOk(ll, dl, it)
  {
    match it
    case Lit(b) => Encode(ll, b)
    case Ref(ls, lx, ds, dx) =>
      (Encode(ll, 257 + ls) + LowBits(lx, LengthBits(ls))) + (Encode(dl, ds) + LowBits(dx, DistanceBits(ds)))
  }

  lemma DistanceAtBits(len: nat, dl: seq<nat>, it: Item, bs: seq<bit>, p: nat)
    requires GoodCode(dl) && |dl| <= MAXDCODES && it.Ref? && len > 0
    requires it.ds < 30 && it.dx < Pow2(DistanceBits(it.ds)) && HasCode(dl, it.ds)
    requires At(bs, p, Encode(dl, it.ds) + LowBits(it.dx, DistanceBits(it.ds)))
    ensures DistanceAt(len, dl, bs, p) == Copy(len, ItemDistance(it), p + dl[it.ds] + DistanceBits(it.ds))
  {
    hide SymbolAt, Field, GoodCode, Pow2, FirstDistance, DistanceBits, DistBase, DistExtra, Encode, LowBits;
    DistanceTable(it.ds);
    AtSplit(bs, p, Encode(dl, it.ds), LowBits(it.dx, DistanceBits(it.ds)));
    SymbolAtCode(dl, it.ds, bs, p);
    FieldAt(bs, p + dl[it.ds], it.dx, DistanceBits(it.ds));
  }

  lemma TokenAtItem(ll: seq<nat>, dl: seq<nat>, it: Item, bs: seq<bit>, p: nat)
    requires GoodCode(ll) && GoodCode(dl) && |dl| <= MAXDCODES
    requires ItemOk(ll, dl, it) && At(bs, p, ItemBits(ll, dl, it))
    ensures TokenAt(ll, dl, bs, p) ==
      var q := p + |ItemBits(ll, dl, it)|;
      if it.Lit? then Literal(it.b, q) else Copy(ItemLength(it), ItemDistance(it), q)
  {
    hide SymbolAt, Field, GoodCode, Pow2, DistanceAt, FirstLength, LengthBits, FirstDistance, DistanceBits, LengthBase,
      LengthExtra, Encode, LowBits;
    match it
    case Lit(b) =>
      SymbolAtCode(ll, b, bs, p);
    case Ref(ls, lx, ds, dx) =>
      var a, b := Encode(ll, 257 + ls), LowBits(lx, LengthBits(ls));
      var c := Encode(dl, ds) + LowBits(dx, DistanceBits(ds));
      LengthTable(ls);
      AtSplit(bs, p, a + b, c);
      AtSplit(bs, p, a, b);
      SymbolAtCode(ll, 257 + ls, bs, p);
      FieldAt(bs, p + ll[257 + ls], lx, LengthBits(ls));
      DistanceAtBits(ItemLength(it), dl, it, bs, p + ll[257 + ls] + LengthBits(ls));
  }

  /** What an item adds to the output. */
  ghost function Apply(out: seq<uint8>, it: Item): seq<uint8>
    requires it.Ref? ==> it.ls < 29 && it.ds < 30 && ItemDistance(it) <= |out|
  {
    if it.Lit? then out + [it.b] else CopyBack(out, ItemLength(it), ItemDistance(it))
  }

  /** Every item has codes, and no back-reference reaches before the start of the output. */
  ghost predicate ItemsOk(ll: seq<nat>, dl: seq<nat>, out: seq<uint8>, items: seq<Item>)
    decreases items
  {
    items == [] ||
    (&& ItemOk(ll, dl, items[0])
     && (items[0].Ref? ==> ItemDistance(items[0]) <= |out|)
     && ItemsOk(ll, dl, Apply(out, items[0]), items[1..]))
  }

  ghost function ApplyAll(ll: seq<nat>, dl: seq<nat>, out: seq<uint8>, items: seq<Item>): seq<uint8>
    requires ItemsOk(ll, dl, out, items)
    decreases items
  {
    if items == [] then out else ApplyAll(ll, dl, Apply(out, items[0]), items[1..])
  }

  ghost function ItemsBits(ll: seq<nat>, dl: seq<nat>, out: seq<uint8>, items: seq<Item>): seq<bit>
    requires ItemsOk(ll, dl, out, items)
    decreases items
  {
    if items == [] then []
    else ItemBits(ll, dl, items[0]) + ItemsBits(ll, dl, Apply(out, items[0]), items[1..])
  }

  /** The items, then the end-of-block symbol. */
  ghost function BodyBits(ll: seq<nat>, dl: seq<nat>, out: seq<uint8>, items: seq<Item>): seq<bit>
    requires HasCode(ll, 256) && ItemsOk(ll, dl, out, items)
  {
    ItemsBits(ll, dl, out, items) + Encode(ll, 256)
  }

  lemma SymbolsOfItem(ll: seq<nat>, dl: seq<nat>, out: seq<uint8>, it: Item, bs: seq<bit>, p: nat)
    requires GoodCode(ll) && GoodCode(dl) && |dl| <= MAXDCODES
    requires ItemOk(ll, dl, it) && (it.Ref? ==> ItemDistance(it) <= |out|)
    requires At(bs, p, ItemBits(ll, dl, it))
    ensures Symbols(ll, dl, bs, p, out, Unlimited) ==
            Symbols(ll, dl, bs, p + |ItemBits(ll, dl, it)|, Apply(out, it), Unlimited)
  {
    hide TokenAt, GoodCode, Pow2, ItemBits, CopyBack, LengthBits, DistanceBits;
    TokenAtItem(ll, dl, it, bs, p);
  }

  lemma SymbolsOfEnd(ll: seq<nat>, dl: seq<nat>, out: seq<uint8>, bs: seq<bit>, p: nat)
    requires GoodCode(ll) && |dl| <= MAXDCODES && HasCode(ll, 256) && At(bs, p, Encode(ll, 256))
    ensures Symbols(ll, dl, bs, p, out, Unlimited) == Done(p + |Encode(ll, 256)|, out)
  {
    hide GoodCode, Encode, SymbolAt, Field, CopyBack;
    SymbolAtCode(ll, 256, bs, p);
  }

  lemma NoItems(ll: seq<nat>, dl: seq<nat>, out: seq<uint8>)
    ensures ItemsOk(ll, dl, out, []) && ItemsBits(ll, dl, out, []) == [] && ApplyAll(ll, dl, out, []) == out
  {
  }

  lemma ItemsUnfold(ll: seq<nat>, dl: seq<nat>, out: seq<uint8>, items: seq<Item>)
    requires items != [] && ItemsOk(ll, dl, out, items)
    ensures ItemOk(ll, dl, items[0])
    ensures items[0].Ref? ==> items[0].ls < 29 && items[0].ds < 30 && ItemDistance(items[0]) <= |out|
    ensures
      var next := Apply(out, items[0]);
      && ItemsOk(ll, dl, next, items[1..])
      && ItemsBits(ll, dl, out, items) == ItemBits(ll, dl, items[0]) + ItemsBits(ll, dl, next, items[1..])
      && ApplyAll(ll, dl, out, items) == ApplyAll(ll, dl, next, items[1..])
  {
    hide ItemBits, Pow2, CopyBack, LengthBits, DistanceBits;
  }

  /** Reading on after the items. */
  lemma {:induction false} SymbolsOfItems(ll: seq<nat>, dl: seq<nat>, out: seq<uint8>, items: seq<Item>, bs: seq<bit>,
                                          p: nat)
    requires GoodCode(ll) && GoodCode(dl) && |dl| <= MAXDCODES
    requires ItemsOk(ll, dl, out, items) && At(bs, p, ItemsBits(ll, dl, out, items))
    ensures Symbols(ll, dl, bs, p, out, Unlimited) ==
            Symbols(ll, dl, bs, p + |ItemsBits(ll, dl, out, items)|, ApplyAll(ll, dl, out, items), Unlimited)
    decreases items
  {
    hide Symbols, GoodCode, ItemBits, ItemOk, ItemsOk, ItemsBits, ApplyAll, Apply, ItemDistance, At;
    if items == [] {
      NoItems(ll, dl, out);
    } else {
      ItemsUnfold(ll, dl, out, items);
      var next := Apply(out, items[0]);
      AtSplit(bs, p, ItemBits(ll, dl, items[0]), ItemsBits(ll, dl, next, items[1..]));
      SymbolsOfItem(ll, dl, out, items[0], bs, p);
      SymbolsOfItems(ll, dl, next, items[1..], bs, p + |ItemBits(ll, dl, items[0])|);
    }
  }

  lemma SymbolsOfBody(ll: seq<nat>, dl: seq<nat>, out: seq<uint8>, items: seq<Item>, bs: seq<bit>, p: nat)
    requires GoodCode(ll) && GoodCode(dl) && |dl| <= MAXDCODES && HasCode(ll, 256)
    requires ItemsOk(ll, dl, out, items) && At(bs, p, BodyBits(ll, dl, out, items))
    ensures Symbols(ll, dl, bs, p, out, Unlimited) ==
            Done(p + |BodyBits(ll, dl, out, items)|, ApplyAll(ll, dl, out, items))
  {
    hide Symbols, GoodCode, ItemsBits, ItemsOk, ApplyAll, Encode;
    var w := ItemsBits(ll, dl, out, items);
    AtSplit(bs, p, w, Encode(ll, 256));
    SymbolsOfItems(ll, dl, out, items, bs, p);
    SymbolsOfEnd(ll, dl, ApplyAll(ll, dl, out, items), bs, p + |w|);
  }

  // ---------------------------------------------------------------------------------------
  // The code lengths of a dynamic block
  // ---------------------------------------------------------------------------------------

  /** One length; the last length again; a short or a long run of zeros. */
  datatype Op = One(x: nat) | Again(n: nat) | Zeros(n: nat) | ManyZeros(n: nat)

  function OpSymbol(op: Op): nat {
    match op
    case One(x) => x
    case Again(_) => 16
    case Zeros(_) => 17
    case ManyZeros(_) => 18
  }

  predicate OpOk(cl: seq<nat>, acc: seq<nat>, op: Op) {
    && HasCode(cl, OpSymbol(op))
    && match op
       case One(x) => x < 16
       case Again(n) => 3 <= n <= 6 && acc != []
       case Zeros(n) => 3 <= n <= 10
       case ManyZeros(n) => 11 <= n <= 138
  }

  function ApplyOp(cl: seq<nat>, acc: seq<nat>, op: Op): (r: seq<nat>)
    requires OpOk(cl, acc, op)
    ensures |acc| < |r|
  {
    match op
    case One(x) => acc + [x]
    case Again(n) => acc + Repeat(acc[|acc| - 1], n)
    case Zeros(n) => acc + Repeat(0, n)
    case ManyZeros(n) => acc + Repeat(0, n)
  }

  function OpBits(cl: seq<nat>, acc: seq<nat>, op: Op): seq<bit>
    requires OpOk(cl, acc, op)
  {
    match op
    case One(x) => Encode(cl, x)
    case Again(n) => Encode(cl, 16) + LowBits(n - 3, 2)
    case Zeros(n) => Encode(cl, 17) + LowBits(n - 3, 3)
    case ManyZeros(n) => Encode(cl, 18) + LowBits(n - 11, 7)
  }

  predicate OpsOk(cl: seq<nat>, acc: seq<nat>, ops: seq<Op>)
    decreases ops
  {
    ops == [] || (OpOk(cl, acc, ops[0]) && OpsOk(cl, ApplyOp(cl, acc, ops[0]), ops[1..]))
  }

  function ApplyOps(cl: seq<nat>, acc: seq<nat>, ops: seq<Op>): (r: seq<nat>)
    requires OpsOk(cl, acc, ops)
    ensures |acc| <= |r| && (ops != [] ==> |acc| < |r|)
    decreases ops
  {
    if ops == [] then acc else ApplyOps(cl, ApplyOp(cl, acc, ops[0]), ops[1..])
  }

  function OpsBits(cl: seq<nat>, acc: seq<nat>, ops: seq<Op>): seq<bit>
    requires OpsOk(cl, acc, ops)
    decreases ops
  {
    if ops == [] then [] else OpBits(cl, acc, ops[0]) + OpsBits(cl, ApplyOp(cl, acc, ops[0]), ops[1..])
  }

  lemma ApplyOpValid(cl: seq<nat>, acc: seq<nat>, op: Op)
    requires ValidLengths(acc) && OpOk(cl, acc, op)
    ensures ValidLengths(ApplyOp(cl, acc, op))
  {
  }

  lemma RunAtBits(cl: seq<nat>, acc: seq<nat>, s: nat, x: nat, base: nat, extra: nat, n: nat, total: nat, bs: seq<bit>,
                  p: nat)
    requires GoodCode(cl) && HasCode(cl, s) && ValidLengths(acc) && x <= MAXBITS && extra > 0
    requires base <= n < base + Pow2(extra) && |acc| + n <= total
    requires At(bs, p, Encode(cl, s) + LowBits(n - base, extra))
    ensures SymbolAt(cl, bs, p) == Symbol(s, p + cl[s])
    ensures p + cl[s] + extra <= |bs| && ValidLengths(acc + Repeat(x, n))
    ensures RunAt(cl, bs, p + cl[s], total, acc, x, base, extra) ==
            LengthsFrom(cl, bs, p + cl[s] + extra, total, acc + Repeat(x, n))
  {
    hide SymbolAt, Field, GoodCode, Pow2, Encode, LowBits;
    AtSplit(bs, p, Encode(cl, s), LowBits(n - base, extra));
    SymbolAtCode(cl, s, bs, p);
    FieldAt(bs, p + cl[s], n - base, extra);
  }

  lemma LengthsOfOp(cl: seq<nat>, acc: seq<nat>, op: Op, total: nat, bs: seq<bit>, p: nat)
    requires GoodCode(cl) && |cl| == 19 && ValidLengths(acc) && OpOk(cl, acc, op)
    requires |ApplyOp(cl, acc, op)| <= total
    requires At(bs, p, OpBits(cl, acc, op))
    ensures ValidLengths(ApplyOp(cl, acc, op))
    ensures LengthsFrom(cl, bs, p, total, acc) ==
            LengthsFrom(cl, bs, p + |OpBits(cl, acc, op)|, total, ApplyOp(cl, acc, op))
  {
    hide SymbolAt, Field, GoodCode, Pow2, Encode, LowBits, At;
    Pow2Small();
    ApplyOpValid(cl, acc, op);
    match op
    case One(x) => SymbolAtCode(cl, x, bs, p);
    case Again(n) => RunAtBits(cl, acc, 16, acc[|acc| - 1], 3, 2, n, total, bs, p);
    case Zeros(n) => RunAtBits(cl, acc, 17, 0, 3, 3, n, total, bs, p);
    case ManyZeros(n) => RunAtBits(cl, acc, 18, 0, 11, 7, n, total, bs, p);
  }

  /** Reading on after the lengths that were sent. */
  lemma {:induction false} LengthsOfOps(cl: seq<nat>, acc: seq<nat>, ops: seq<Op>, total: nat, bs: seq<bit>, p: nat)
    requires GoodCode(cl) && |cl| == 19 && ValidLengths(acc) && OpsOk(cl, acc, ops)
    requires At(bs, p, OpsBits(cl, acc, ops)) && |ApplyOps(cl, acc, ops)| <= total
    ensures ValidLengths(ApplyOps(cl, acc, ops)) && p + |OpsBits(cl, acc, ops)| <= |bs|
    ensures LengthsFrom(cl, bs, p, total, acc) ==
            LengthsFrom(cl, bs, p + |OpsBits(cl, acc, ops)|, total, ApplyOps(cl, acc, ops))
    decreases ops
  {
    hide GoodCode, OpOk, OpBits, ApplyOp, SymbolAt, LengthsFrom;
    if ops != [] {
      var next := ApplyOp(cl, acc, ops[0]);
      AtSplit(bs, p, OpBits(cl, acc, ops[0]), OpsBits(cl, next, ops[1..]));
      LengthsOfOp(cl, acc, ops[0], total, bs, p);
      LengthsOfOps(cl, next, ops[1..], total, bs, p + |OpBits(cl, acc, ops[0])|);
    }
  }

  lemma LengthsEnd(cl: seq<nat>, lengths: seq<nat>, bs: seq<bit>, p: nat)
    requires p <= |bs| && ValidLengths(lengths)
    ensures LengthsFrom(cl, bs, p, |lengths|, lengths) == Lengths(lengths, p)
  {
    hide SymbolAt;
  }

  // ---------------------------------------------------------------------------------------
  // Blocks
  // ---------------------------------------------------------------------------------------

  datatype Header = Header(nlen: nat, ndist: nat, ncode: nat, cl: seq<nat>, ops: seq<Op>)

  datatype Blk =
    | StoredBlk(pad: seq<bit>, data: seq<uint8>)
    | FixedBlk(items: seq<Item>)
    | DynamicBlk(header: Header, items: seq<Item>)

  /** The code-length lengths in their sending order. */
  function ClBits(cl: seq<nat>, ncode: nat): (r: seq<bit>)
    requires |cl| == 19 && ncode <= 19
    ensures |r| == 3 * ncode
  {
    if ncode == 0 then [] else ClBits(cl, ncode - 1) + LowBits(cl[Sent(ncode - 1)], 3)
  }

  /** The lengths of the code for the code lengths can be sent, and those that are not sent are zero. */
  predicate ClOk(h: Header) {
    && |h.cl| == 19 && h.ncode <= 19
    && (forall s :: 0 <= s < 19 ==> h.cl[s] < 8)
    && (forall i :: h.ncode <= i < 19 ==> h.cl[Sent(i)] == 0)
  }

  ghost predicate HeaderOk(h: Header) {
    hide Kraft, Pow2, Sent, ApplyOps, OpsOk;
    && 257 <= h.nlen <= MAXLCODES && 1 <= h.ndist <= MAXDCODES && 4 <= h.ncode <= 19
    && ClOk(h) && Kraft(h.cl) == Pow2(MAXBITS)
    && OpsOk(h.cl, [], h.ops)
    && |ApplyOps(h.cl, [], h.ops)| == h.nlen + h.ndist
    && Acceptable(LitOf(h)) && Acceptable(DistOf(h))
    && HasCode(LitOf(h), 256)
  }

  function LitOf(h: Header): seq<nat>
    requires OpsOk(h.cl, [], h.ops) && h.nlen <= |ApplyOps(h.cl, [], h.ops)|
  {
    ApplyOps(h.cl, [], h.ops)[..h.nlen]
  }

  function DistOf(h: Header): seq<nat>
    requires OpsOk(h.cl, [], h.ops) && h.nlen <= |ApplyOps(h.cl, [], h.ops)|
  {
    ApplyOps(h.cl, [], h.ops)[h.nlen..]
  }

  function CountBits(h: Header): (r: seq<bit>)
    requires 257 <= h.nlen && 1 <= h.ndist && 4 <= h.ncode
    ensures |r| == 14
  {
    LowBits(h.nlen - 257, 5) + LowBits(h.ndist - 1, 5) + LowBits(h.ncode - 4, 4)
  }

  ghost function HeaderBits(h: Header): seq<bit>
    requires HeaderOk(h)
  {
    CountBits(h) + ClBits(h.cl, h.ncode) + OpsBits(h.cl, [], h.ops)
  }

  lemma {:induction false} ClAt(cl: seq<nat>, n: nat, bs: seq<bit>, p: nat, i: nat)
    requires |cl| == 19 && i < n <= 19 && At(bs, p, ClBits(cl, n))
    requires forall s :: 0 <= s < 19 ==> cl[s] < 8
    ensures Field(bs, p + 3 * i, 3) == cl[Sent(i)]
  {
    hide Field, Sent;
    AtSplit(bs, p, ClBits(cl, n - 1), LowBits(cl[Sent(n - 1)], 3));
    Pow2Small();
    if i == n - 1 {
      FieldAt(bs, p + 3 * i, cl[Sent(i)], 3);
    } else {
      ClAt(cl, n - 1, bs, p, i);
    }
  }

  lemma ClRead(h: Header, bs: seq<bit>, p: nat)
    requires ClOk(h) && At(bs, p, ClBits(h.cl, h.ncode))
    ensures CodeLengthLengths(bs, p, h.ncode) == h.cl
  {
    hide Field, Sent, OrderAt, OrderOf, ClBits;
    forall s | 0 <= s < 19 ensures CodeLengthLengths(bs, p, h.ncode)[s] == h.cl[s] {
      OrderInverse(s);
      OrderTable(OrderOf(s));
      if OrderOf(s) < h.ncode {
        ClAt(h.cl, h.ncode, bs, p, OrderOf(s));
      }
    }
  }

  lemma CountsRead(h: Header, bs: seq<bit>, p: nat)
    requires 257 <= h.nlen <= 288 && 1 <= h.ndist <= 32 && 4 <= h.ncode <= 19
    requires At(bs, p, CountBits(h))
    ensures Field(bs, p, 5) == h.nlen - 257
    ensures Field(bs, p + 5, 5) == h.ndist - 1
    ensures Field(bs, p + 10, 4) == h.ncode - 4
  {
    hide Field, LowBits;
    Pow2Small();
    hide Pow2;
    var a, b, c := LowBits(h.nlen - 257, 5), LowBits(h.ndist - 1, 5), LowBits(h.ncode - 4, 4);
    AtSplit(bs, p, a + b, c);
    AtSplit(bs, p, a, b);
    FieldAt(bs, p, h.nlen - 257, 5);
    FieldAt(bs, p + 5, h.ndist - 1, 5);
    FieldAt(bs, p + 10, h.ncode - 4, 4);
  }

  lemma AcceptableGood(lengths: seq<nat>)
    requires ValidLengths(lengths) && Acceptable(lengths)
    ensures GoodCode(lengths)
  {
    hide Kraft, Pow2, Count;
    KraftPerSymbol(lengths);
    Pow2Double();
    var n, u := |lengths| - Count(lengths, 0), Pow2(MAXBITS - 1);
    if n <= 1 {
      if n <= 0 {
        assert n * u <= 0;
      }
    }
  }

  ghost predicate BlkOk(start: nat, out: seq<uint8>, b: Blk) {
    match b
    case StoredBlk(pad, data) => |pad| == AlignUp(start) - start && |data| < 0x1_0000
    case FixedBlk(items) => ItemsOk(FixedLitLengths(), FixedDistLengths(), out, items)
    case DynamicBlk(h, items) => HeaderOk(h) && ItemsOk(LitOf(h), DistOf(h), out, items)
  }

  function StoredBytes(data: seq<uint8>): seq<uint8>
    requires |data| < 0x1_0000
  {
    [|data| % 256, |data| / 256, 255 - |data| % 256, 255 - |data| / 256] + data
  }

  ghost function BlkBits(start: nat, out: seq<uint8>, b: Blk): seq<bit>
    requires BlkOk(start, out, b)
  {
    match b
    case StoredBlk(pad, data) => pad + StreamOf(StoredBytes(data))
    case FixedBlk(items) => FixedHas256(); BodyBits(FixedLitLengths(), FixedDistLengths(), out, items)
    case DynamicBlk(h, items) =>
      HeaderBits(h) + BodyBits(LitOf(h), DistOf(h), out, items)
  }

  lemma FixedHas256()
    ensures HasCode(FixedLitLengths(), 256)
  {
  }

  ghost function BlkOut(start: nat, out: seq<uint8>, b: Blk): seq<uint8>
    requires BlkOk(start, out, b)
  {
    match b
    case StoredBlk(_, data) => out + data
    case FixedBlk(items) => ApplyAll(FixedLitLengths(), FixedDistLengths(), out, items)
    case DynamicBlk(h, items) => ApplyAll(LitOf(h), DistOf(h), out, items)
  }

  function KindOf(b: Blk): nat {
    match b
    case StoredBlk(_, _) => 0
    case FixedBlk(_) => 1
    case DynamicBlk(_, _) => 2
  }

  lemma FieldWithin(bs: seq<bit>, p: nat, w: seq<bit>, a: nat, n: nat)
    requires At(bs, p, w) && a + n <= |w|
    ensures Field(bs, p + a, n) == Field(w, a, n)
  {
    hide Value;
    var x, y := bs[p + a..p + a + n], w[a..a + n];
    forall i | 0 <= i < n ensures x[i] == y[i] {
      assert bs[p..p + |w|][a + i] == w[a + i];
    }
    assert x == y;
  }

  lemma ByteAt(bs: seq<bit>, q: nat, bytes: seq<uint8>, k: nat)
    requires At(bs, q, StreamOf(bytes)) && k < |bytes|
    ensures q + 8 * k + 8 <= |bs| && Field(bs, q + 8 * k, 8) == bytes[k]
  {
    hide StreamOf, Field;
    FieldByte(bytes, k);
    FieldWithin(bs, q, StreamOf(bytes), 8 * k, 8);
  }

  lemma {:induction false} BytesAtStream(bs: seq<bit>, q: nat, bytes: seq<uint8>, k: nat)
    requires At(bs, q, StreamOf(bytes)) && k <= |bytes|
    ensures q + 8 * |bytes| <= |bs|
    ensures BytesAt(bs, q + 8 * k, |bytes| - k) == bytes[k..]
    decreases |bytes| - k
  {
    hide StreamOf, Field;
    if k < |bytes| {
      ByteAt(bs, q, bytes, k);
      BytesAtStream(bs, q, bytes, k + 1);
    }
  }

  lemma StoredParts(data: seq<uint8>)
    requires |data| < 0x1_0000
    ensures
      var bytes, n := StoredBytes(data), |data|;
      && |bytes| == n + 4 && bytes[4..] == data && bytes[0] as int + 256 * (bytes[1] as int) == n
      && bytes[2] == 255 - n % 256 && bytes[3] == 255 - n / 256
  {
  }

  /** The first bytes of a stored block. */
  lemma FirstBytes(bs: seq<bit>, q: nat, bytes: seq<uint8>)
    requires |bytes| >= 4 && At(bs, q, StreamOf(bytes))
    ensures q + 32 <= |bs| && Field(bs, q, 16) == bytes[0] as int + 256 * (bytes[1] as int)
    ensures Field(bs, q + 16, 8) == bytes[2] && Field(bs, q + 24, 8) == bytes[3]
  {
    hide StreamOf, Field, Pow2;
    ByteAt(bs, q, bytes, 0);
    ByteAt(bs, q, bytes, 1);
    ByteAt(bs, q, bytes, 2);
    ByteAt(bs, q, bytes, 3);
    FieldSplit(bs, q, 8, 8);
    Pow2Small();
  }

  /** The length, its complement and the bytes of a stored block. */
  lemma StoredRead(bs: seq<bit>, q: nat, data: seq<uint8>)
    requires |data| < 0x1_0000 && At(bs, q, StreamOf(StoredBytes(data)))
    ensures q + 32 + 8 * |data| <= |bs| && Field(bs, q, 16) == |data|
    ensures Field(bs, q + 16, 8) == 255 - |data| % 256 && Field(bs, q + 24, 8) == 255 - |data| / 256
    ensures BytesAt(bs, q + 32, |data|) == data
  {
    hide StreamOf, Field, BytesAt, Pow2, StoredBytes;
    var bytes := StoredBytes(data);
    StoredParts(data);
    FirstBytes(bs, q, bytes);
    BytesAtStream(bs, q, bytes, 4);
  }

  lemma StoredOfBlk(start: nat, out: seq<uint8>, pad: seq<bit>, data: seq<uint8>, bs: seq<bit>)
    requires |pad| == AlignUp(start) - start && |data| < 0x1_0000
    requires At(bs, start, pad + StreamOf(StoredBytes(data)))
    ensures Stored(bs, start, out, Unlimited) == Done(start + |pad| + 32 + 8 * |data|, out + data)
  {
    hide StreamOf, Field, AlignUp, BytesAt, StoredBytes;
    AtSplit(bs, start, pad, StreamOf(StoredBytes(data)));
    StoredRead(bs, AlignUp(start), data);
  }

  /** The counts and the code for the code lengths. */
  lemma DynamicRead(start: nat, out: seq<uint8>, h: Header, bs: seq<bit>)
    requires 257 <= h.nlen <= MAXLCODES && 1 <= h.ndist <= MAXDCODES && 4 <= h.ncode <= 19 && ClOk(h)
    requires At(bs, start, CountBits(h) + ClBits(h.cl, h.ncode))
    ensures
      var q := start + 14 + 3 * h.ncode;
      && q <= |bs|
      && Dynamic(bs, start, out, Unlimited) ==
         if !HasSymbol(h.cl) then EmptyCode(|bs|, q, h.nlen + h.ndist)
         else if Kraft(h.cl) != Pow2(MAXBITS) then Failed(-4, q, out)
         else CodedBlock(h.cl, h.nlen, h.ndist, bs, q, out, Unlimited)
  {
    hide Field, Kraft, Pow2, CodedBlock, CodeLengthLengths, CountBits, ClBits, HasSymbol, Sent;
    AtSplit(bs, start, CountBits(h), ClBits(h.cl, h.ncode));
    CountsRead(h, bs, start);
    ClRead(h, bs, start + 14);
  }

  /** Reading on after the codes of a dynamic block. */
  lemma CodesRead(p: nat, out: seq<uint8>, h: Header, bs: seq<bit>)
    requires HeaderOk(h) && At(bs, p, OpsBits(h.cl, [], h.ops))
    ensures p + |OpsBits(h.cl, [], h.ops)| <= |bs| && GoodCode(LitOf(h)) && GoodCode(DistOf(h))
    ensures CodedBlock(h.cl, h.nlen, h.ndist, bs, p, out, Unlimited) ==
            Symbols(LitOf(h), DistOf(h), bs, p + |OpsBits(h.cl, [], h.ops)|, out, Unlimited)
  {
    hide Kraft, Pow2, LengthsFrom, OpsBits, Acceptable, Sent, Symbols;
    LengthsOfOps(h.cl, [], h.ops, h.nlen + h.ndist, bs, p);
    LengthsEnd(h.cl, ApplyOps(h.cl, [], h.ops), bs, p + |OpsBits(h.cl, [], h.ops)|);
    AcceptableGood(LitOf(h));
    AcceptableGood(DistOf(h));
  }

  lemma HeaderRead(start: nat, out: seq<uint8>, h: Header, bs: seq<bit>)
    requires HeaderOk(h) && At(bs, start, HeaderBits(h))
    ensures start + |HeaderBits(h)| <= |bs| && GoodCode(LitOf(h)) && GoodCode(DistOf(h))
    ensures Dynamic(bs, start, out, Unlimited) ==
            Symbols(LitOf(h), DistOf(h), bs, start + |HeaderBits(h)|, out, Unlimited)
  {
    hide Kraft, Pow2, CodedBlock, CountBits, ClBits, OpsBits, HasSymbol, Acceptable, Sent, ApplyOps, OpsOk, HasCode,
      Symbols, Dynamic, GoodCode;
    AtSplit(bs, start, CountBits(h) + ClBits(h.cl, h.ncode), OpsBits(h.cl, [], h.ops));
    DynamicRead(start, out, h, bs);
    CompleteHasSymbol(h.cl);
    CodesRead(start + 14 + 3 * h.ncode, out, h, bs);
  }

  lemma DynamicOfBlk(start: nat, out: seq<uint8>, h: Header, items: seq<Item>, bs: seq<bit>)
    requires BlkOk(start, out, DynamicBlk(h, items))
    requires At(bs, start, BlkBits(start, out, DynamicBlk(h, items)))
    ensures Dynamic(bs, start, out, Unlimited) ==
            Done(start + |BlkBits(start, out, DynamicBlk(h, items))|, ApplyAll(LitOf(h), DistOf(h), out, items))
  {
    hide HeaderBits, BodyBits, ItemsOk, ApplyAll, Symbols, Dynamic, GoodCode, Kraft, Pow2, Acceptable, Sent, ApplyOps,
      OpsOk;
    AtSplit(bs, start, HeaderBits(h), BodyBits(LitOf(h), DistOf(h), out, items));
    HeaderRead(start, out, h, bs);
    SymbolsOfBody(LitOf(h), DistOf(h), out, items, bs, start + |HeaderBits(h)|);
  }

  lemma FixedGood()
    ensures GoodCode(FixedLitLengths()) && GoodCode(FixedDistLengths())
  {
    KraftFixed();
  }

  lemma BlockOfBlk(start: nat, out: seq<uint8>, b: Blk, bs: seq<bit>)
    requires BlkOk(start, out, b) && At(bs, start, BlkBits(start, out, b))
    ensures Block(KindOf(b), bs, start, out, Unlimited) ==
            Done(start + |BlkBits(start, out, b)|, BlkOut(start, out, b))
  {
    hide Stored, Symbols, Dynamic, GoodCode, ItemsOk, HeaderOk, BodyBits, ApplyAll, StreamOf, LitOf, DistOf;
    match b
    case StoredBlk(pad, data) => StoredOfBlk(start, out, pad, data, bs);
    case FixedBlk(items) =>
      FixedHas256();
      FixedGood();
      SymbolsOfBody(FixedLitLengths(), FixedDistLengths(), out, items, bs, start);
    case DynamicBlk(h, items) => DynamicOfBlk(start, out, h, items, bs);
  }

  // ---------------------------------------------------------------------------------------
  // The whole stream
  // ---------------------------------------------------------------------------------------

  ghost predicate StreamOk(start: nat, out: seq<uint8>, blocks: seq<Blk>)
    decreases blocks
  {
    blocks != [] ==>
      && BlkOk(start + 3, out, blocks[0])
      && StreamOk(start + 3 + |BlkBits(start + 3, out, blocks[0])|, BlkOut(start + 3, out, blocks[0]), blocks[1..])
  }

  function BlockHead(b: Blk, last: bool): (r: seq<bit>)
    ensures |r| == 3
  {
    [if last then 1 else 0] + LowBits(KindOf(b), 2)
  }

  /** The blocks, with the last one marked as such unless more follow. */
  ghost function StreamBits(start: nat, out: seq<uint8>, blocks: seq<Blk>, more: bool): seq<bit>
    requires StreamOk(start, out, blocks)
    decreases blocks
  {
    hide BlkBits, BlkOut, BlkOk, BlockHead;
    if blocks == [] then []
    else
      var w := BlockHead(blocks[0], |blocks| == 1 && !more) + BlkBits(start + 3, out, blocks[0]);
      w + StreamBits(start + |w|, BlkOut(start + 3, out, blocks[0]), blocks[1..], more)
  }

  ghost function StreamOut(start: nat, out: seq<uint8>, blocks: seq<Blk>): seq<uint8>
    requires StreamOk(start, out, blocks)
    decreases blocks
  {
    hide BlkBits, BlkOut, BlkOk;
    if blocks == [] then out
    else
      StreamOut(start + 3 + |BlkBits(start + 3, out, blocks[0])|, BlkOut(start + 3, out, blocks[0]), blocks[1..])
  }

  lemma HeadRead(b: Blk, last: bool, bs: seq<bit>, p: nat)
    requires At(bs, p, BlockHead(b, last))
    ensures bs[p] == (if last then 1 else 0) && Field(bs, p + 1, 2) == KindOf(b)
  {
    hide Field, LowBits;
    Pow2Small();
    AtSplit(bs, p, [if last then 1 else 0], LowBits(KindOf(b), 2));
    assert bs[p] == bs[p..p + 1][0];
    FieldAt(bs, p + 1, KindOf(b), 2);
  }

  lemma {:induction false} BlocksOfStream(start: nat, out: seq<uint8>, blocks: seq<Blk>, more: bool, bs: seq<bit>)
    requires StreamOk(start, out, blocks) && At(bs, start, StreamBits(start, out, blocks, more))
    requires blocks != [] || more
    ensures
      var end, out' := start + |StreamBits(start, out, blocks, more)|, StreamOut(start, out, blocks);
      && end <= |bs|
      && Blocks(bs, start, out, Unlimited) == if more then Blocks(bs, end, out', Unlimited) else Done(end, out')
    decreases blocks
  {
    hide Blocks, Block, BlkBits, BlkOk, BlkOut, BlockHead;
    if blocks != [] {
      var b, last := blocks[0], |blocks| == 1 && !more;
      var w := BlockHead(b, last) + BlkBits(start + 3, out, b);
      var next := BlkOut(start + 3, out, b);
      AtSplit(bs, start, w, StreamBits(start + |w|, next, blocks[1..], more));
      BlocksOfOne(start, out, b, last, bs);
      if !last {
        BlocksOfStream(start + |w|, next, blocks[1..], more, bs);
      }
    }
  }

  lemma BlocksOfOne(start: nat, out: seq<uint8>, b: Blk, last: bool, bs: seq<bit>)
    requires BlkOk(start + 3, out, b) && At(bs, start, BlockHead(b, last) + BlkBits(start + 3, out, b))
    ensures
      var end, next := start + 3 + |BlkBits(start + 3, out, b)|, BlkOut(start + 3, out, b);
      && end <= |bs|
      && Blocks(bs, start, out, Unlimited) == if last then Done(end, next) else Blocks(bs, end, next, Unlimited)
  {
    hide Field, Block, BlkBits, BlkOk, BlkOut, BlockHead;
    AtSplit(bs, start, BlockHead(b, last), BlkBits(start + 3, out, b));
    HeadRead(b, last, bs, start);
    BlockOfBlk(start + 3, out, b, bs);
  }

  /**
    Inflating any encoding of the data gives the data: whatever blocks, codes and
    back-references the encoder chose, and whatever follows the last block.
   */
  lemma InflateEncoded(input: seq<uint8>, blocks: seq<Blk>)
    requires blocks != [] && StreamOk(0, [], blocks)
    requires StreamBits(0, [], blocks, false) <= StreamOf(input)
    ensures Inflate(input, Unlimited) == Done(|StreamBits(0, [], blocks, false)|, StreamOut(0, [], blocks))
  {
    hide StreamOf, StreamBits, StreamOut, Blocks;
    BlocksOfStream(0, [], blocks, false, StreamOf(input));
  }
}
