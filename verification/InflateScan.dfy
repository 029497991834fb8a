/**
  Measuring the output before producing it: how a run with limited output space relates to
  the same run without an output buffer.
 */
module InflateScan {
  import opened BitStream
  import opened Huffman
  import opened InflateFormat

  /** `l` is what room for `n` bytes makes of a run that, without a limit, means `u`. */
  ghost predicate Predicts(u: Result, l: Result, n: nat) {
    match u
    case Done(_, out) => l == if |out| <= n then u else NeedOutput
    case Failed(_, _, out) => l == if |out| <= n then u else NeedOutput
    case NeedInput => l == NeedInput || l == NeedOutput
    case Undefined => l == Undefined || l == NeedOutput
    case NeedOutput => false
  }

  lemma {:induction false} SymbolsScan(ll: seq<nat>, dl: seq<nat>, bs: seq<bit>, p: nat, out: seq<uint8>, n: nat)
    requires p <= |bs| && |dl| <= MAXDCODES && |out| <= n
    ensures Predicts(Symbols(ll, dl, bs, p, out, Unlimited), Symbols(ll, dl, bs, p, out, Limited(n)), n)
    decreases |bs| - p
  {
    hide TokenAt;
    match TokenAt(ll, dl, bs, p)
    case Literal(b, q) =>
      if |out| + 1 <= n {
        SymbolsScan(ll, dl, bs, q, out + [b], n);
      } else {
        assert Extends(Symbols(ll, dl, bs, q, out + [b], Unlimited), bs, q, out + [b]);
      }
    case Copy(len, dist, q) =>
      if dist <= |out| {
        var next := CopyBack(out, len, dist);
        if |out| + len <= n {
          SymbolsScan(ll, dl, bs, q, next, n);
        } else {
          assert Extends(Symbols(ll, dl, bs, q, next, Unlimited), bs, q, next);
        }
      }
    case _ =>
  }

  lemma StoredScan(bs: seq<bit>, p: nat, out: seq<uint8>, n: nat)
    requires p <= |bs| && |out| <= n
    ensures Predicts(Stored(bs, p, out, Unlimited), Stored(bs, p, out, Limited(n)), n)
  {
    hide Field;
  }

  lemma DynamicScan(bs: seq<bit>, p: nat, out: seq<uint8>, n: nat)
    requires p <= |bs| && |out| <= n
    ensures Predicts(Dynamic(bs, p, out, Unlimited), Dynamic(bs, p, out, Limited(n)), n)
  {
    hide Field, Kraft, Pow2, CodedBlock;
    if p + 14 <= |bs| {
      var nlen, ndist, ncode := Field(bs, p, 5) + 257, Field(bs, p + 5, 5) + 1, Field(bs, p + 10, 4) + 4;
      FieldBound(bs, p + 10, 4);
      Pow2Small();
      if ndist <= MAXDCODES && p + 14 + 3 * ncode <= |bs| {
        CodedScan(CodeLengthLengths(bs, p + 14, ncode), nlen, ndist, bs, p + 14 + 3 * ncode, out, n);
      }
    }
  }

  lemma CodedScan(cl: seq<nat>, nlen: nat, ndist: nat, bs: seq<bit>, p: nat, out: seq<uint8>, n: nat)
    requires p <= |bs| && ndist <= MAXDCODES && |out| <= n
    ensures Predicts(CodedBlock(cl, nlen, ndist, bs, p, out, Unlimited),
      CodedBlock(cl, nlen, ndist, bs, p, out, Limited(n)), n)
  {
    hide LengthsFrom, Symbols, Acceptable;
    match LengthsFrom(cl, bs, p, nlen + ndist, [])
    case Lengths(lengths, next) =>
      SymbolsScan(lengths[..nlen], lengths[nlen..], bs, next, out, n);
    case _ =>
  }

  lemma BlockScan(kind: nat, bs: seq<bit>, p: nat, out: seq<uint8>, n: nat)
    requires p <= |bs| && |out| <= n
    ensures Predicts(Block(kind, bs, p, out, Unlimited), Block(kind, bs, p, out, Limited(n)), n)
  {
    hide Stored, Symbols, Dynamic;
    if kind == 0 {
      StoredScan(bs, p, out, n);
    } else if kind == 1 {
      SymbolsScan(FixedLitLengths(), FixedDistLengths(), bs, p, out, n);
    } else if kind == 2 {
      DynamicScan(bs, p, out, n);
    }
  }

  lemma {:induction false} BlocksScan(bs: seq<bit>, p: nat, out: seq<uint8>, n: nat)
    requires p <= |bs| && |out| <= n
    ensures Predicts(Blocks(bs, p, out, Unlimited), Blocks(bs, p, out, Limited(n)), n)
    decreases |bs| - p
  {
    hide Field, Block;
    if p + 3 <= |bs| {
      var kind := Field(bs, p + 1, 2);
      BlockScan(kind, bs, p + 3, out, n);
      var u := Block(kind, bs, p + 3, out, Unlimited);
      if u.Done? && bs[p] == 0 {
        if |u.out| <= n {
          BlocksScan(bs, u.pos, u.out, n);
        } else {
          assert Extends(Blocks(bs, u.pos, u.out, Unlimited), bs, u.pos, u.out);
        }
      }
    }
  }

  /**
    Measuring predicts producing: if the stream is good and its output has n bytes, any buffer
    of at least n bytes is filled with the same bytes from the same input, and any smaller
    buffer makes the run stop for lack of space.
   */
  lemma ScanPredicts(input: seq<uint8>, room: nat)
    ensures Predicts(Inflate(input, Unlimited), Inflate(input, Limited(room)), room)
  {
    hide StreamOf;
    BlocksScan(StreamOf(input), 0, [], room);
  }
}
