/**
  The inflater's input and output state, and the functions that read bits and symbols from it.
 */
module PuffState {
  import opened BitStream
  import opened Huffman
  import opened InflateFormat

  /** `n` is the least number of bytes that hold the first `p` bits. */
  ghost predicate BytesFor(n: int, p: int) {
    p <= 8 * n < p + 8
  }

  /** Stands for the one behaviour that the inflater leaves undefined. */
  const UNDEFINED := 99

  /** The code that `construct` stores for decoding: counts per length and sorted symbols. */
  datatype Tables = Tables(count: seq<nat>, symbol: seq<nat>)

  ghost predicate TablesFor(h: Tables, lengths: seq<nat>) {
    ValidLengths(lengths) && IsTable(lengths, h.count, h.symbol)
  }

  class State {
    // output: the buffer (null when the output is only measured), its space, bytes produced
    const out: array?<uint8>
    const outlen: nat
    var outcnt: nat

    // input: the bytes, bytes read so far, and the bit buffer
    const input: seq<uint8>
    var incnt: nat
    var bitbuf: nat
    var bitcnt: nat

    // what has been produced, whether or not there is a buffer to hold it
    ghost var produced: seq<uint8>

    constructor (dest: array?<uint8>, destlen: nat, source: seq<uint8>)
      requires dest != null ==> destlen <= dest.Length
      ensures out == dest && outlen == destlen && input == source
      ensures Valid() && Pos() == 0 && produced == []
    {
      out, outlen, outcnt := dest, destlen, 0;
      input, incnt, bitbuf, bitcnt := source, 0, 0, 0;
      produced := [];
    }

    ghost function Stream(): (bs: seq<bit>)
      ensures |bs| == 8 * |input|
    {
      StreamOf(input)
    }

    /** The position in the bit stream. */
    ghost function Pos(): int
      reads this
    {
      8 * incnt - bitcnt
    }

    ghost function Room(): Room {
      if out == null then Unlimited else Limited(outlen)
    }

    ghost predicate OutputValid()
      reads this, out
    {
      && outcnt == |produced|
      && (out != null ==> outcnt <= outlen <= out.Length && out[..outcnt] == produced)
    }

    ghost predicate InputValid()
      reads this
    {
      && incnt <= |input|
      && bitcnt < 8
      && 0 <= Pos()
      && bitbuf == Field(Stream(), Pos(), bitcnt)
    }

    /** The input continues with these bits: those in the buffer, and then those of the bytes not read yet. */
    ghost predicate Continues(bs: seq<bit>)
      reads this
    {
      && incnt <= |input| && bitcnt < 8 && 0 <= Pos() && |bs| == |Stream()|
      && bitbuf == Field(bs, Pos(), bitcnt) && bs[8 * incnt..] == Stream()[8 * incnt..]
    }

    ghost predicate Valid()
      reads this, out
    {
      InputValid() && OutputValid()
    }

    /** The state and the return code after a run that means `r`. */
    ghost predicate Ended(err: int, r: Result)
      reads this, out
    {
      match r
      case Done(p, o) => err == 0 && Valid() && Pos() == p && produced == o
      case Failed(code, p, o) => err == code && OutputValid() && produced == o && BytesFor(incnt, p)
      case NeedInput => err == 2
      case NeedOutput => err == 1
      case Undefined => err == UNDEFINED
    }

    /** What was produced is only added to, and the rest of the buffer is left alone. */
    twostate predicate Appended()
      reads this, out
    {
      && OutputValid()
      && old(produced) <= produced
      && (out != null ==> forall i :: outcnt <= i < out.Length ==> out[i] == old(out[i]))
    }

    /** Return `need` bits from the input; not ok when there are too few. */
    method Bits(need: nat) returns (ok: bool, v: nat)
      requires InputValid()
      modifies `incnt, `bitbuf, `bitcnt
      ensures ok <==> old(Pos()) + need <= |Stream()|
      ensures ok ==> InputValid() && Pos() == old(Pos()) + need
      ensures ok ==> v == Field(Stream(), old(Pos()), need)
    {
      ghost var bs, p := Stream(), Pos();
      var val := bitbuf;
      while bitcnt < need
        invariant incnt <= |input| && Pos() == p
        invariant bitcnt < 8 || bitcnt < need + 8
        invariant val == Field(bs, p, bitcnt)
        decreases need - bitcnt
      {
        if incnt == |input| {
          return false, 0;
        }
        LoadByte(input, p, incnt, bitcnt);
        val := val + Pow2(bitcnt) * input[incnt];  // an "or": the bits do not overlap
        incnt := incnt + 1;
        bitcnt := bitcnt + 8;
      }
      FieldShift(bs, p, need, bitcnt - need);
      bitbuf := val / Pow2(need);
      bitcnt := bitcnt - need;
      return true, val % Pow2(need);
    }

    /** Decode a symbol bit by bit; -9 when no code matches. */
    method DecodeSlow(h: Tables) returns (ok: bool, symbol: int)
      requires InputValid() && HasRoom(h.count, h.symbol)
      modifies `incnt, `bitbuf, `bitcnt
      ensures Agrees(old(Pos()), ok, symbol, Walk(h.count, h.symbol, Stream(), old(Pos()), 1, 0, 0, 0), Stream())
      ensures ok && symbol == -9 ==> InputValid()
    {
      hide StreamOf, Field, Pow2, Walk, SumFrom, OnWalk;
      ghost var bs, p := Stream(), Pos();
      ghost var w := Walk(h.count, h.symbol, bs, p, 1, 0, 0, 0);
      OnWalkStart(h.count, h.symbol, bs, p);
      var code: nat, first: nat, index: nat := 0, 0, 0;
      var len := 1;
      while len <= MAXBITS
        invariant 1 <= len <= MAXBITS + 1
        invariant InputValid() && Pos() == p + len - 1
        invariant OnWalk(w, h.count, h.symbol, bs, Pos(), len, code, first, index)
      {
        var got, b := Bits(1);
        if !got {
          OnWalkStop(w, h.count, h.symbol, bs, p + len - 1, len, code, first, index);
          return false, 0;
        }
        OnWalkStep(w, h.count, h.symbol, bs, p + len - 1, len, code, first, index);
        FieldOne(bs, p + len - 1);
        code := code + b;  // an "or": the low bit of code is clear
        var count := h.count[len];
        if code < first + count {
          return true, h.symbol[index + (code - first)];
        }
        index := index + count;
        first := 2 * (first + count);
        code := 2 * code;
        len := len + 1;
      }
      OnWalkStop(w, h.count, h.symbol, bs, p + len - 1, len, code, first, index);
      return true, -9;
    }

    ghost predicate Agrees(p: int, ok: bool, symbol: int, w: Decoded, bs: seq<bit>)
      reads this
    {
      match w
      case OutOfInput => !ok
      case Symbol(s, next) => ok && symbol == s && Continues(bs) && Pos() == next
      case Invalid => ok && symbol == -9 && BytesFor(incnt, p + MAXBITS)
    }

    /** Takes the next byte of the input. */
    method NextByte(ghost bs: seq<bit>, ghost start: nat) returns (buf: nat)
      requires start <= incnt < |input| && |bs| == |Stream()| && bs[8 * start..] == Stream()[8 * start..]
      modifies `incnt
      ensures incnt == old(incnt) + 1 && buf == Field(bs, 8 * old(incnt), 8)
    {
      hide StreamOf, Field;
      FieldByte(input, incnt);
      SameField(bs, Stream(), 8 * start, 8 * incnt, 8);
      buf := input[incnt];
      incnt := incnt + 1;
    }

    /** Keeps the bits of the last byte read that are left after a code of `len` bits. */
    method KeepBits(buf: nat, len: nat, ghost bs: seq<bit>, ghost start: nat)
      requires start <= incnt <= |input| && |bs| == |Stream()| && bs[8 * start..] == Stream()[8 * start..]
      requires
        var p := 8 * start - bitcnt + len;
        0 <= p && 0 <= 8 * incnt - p < 8 && buf == Field(bs, p, 8 * incnt - p)
      modifies `bitbuf, `bitcnt
      ensures Continues(bs) && Pos() == 8 * start - old(bitcnt) + len
    {
      hide StreamOf, Field;
      Mod8(start, bitcnt, len, incnt);
      SameTail(bs, Stream(), 8 * start, 8 * incnt);
      bitbuf := buf;
      bitcnt := (bitcnt - len) % 8;
    }

    /**
      The same, taking the bits straight from the buffered byte. When no code matches, the bytes are
      read but the buffered bits stay.
     */
    method Decode(h: Tables, ghost bs: seq<bit>) returns (ok: bool, symbol: int)
      requires Continues(bs) && HasRoom(h.count, h.symbol)
      modifies `incnt, `bitbuf, `bitcnt
      ensures Agrees(old(Pos()), ok, symbol, Walk(h.count, h.symbol, bs, old(Pos()), 1, 0, 0, 0), bs)
      ensures ok && Walk(h.count, h.symbol, bs, old(Pos()), 1, 0, 0, 0).Invalid? ==>
        bitbuf == old(bitbuf) && bitcnt == old(bitcnt)
    {
      hide StreamOf, Field, Pow2, Walk, SumFrom, OnWalk;
      ghost var p := Pos();
      ghost var w := Walk(h.count, h.symbol, bs, p, 1, 0, 0, 0);
      OnWalkStart(h.count, h.symbol, bs, p);
      var buf := bitbuf;
      var left := bitcnt;
      ghost var held: nat := left;  // unread bits of the current byte; `left` of them may be read
      var code: nat, first: nat, index: nat := 0, 0, 0;
      var len := 1;
      while true
        invariant 1 <= len <= MAXBITS
        invariant old(incnt) <= incnt <= |input| && bitcnt == old(bitcnt) && bitbuf == old(bitbuf)
        invariant p + len - 1 + held == 8 * incnt && buf == Field(bs, p + len - 1, held)
        invariant Window(left, held, len)
        invariant OnWalk(w, h.count, h.symbol, bs, p + len - 1, len, code, first, index)
        decreases |input| - incnt
      {
        var found;
        found, symbol, buf, len, code, first, index :=
          DecodeByte(h, buf, left, len, code, first, index, bs, w, p + len - 1, held);
        if found {
          KeepBits(buf, len, bs, old(incnt));
          return true, symbol;
        }
        left := MAXBITS + 1 - len;
        if left == 0 {
          break;
        }
        if incnt == |input| {
          OnWalkStop(w, h.count, h.symbol, bs, p + len - 1, len, code, first, index);
          return false, 0;
        }
        buf := NextByte(bs, old(incnt));
        if left > 8 {
          left := 8;
        }
        held := 8;
      }
      OnWalkStop(w, h.count, h.symbol, bs, p + len - 1, len, code, first, index);
      return true, -9;
    }
  }

  /** Goes on with a code, taking `left` bits from the buffered byte, of which `held` are unread. */
  method DecodeByte(h: Tables, bits: nat, left: nat, length: nat, code0: nat, first0: nat, index0: nat,
                    ghost bs: seq<bit>, ghost w: Decoded, ghost p: nat, ghost held: nat)
    returns (found: bool, symbol: nat, buf: nat, len: nat, code: nat, first: nat, index: nat)
    requires HasRoom(h.count, h.symbol) && 1 <= length <= MAXBITS && Window(left, held, length)
    requires p + held <= |bs| && bits == Field(bs, p, held)
    requires OnWalk(w, h.count, h.symbol, bs, p, length, code0, first0, index0)
    ensures found ==>
      && length <= len < length + left && w == Symbol(symbol, p + len + 1 - length)
      && buf == Field(bs, p + len + 1 - length, held - (len + 1 - length))
    ensures !found ==>
      && len == length + left && buf == Field(bs, p + left, held - left)
      && OnWalk(w, h.count, h.symbol, bs, p + left, len, code, first, index)
  {
    hide Field, Pow2, Walk, SumFrom, OnWalk;
    buf, len, code, first, index := bits, length, code0, first0, index0;
    for k := 0 to left
      invariant len == length + k
      invariant buf == Field(bs, p + k, held - k)
      invariant OnWalk(w, h.count, h.symbol, bs, p + k, len, code, first, index)
    {
      OnWalkStep(w, h.count, h.symbol, bs, p + k, len, code, first, index);
      FieldFirst(bs, p + k, held - k);
      code := code + buf % 2;
      buf := buf / 2;
      var count := h.count[len];
      if code < first + count {
        return true, h.symbol[index + (code - first)], buf, len, code, first, index;
      }
      index := index + count;
      first := 2 * (first + count);
      code := 2 * code;
      len := len + 1;
    }
    return false, 0, buf, len, code, first, index;
  }

  lemma SameTail(a: seq<bit>, b: seq<bit>, p: nat, q: nat)
    requires p <= q <= |a| == |b| && a[p..] == b[p..]
    ensures a[q..] == b[q..]
  {
    assert a[q..] == a[p..][q - p..] && b[q..] == b[p..][q - p..];
  }

  lemma SameField(a: seq<bit>, b: seq<bit>, p: nat, q: nat, n: nat)
    requires p <= q && q + n <= |a| == |b| && a[p..] == b[p..]
    ensures Field(a, q, n) == Field(b, q, n)
  {
    assert a[q..q + n] == a[p..][q - p..q + n - p] && b[q..q + n] == b[p..][q - p..q + n - p];
  }

  /** Of the `held` bits of a byte, `left` may still be read before codes get too long. */
  ghost predicate Window(left: int, held: int, len: int) {
    && 0 <= left <= held <= 8
    && left <= MAXBITS + 1 - len
    && (left == held || left == MAXBITS + 1 - len)
    && (held == 8 ==> left > 0)
  }

  lemma Mod8(start: nat, held: nat, len: nat, read: nat)
    requires 0 <= 8 * read - (8 * start - held + len) < 8
    ensures (held - len) % 8 == 8 * read - (8 * start - held + len)
  {
  }

  lemma LoadByte(input: seq<uint8>, p: nat, k: nat, n: nat)
    requires k < |input| && p + n == 8 * k
    ensures Field(StreamOf(input), p, n + 8) == Field(StreamOf(input), p, n) + Pow2(n) * input[k]
  {
    var bs := StreamOf(input);
    FieldByte(input, k);
    assert Field(bs, p + n, 8) == input[k];
    FieldSplit(bs, p, n, 8);
  }
}
