/**
  The inflater: stored, fixed and dynamic blocks, in an output buffer or only measured.
 */
module Puff {
  import opened BitStream
  import opened Huffman
  import opened InflateFormat
  import opened PuffState
  import opened PuffConstruct

  lemma Align(k: nat, n: nat)
    requires n < 8 && n <= 8 * k
    ensures AlignUp(8 * k - n) == 8 * k
  {
  }

  lemma StoredHeader(input: seq<uint8>, k: nat)
    requires k + 4 <= |input|
    ensures var bs := StreamOf(input);
      && Field(bs, 8 * k, 16) == input[k] as int + 256 * (input[k + 1] as int)
      && Field(bs, 8 * k + 16, 8) == input[k + 2]
      && Field(bs, 8 * k + 24, 8) == input[k + 3]
  {
    hide StreamOf, Field, Pow2;
    var bs := StreamOf(input);
    FieldByte(input, k);
    FieldByte(input, k + 1);
    FieldByte(input, k + 2);
    FieldByte(input, k + 3);
    Pow2Small();
    FieldSplit(bs, 8 * k, 8, 8);
  }

  lemma EmptyField(bs: seq<bit>, p: nat)
    requires p <= |bs|
    ensures Field(bs, p, 0) == 0
  {
  }

  method CopyStored(s: State, len: nat)
    requires s.Valid() && s.bitcnt == 0 && s.incnt + len <= |s.input|
    requires s.out != null && s.outcnt + len <= s.outlen
    modifies s, s.out
    ensures s.Valid() && s.Appended() && s.bitcnt == 0 && s.incnt == old(s.incnt) + len
    ensures s.produced == old(s.produced) + s.input[old(s.incnt)..s.incnt]
  {
    hide StreamOf, Field;
    ghost var from, start := s.incnt, s.produced;
    assert s.input[from..s.incnt] == [];
    for i := 0 to len
      invariant s.OutputValid() && s.incnt == from + i && s.bitcnt == 0 && s.bitbuf == old(s.bitbuf)
      invariant s.outcnt == old(s.outcnt) + i
      invariant s.produced == start + s.input[from..s.incnt]
      invariant forall j :: s.outcnt <= j < s.out.Length ==> s.out[j] == old(s.out[j])
    {
      s.out[s.outcnt] := s.input[s.incnt];
      s.outcnt := s.outcnt + 1;
      s.produced := s.produced + [s.input[s.incnt]];
      s.incnt := s.incnt + 1;
    }
    EmptyField(s.Stream(), old(s.Pos()));
    EmptyField(s.Stream(), s.Pos());
  }

  /** Moves `len` bytes from the input to the output, or only counts them. */
  method TakeStored(s: State, len: nat) returns (err: int)
    requires s.Valid() && s.bitcnt == 0 && s.incnt + len <= |s.input|
    modifies s, s.out
    ensures s.Appended()
    ensures err == if Fits(s.Room(), |old(s.produced)| + len) then 0 else 1
    ensures err == 0 ==> s.Valid() && s.Pos() == old(s.Pos()) + 8 * len
    ensures err == 0 ==> s.produced == old(s.produced) + s.input[old(s.incnt)..old(s.incnt) + len]
  {
    hide StreamOf, Field;
    if s.out != null {
      if s.outcnt + len > s.outlen {
        return 1;
      }
      CopyStored(s, len);
    } else {
      EmptyField(s.Stream(), s.Pos());
      s.produced := s.produced + s.input[s.incnt..s.incnt + len];
      s.outcnt := s.outcnt + len;
      s.incnt := s.incnt + len;
      EmptyField(s.Stream(), s.Pos());
    }
    return 0;
  }

  /** The length of a stored block, checked against its complement. */
  method ReadStoredLength(s: State) returns (err: int, len: nat)
    requires s.InputValid() && s.bitcnt == 0 && s.incnt + 4 <= |s.input|
    modifies s`incnt
    ensures len == Field(s.Stream(), old(s.Pos()), 16)
    ensures err == if Field(s.Stream(), old(s.Pos()) + 16, 8) != 255 - len % 256
                      || Field(s.Stream(), old(s.Pos()) + 24, 8) != 255 - len / 256 then -2 else 0
    ensures s.incnt == old(s.incnt) + if Field(s.Stream(), old(s.Pos()) + 16, 8) != 255 - len % 256 then 3 else 4
  {
    hide StreamOf, Field;
    StoredHeader(s.input, s.incnt);
    len := s.input[s.incnt] as int + 256 * (s.input[s.incnt + 1] as int);
    s.incnt := s.incnt + 2;
    var low := s.input[s.incnt];
    s.incnt := s.incnt + 1;
    if low != 255 - len % 256 {
      return -2, len;
    }
    var high := s.input[s.incnt];
    s.incnt := s.incnt + 1;
    if high != 255 - len / 256 {
      return -2, len;
    }
    return 0, len;
  }

  method StoredBlock(s: State) returns (err: int)
    requires s.Valid()
    modifies s, s.out
    ensures s.Ended(err, Stored(s.Stream(), old(s.Pos()), old(s.produced), s.Room())) && s.Appended()
  {
    hide StreamOf, Field, AlignUp, Stored, Extends;
    ghost var p := s.Pos();
    Align(s.incnt, s.bitcnt);
    s.bitbuf := 0;
    s.bitcnt := 0;
    EmptyField(s.Stream(), s.Pos());
    err := StoredBytesOf(s, p);
  }

  /** The rest of a stored block at `p`, from the next byte on. */
  method StoredBytesOf(s: State, ghost p: nat) returns (err: int)
    requires s.Valid() && s.bitcnt == 0 && p <= s.Pos() == AlignUp(p)
    modifies s, s.out
    ensures s.Ended(err, Stored(s.Stream(), p, old(s.produced), s.Room())) && s.Appended()
  {
    hide StreamOf, Field, BytesAt, AlignUp, Extends;
    EmptyField(s.Stream(), s.Pos());
    if s.incnt + 4 > |s.input| {
      return 2;
    }
    var len;
    err, len := ReadStoredLength(s);
    if err != 0 {
      return;
    }
    if s.incnt + len > |s.input| {
      return 2;
    }
    BytesOfStream(s.input, s.incnt, len);
    EmptyField(s.Stream(), s.Pos());
    err := TakeStored(s, len);
  }

  // ---------------------------------------------------------------------------------------
  // Literals and back-references
  // ---------------------------------------------------------------------------------------

  /** Decoding a symbol with the tables of a code. */
  method DecodeSymbol(s: State, h: Tables, ghost lengths: seq<nat>) returns (ok: bool, symbol: int)
    requires s.InputValid() && TablesFor(h, lengths)
    modifies s`incnt, s`bitbuf, s`bitcnt
    ensures s.Agrees(old(s.Pos()), ok, symbol, SymbolAt(lengths, s.Stream(), old(s.Pos())), s.Stream())
  {
    hide StreamOf, Field, Walk, SymbolAt, IsTable, ValidLengths;
    WalkIsSymbolAt(lengths, h.count, h.symbol, s.Stream(), s.Pos());
    ok, symbol := s.Decode(h, s.Stream());
  }

  ghost predicate TokenRead(s: State, err: int, symbol: int, len: nat, dist: nat, t: Token)
    reads s
  {
    match t
    case ShortToken => err == 2
    case BadToken(q) => err == -9 && BytesFor(s.incnt, q)
    case EndOfBlock(q) => err == 0 && symbol == 256 && s.InputValid() && s.Pos() == q
    case Literal(b, q) => err == 0 && symbol == b && s.InputValid() && s.Pos() == q
    case Copy(l, d, q) => err == 0 && symbol > 256 && len == l && dist == d && s.InputValid() && s.Pos() == q
  }

  /** The distance that follows a length. */
  method ReadDistance(s: State, len: nat, distcode: Tables, ghost dl: seq<nat>) returns (err: int, dist: nat)
    requires s.InputValid() && TablesFor(distcode, dl) && |dl| <= MAXDCODES && len > 0
    modifies s`incnt, s`bitbuf, s`bitcnt
    ensures TokenRead(s, err, 257, len, dist, DistanceAt(len, dl, s.Stream(), old(s.Pos())))
  {
    hide StreamOf, Field, SymbolAt, IsTable, ValidLengths, DistBase, DistExtra;
    var ok, symbol := DecodeSymbol(s, distcode, dl);
    if !ok {
      return 2, 0;
    }
    if symbol < 0 {
      return symbol, 0;
    }
    var more: nat;
    ok, more := s.Bits(DistExtra(symbol));
    if !ok {
      return 2, 0;
    }
    return 0, DistBase(symbol) + more;
  }

  /** The next symbol of a block, with its length and distance when it is a back-reference. */
  method ReadToken(s: State, lencode: Tables, distcode: Tables, ghost ll: seq<nat>, ghost dl: seq<nat>)
    returns (err: int, symbol: int, len: nat, dist: nat)
    requires s.InputValid() && TablesFor(lencode, ll) && TablesFor(distcode, dl) && |dl| <= MAXDCODES
    modifies s`incnt, s`bitbuf, s`bitcnt
    ensures TokenRead(s, err, symbol, len, dist, TokenAt(ll, dl, s.Stream(), old(s.Pos())))
  {
    hide StreamOf, Field, SymbolAt, IsTable, ValidLengths, LengthBase, LengthExtra, DistanceAt;
    len, dist := 0, 0;
    var ok;
    ok, symbol := DecodeSymbol(s, lencode, ll);
    if !ok {
      return 2, symbol, 0, 0;
    }
    if symbol < 0 {
      return symbol, symbol, 0, 0;
    }
    if symbol > 256 {
      if symbol - 257 >= 29 {
        return -9, symbol, 0, 0;
      }
      var more: nat;
      ok, more := s.Bits(LengthExtra(symbol - 257));
      if !ok {
        return 2, symbol, 0, 0;
      }
      len := LengthBase(symbol - 257) + more;
      err, dist := ReadDistance(s, len, distcode, dl);
      return err, symbol, len, dist;
    }
    return 0, symbol, 0, 0;
  }

  method PutLiteral(s: State, b: uint8) returns (err: int)
    requires s.OutputValid()
    modifies s`outcnt, s`produced, s.out
    ensures s.Appended()
    ensures err == if Fits(s.Room(), |old(s.produced)| + 1) then 0 else 1
    ensures s.produced == if err == 0 then old(s.produced) + [b] else old(s.produced)
  {
    if s.out != null {
      if s.outcnt == s.outlen {
        return 1;
      }
      s.out[s.outcnt] := b;
    }
    s.outcnt := s.outcnt + 1;
    s.produced := s.produced + [b];
    return 0;
  }

  /** Copies byte by byte, so that bytes written early in the copy can be read later in it. */
  method PutCopy(s: State, len: nat, dist: nat) returns (err: int)
    requires s.OutputValid() && 0 < dist <= |s.produced|
    modifies s`outcnt, s`produced, s.out
    ensures s.Appended()
    ensures err == if Fits(s.Room(), |old(s.produced)| + len) then 0 else 1
    ensures s.produced == if err == 0 then CopyBack(old(s.produced), len, dist) else old(s.produced)
  {
    hide CopyBack;
    ghost var start := s.produced;
    CopyBackZero(start, dist);
    if s.out != null {
      if s.outcnt + len > s.outlen {
        return 1;
      }
      for i := 0 to len
        invariant s.outcnt == |start| + i && s.OutputValid()
        invariant s.produced == CopyBack(start, i, dist)
        invariant forall j :: s.outcnt <= j < s.out.Length ==> s.out[j] == old(s.out[j])
      {
        CopyBackStep(start, i, dist);
        var b := s.out[s.outcnt - dist];
        assert b == s.produced[s.outcnt - dist];
        s.out[s.outcnt] := b;
        s.outcnt := s.outcnt + 1;
        s.produced := s.produced + [b];
      }
    } else {
      s.outcnt := s.outcnt + len;
      s.produced := CopyBack(start, len, dist);
    }
    return 0;
  }

  lemma CopyBackZero(out: seq<uint8>, dist: nat)
    requires 0 < dist <= |out|
    ensures CopyBack(out, 0, dist) == out
  {
  }

  /** Decodes literals and back-references until the end of the block. */
  method Codes(s: State, lencode: Tables, distcode: Tables, ghost ll: seq<nat>, ghost dl: seq<nat>) returns (err: int)
    requires s.Valid() && TablesFor(lencode, ll) && TablesFor(distcode, dl) && |dl| <= MAXDCODES
    modifies s, s.out
    ensures s.Ended(err, Symbols(ll, dl, s.Stream(), old(s.Pos()), old(s.produced), s.Room())) && s.Appended()
  {
    hide StreamOf, Field, TokenAt, TablesFor;
    ghost var bs := s.Stream();
    ghost var r := Symbols(ll, dl, bs, s.Pos(), s.produced, s.Room());
    while true
      invariant s.Valid() && s.Appended()
      invariant r == Symbols(ll, dl, bs, s.Pos(), s.produced, s.Room())
      decreases |bs| - s.Pos()
    {
      ghost var t := TokenAt(ll, dl, bs, s.Pos());
      var symbol, len, dist;
      err, symbol, len, dist := ReadToken(s, lencode, distcode, ll, dl);
      if err != 0 {
        return;
      }
      if symbol < 256 {
        err := PutLiteral(s, symbol);
        if err != 0 {
          return;
        }
      } else if symbol > 256 {
        if dist > s.outcnt {
          return -10;
        }
        err := PutCopy(s, len, dist);
        if err != 0 {
          return;
        }
      } else {
        return 0;
      }
    }
  }

  // ---------------------------------------------------------------------------------------
  // Fixed codes
  // ---------------------------------------------------------------------------------------

  /** The fixed code lengths, built once in the source and at every use here. */
  method FixedLengths() returns (lengths: array<nat>)
    ensures fresh(lengths) && lengths[..] == FixedLitLengths()
  {
    lengths := new nat[FIXLCODES];
    for symbol := 0 to 144
      invariant forall i :: 0 <= i < symbol ==> lengths[i] == FixedLength(i)
    {
      lengths[symbol] := 8;
    }
    for symbol := 144 to 256
      invariant forall i :: 0 <= i < symbol ==> lengths[i] == FixedLength(i)
    {
      lengths[symbol] := 9;
    }
    for symbol := 256 to 280
      invariant forall i :: 0 <= i < symbol ==> lengths[i] == FixedLength(i)
    {
      lengths[symbol] := 7;
    }
    for symbol := 280 to FIXLCODES
      invariant forall i :: 0 <= i < symbol ==> lengths[i] == FixedLength(i)
    {
      lengths[symbol] := 8;
    }
  }

  method FixedTables() returns (lencode: Tables, distcode: Tables)
    ensures TablesFor(lencode, FixedLitLengths()) && TablesFor(distcode, FixedDistLengths())
  {
    hide Kraft, Pow2, IsTable, FixedLitLengths;
    KraftFixed();
    var lengths := FixedLengths();
    var lencnt, lensym := new nat[MAXBITS + 1], new nat[FIXLCODES];
    var left := Construct(lencnt, lensym, lengths[..]);
    lencode := Tables(lencnt[..], lensym[..]);

    assert |lengths[..]| == FIXLCODES;
    for symbol := 0 to MAXDCODES
      invariant forall i :: 0 <= i < symbol ==> lengths[i] == 5
    {
      lengths[symbol] := 5;
    }
    assert lengths[..MAXDCODES] == FixedDistLengths();
    var distcnt, distsym := new nat[MAXBITS + 1], new nat[MAXDCODES];
    left := Construct(distcnt, distsym, lengths[..MAXDCODES]);
    distcode := Tables(distcnt[..], distsym[..]);
  }

  method FixedBlock(s: State) returns (err: int)
    requires s.Valid()
    modifies s, s.out
    ensures s.Ended(err,
      Symbols(FixedLitLengths(), FixedDistLengths(), s.Stream(), old(s.Pos()), old(s.produced), s.Room()))
    ensures s.Appended()
  {
    hide Symbols, TablesFor;
    var lencode, distcode := FixedTables();
    err := Codes(s, lencode, distcode, FixedLitLengths(), FixedDistLengths());
  }

  // ---------------------------------------------------------------------------------------
  // Dynamic codes
  // ---------------------------------------------------------------------------------------

  /** The code lengths of the code-length code, sent in a permuted order. */
  method ReadCodeLengthLengths(s: State, lengths: array<nat>, ncode: nat) returns (ok: bool)
    requires s.InputValid() && ncode <= 19 <= lengths.Length
    modifies s`incnt, s`bitbuf, s`bitcnt, lengths
    ensures ok <==> old(s.Pos()) + 3 * ncode <= |s.Stream()|
    ensures ok ==> s.InputValid() && s.Pos() == old(s.Pos()) + 3 * ncode
    ensures ok ==> lengths[..19] == CodeLengthLengths(s.Stream(), old(s.Pos()), ncode)
  {
    hide StreamOf, Field, OrderAt, OrderOf;
    ghost var bs, p := s.Stream(), s.Pos();
    for index := 0 to ncode
      invariant s.InputValid() && s.Pos() == p + 3 * index
      invariant forall i :: 0 <= i < 19 && OrderOf(i) < index ==> lengths[i] == Field(bs, p + 3 * OrderOf(i), 3)
    {
      var got, v := s.Bits(3);
      if !got {
        return false;
      }
      lengths[OrderAt(index)] := v;
      OrderInverse(index);
      forall i | 0 <= i < 19 && OrderOf(i) == index ensures i == OrderAt(index) {
        OrderInverse(i);
      }
    }
    for index := ncode to 19
      invariant s.InputValid() && s.Pos() == p + 3 * ncode
      invariant forall i :: 0 <= i < 19 && OrderOf(i) < ncode ==> lengths[i] == Field(bs, p + 3 * OrderOf(i), 3)
      invariant forall i :: 0 <= i < 19 && ncode <= OrderOf(i) < index ==> lengths[i] == 0
    {
      lengths[OrderAt(index)] := 0;
      OrderInverse(index);
      forall i | 0 <= i < 19 && OrderOf(i) == index ensures i == OrderAt(index) {
        OrderInverse(i);
      }
    }
    return true;
  }

  /** The result of reading code lengths, in the first `n` places of the array. */
  ghost predicate LengthsRead(s: State, err: int, lengths: seq<nat>, r: LengthsResult)
    reads s
  {
    match r
    case Lengths(ls, q) => err == 0 && lengths == ls && s.InputValid() && s.Pos() == q
    case BadLengths(code, q) => err == code && BytesFor(s.incnt, q)
    case ShortLengths => err == 2
  }


  /** Repeats a length. */
  method Fill(lengths: array<nat>, index: nat, x: nat, n: nat)
    requires index + n <= lengths.Length
    modifies lengths
    ensures lengths[..index + n] == old(lengths[..index]) + Repeat(x, n)
  {
    ghost var start := lengths[..index];
    for i := 0 to n
      invariant lengths[..index + i] == start + Repeat(x, i)
    {
      lengths[index + i] := x;
      assert lengths[..index + i + 1] == lengths[..index + i] + [x];
    }
  }

  lemma ValidRun(a: seq<nat>, x: nat, n: nat)
    requires ValidLengths(a) && x <= MAXBITS
    ensures ValidLengths(a + Repeat(x, n))
  {
  }

  /** Reads how often a length is repeated, and repeats it. */
  method ReadRun(s: State, lengths: array<nat>, index: nat, x: nat, base: nat, extra: nat, total: nat,
                 ghost cl: seq<nat>)
    returns (err: int, end: nat)
    requires s.InputValid() && x <= MAXBITS && extra > 0 && index <= total <= lengths.Length
    requires ValidLengths(lengths[..index])
    modifies s`incnt, s`bitbuf, s`bitcnt, lengths
    ensures
      var r := RunAt(cl, s.Stream(), old(s.Pos()), total, old(lengths[..index]), x, base, extra);
      && (err != 0 ==> LengthsRead(s, err, lengths[..total], r))
      && (err == 0 ==>
        && s.InputValid() && s.Pos() > old(s.Pos()) && end <= total && ValidLengths(lengths[..end])
        && r == LengthsFrom(cl, s.Stream(), s.Pos(), total, lengths[..end]))
  {
    hide StreamOf, Field, LengthsFrom, Repeat;
    var ok, more := s.Bits(extra);
    if !ok {
      return 2, index;
    }
    var n := base + more;
    if index + n > total {
      return -6, index;
    }
    ValidRun(lengths[..index], x, n);
    Fill(lengths, index, x, n);
    return 0, index + n;
  }

  /** Reads the run-length coded code lengths with the code-length code. */
  method ReadLengths(s: State, h: Tables, lengths: array<nat>, total: nat, ghost cl: seq<nat>) returns (err: int)
    requires s.InputValid() && TablesFor(h, cl) && |cl| == 19 && Kraft(cl) == Pow2(MAXBITS)
    requires total <= lengths.Length
    modifies s`incnt, s`bitbuf, s`bitcnt, lengths
    ensures LengthsRead(s, err, lengths[..total], LengthsFrom(cl, s.Stream(), old(s.Pos()), total, []))
  {
    hide StreamOf, Field, SymbolAt, IsTable, Kraft, Pow2, Repeat;
    ghost var bs := s.Stream();
    var index: nat := 0;
    assert lengths[..index] == [];
    ghost var r := LengthsFrom(cl, bs, s.Pos(), total, lengths[..index]);
    while index < total
      invariant s.InputValid() && index <= total && ValidLengths(lengths[..index])
      invariant r == LengthsFrom(cl, bs, s.Pos(), total, lengths[..index])
      decreases |bs| - s.Pos()
    {
      ghost var acc := lengths[..index];
      CompleteNeverInvalid(cl, bs, s.Pos());
      var ok, symbol := DecodeSymbol(s, h, cl);
      if !ok {
        return 2;
      }
      if symbol < 16 {
        lengths[index] := symbol;
        index := index + 1;
        assert lengths[..index] == acc + [symbol];
      } else {
        var len, base, extra := 0, 3, 2;
        if symbol == 16 {
          if index == 0 {
            return -5;
          }
          len := lengths[index - 1];
        } else if symbol == 17 {
          extra := 3;
        } else {
          base, extra := 11, 7;
        }
        err, index := ReadRun(s, lengths, index, len, base, extra, total, cl);
        if err != 0 {
          return;
        }
      }
    }
    return 0;
  }

  /** What the checks on the result of `Construct` accept. */
  lemma AcceptableCode(lengths: seq<nat>, left: int)
    requires ValidLengths(lengths)
    requires !HasSymbol(lengths) ==> left == 0
    requires HasSymbol(lengths) ==> (left < 0 <==> Kraft(lengths) > Pow2(MAXBITS))
    requires HasSymbol(lengths) && left >= 0 ==> left == Pow2(MAXBITS) - Kraft(lengths)
    ensures Acceptable(lengths) <==> !(left < 0 || (left > 0 && |lengths| - Count(lengths, 0) != 1))
  {
    hide Kraft, Pow2, Count;
    CountAll(lengths, 0);
    KraftPerSymbol(lengths);
    Pow2Double();
  }

  /** The tables of a literal or distance code, refused unless complete or of one symbol. */
  method BuildCode(lengths: seq<nat>) returns (ok: bool, h: Tables)
    requires ValidLengths(lengths)
    ensures ok <==> Acceptable(lengths)
    ensures ok ==> TablesFor(h, lengths)
  {
    hide Kraft, Pow2, Count, IsTable, Acceptable;
    var count, symbol := new nat[MAXBITS + 1], new nat[|lengths|];
    var left := Construct(count, symbol, lengths);
    AcceptableCode(lengths, left);
    h := Tables(count[..], symbol[..]);
    if left < 0 || (left > 0 && |lengths| - count[0] != 1) {
      return false, h;
    }
    return true, h;
  }

  lemma CodeLengthLengthsValid(bs: seq<bit>, p: nat, ncode: nat)
    requires ncode <= 19 && p + 3 * ncode <= |bs|
    ensures ValidLengths(CodeLengthLengths(bs, p, ncode))
  {
    hide Field, Pow2;
    Pow2Small();
    var r := CodeLengthLengths(bs, p, ncode);
    forall i | 0 <= i < 19 ensures r[i] <= MAXBITS {
      if OrderOf(i) < ncode {
        FieldBound(bs, p + 3 * OrderOf(i), 3);
      }
    }
  }

  /** The rest of a dynamic block, once the code-length code is known. */
  method CodedBlockRest(s: State, h: Tables, lengths: array<nat>, nlen: nat, ndist: nat, ghost cl: seq<nat>)
    returns (err: int)
    requires s.Valid() && TablesFor(h, cl) && |cl| == 19 && Kraft(cl) == Pow2(MAXBITS)
    requires ndist <= MAXDCODES && nlen + ndist <= lengths.Length
    requires lengths as object != s.out
    modifies s, s.out, lengths
    ensures s.Ended(err, CodedBlock(cl, nlen, ndist, s.Stream(), old(s.Pos()), old(s.produced), s.Room()))
      && s.Appended()
  {
    hide StreamOf, Field, Kraft, Pow2, LengthsFrom, Symbols, Acceptable, IsTable;
    err := ReadLengths(s, h, lengths, nlen + ndist, cl);
    if err != 0 {
      return;
    }
    ghost var all := lengths[..nlen + ndist];
    assert ValidLengths(all[..nlen]) && ValidLengths(all[nlen..]);
    assert lengths[..nlen] == all[..nlen] && lengths[nlen..nlen + ndist] == all[nlen..];
    var ok, lencode := BuildCode(lengths[..nlen]);
    if !ok {
      return -7;
    }
    var distcode;
    ok, distcode := BuildCode(lengths[nlen..nlen + ndist]);
    if !ok {
      return -8;
    }
    err := Codes(s, lencode, distcode, all[..nlen], all[nlen..]);
  }

  /** The three counts at the start of a dynamic block. */
  method ReadCounts(s: State) returns (ok: bool, nlen: nat, ndist: nat, ncode: nat)
    requires s.InputValid()
    modifies s`incnt, s`bitbuf, s`bitcnt
    ensures ok <==> old(s.Pos()) + 14 <= |s.Stream()|
    ensures ok ==> s.InputValid() && s.Pos() == old(s.Pos()) + 14
    ensures ok ==>
      && nlen == Field(s.Stream(), old(s.Pos()), 5) + 257
      && ndist == Field(s.Stream(), old(s.Pos()) + 5, 5) + 1
      && ncode == Field(s.Stream(), old(s.Pos()) + 10, 4) + 4 <= 19
  {
    hide StreamOf, Field, Pow2;
    ghost var bs, p := s.Stream(), s.Pos();
    var a, b, c;
    ok, a := s.Bits(5);
    if !ok { return false, 0, 0, 0; }
    ok, b := s.Bits(5);
    if !ok { return false, 0, 0, 0; }
    ok, c := s.Bits(4);
    if !ok { return false, 0, 0, 0; }
    Pow2Small();
    FieldBound(bs, p + 10, 4);
    return true, a + 257, b + 1, c + 4;
  }

  ghost predicate NoCodes(h: Tables) {
    HasRoom(h.count, h.symbol) && forall l :: 1 <= l <= MAXBITS ==> h.count[l] == 0
  }

  lemma EmptyTable(cl: seq<nat>, h: Tables)
    requires ValidLengths(cl) && IsTable(cl, h.count, h.symbol) && !HasSymbol(cl)
    ensures NoCodes(h)
  {
    hide Sorted;
    forall l | 1 <= l <= MAXBITS
      ensures h.count[l] == 0
    {
      CountNone(cl, l);
    }
    NothingFrom(h.count, 1);
  }

  lemma {:induction false} CountNone(lengths: seq<nat>, l: nat)
    requires l > 0 && !HasSymbol(lengths)
    ensures Count(lengths, l) == 0
  {
    if lengths != [] {
      var rest := lengths[..|lengths| - 1];
      assert forall i :: 0 <= i < |rest| ==> rest[i] == lengths[i];
      CountNone(rest, l);
    }
  }

  lemma {:induction false} NothingFrom(count: seq<nat>, l: nat)
    requires forall k :: l <= k < |count| ==> count[k] == 0
    ensures SumFrom(count, l) == 0
    decreases |count| - l
  {
    if l < |count| {
      NothingFrom(count, l + 1);
    }
  }

  /** A walk without codes takes the bits of the longest code. */
  lemma {:induction false} NothingMatches(h: Tables, bs: seq<bit>, p: nat, len: nat, code: nat)
    requires NoCodes(h) && 1 <= len <= MAXBITS + 1 && p <= |bs|
    requires SumFrom(h.count, len) <= |h.symbol|
    ensures Walk(h.count, h.symbol, bs, p, len, code, 0, 0) == if p + MAXBITS + 1 - len > |bs| then OutOfInput
      else Invalid
    decreases MAXBITS + 1 - len
  {
    if len <= MAXBITS && p < |bs| {
      NothingMatches(h, bs, p + 1, len + 1, 2 * (code + bs[p]));
    }
  }

  /** The buffered bits, in front of the bytes that were not read yet. */
  ghost function Buffered(s: State): (bs: seq<bit>)
    requires s.incnt <= |s.input| && s.bitcnt < 8 && 0 <= s.Pos() && s.bitbuf < Pow2(s.bitcnt)
    reads s
    ensures s.Continues(bs)
  {
    var bs := s.Stream()[..s.Pos()] + LowBits(s.bitbuf, s.bitcnt) + s.Stream()[8 * s.incnt..];
    ValueOfLowBits(s.bitbuf, s.bitcnt);
    assert bs[s.Pos()..s.Pos() + s.bitcnt] == LowBits(s.bitbuf, s.bitcnt);
    bs
  }

  /** Reads code lengths with a code that has no symbols. */
  method NoLengths(s: State, h: Tables, total: nat) returns (err: int)
    requires s.InputValid() && NoCodes(h)
    modifies s`incnt, s`bitbuf, s`bitcnt
    ensures err == if EmptyCode(|s.Stream()|, old(s.Pos()), total).NeedInput? then 2 else UNDEFINED
  {
    hide StreamOf, Field, Walk, SumFrom, NoCodes, Buffered, Pow2;
    ghost var each := if s.bitcnt == 7 then 1 else 2;
    FieldBound(s.Stream(), s.Pos(), s.bitcnt);
    for index := 0 to total
      invariant s.incnt == old(s.incnt) + each * index <= |s.input|
      invariant s.bitbuf == old(s.bitbuf) < Pow2(s.bitcnt) && s.bitcnt == old(s.bitcnt)
    {
      ghost var bs := Buffered(s);
      NoCodesRoom(h);
      NothingMatches(h, bs, s.Pos(), 1, 0);
      var ok, symbol := s.Decode(h, bs);
      if !ok {
        NotEnough(old(s.incnt), |s.input|, each, index, total);
        return 2;
      }
      // symbol is -9, which is less than 16 and so a length
    }
    return UNDEFINED;
  }

  lemma NoCodesRoom(h: Tables)
    requires NoCodes(h)
    ensures HasRoom(h.count, h.symbol) && SumFrom(h.count, 1) <= |h.symbol|
  {
  }

  lemma NotEnough(incnt: nat, size: nat, each: nat, index: nat, total: nat)
    requires index < total && incnt + each * index + each > size
    ensures size - incnt < each * total
  {
    assert each * (index + 1) <= each * total;
  }

  /** The code-length code: `kind` is 0 when it is complete, -4 when not, and UNDEFINED when it is empty. */
  method BuildCodeLengthCode(cl: seq<nat>) returns (kind: int, h: Tables)
    requires ValidLengths(cl) && |cl| == 19
    ensures kind == if !HasSymbol(cl) then UNDEFINED else if Kraft(cl) != Pow2(MAXBITS) then -4 else 0
    ensures kind == 0 ==> TablesFor(h, cl)
    ensures kind == UNDEFINED ==> NoCodes(h)
  {
    hide Kraft, Pow2, Count, IsTable;
    var count, symbol := new nat[MAXBITS + 1], new nat[MAXLCODES];
    var left := Construct(count, symbol, cl);
    h := Tables(count[..], symbol[..]);
    CountAll(cl, 0);
    if left != 0 {
      return -4, h;
    }
    if count[0] == 19 {
      EmptyTable(cl, h);
      return UNDEFINED, h;
    }
    return 0, h;
  }

  method DynamicBlock(s: State) returns (err: int)
    requires s.Valid()
    modifies s, s.out
    ensures s.Ended(err, Dynamic(s.Stream(), old(s.Pos()), old(s.produced), s.Room())) && s.Appended()
  {
    hide StreamOf, Field, Kraft, Pow2, CodedBlock, CodeLengthLengths, HasSymbol, Extends;
    ghost var p := s.Pos();
    var ok, nlen, ndist, ncode := ReadCounts(s);
    if !ok {
      return 2;
    }
    if nlen > MAXLCODES || ndist > MAXDCODES {
      return -3;
    }
    err := DynamicCodes(s, nlen, ndist, ncode, p);
  }

  /** The rest of a dynamic block at `p`, after the numbers of codes. */
  method DynamicCodes(s: State, nlen: nat, ndist: nat, ncode: nat, ghost p: nat) returns (err: int)
    requires s.Valid() && s.Pos() == p + 14 && nlen <= MAXLCODES && ndist <= MAXDCODES
    requires nlen == Field(s.Stream(), p, 5) + 257 && ndist == Field(s.Stream(), p + 5, 5) + 1
    requires ncode == Field(s.Stream(), p + 10, 4) + 4 && ncode <= 19
    modifies s, s.out
    ensures s.Ended(err, Dynamic(s.Stream(), p, old(s.produced), s.Room())) && s.Appended()
  {
    hide StreamOf, Field, Kraft, Pow2, CodedBlock, TablesFor, CodeLengthLengths, HasSymbol, Extends;
    ghost var bs := s.Stream();
    var lengths := new nat[MAXLCODES + MAXDCODES];
    var ok := ReadCodeLengthLengths(s, lengths, ncode);
    if !ok {
      return 2;
    }
    CodeLengthLengthsValid(bs, p + 14, ncode);
    var cl := lengths[..19];
    var h;
    err, h := BuildCodeLengthCode(cl);
    if err == UNDEFINED {
      err := NoLengths(s, h, nlen + ndist);
      return;
    }
    if err != 0 {
      return;
    }
    err := CodedBlockRest(s, h, lengths, nlen, ndist, cl);
  }

  // ---------------------------------------------------------------------------------------
  // The whole stream
  // ---------------------------------------------------------------------------------------

  method OneBlock(s: State, kind: nat) returns (err: int)
    requires s.Valid()
    modifies s, s.out
    ensures s.Ended(err, Block(kind, s.Stream(), old(s.Pos()), old(s.produced), s.Room())) && s.Appended()
  {
    hide StreamOf, Stored, Symbols, Dynamic;
    if kind == 0 {
      err := StoredBlock(s);
    } else if kind == 1 {
      err := FixedBlock(s);
    } else if kind == 2 {
      err := DynamicBlock(s);
    } else {
      err := -1;
    }
  }

  method AllBlocks(s: State) returns (err: int)
    requires s.Valid()
    modifies s, s.out
    ensures s.Ended(err, Blocks(s.Stream(), old(s.Pos()), old(s.produced), s.Room())) && s.Appended()
  {
    hide StreamOf, Field, Block;
    ghost var bs := s.Stream();
    ghost var r := Blocks(bs, s.Pos(), s.produced, s.Room());
    while true
      invariant s.Valid() && s.Appended()
      invariant r == Blocks(bs, s.Pos(), s.produced, s.Room())
      decreases |bs| - s.Pos()
    {
      ghost var p := s.Pos();
      var ok, last := s.Bits(1);
      if !ok { return 2; }
      FieldOne(bs, p);
      var kind: nat;
      ok, kind := s.Bits(2);
      if !ok { return 2; }
      err := OneBlock(s, kind);
      if err != 0 || last == 1 {
        return;
      }
    }
  }

  /**
    Inflates `source` into `dest`, or only measures it when `dest` is null. The new output and
    input sizes are returned; they are the given ones when there was too little input or output.
   */
  method Puff(dest: array?<uint8>, destlen: nat, source: seq<uint8>)
    returns (err: int, newDestlen: nat, newSourcelen: nat)
    requires dest != null ==> destlen <= dest.Length
    modifies dest
    ensures var r := Inflate(source, if dest == null then Unlimited else Limited(destlen));
      match r
      case Done(p, out) => err == 0 && newDestlen == |out| && BytesFor(newSourcelen, p)
      case Failed(code, p, out) => err == code && newDestlen == |out| && BytesFor(newSourcelen, p)
      case NeedInput => err == 2 && newDestlen == destlen && newSourcelen == |source|
      case NeedOutput => err == 1 && newDestlen == destlen && newSourcelen == |source|
      case Undefined => err == UNDEFINED
    ensures var r := Inflate(source, if dest == null then Unlimited else Limited(destlen));
      dest != null && (r.Done? || r.Failed?) ==>
        && newDestlen <= dest.Length
        && dest[..newDestlen] == r.out
        && forall i :: newDestlen <= i < dest.Length ==> dest[i] == old(dest[i])
  {
    hide StreamOf, Blocks;
    var s := new State(dest, destlen, source);
    err := AllBlocks(s);
    newDestlen, newSourcelen := destlen, |source|;
    if err <= 0 {
      newDestlen, newSourcelen := s.outcnt, s.incnt;
    }
  }
}
