/**
  Decoding the canonical encoding of a value rebuilds the value.
 */
module LazyBdecodeProof {
  import opened Basics
  import opened Bencode
  import opened LazyBdecode

  // ---------------------------------------------------------------------------------------
  // The entries that a value is decoded to
  // ---------------------------------------------------------------------------------------

  function EntryOf(pos: nat, v: Value): Entry
    decreases v, 1
  {
    match v
    case Int(n) => IntEntry(pos + 1, Unsigned32(|Signed(n)|))
    case Str(s) => StringEntry(pos + |Decimal(|s|)| + 1, Unsigned32(|s|))
    case List(items) => ListEntry(pos, Unsigned32(|Encode(v)|), EntriesOf(pos + 1, items))
    case Dict(entries) => DictEntry(pos, Unsigned32(|Encode(v)|), NamedOf(pos + 1, entries))
  }

  function EntriesOf(pos: nat, items: seq<Value>): seq<Entry>
    decreases items, 0
  {
    if items == [] then [] else [EntryOf(pos, items[0])] + EntriesOf(pos + |Encode(items[0])|, items[1..])
  }

  function NamedOf(pos: nat, entries: seq<Pair>): seq<Named>
    decreases entries, 0
  {
    if entries == [] then []
    else
      var p := pos + |EncodeStr(entries[0].key)|;
      [Named(pos + |Decimal(|entries[0].key|)| + 1, EntryOf(p, entries[0].val))]
        + NamedOf(p + |Encode(entries[0].val)|, entries[1..])
  }

  // ---------------------------------------------------------------------------------------
  // Scanning
  // ---------------------------------------------------------------------------------------

  lemma {:induction false} ParsesDigits(buf: string, start: nat, end: nat, ds: string, delimiter: char, val: nat)
    requires end <= |buf| && At(buf, start, ds) && start + |ds| <= end
    requires !IsDigit(delimiter)
    requires start + |ds| < end ==> buf[start + |ds|] == delimiter
    requires forall i :: 0 <= i < |ds| ==> IsDigit(ds[i])
    ensures ParsedInt(buf, start, end, delimiter, Wrap64(val)) == Parsed(start + |ds|, Wrap64(Number(ds, val)))
    decreases ds
  {
    if ds != [] {
      AtItem(buf, start, ds, 0);
      AtSplit(buf, start, ds[..1], ds[1..]) by { assert ds[..1] + ds[1..] == ds; }
      WrapStep(val, DigitValue(ds[0]));
      ParsesDigits(buf, start + 1, end, ds[1..], delimiter, val * 10 + DigitValue(ds[0]));
    }
  }

  /** A length prefix: its first digit has been read, the rest up to the colon is parsed. */
  lemma ParsesLength(buf: string, pos: nat, n: nat)
    requires At(buf, pos, Decimal(n) + ":") && n <= MAX64
    ensures IsDigit(buf[pos])
    ensures ParsedInt(buf, pos + 1, |buf|, ':', DigitValue(buf[pos])) == Parsed(pos + |Decimal(n)|, n)
  {
    hide Decimal, ParsedInt, Number, At;
    var ds := Decimal(n);
    FirstAndRest(n);
    LengthAt(buf, pos, ds);
    ParsesDigits(buf, pos + 1, |buf|, ds[1..], ':', DigitValue(ds[0]));
  }

  lemma FirstAndRest(n: nat)
    ensures
      var ds := Decimal(n);
      && ds != [] && (forall i :: 0 <= i < |ds| ==> IsDigit(ds[i])) && Number(ds[1..], DigitValue(ds[0])) == n
  {
    hide Decimal;
    NumberOfDecimal(n);
  }

  lemma LengthAt(buf: string, pos: nat, ds: string)
    requires ds != [] && At(buf, pos, ds + ":")
    ensures pos + |ds| < |buf| && buf[pos] == ds[0] && buf[pos + |ds|] == ':' && At(buf, pos + 1, ds[1..])
  {
    AtSplit(buf, pos, ds, ":");
    AtItem(buf, pos, ds, 0);
    AtItem(buf, pos + |ds|, ":", 0);
    assert ds[..1] + ds[1..] == ds;
    AtSplit(buf, pos, ds[..1], ds[1..]);
  }

  lemma {:induction false} FindsChar(buf: string, start: nat, w: string, c: char)
    requires At(buf, start, w + [c]) && c !in w
    ensures FindFrom(buf, start, c) == start + |w|
    decreases w
  {
    AtItem(buf, start, w + [c], 0);
    if w != [] {
      assert w + [c] == w[..1] + (w[1..] + [c]);
      AtSplit(buf, start, w[..1], w[1..] + [c]);
      FindsChar(buf, start + 1, w[1..], c);
    }
  }

  lemma SignedHasNoE(n: int)
    ensures 'e' !in Signed(n)
  {
    DecimalDigits(Abs(n));
  }

  lemma {:induction false} NumDigitsIsLength(n: nat)
    ensures NumDigits(n) == |Decimal(n)|
  {
    if n >= 10 {
      NumDigitsIsLength(n / 10);
    }
  }

  // ---------------------------------------------------------------------------------------
  // Running over an encoding
  // ---------------------------------------------------------------------------------------

  /** What the run comes to after a step. */
  function After(buf: string, depthLimit: int, r: Step): Decoded
    requires r.Next? ==> r.st.pos <= |buf|
  {
    match r
    case Next(st) => Run(buf, depthLimit, st)
    case Failed(e, at) => Bad(e, at)
    case Astray => Undefined
  }

  lemma FirstChar(v: Value)
    ensures Encode(v)[0] != 'e'
  {
    if v.Str? {
      DecimalDigits(|v.s|);
    }
  }

  /** Reading a value: the machine gets to where the value's entry is attached. */
  lemma {:induction false} ReadsValue(buf: string, depthLimit: int, pos: nat, v: Value, below: seq<Frame>, limit: int,
                                      root: Entry)
    requires |buf| <= MAX64
    requires At(buf, pos, Encode(v))
    requires Count(v) < limit && |below| + Nesting(v) <= depthLimit && Width(v) <= MOST
    ensures var r := ReadValue(buf, buf[pos], pos + 1, below, limit, root);
      && r.Next?
      && Run(buf, depthLimit, r.st) ==
         Run(buf, depthLimit, Attach(below, EntryOf(pos, v), pos + |Encode(v)|, limit - Count(v), root))
    decreases v, 1
  {
    hide Run, Attach, ReadValue, Encode, EntryOf, Count, Nesting, Width, At;
    match v {
      case Int(n) =>
        ScalarUnfolds(v);
        ReadsInt(buf, pos, n, below, limit, root);
      case Str(s) =>
        ScalarUnfolds(v);
        ReadsString(buf, pos, s, below, limit, root);
      case List(items) => ReadsList(buf, depthLimit, pos, items, below, limit, root);
      case Dict(entries) => ReadsDict(buf, depthLimit, pos, entries, below, limit, root);
    }
  }

  lemma {:induction false} ReadsList(buf: string, depthLimit: int, pos: nat, items: seq<Value>, below: seq<Frame>,
                                     limit: int, root: Entry)
    requires |buf| <= MAX64 && At(buf, pos, Encode(List(items)))
    requires Count(List(items)) < limit && |below| + Nesting(List(items)) <= depthLimit && Width(List(items)) <= MOST
    ensures
      var r, v := ReadValue(buf, buf[pos], pos + 1, below, limit, root), List(items);
      && r.Next?
      && Run(buf, depthLimit, r.st) ==
         Run(buf, depthLimit, Attach(below, EntryOf(pos, v), pos + |Encode(v)|, limit - Count(v), root))
    decreases items, 1
  {
    hide Run, Attach, ReadValue, Encode, EncodeItems, EntryOf, EntriesOf, Count, ItemsCount, Nesting, ItemsNesting,
      Width, ItemsWidth;
    ListUnfolds(pos, items);
    AtSplit(buf, pos, "l", EncodeItems(items) + "e");
    AtItem(buf, pos, "l", 0);
    OpensContainer(buf, pos + 1, below, limit, root);
    var end := pos + 1 + |EncodeItems(items)|;
    AtSplit(buf, pos + 1, EncodeItems(items), "e");
    AtItem(buf, end, "e", 0);
    ItemsRead(buf, depthLimit, pos + 1, items, below, pos, [], limit - 1, root);
    assert [] + EntriesOf(pos + 1, items) == EntriesOf(pos + 1, items);
    ClosesList(buf, depthLimit, end, below, pos, EntriesOf(pos + 1, items), limit - Count(List(items)), root);
  }

  lemma {:induction false} ReadsDict(buf: string, depthLimit: int, pos: nat, entries: seq<Pair>, below: seq<Frame>,
                                     limit: int, root: Entry)
    requires |buf| <= MAX64 && At(buf, pos, Encode(Dict(entries)))
    requires Count(Dict(entries)) < limit && |below| + Nesting(Dict(entries)) <= depthLimit
    requires Width(Dict(entries)) <= MOST
    ensures
      var r, v := ReadValue(buf, buf[pos], pos + 1, below, limit, root), Dict(entries);
      && r.Next?
      && Run(buf, depthLimit, r.st) ==
         Run(buf, depthLimit, Attach(below, EntryOf(pos, v), pos + |Encode(v)|, limit - Count(v), root))
    decreases entries, 1
  {
    hide Run, Attach, ReadValue, Encode, EncodeEntries, EntryOf, NamedOf, Count, EntriesCount, Nesting, EntriesNesting,
      Width, EntriesWidth;
    DictUnfolds(pos, entries);
    AtSplit(buf, pos, "d", EncodeEntries(entries) + "e");
    AtItem(buf, pos, "d", 0);
    OpensContainer(buf, pos + 1, below, limit, root);
    var end := pos + 1 + |EncodeEntries(entries)|;
    AtSplit(buf, pos + 1, EncodeEntries(entries), "e");
    AtItem(buf, end, "e", 0);
    var name := EntriesRead(buf, depthLimit, pos + 1, entries, below, pos, [], 0, limit - 1, root);
    assert [] + NamedOf(pos + 1, entries) == NamedOf(pos + 1, entries);
    ClosesDict(buf, depthLimit, end, below, pos, NamedOf(pos + 1, entries), name, limit - Count(Dict(entries)), root);
  }

  lemma ScalarUnfolds(v: Value)
    requires v.Int? || v.Str?
    ensures Count(v) == 1 && Nesting(v) == 0 && Width(v) == 0 && (v.Str? ==> Encode(v) == EncodeStr(v.s))
  {
  }

  lemma ListUnfolds(pos: nat, items: seq<Value>)
    ensures
      var v := List(items);
      && Encode(v) == "l" + (EncodeItems(items) + "e")
      && Count(v) == 1 + ItemsCount(items) && Nesting(v) == 1 + ItemsNesting(items)
      && Width(v) == Max(|items|, ItemsWidth(items))
      && EntryOf(pos, v) == ListEntry(pos, Unsigned32(|Encode(v)|), EntriesOf(pos + 1, items))
  {
    assert "l" + EncodeItems(items) + "e" == "l" + (EncodeItems(items) + "e");
  }

  lemma DictUnfolds(pos: nat, entries: seq<Pair>)
    ensures
      var v := Dict(entries);
      && Encode(v) == "d" + (EncodeEntries(entries) + "e")
      && Count(v) == 1 + EntriesCount(entries) && Nesting(v) == 1 + EntriesNesting(entries)
      && Width(v) == Max(|entries|, EntriesWidth(entries))
      && EntryOf(pos, v) == DictEntry(pos, Unsigned32(|Encode(v)|), NamedOf(pos + 1, entries))
  {
    assert "d" + EncodeEntries(entries) + "e" == "d" + (EncodeEntries(entries) + "e");
  }

  lemma OpensContainer(buf: string, start: nat, below: seq<Frame>, limit: int, root: Entry)
    requires 0 < start <= |buf| && limit > 1
    ensures ReadValue(buf, 'l', start, below, limit, root) ==
      Next(State(start, below + [ListFrame(start - 1, [])], limit - 1, root))
    ensures ReadValue(buf, 'd', start, below, limit, root) ==
      Next(State(start, below + [DictFrame(start - 1, [], 0)], limit - 1, root))
  {
  }

  lemma ItemsUnfold(pos: nat, items: seq<Value>)
    requires items != []
    ensures var v, tail := items[0], items[1..];
      && EncodeItems(items) == Encode(v) + EncodeItems(tail)
      && EncodeItems(items) + "e" == Encode(v) + (EncodeItems(tail) + "e")
      && |EncodeItems(items)| == |Encode(v)| + |EncodeItems(tail)|
      && EntriesOf(pos, items) == [EntryOf(pos, v)] + EntriesOf(pos + |Encode(v)|, tail)
      && ItemsCount(items) == Count(v) + ItemsCount(tail)
      && ItemsNesting(items) == Max(Nesting(v), ItemsNesting(tail))
      && ItemsWidth(items) == Max(Width(v), ItemsWidth(tail))
  {
    hide Encode, EntryOf, Count, Nesting, Width;
    assert Encode(items[0]) + EncodeItems(items[1..]) + "e" == Encode(items[0]) + (EncodeItems(items[1..]) + "e");
  }

  lemma EntriesUnfold(pos: nat, entries: seq<Pair>)
    requires entries != []
    ensures var key, v, tail := entries[0].key, entries[0].val, entries[1..];
      var p := pos + |EncodeStr(key)|;
      && EncodeEntries(entries) == EncodeStr(key) + (Encode(v) + EncodeEntries(tail))
      && |EncodeEntries(entries)| == |EncodeStr(key)| + |Encode(v)| + |EncodeEntries(tail)|
      && NamedOf(pos, entries) == [Named(pos + |Decimal(|key|)| + 1, EntryOf(p, v))] + NamedOf(p + |Encode(v)|, tail)
      && EntriesCount(entries) == Count(v) + EntriesCount(tail)
      && EntriesNesting(entries) == Max(Nesting(v), EntriesNesting(tail))
      && EntriesWidth(entries) == Max(Width(v), EntriesWidth(tail))
  {
    hide Encode, EntryOf, Count, Nesting, Width, EncodeStr, Decimal;
    var a, b, c := EncodeStr(entries[0].key), Encode(entries[0].val), EncodeEntries(entries[1..]);
    assert a + b + c == a + (b + c);
  }

  lemma EntriesText(entries: seq<Pair>)
    requires entries != []
    ensures EncodeEntries(entries) ==
      EncodeStr(entries[0].key) + (Encode(entries[0].val) + EncodeEntries(entries[1..]))
  {
    hide Encode, EncodeStr;
    var a, b, c := EncodeStr(entries[0].key), Encode(entries[0].val), EncodeEntries(entries[1..]);
    assert a + b + c == a + (b + c);
  }

  /** Where the parts of the first entry, and the rest, stand. */
  lemma EntryAt(buf: string, pos: nat, entries: seq<Pair>, tail: string)
    requires entries != [] && At(buf, pos, EncodeEntries(entries) + tail)
    ensures
      var key, v, p := entries[0].key, entries[0].val, pos + |EncodeStr(entries[0].key)|;
      && At(buf, pos, EncodeStr(key)) && At(buf, p, Encode(v)) && p + 2 <= |buf|
      && At(buf, p + |Encode(v)|, EncodeEntries(entries[1..]) + tail)
  {
    hide Encode, EncodeStr, EncodeEntries, At;
    var key, v, rest := entries[0].key, entries[0].val, EncodeEntries(entries[1..]) + tail;
    EntriesText(entries);
    Reassociate(EncodeStr(key), Encode(v), EncodeEntries(entries[1..]), tail);
    AtSplit(buf, pos, EncodeStr(key), Encode(v) + rest);
    AtSplit(buf, pos + |EncodeStr(key)|, Encode(v), rest);
    AtBound(buf, pos + |EncodeStr(key)|, Encode(v));
  }

  lemma Reassociate(a: string, b: string, c: string, d: string)
    ensures a + (b + c) + d == a + (b + (c + d))
  {
  }

  lemma AtBound(buf: string, pos: nat, w: string)
    requires At(buf, pos, w)
    ensures pos + |w| <= |buf|
  {
  }

  lemma ReadsInt(buf: string, pos: nat, n: int, below: seq<Frame>, limit: int, root: Entry)
    requires At(buf, pos, Encode(Int(n))) && 1 < limit
    ensures ReadValue(buf, buf[pos], pos + 1, below, limit, root) ==
            Next(Attach(below, EntryOf(pos, Int(n)), pos + |Encode(Int(n))|, limit - 1, root))
  {
    hide FindFrom, Attach, Signed, ParsedInt;
    var w := Signed(n) + "e";
    assert Encode(Int(n)) == "i" + w;
    AtSplit(buf, pos, "i", w);
    AtItem(buf, pos, "i", 0);
    SignedHasNoE(n);
    assert w == Signed(n) + ['e'];
    FindsChar(buf, pos + 1, Signed(n), 'e');
  }

  lemma ReadsString(buf: string, pos: nat, s: string, below: seq<Frame>, limit: int, root: Entry)
    requires |buf| <= MAX64
    requires At(buf, pos, EncodeStr(s)) && 1 < limit
    ensures ReadValue(buf, buf[pos], pos + 1, below, limit, root) ==
            Next(Attach(below, EntryOf(pos, Str(s)), pos + |EncodeStr(s)|, limit - 1, root))
  {
    hide FindFrom, Attach, Decimal, ParsedInt;
    AtSplit(buf, pos, Decimal(|s|) + ":", s);
    ParsesLength(buf, pos, |s|);
  }

  /** Reading the values of an open list. */
  lemma {:induction false} ItemsRead(buf: string, depthLimit: int, pos: nat, items: seq<Value>, below: seq<Frame>,
                                     begin: nat, done: seq<Entry>, limit: int, root: Entry)
    requires |buf| <= MAX64 && At(buf, pos, EncodeItems(items))
    requires ItemsCount(items) < limit && |below| + 1 + ItemsNesting(items) <= depthLimit
    requires ItemsWidth(items) <= MOST && |done| + |items| <= MOST
    ensures pos + |EncodeItems(items)| <= |buf|
    ensures
      Run(buf, depthLimit, State(pos, below + [ListFrame(begin, done)], limit, root)) ==
      Run(buf, depthLimit, State(pos + |EncodeItems(items)|, below + [ListFrame(begin, done + EntriesOf(pos, items))],
        limit - ItemsCount(items), root))
    decreases items, 0
  {
    hide Run, Attach, ReadValue, Encode, EncodeItems, EntryOf, EntriesOf, Count, ItemsCount, Nesting, ItemsNesting,
      Width, ItemsWidth;
    var stack := below + [ListFrame(begin, done)];
    if items == [] {
      NothingEncoded(pos);
      assert done + [] == done;
    } else {
      var v := items[0];
      ItemsUnfold(pos, items);
      AtSplit(buf, pos, Encode(v), EncodeItems(items[1..]));
      AtItem(buf, pos, Encode(v), 0);
      FirstChar(v);
      ListTurn(buf, depthLimit, State(pos, stack, limit, root));
      ReadsValue(buf, depthLimit, pos, v, stack, limit, root);
      var e, next := EntryOf(pos, v), pos + |Encode(v)|;
      AttachToList(below, begin, done, e, next, limit - Count(v), root);
      ItemsRead(buf, depthLimit, next, items[1..], below, begin, done + [e], limit - Count(v), root);
      assert done + EntriesOf(pos, items) == (done + [e]) + EntriesOf(next, items[1..]);
    }
  }

  lemma NothingEncoded(pos: nat)
    ensures EncodeItems([]) == "" && EntriesOf(pos, []) == [] && ItemsCount([]) == 0
    ensures EncodeEntries([]) == "" && NamedOf(pos, []) == [] && EntriesCount([]) == 0
  {
  }

  lemma AttachToList(below: seq<Frame>, begin: nat, done: seq<Entry>, e: Entry, pos: nat, limit: int, root: Entry)
    ensures Attach(below + [ListFrame(begin, done)], e, pos, limit, root) ==
            State(pos, below + [ListFrame(begin, done + [e])], limit, root)
  {
    var stack := below + [ListFrame(begin, done)];
    assert stack[|below| := ListFrame(begin, done + [e])] == below + [ListFrame(begin, done + [e])];
  }

  /** A turn on an open list, at the start of a value. */
  lemma ListTurn(buf: string, depthLimit: int, st: State)
    requires st.stack != [] && st.stack[|st.stack| - 1].ListFrame? && |st.stack| <= depthLimit
    requires st.pos + 1 < |buf| && buf[st.pos] != 'e'
    ensures |st.stack[|st.stack| - 1].items| >= MOST ==> Run(buf, depthLimit, st) == Undefined
    ensures |st.stack[|st.stack| - 1].items| < MOST ==>
      Run(buf, depthLimit, st) ==
      After(buf, depthLimit, ReadValue(buf, buf[st.pos], st.pos + 1, st.stack, st.limit, st.root))
  {
    hide ReadValue;
  }

  lemma ClosesList(buf: string, depthLimit: int, pos: nat, below: seq<Frame>, begin: nat, done: seq<Entry>, limit: int,
                   root: Entry)
    requires pos < |buf| && buf[pos] == 'e' && begin <= pos && |below| + 1 <= depthLimit
    ensures Run(buf, depthLimit, State(pos, below + [ListFrame(begin, done)], limit, root)) ==
            Run(buf, depthLimit,
              Attach(below, ListEntry(begin, Unsigned32(pos + 1 - begin), done), pos + 1, limit, root))
  {
    hide ReadValue, ReadKey, Attach;
    var stack := below + [ListFrame(begin, done)];
    assert stack[..|below|] == below;
  }

  /** One entry of a dictionary is read, its key and its value. */
  lemma {:induction false} RunsEntry(buf: string, depthLimit: int, pos: nat, key: string, v: Value, below: seq<Frame>,
                                     begin: nat, done: seq<Named>, name: nat, limit: int, root: Entry)
    requires |buf| <= MAX64 && pos + |EncodeStr(key)| + 2 <= |buf|
    requires At(buf, pos, EncodeStr(key)) && At(buf, pos + |EncodeStr(key)|, Encode(v))
    requires Count(v) < limit && |below| + 1 + Nesting(v) <= depthLimit && Width(v) <= MOST && |done| < MOST
    ensures
      var p, start := pos + |EncodeStr(key)|, pos + |Decimal(|key|)| + 1;
      var f := DictFrame(begin, done + [Named(start, EntryOf(p, v))], start);
      Run(buf, depthLimit, State(pos, below + [DictFrame(begin, done, name)], limit, root)) ==
      Run(buf, depthLimit, State(p + |Encode(v)|, below + [f], limit - Count(v), root))
    decreases v, 2
  {
    hide Run, Attach, ReadValue, Encode, EncodeStr, EntryOf, Count, Nesting, Width, Decimal;
    var p, start := pos + |EncodeStr(key)|, pos + |Decimal(|key|)| + 1;
    DictTurn(buf, depthLimit, pos, key, below, begin, done, name, limit, root);
    ReadsValue(buf, depthLimit, p, v, below + [DictFrame(begin, done, start)], limit, root);
    AttachToDict(below, begin, done, start, EntryOf(p, v), p + |Encode(v)|, limit - Count(v), root);
  }

  /** Reading the entries of an open dictionary; `last` is where the last key stands. */
  lemma {:induction false} EntriesRead(buf: string, depthLimit: int, pos: nat, entries: seq<Pair>, below: seq<Frame>,
                                       begin: nat, done: seq<Named>, name: nat, limit: int, root: Entry)
    returns (last: nat)
    requires |buf| <= MAX64 && At(buf, pos, EncodeEntries(entries))
    requires EntriesCount(entries) < limit && |below| + 1 + EntriesNesting(entries) <= depthLimit
    requires EntriesWidth(entries) <= MOST && |done| + |entries| <= MOST
    ensures pos + |EncodeEntries(entries)| <= |buf|
    ensures
      var f := DictFrame(begin, done + NamedOf(pos, entries), last);
      Run(buf, depthLimit, State(pos, below + [DictFrame(begin, done, name)], limit, root)) ==
      Run(buf, depthLimit, State(pos + |EncodeEntries(entries)|, below + [f], limit - EntriesCount(entries), root))
    decreases entries, 0
  {
    hide Run, Attach, ReadValue, Encode, EncodeStr, EncodeEntries, EntryOf, NamedOf, Count, EntriesCount, Nesting,
      EntriesNesting, Width, EntriesWidth, Decimal, At;
    AtBound(buf, pos, EncodeEntries(entries));
    if entries == [] {
      NothingEncoded(pos);
      assert done + [] == done;
      last := name;
    } else {
      var key, v := entries[0].key, entries[0].val;
      EntriesUnfold(pos, entries);
      assert EncodeEntries(entries) + "" == EncodeEntries(entries);
      EntryAt(buf, pos, entries, "");
      assert EncodeEntries(entries[1..]) + "" == EncodeEntries(entries[1..]);
      var p, start := pos + |EncodeStr(key)|, pos + |Decimal(|key|)| + 1;
      RunsEntry(buf, depthLimit, pos, key, v, below, begin, done, name, limit, root);
      var e, next := EntryOf(p, v), p + |Encode(v)|;
      last := EntriesRead(buf, depthLimit, next, entries[1..], below, begin, done + [Named(start, e)], start,
                          limit - Count(v), root);
      assert done + NamedOf(pos, entries) == (done + [Named(start, e)]) + NamedOf(next, entries[1..]);
    }
  }

  lemma AttachToDict(below: seq<Frame>, begin: nat, done: seq<Named>, name: nat, e: Entry, pos: nat, limit: int,
                     root: Entry)
    ensures Attach(below + [DictFrame(begin, done, name)], e, pos, limit, root) ==
            State(pos, below + [DictFrame(begin, done + [Named(name, e)], name)], limit, root)
  {
    var stack := below + [DictFrame(begin, done, name)];
    var f := DictFrame(begin, done + [Named(name, e)], name);
    assert stack[|below| := f] == below + [f];
  }

  /** A turn on an open dictionary: the key is read and the value's first character. */
  lemma DictTurn(buf: string, depthLimit: int, pos: nat, key: string, below: seq<Frame>, begin: nat, done: seq<Named>,
                 name: nat, limit: int, root: Entry)
    requires |buf| <= MAX64
    requires At(buf, pos, EncodeStr(key)) && pos + |EncodeStr(key)| + 2 <= |buf| && |below| + 1 <= depthLimit
    ensures var p := pos + |EncodeStr(key)|;
      var r := ReadValue(buf, buf[p], p + 1, below + [DictFrame(begin, done, pos + |Decimal(|key|)| + 1)], limit, root);
      Run(buf, depthLimit, State(pos, below + [DictFrame(begin, done, name)], limit, root)) ==
        if |done| >= MOST then Undefined else After(buf, depthLimit, r)
  {
    hide ReadValue, Decimal, ParsedInt;
    AtSplit(buf, pos, Decimal(|key|) + ":", key);
    ParsesLength(buf, pos, |key|);
    var stack := below + [DictFrame(begin, done, name)];
    var f := DictFrame(begin, done, pos + |Decimal(|key|)| + 1);
    assert stack[|below| := f] == below + [f];
  }

  lemma ClosesDict(buf: string, depthLimit: int, pos: nat, below: seq<Frame>, begin: nat, done: seq<Named>, name: nat,
                   limit: int, root: Entry)
    requires pos < |buf| && buf[pos] == 'e' && begin <= pos && |below| + 1 <= depthLimit
    ensures Run(buf, depthLimit, State(pos, below + [DictFrame(begin, done, name)], limit, root)) ==
            Run(buf, depthLimit,
              Attach(below, DictEntry(begin, Unsigned32(pos + 1 - begin), done), pos + 1, limit, root))
  {
    hide ReadValue, ReadKey, Attach;
    var stack := below + [DictFrame(begin, done, name)];
    assert stack[..|below|] == below;
  }

  // ---------------------------------------------------------------------------------------
  // Values beyond the limits
  // ---------------------------------------------------------------------------------------

  /**
    A value within a value: where it begins, how many lists and dictionaries are around it, how many
    values are before it in the innermost of these, and whether it is itself one.
   */
  datatype Visit = Visit(pos: nat, depth: nat, rank: nat, opens: bool)

  /** All values in the order in which they begin. */
  function Visits(pos: nat, v: Value, depth: nat, rank: nat): (xs: seq<Visit>)
    ensures xs != []
    decreases v, 1
  {
    match v
    case Int(_) => [Visit(pos, depth, rank, false)]
    case Str(_) => [Visit(pos, depth, rank, false)]
    case List(items) => [Visit(pos, depth, rank, true)] + ItemVisits(pos + 1, items, depth + 1, 0)
    case Dict(entries) => [Visit(pos, depth, rank, true)] + EntryVisits(pos + 1, entries, depth + 1, 0)
  }

  function ItemVisits(pos: nat, items: seq<Value>, depth: nat, rank: nat): seq<Visit>
    decreases items, 0
  {
    if items == [] then []
    else Visits(pos, items[0], depth, rank) + ItemVisits(pos + |Encode(items[0])|, items[1..], depth, rank + 1)
  }

  function EntryVisits(pos: nat, entries: seq<Pair>, depth: nat, rank: nat): seq<Visit>
    decreases entries, 0
  {
    if entries == [] then []
    else
      var p := pos + |EncodeStr(entries[0].key)|;
      Visits(p, entries[0].val, depth, rank)
        + EntryVisits(p + |Encode(entries[0].val)|, entries[1..], depth, rank + 1)
  }

  /** A value is one too many for its list, or for the limit of which `left` is left, or opens one level too many. */
  predicate Trouble(x: Visit, left: int, depthLimit: int) {
    x.rank >= MOST || left <= 1 || (x.opens && x.depth >= depthLimit)
  }

  /** What is reported of it, just after its first character. */
  function Reported(x: Visit, left: int): Decoded {
    if x.rank >= MOST then Undefined
    else if left <= 1 then Bad(LimitExceeded, x.pos + 1)
    else Bad(DepthExceeded, x.pos + 1)
  }

  /** The first value that makes trouble, if there is one. */
  function FirstTrouble(xs: seq<Visit>, limit: int, depthLimit: int): (k: nat)
    ensures k <= |xs| && (k < |xs| ==> Trouble(xs[k], limit - k, depthLimit))
    ensures forall j :: 0 <= j < k ==> !Trouble(xs[j], limit - j, depthLimit)
  {
    if xs == [] || Trouble(xs[0], limit, depthLimit) then 0
    else
      var k := FirstTrouble(xs[1..], limit - 1, depthLimit);
      assert forall j :: 0 < j < k + 1 ==> xs[j] == xs[1..][j - 1];
      k + 1
  }

  predicate IsFirst(k: nat, xs: seq<Visit>, limit: int, depthLimit: int) {
    && k < |xs| && Trouble(xs[k], limit - k, depthLimit)
    && forall j :: 0 <= j < k ==> !Trouble(xs[j], limit - j, depthLimit)
  }

  lemma FirstOfTwo(a: seq<Visit>, b: seq<Visit>, limit: int, depthLimit: int)
    ensures
      var k := FirstTrouble(a, limit, depthLimit);
      FirstTrouble(a + b, limit, depthLimit) ==
        if k < |a| then k else |a| + FirstTrouble(b, limit - |a|, depthLimit)
  {
    hide Trouble, FirstTrouble;
    var xs, k := a + b, FirstTrouble(a, limit, depthLimit);
    var n := FirstTrouble(xs, limit, depthLimit);
    assert forall j :: 0 <= j < |a| ==> xs[j] == a[j];
    if k == |a| {
      var m := FirstTrouble(b, limit - |a|, depthLimit);
      forall j | 0 <= j < |b|
        ensures Trouble(xs[|a| + j], limit - (|a| + j), depthLimit) <==> Trouble(b[j], limit - |a| - j, depthLimit)
      {
        assert xs[|a| + j] == b[j] && limit - (|a| + j) == limit - |a| - j;
      }
    }
  }

  // What makes no trouble.

  predicate Shallow(xs: seq<Visit>, depthLimit: int) {
    forall j :: 0 <= j < |xs| && xs[j].opens ==> xs[j].depth < depthLimit
  }

  predicate Narrow(xs: seq<Visit>) {
    forall j :: 0 <= j < |xs| ==> xs[j].rank < MOST
  }

  lemma ShallowConcat(a: seq<Visit>, b: seq<Visit>, depthLimit: int)
    ensures Shallow(a + b, depthLimit) <==> Shallow(a, depthLimit) && Shallow(b, depthLimit)
    ensures Narrow(a + b) <==> Narrow(a) && Narrow(b)
  {
    assert forall j :: 0 <= j < |a| ==> (a + b)[j] == a[j];
    assert forall j :: 0 <= j < |b| ==> (a + b)[|a| + j] == b[j];
  }

  lemma FineIff(xs: seq<Visit>, limit: int, depthLimit: int)
    requires xs != []
    ensures FirstTrouble(xs, limit, depthLimit) == |xs| <==> Narrow(xs) && |xs| < limit && Shallow(xs, depthLimit)
  {
    hide FirstTrouble;
    var k := FirstTrouble(xs, limit, depthLimit);
    if k == |xs| {
      var last := |xs| - 1;
      assert !Trouble(xs[last], limit - last, depthLimit);
    }
  }

  /** The visits of a value make no trouble exactly if it is within the limits. */
  lemma {:induction false} VisitsMeasure(pos: nat, v: Value, depth: nat, rank: nat, depthLimit: int)
    requires depth <= depthLimit
    ensures var xs := Visits(pos, v, depth, rank);
      && |xs| == Count(v) && (Shallow(xs, depthLimit) <==> depth + Nesting(v) <= depthLimit)
      && (Narrow(xs) <==> rank < MOST && Width(v) <= MOST)
    decreases v, 1
  {
    hide Shallow, Narrow;
    var x := Visit(pos, depth, rank, v.List? || v.Dict?);
    OneVisit(x, depthLimit);
    match v {
      case Int(_) =>
      case Str(_) =>
      case List(items) =>
        var more := ItemVisits(pos + 1, items, depth + 1, 0);
        ShallowConcat([x], more, depthLimit);
        if depth < depthLimit {
          ItemVisitsMeasure(pos + 1, items, depth + 1, 0, depthLimit);
        } else {
          ItemVisitsMeasure(pos + 1, items, depth + 1, 0, depth + 1);
        }
      case Dict(entries) =>
        var more := EntryVisits(pos + 1, entries, depth + 1, 0);
        ShallowConcat([x], more, depthLimit);
        if depth < depthLimit {
          EntryVisitsMeasure(pos + 1, entries, depth + 1, 0, depthLimit);
        } else {
          EntryVisitsMeasure(pos + 1, entries, depth + 1, 0, depth + 1);
        }
    }
  }

  lemma OneVisit(x: Visit, depthLimit: int)
    ensures Shallow([x], depthLimit) <==> (x.opens ==> x.depth < depthLimit)
    ensures Narrow([x]) <==> x.rank < MOST
  {
    assert [x][0] == x;
  }

  lemma NoVisit(depthLimit: int)
    ensures Shallow([], depthLimit) && Narrow([])
  {
  }

  lemma {:induction false} ItemVisitsMeasure(pos: nat, items: seq<Value>, depth: nat, rank: nat, depthLimit: int)
    requires depth <= depthLimit
    ensures var xs := ItemVisits(pos, items, depth, rank);
      && |xs| == ItemsCount(items) && (Shallow(xs, depthLimit) <==> depth + ItemsNesting(items) <= depthLimit)
      && (Narrow(xs) <==> (items == [] || rank + |items| <= MOST) && ItemsWidth(items) <= MOST)
    decreases items, 0
  {
    hide Shallow, Narrow, Visits, Count, Nesting, Width, Encode;
    if items == [] {
      NoVisit(depthLimit);
    } else {
      var next := pos + |Encode(items[0])|;
      VisitsMeasure(pos, items[0], depth, rank, depthLimit);
      ItemVisitsMeasure(next, items[1..], depth, rank + 1, depthLimit);
      ShallowConcat(Visits(pos, items[0], depth, rank), ItemVisits(next, items[1..], depth, rank + 1), depthLimit);
    }
  }

  lemma {:induction false} EntryVisitsMeasure(pos: nat, entries: seq<Pair>, depth: nat, rank: nat, depthLimit: int)
    requires depth <= depthLimit
    ensures var xs := EntryVisits(pos, entries, depth, rank);
      && |xs| == EntriesCount(entries) && (Shallow(xs, depthLimit) <==> depth + EntriesNesting(entries) <= depthLimit)
      && (Narrow(xs) <==> (entries == [] || rank + |entries| <= MOST) && EntriesWidth(entries) <= MOST)
    decreases entries, 0
  {
    hide Shallow, Narrow, Visits, Count, Nesting, Width, Encode, EncodeStr;
    if entries == [] {
      NoVisit(depthLimit);
    } else {
      var p := pos + |EncodeStr(entries[0].key)|;
      var next := p + |Encode(entries[0].val)|;
      VisitsMeasure(p, entries[0].val, depth, rank, depthLimit);
      EntryVisitsMeasure(next, entries[1..], depth, rank + 1, depthLimit);
      ShallowConcat(Visits(p, entries[0].val, depth, rank), EntryVisits(next, entries[1..], depth, rank + 1),
                    depthLimit);
    }
  }

  /** A value without trouble is read. */
  lemma FineWithin(pos: nat, v: Value, depth: nat, rank: nat, limit: int, depthLimit: int)
    requires depth <= depthLimit && rank < MOST
    ensures
      var xs := Visits(pos, v, depth, rank);
      && |xs| == Count(v)
      && (FirstTrouble(xs, limit, depthLimit) == |xs| <==>
            Count(v) < limit && depth + Nesting(v) <= depthLimit && Width(v) <= MOST)
  {
    hide Visits, FirstTrouble, Shallow, Narrow, Count, Nesting, Width;
    VisitsMeasure(pos, v, depth, rank, depthLimit);
    FineIff(Visits(pos, v, depth, rank), limit, depthLimit);
  }

  /** The trouble among the visits is reported. */
  ghost predicate Reports(r: Decoded, xs: seq<Visit>, limit: int, depthLimit: int) {
    var k := FirstTrouble(xs, limit, depthLimit);
    k < |xs| ==> r == Reported(xs[k], limit - k)
  }

  lemma ReportsFirst(r: Decoded, a: seq<Visit>, b: seq<Visit>, limit: int, depthLimit: int)
    requires FirstTrouble(a, limit, depthLimit) < |a| && Reports(r, a, limit, depthLimit)
    ensures Reports(r, a + b, limit, depthLimit)
  {
    hide FirstTrouble, Reported;
    FirstOfTwo(a, b, limit, depthLimit);
  }

  lemma ReportsSecond(r: Decoded, a: seq<Visit>, b: seq<Visit>, limit: int, depthLimit: int)
    requires FirstTrouble(a, limit, depthLimit) == |a| && Reports(r, b, limit - |a|, depthLimit)
    ensures Reports(r, a + b, limit, depthLimit)
  {
    hide FirstTrouble, Reported;
    FirstOfTwo(a, b, limit, depthLimit);
  }

  lemma ReportsHead(r: Decoded, xs: seq<Visit>, limit: int, depthLimit: int)
    requires xs != [] && Trouble(xs[0], limit, depthLimit) && r == Reported(xs[0], limit)
    ensures Reports(r, xs, limit, depthLimit)
  {
  }

  lemma FirstVisit(pos: nat, v: Value, depth: nat, rank: nat)
    ensures Visits(pos, v, depth, rank)[0] == Visit(pos, depth, rank, v.List? || v.Dict?)
    ensures v.List? ==>
      Visits(pos, v, depth, rank) == [Visit(pos, depth, rank, true)] + ItemVisits(pos + 1, v.items, depth + 1, 0)
    ensures v.Dict? ==>
      Visits(pos, v, depth, rank) == [Visit(pos, depth, rank, true)] + EntryVisits(pos + 1, v.entries, depth + 1, 0)
    ensures v.Int? || v.Str? ==> |Visits(pos, v, depth, rank)| == 1
  {
  }

  lemma {:induction false} FailsValue(buf: string, depthLimit: int, pos: nat, v: Value, below: seq<Frame>, rank: nat,
                                      limit: int, root: Entry)
    requires |buf| <= MAX64
    requires At(buf, pos, Encode(v)) && |below| <= depthLimit && rank < MOST
    ensures Reports(After(buf, depthLimit, ReadValue(buf, buf[pos], pos + 1, below, limit, root)),
                    Visits(pos, v, |below|, rank), limit, depthLimit)
    decreases v, 1
  {
    hide Run, After, Encode, ReadValue, Visits, Reports;
    var xs := Visits(pos, v, |below|, rank);
    FirstVisit(pos, v, |below|, rank);
    if limit <= 1 {
      NoItemLeft(buf, depthLimit, pos, below, limit, root);
      ReportsHead(Bad(LimitExceeded, pos + 1), xs, limit, depthLimit);
    } else {
      match v {
        case Int(_) => ReportsNone(xs, limit, depthLimit);
        case Str(_) => ReportsNone(xs, limit, depthLimit);
        case List(items) => FailsList(buf, depthLimit, pos, items, below, rank, limit, root);
        case Dict(entries) => FailsDict(buf, depthLimit, pos, entries, below, rank, limit, root);
      }
    }
  }

  lemma ReportsNone(xs: seq<Visit>, limit: int, depthLimit: int)
    requires |xs| == 1 && !Trouble(xs[0], limit, depthLimit)
    ensures forall r :: Reports(r, xs, limit, depthLimit)
  {
  }

  lemma {:induction false} FailsList(buf: string, depthLimit: int, pos: nat, items: seq<Value>, below: seq<Frame>,
                                     rank: nat, limit: int, root: Entry)
    requires |buf| <= MAX64 && At(buf, pos, Encode(List(items))) && |below| <= depthLimit && limit > 1 && rank < MOST
    ensures Reports(After(buf, depthLimit, ReadValue(buf, buf[pos], pos + 1, below, limit, root)),
                    Visits(pos, List(items), |below|, rank), limit, depthLimit)
    decreases items, 1
  {
    hide Run, Encode, EncodeItems, ReadValue, Visits, ItemVisits, Reports, Count, ItemsCount, Nesting, ItemsNesting,
      Width, ItemsWidth, EntryOf, EntriesOf, FirstTrouble;
    ListUnfolds(pos, items);
    AtSplit(buf, pos, "l", EncodeItems(items) + "e");
    AtItem(buf, pos, "l", 0);
    OpensContainer(buf, pos + 1, below, limit, root);
    var x := Visit(pos, |below|, rank, true);
    var st := State(pos + 1, below + [ListFrame(pos, [])], limit - 1, root);
    FirstVisit(pos, List(items), |below|, rank);
    if |below| >= depthLimit {
      TooDeep(buf, depthLimit, st);
      ReportsHead(Bad(DepthExceeded, pos + 1), Visits(pos, List(items), |below|, rank), limit, depthLimit);
    } else {
      FailsItems(buf, depthLimit, pos + 1, items, below, pos, [], limit - 1, root);
      OneFine(x, limit, depthLimit);
      ReportsSecond(Run(buf, depthLimit, st), [x], ItemVisits(pos + 1, items, |below| + 1, 0), limit, depthLimit);
    }
  }

  lemma OneFine(x: Visit, limit: int, depthLimit: int)
    requires !Trouble(x, limit, depthLimit)
    ensures FirstTrouble([x], limit, depthLimit) == 1
  {
  }

  lemma {:induction false} FailsDict(buf: string, depthLimit: int, pos: nat, entries: seq<Pair>, below: seq<Frame>,
                                     rank: nat, limit: int, root: Entry)
    requires |buf| <= MAX64 && At(buf, pos, Encode(Dict(entries))) && |below| <= depthLimit && limit > 1 && rank < MOST
    ensures Reports(After(buf, depthLimit, ReadValue(buf, buf[pos], pos + 1, below, limit, root)),
                    Visits(pos, Dict(entries), |below|, rank), limit, depthLimit)
    decreases entries, 1
  {
    hide Run, Encode, EncodeEntries, ReadValue, Visits, EntryVisits, Reports, Count, EntriesCount, Nesting,
      EntriesNesting, Width, EntriesWidth, EntryOf, NamedOf, FirstTrouble;
    DictUnfolds(pos, entries);
    AtSplit(buf, pos, "d", EncodeEntries(entries) + "e");
    AtItem(buf, pos, "d", 0);
    OpensContainer(buf, pos + 1, below, limit, root);
    var x := Visit(pos, |below|, rank, true);
    var st := State(pos + 1, below + [DictFrame(pos, [], 0)], limit - 1, root);
    FirstVisit(pos, Dict(entries), |below|, rank);
    if |below| >= depthLimit {
      TooDeep(buf, depthLimit, st);
      ReportsHead(Bad(DepthExceeded, pos + 1), Visits(pos, Dict(entries), |below|, rank), limit, depthLimit);
    } else {
      FailsEntries(buf, depthLimit, pos + 1, entries, below, pos, [], 0, limit - 1, root);
      OneFine(x, limit, depthLimit);
      ReportsSecond(Run(buf, depthLimit, st), [x], EntryVisits(pos + 1, entries, |below| + 1, 0), limit, depthLimit);
    }
  }

  lemma NoItemLeft(buf: string, depthLimit: int, pos: nat, below: seq<Frame>, limit: int, root: Entry)
    requires pos < |buf| && limit <= 1
    ensures After(buf, depthLimit, ReadValue(buf, buf[pos], pos + 1, below, limit, root)) == Bad(LimitExceeded, pos + 1)
  {
    hide Run, Attach, ParsedInt, FindFrom;
  }

  lemma TooDeep(buf: string, depthLimit: int, st: State)
    requires st.pos < |buf| && st.stack != [] && |st.stack| > depthLimit
    ensures Run(buf, depthLimit, st) == Bad(DepthExceeded, st.pos)
  {
  }

  lemma ItemVisitsUnfold(pos: nat, items: seq<Value>, depth: nat, rank: nat)
    ensures items == [] ==> ItemVisits(pos, items, depth, rank) == []
    ensures items != [] ==>
      ItemVisits(pos, items, depth, rank) ==
      Visits(pos, items[0], depth, rank) + ItemVisits(pos + |Encode(items[0])|, items[1..], depth, rank + 1)
  {
    hide Visits, Encode;
  }

  lemma EntryVisitsUnfold(pos: nat, entries: seq<Pair>, depth: nat, rank: nat)
    ensures entries == [] ==> EntryVisits(pos, entries, depth, rank) == []
    ensures entries != [] ==>
      var p := pos + |EncodeStr(entries[0].key)|;
      EntryVisits(pos, entries, depth, rank) ==
      Visits(p, entries[0].val, depth, rank)
        + EntryVisits(p + |Encode(entries[0].val)|, entries[1..], depth, rank + 1)
  {
    hide Visits, Encode, EncodeStr;
  }

  lemma {:induction false} FailsItems(buf: string, depthLimit: int, pos: nat, items: seq<Value>, below: seq<Frame>,
                                      begin: nat, done: seq<Entry>, limit: int, root: Entry)
    requires |buf| <= MAX64 && |below| + 1 <= depthLimit
    requires At(buf, pos, EncodeItems(items) + "e")
    ensures Reports(Run(buf, depthLimit, State(pos, below + [ListFrame(begin, done)], limit, root)),
                    ItemVisits(pos, items, |below| + 1, |done|), limit, depthLimit)
    decreases items, 0
  {
    hide Run, After, Attach, ReadValue, Encode, EncodeItems, EntryOf, EntriesOf, Count, ItemsCount, Nesting,
      ItemsNesting, Width, ItemsWidth, Visits, ItemVisits, Reports, FirstTrouble;
    var stack := below + [ListFrame(begin, done)];
    var st := State(pos, stack, limit, root);
    ItemVisitsUnfold(pos, items, |below| + 1, |done|);
    if items == [] {
      ReportsNothing(Run(buf, depthLimit, st), limit, depthLimit);
    } else {
      var v := items[0];
      ItemsUnfold(pos, items);
      AtSplit(buf, pos, Encode(v), EncodeItems(items[1..]) + "e");
      AtItem(buf, pos, Encode(v), 0);
      FirstChar(v);
      ListTurn(buf, depthLimit, st);
      var a, next := Visits(pos, v, |stack|, |done|), pos + |Encode(v)|;
      var b := ItemVisits(next, items[1..], |stack|, |done| + 1);
      FirstVisit(pos, v, |stack|, |done|);
      if |done| >= MOST {
        ReportsHead(Undefined, a + b, limit, depthLimit);
      } else if FirstTrouble(a, limit, depthLimit) < |a| {
        FailsValue(buf, depthLimit, pos, v, stack, |done|, limit, root);
        ReportsFirst(Run(buf, depthLimit, st), a, b, limit, depthLimit);
      } else {
        FineWithin(pos, v, |stack|, |done|, limit, depthLimit);
        ReadsValue(buf, depthLimit, pos, v, stack, limit, root);
        StepRuns(buf, depthLimit, ReadValue(buf, buf[pos], pos + 1, stack, limit, root));
        var e := EntryOf(pos, v);
        AttachToList(below, begin, done, e, next, limit - Count(v), root);
        FailsItems(buf, depthLimit, next, items[1..], below, begin, done + [e], limit - Count(v), root);
        ReportsSecond(Run(buf, depthLimit, st), a, b, limit, depthLimit);
      }
    }
  }

  lemma ReportsNothing(r: Decoded, limit: int, depthLimit: int)
    ensures Reports(r, [], limit, depthLimit)
  {
  }

  lemma StepRuns(buf: string, depthLimit: int, r: Step)
    requires r.Next? && r.st.pos <= |buf|
    ensures After(buf, depthLimit, r) == Run(buf, depthLimit, r.st)
  {
    hide Run;
  }

  lemma {:induction false} FailsEntries(buf: string, depthLimit: int, pos: nat, entries: seq<Pair>, below: seq<Frame>,
                                        begin: nat, done: seq<Named>, name: nat, limit: int, root: Entry)
    requires |buf| <= MAX64 && |below| + 1 <= depthLimit
    requires At(buf, pos, EncodeEntries(entries) + "e")
    ensures Reports(Run(buf, depthLimit, State(pos, below + [DictFrame(begin, done, name)], limit, root)),
                    EntryVisits(pos, entries, |below| + 1, |done|), limit, depthLimit)
    decreases entries, 0
  {
    hide Run, After, Attach, ReadValue, Encode, EncodeStr, EncodeEntries, EntryOf, NamedOf, Count, EntriesCount,
      Nesting, EntriesNesting, Width, EntriesWidth, Decimal, At, Visits, EntryVisits, Reports, FirstTrouble;
    var st := State(pos, below + [DictFrame(begin, done, name)], limit, root);
    EntryVisitsUnfold(pos, entries, |below| + 1, |done|);
    AtBound(buf, pos, EncodeEntries(entries) + "e");
    if entries == [] {
      ReportsNothing(Run(buf, depthLimit, st), limit, depthLimit);
    } else {
      var key, v := entries[0].key, entries[0].val;
      EntriesUnfold(pos, entries);
      EntryAt(buf, pos, entries, "e");
      var p, start := pos + |EncodeStr(key)|, pos + |Decimal(|key|)| + 1;
      DictTurn(buf, depthLimit, pos, key, below, begin, done, name, limit, root);
      var stack := below + [DictFrame(begin, done, start)];
      var a, next := Visits(p, v, |stack|, |done|), p + |Encode(v)|;
      var b := EntryVisits(next, entries[1..], |stack|, |done| + 1);
      FirstVisit(p, v, |stack|, |done|);
      if |done| >= MOST {
        ReportsHead(Undefined, a + b, limit, depthLimit);
      } else if FirstTrouble(a, limit, depthLimit) < |a| {
        FailsValue(buf, depthLimit, p, v, stack, |done|, limit, root);
        ReportsFirst(Run(buf, depthLimit, st), a, b, limit, depthLimit);
      } else {
        FineWithin(p, v, |stack|, |done|, limit, depthLimit);
        RunsEntry(buf, depthLimit, pos, key, v, below, begin, done, name, limit, root);
        FailsEntries(buf, depthLimit, next, entries[1..], below, begin, done + [Named(start, EntryOf(p, v))], start,
                     limit - Count(v), root);
        ReportsSecond(Run(buf, depthLimit, st), a, b, limit, depthLimit);
      }
    }
  }

  // ---------------------------------------------------------------------------------------
  // The whole buffer
  // ---------------------------------------------------------------------------------------

  /**
    Decoding a canonical encoding, whatever follows it, gives the value's entries if the value is
    within the limits and its lists fit in arrays. Otherwise the first value that is one too many
    for the item limit, or opens a list or dictionary too deep, is reported as such, just after its
    first character. With an item limit of at most `MOST` every list within the limits fits.
   */
  lemma DecodesEncoding(v: Value, after: string, depthLimit: int, itemLimit: int)
    requires |Encode(v) + after| <= MAX64
    ensures
      var r, xs := Decode(Encode(v) + after, depthLimit, itemLimit), Visits(0, v, 0, 0);
      if depthLimit < 1 then r == Bad(DepthExceeded, 0)
      else if Nesting(v) <= depthLimit && Count(v) < itemLimit && Width(v) <= MOST then r == Ok(EntryOf(0, v))
      else exists k: nat :: IsFirst(k, xs, itemLimit, depthLimit) && r == Reported(xs[k], itemLimit - k)
    ensures Count(v) < itemLimit <= MOST ==> Width(v) <= MOST
  {
    hide Encode, EntryOf, ReadValue, Nesting, Count, Width, Visits, FirstTrouble, Trouble, Reported, At, Run;
    WidthWithin(v);
    var buf := Encode(v) + after;
    AtStart(Encode(v), after);
    var st := START.(limit := itemLimit);
    if depthLimit < 1 {
      TooDeep(buf, depthLimit, st);
    } else {
      RootTurn(buf, depthLimit, st);
      FineWithin(0, v, 0, 0, itemLimit, depthLimit);
      if Nesting(v) <= depthLimit && Count(v) < itemLimit && Width(v) <= MOST {
        ReadsValue(buf, depthLimit, 0, v, [], itemLimit, NoneEntry);
        StepRuns(buf, depthLimit, ReadValue(buf, buf[0], 1, [], itemLimit, NoneEntry));
        RootDone(buf, depthLimit, Attach([], EntryOf(0, v), |Encode(v)|, itemLimit - Count(v), NoneEntry));
      } else {
        FailsValue(buf, depthLimit, 0, v, [], 0, itemLimit, NoneEntry);
        var xs := Visits(0, v, 0, 0);
        assert IsFirst(FirstTrouble(xs, itemLimit, depthLimit), xs, itemLimit, depthLimit);
      }
    }
  }

  lemma RootDone(buf: string, depthLimit: int, st: State)
    requires st.stack == [] && st.pos <= |buf|
    ensures Run(buf, depthLimit, st) == Ok(st.root)
  {
  }

  lemma RootTurn(buf: string, depthLimit: int, st: State)
    requires st.stack == [NoneFrame] && st.pos + 1 < |buf| && 1 <= depthLimit
    ensures Run(buf, depthLimit, st) ==
      After(buf, depthLimit, ReadValue(buf, buf[st.pos], st.pos + 1, [], st.limit, st.root))
  {
    hide ReadValue;
    assert st.stack[..0] == [];
  }

  // ---------------------------------------------------------------------------------------
  // Reading the entries
  // ---------------------------------------------------------------------------------------

  /** A number is read modulo 2^64, into the range of 64 bits. */
  lemma ReadsSignedAt(buf: string, start: nat, n: int)
    requires At(buf, start, Signed(n) + "e")
    ensures IntValue(buf, start, |Signed(n)|) == Wrap64(n)
  {
    hide Decimal, ParsedInt, Wrap64;
    var w := Signed(n);
    AtSplit(buf, start, w, "e");
    AtItem(buf, start, w, 0);
    NumberOfDecimal(Abs(n));
    WrapZero();
    if n < 0 {
      AtSplit(buf, start, "-", Decimal(-n));
      ParsesDigits(buf, start + 1, start + |w|, Decimal(-n), 'e', 0);
      NegateWraps(-n);
    } else {
      ParsesDigits(buf, start, start + |w|, w, 'e', 0);
    }
  }

  lemma WrapZero()
    ensures Wrap64(0) == 0
  {
  }

  lemma NegateWraps(n: int)
    ensures Negate(Wrap64(n)) == Wrap64(-n)
  {
    var m := 0x1_0000_0000_0000_0000;
    WrapQuotient(n);
    SameWrap(-(Wrap64(n) as int), -n, -((n - MIN64) / m));
  }

  lemma ReadsInt64(buf: string, pos: nat, n: int)
    requires At(buf, pos, Encode(Int(n)))
    ensures |Signed(n)| < 0x1_0000_0000 ==> Read(buf, EntryOf(pos, Int(n))) == Int(Wrap64(n))
    ensures Read(buf, EntryOf(pos, Int(n))) == Int(n) <==> InRange64(n)
  {
    hide Signed, IntValue;
    assert Encode(Int(n)) == "i" + (Signed(n) + "e");
    AtSplit(buf, pos, "i", Signed(n) + "e");
    if |Signed(n)| < 0x1_0000_0000 {
      ReadsSignedAt(buf, pos + 1, n);
    }
    if InRange64(n) {
      ShortSigned(n);
    }
  }

  lemma ShortSigned(n: int)
    requires -0x1_0000_0000_0000_0000 <= n <= 0x1_0000_0000_0000_0000
    ensures |Signed(n)| <= 21
  {
    TwentyDigits(Abs(n));
  }

  /**
    An entry begins where its encoding does. For a string of 2 GiB or more the number of digits of
    its length is taken wrongly.
   */
  lemma BeginIsStart(pos: nat, v: Value)
    ensures (v.Str? ==> |v.s| < 0x8000_0000) ==> Begin(EntryOf(pos, v)) == pos
    ensures v.Str? && 0x8000_0000 <= |v.s| < 0x1_0000_0000 ==>
      pos < Begin(EntryOf(pos, v)) < pos + |Decimal(|v.s|)| + 1
  {
    hide NumDigits, Decimal;
    if v.Str? {
      NumDigitsIsLength(|v.s|);
      OneDigit(Signed32(Unsigned32(|v.s|)));
      TwoDigits(|v.s|);
    }
  }

  lemma OneDigit(n: int)
    ensures n < 0 ==> NumDigits(n) == 1
  {
  }

  lemma TwoDigits(n: nat)
    ensures n >= 10 ==> |Decimal(n)| >= 2
  {
  }

  /** The values that are read back: every number has 64 bits, every string 32 bits of length, or 31 in a dictionary. */
  predicate Fits(v: Value)
    decreases v, 1
  {
    match v
    case Int(n) => InRange64(n)
    case Str(s) => |s| < 0x1_0000_0000
    case List(items) => ItemsFit(items)
    case Dict(entries) => EntriesFit(entries)
  }

  predicate ItemsFit(items: seq<Value>)
    decreases items, 0
  {
    items == [] || (Fits(items[0]) && ItemsFit(items[1..]))
  }

  predicate EntriesFit(entries: seq<Pair>)
    decreases entries, 0
  {
    entries == [] || (PairFits(entries[0]) && EntriesFit(entries[1..]))
  }

  predicate PairFits(p: Pair)
    decreases p, 0
  {
    Fits(p.val) && (p.val.Str? ==> |p.val.s| < 0x8000_0000)
  }

  lemma {:induction false} ReadsBack(buf: string, pos: nat, v: Value)
    requires At(buf, pos, Encode(v))
    ensures Read(buf, EntryOf(pos, v)) == v <==> Fits(v)
    decreases v, 1
  {
    hide Encode, EncodeItems, EncodeEntries, EntryOf, EntriesOf, NamedOf, Read, ReadItems, ReadPairs, Fits, ItemsFit,
      EntriesFit;
    FitsUnfolds(v);
    ReadUnfolds(buf, EntryOf(pos, v));
    match v {
      case Int(n) => ReadsInt64(buf, pos, n);
      case Str(s) =>
        ScalarUnfolds(v);
        ReadsBackString(buf, pos, s);
      case List(items) =>
        ListUnfolds(pos, items);
        AtSplit(buf, pos, "l", EncodeItems(items) + "e");
        AtSplit(buf, pos + 1, EncodeItems(items), "e");
        ReadsBackItems(buf, pos + 1, items);
      case Dict(entries) =>
        DictUnfolds(pos, entries);
        AtSplit(buf, pos, "d", EncodeEntries(entries) + "e");
        AtSplit(buf, pos + 1, EncodeEntries(entries), "e");
        ReadsBackEntries(buf, pos + 1, entries);
    }
  }

  lemma FitsUnfolds(v: Value)
    ensures v.Int? ==> (Fits(v) <==> InRange64(v.n))
    ensures v.Str? ==> (Fits(v) <==> |v.s| < 0x1_0000_0000)
    ensures v.List? ==> (Fits(v) <==> ItemsFit(v.items))
    ensures v.Dict? ==> (Fits(v) <==> EntriesFit(v.entries))
  {
  }

  lemma ReadUnfolds(buf: string, e: Entry)
    ensures e.ListEntry? ==> Read(buf, e) == List(ReadItems(buf, e.items))
    ensures e.DictEntry? ==> Read(buf, e) == Dict(ReadPairs(buf, e.pairs))
  {
  }

  lemma ReadsBackString(buf: string, pos: nat, s: string)
    requires At(buf, pos, EncodeStr(s))
    ensures Read(buf, EntryOf(pos, Str(s))) == Str(s) <==> |s| < 0x1_0000_0000
  {
    hide Decimal;
    AtSplit(buf, pos, Decimal(|s|) + ":", s);
  }

  lemma {:induction false} ReadsBackItems(buf: string, pos: nat, items: seq<Value>)
    requires At(buf, pos, EncodeItems(items))
    ensures ReadItems(buf, EntriesOf(pos, items)) == items <==> ItemsFit(items)
    decreases items, 0
  {
    hide Encode, EntryOf, Read, Fits;
    if items != [] {
      AtSplit(buf, pos, Encode(items[0]), EncodeItems(items[1..]));
      ReadsBack(buf, pos, items[0]);
      ReadsBackItems(buf, pos + |Encode(items[0])|, items[1..]);
      var es := EntriesOf(pos, items);
      assert es[1..] == EntriesOf(pos + |Encode(items[0])|, items[1..]);
      HeadAndTail(Read(buf, es[0]), ReadItems(buf, es[1..]), items);
    }
  }

  lemma HeadAndTail<T>(x: T, xs: seq<T>, s: seq<T>)
    requires s != []
    ensures [x] + xs == s <==> x == s[0] && xs == s[1..]
  {
    if [x] + xs == s {
      assert xs == ([x] + xs)[1..];
    }
  }

  lemma {:induction false} ReadsBackEntries(buf: string, pos: nat, entries: seq<Pair>)
    requires At(buf, pos, EncodeEntries(entries))
    ensures ReadPairs(buf, NamedOf(pos, entries)) == entries <==> EntriesFit(entries)
    decreases entries, 0
  {
    hide Encode, EntryOf, Read, Begin, Decimal, PairFits, ReadPair;
    if entries != [] {
      var key, v := entries[0].key, entries[0].val;
      var p := pos + |EncodeStr(key)|;
      AtSplit(buf, pos, EncodeStr(key) + Encode(v), EncodeEntries(entries[1..]));
      ReadsBackPair(buf, pos, entries[0]);
      ReadsBackEntries(buf, p + |Encode(v)|, entries[1..]);
      var ns := NamedOf(pos, entries);
      assert ns[1..] == NamedOf(p + |Encode(v)|, entries[1..]);
      HeadAndTail(ReadPair(buf, ns[0]), ReadPairs(buf, ns[1..]), entries);
    }
  }

  lemma {:induction false} ReadsBackPair(buf: string, pos: nat, e: Pair)
    requires At(buf, pos, EncodeStr(e.key) + Encode(e.val))
    ensures ReadPair(buf, Named(pos + |Decimal(|e.key|)| + 1, EntryOf(pos + |EncodeStr(e.key)|, e.val))) == e <==>
      PairFits(e)
    decreases e, 0
  {
    hide Encode, EntryOf, Read, Begin, Decimal, Fits;
    var p := pos + |EncodeStr(e.key)|;
    AtSplit(buf, pos, EncodeStr(e.key), Encode(e.val));
    AtSplit(buf, pos, Decimal(|e.key|) + ":", e.key);
    BeginIsStart(p, e.val);
    ReadsBack(buf, p, e.val);
    FitsUnfolds(e.val);
    EncodedLength(e.val);
  }

  lemma EncodedLength(v: Value)
    ensures v.Str? ==> |Encode(v)| == |Decimal(|v.s|)| + 1 + |v.s|
  {
  }

  /**
    The round trip: decoding the canonical encoding of a value that is within the limits gives
    entries, and reading them gives the value back with every key, number and string, if and only
    if the numbers have 64 bits and the lengths of strings fit.
   */
  lemma RoundTrip(v: Value, after: string, depthLimit: int, itemLimit: int)
    requires 1 <= depthLimit && Nesting(v) <= depthLimit && Count(v) < itemLimit && Width(v) <= MOST
    requires |Encode(v) + after| <= MAX64
    ensures var r := Decode(Encode(v) + after, depthLimit, itemLimit);
      r.Ok? && (Read(Encode(v) + after, r.root) == v <==> Fits(v))
  {
    hide Encode, EntryOf, Decode, Nesting, Count, Read, Fits;
    DecodesEncoding(v, after, depthLimit, itemLimit);
    var buf := Encode(v) + after;
    assert buf[0..0 + |Encode(v)|] == Encode(v);
    ReadsBack(buf, 0, v);
  }

  /** Any number comes back modulo 2^64, as long as its length fits. */
  lemma NumberWraps(n: int, after: string, depthLimit: int, itemLimit: int)
    requires 1 <= depthLimit && 1 < itemLimit
    requires |Signed(n)| < 0x1_0000_0000 && |Encode(Int(n)) + after| <= MAX64
    ensures var buf := Encode(Int(n)) + after;
      var r := Decode(buf, depthLimit, itemLimit);
      r.Ok? && Read(buf, r.root) == Int(Wrap64(n))
  {
    hide *;
    var v := Int(n);
    var buf := Encode(v) + after;
    EncodedInt(n);
    DecodesEncoding(v, after, depthLimit, itemLimit);
    assert At(buf, 0, Encode(v)) by { AtStart(Encode(v), after); }
    ReadsInt64(buf, 0, n);
  }

  lemma AtStart(a: string, b: string)
    ensures At(a + b, 0, a)
  {
    assert (a + b)[0..0 + |a|] == a;
  }

  lemma EncodedInt(n: int)
    ensures |Encode(Int(n))| == |Signed(n)| + 2 && Nesting(Int(n)) == 0 && Count(Int(n)) == 1
      && Width(Int(n)) == 0 <= MOST
  {
  }

  /** A number that does not come back: 2^64 is read as 0. */
  lemma NumberLost(after: string, depthLimit: int, itemLimit: int)
    requires 1 <= depthLimit && 1 < itemLimit && |after| <= 0x7FFF_FFFF_FFFF_FF00
    ensures var buf := Encode(Int(0x1_0000_0000_0000_0000)) + after;
      var r := Decode(buf, depthLimit, itemLimit);
      r.Ok? && Read(buf, r.root) == Int(0)
  {
    var n := 0x1_0000_0000_0000_0000;
    assert Wrap64(n) == 0;
    hide Encode, Decode, Read, Signed, Decimal;
    ShortSigned(n);
    EncodedInt(n);
    NumberWraps(n, after, depthLimit, itemLimit);
  }
}
