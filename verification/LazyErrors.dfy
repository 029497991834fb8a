/**
  What the decoder makes of input that ends too early or is malformed: the lists and dictionaries
  that are open when the flaw is met, the error and its position, or the part that was decoded.
 */
module LazyErrors {
  import opened Basics
  import opened Bencode
  import opened LazyBdecode
  import opened LazyBdecodeProof

  // ---------------------------------------------------------------------------------------
  // Open lists and dictionaries
  // ---------------------------------------------------------------------------------------

  /** An open list or dictionary: what is complete in it, and the key of the value that is open, if one is. */
  datatype Layer = InList(items: seq<Value>) | InDict(entries: seq<Pair>, key: string)

  function LayerText(l: Layer): (s: string)
    ensures s != ""
  {
    match l
    case InList(items) => "l" + EncodeItems(items)
    case InDict(entries, _) => "d" + EncodeEntries(entries)
  }

  function KeyText(ls: seq<Layer>): string {
    if ls != [] && ls[|ls| - 1].InDict? then EncodeStr(ls[|ls| - 1].key) else ""
  }

  /** The text up to the place in the innermost one. */
  function Opened(ls: seq<Layer>): string {
    if ls == [] then ""
    else
      var n := |ls| - 1;
      Opened(ls[..n]) + (KeyText(ls[..n]) + LayerText(ls[n]))
  }

  /** Where the value after the place begins: at the place, or after the key. */
  function NextAt(ls: seq<Layer>): nat {
    |Opened(ls)| + |KeyText(ls)|
  }

  function KeyAt(ls: seq<Layer>): nat {
    if ls != [] && ls[|ls| - 1].InDict? then |Opened(ls)| + |Decimal(|ls[|ls| - 1].key|)| + 1 else 0
  }

  function LayerCount(l: Layer): nat {
    match l
    case InList(items) => 1 + ItemsCount(items)
    case InDict(entries, _) => 1 + EntriesCount(entries)
  }

  /** The number of values that have begun. */
  function Begun(ls: seq<Layer>): nat {
    if ls == [] then 0 else Begun(ls[..|ls| - 1]) + LayerCount(ls[|ls| - 1])
  }

  predicate LayerFits(l: Layer, depth: nat, depthLimit: int) {
    match l
    case InList(items) => depth + ItemsNesting(items) <= depthLimit && ItemsWidth(items) <= MOST && |items| < MOST
    case InDict(entries, _) =>
      depth + EntriesNesting(entries) <= depthLimit && EntriesWidth(entries) <= MOST && |entries| < MOST
  }

  /** Nothing so far is too deep or too long. */
  predicate Fit(ls: seq<Layer>, depthLimit: int) {
    1 <= depthLimit && forall i :: 0 <= i < |ls| ==> LayerFits(ls[i], i + 1, depthLimit)
  }

  function LayerFrame(l: Layer, begin: nat, name: nat): Frame {
    match l
    case InList(items) => ListFrame(begin, EntriesOf(begin + 1, items))
    case InDict(entries, _) => DictFrame(begin, NamedOf(begin + 1, entries), name)
  }

  /** The stack; only the name of the innermost key is not yet known. */
  function Stack(ls: seq<Layer>, name: nat): (s: seq<Frame>)
    ensures |s| == |ls|
  {
    if ls == [] then []
    else
      var n := |ls| - 1;
      Stack(ls[..n], KeyAt(ls[..n])) + [LayerFrame(ls[n], NextAt(ls[..n]), name)]
  }

  /** The state at the place; at the very beginning there is one entry on the stack that is not yet known. */
  function Place(ls: seq<Layer>, name: nat, itemLimit: int): State {
    State(|Opened(ls)|, if ls == [] then [NoneFrame] else Stack(ls, name), itemLimit - Begun(ls), NoneEntry)
  }

  // ---------------------------------------------------------------------------------------
  // Getting there
  // ---------------------------------------------------------------------------------------

  /** The place is at a value, or at a key with two more characters after it; what there is fits. */
  ghost predicate GoesOn(buf: string, depthLimit: int, ls: seq<Layer>) {
    && |buf| <= MAX64 && Fit(ls, depthLimit) && |ls| <= depthLimit
    && At(buf, 0, Opened(ls) + KeyText(ls)) && NextAt(ls) + 2 <= |buf|
    && (ls != [] && ls[|ls| - 1].InList? ==> buf[NextAt(ls)] != 'e')
  }

  /** The first character of the value after the place is read. */
  lemma NextRead(buf: string, depthLimit: int, ls: seq<Layer>, name: nat, itemLimit: int)
    requires GoesOn(buf, depthLimit, ls)
    ensures
      var p := NextAt(ls);
      Run(buf, depthLimit, Place(ls, name, itemLimit)) ==
      After(buf, depthLimit, ReadValue(buf, buf[p], p + 1, Stack(ls, KeyAt(ls)), itemLimit - Begun(ls), NoneEntry))
  {
    hide Run, After, ReadValue, Opened, Begun, Decimal, EncodeStr, EntriesOf, NamedOf, LayerFits, At;
    if ls == [] {
      OpenedNone();
      RootTurn(buf, depthLimit, Place(ls, name, itemLimit));
    } else if ls[|ls| - 1].InList? {
      NextInList(buf, depthLimit, ls, name, itemLimit);
    } else {
      NextInDict(buf, depthLimit, ls, name, itemLimit);
    }
  }

  lemma NextInList(buf: string, depthLimit: int, ls: seq<Layer>, name: nat, itemLimit: int)
    requires GoesOn(buf, depthLimit, ls) && ls != [] && ls[|ls| - 1].InList?
    ensures
      var p := NextAt(ls);
      Run(buf, depthLimit, Place(ls, name, itemLimit)) ==
      After(buf, depthLimit, ReadValue(buf, buf[p], p + 1, Stack(ls, KeyAt(ls)), itemLimit - Begun(ls), NoneEntry))
  {
    hide Run, After, ReadValue, Opened, Begun, EntriesOf, NamedOf, LayerFits, At, Stack, Fit;
    var n := |ls| - 1;
    TopFits(ls, depthLimit);
    TopRoom(ls[n], n + 1, depthLimit, NextAt(ls[..n]), name);
    StackTop(ls, name);
    StackTop(ls, KeyAt(ls));
    ListTurn(buf, depthLimit, Place(ls, name, itemLimit));
  }

  lemma NextInDict(buf: string, depthLimit: int, ls: seq<Layer>, name: nat, itemLimit: int)
    requires GoesOn(buf, depthLimit, ls) && ls != [] && ls[|ls| - 1].InDict?
    ensures
      var p := NextAt(ls);
      Run(buf, depthLimit, Place(ls, name, itemLimit)) ==
      After(buf, depthLimit, ReadValue(buf, buf[p], p + 1, Stack(ls, KeyAt(ls)), itemLimit - Begun(ls), NoneEntry))
  {
    hide Run, After, ReadValue, Opened, Begun, EntriesOf, NamedOf, LayerFits, At, Decimal, EncodeStr, Stack, Fit;
    var n := |ls| - 1;
    TopFits(ls, depthLimit);
    TopRoom(ls[n], n + 1, depthLimit, NextAt(ls[..n]), name);
    StackTop(ls, name);
    StackTop(ls, KeyAt(ls));
    AtSplit(buf, 0, Opened(ls), KeyText(ls));
    var begin, below := NextAt(ls[..n]), Stack(ls[..n], KeyAt(ls[..n]));
    DictTurn(buf, depthLimit, |Opened(ls)|, ls[n].key, below, begin, NamedOf(begin + 1, ls[n].entries), name,
             itemLimit - Begun(ls), NoneEntry);
  }

  lemma TopFits(ls: seq<Layer>, depthLimit: int)
    requires Fit(ls, depthLimit) && ls != []
    ensures LayerFits(ls[|ls| - 1], |ls|, depthLimit)
  {
    var n := |ls| - 1;
    assert LayerFits(ls[n], n + 1, depthLimit);
  }

  lemma OpenedNone()
    ensures Opened([]) == "" && KeyText([]) == "" && NextAt([]) == 0 && Begun([]) == 0 && Stack([], 0) == []
    ensures KeyAt([]) == 0
  {
  }

  lemma TopRoom(l: Layer, depth: nat, depthLimit: int, begin: nat, name: nat)
    requires LayerFits(l, depth, depthLimit)
    ensures l.InList? ==> |LayerFrame(l, begin, name).items| < MOST
    ensures l.InDict? ==> |LayerFrame(l, begin, name).pairs| < MOST
  {
    hide ItemsNesting, ItemsWidth, EntriesNesting, EntriesWidth, EntriesOf, NamedOf;
    if l.InList? {
      EntriesLength(begin + 1, l.items);
    } else {
      NamedLength(begin + 1, l.entries);
    }
  }

  lemma {:induction false} EntriesLength(pos: nat, items: seq<Value>)
    ensures |EntriesOf(pos, items)| == |items|
    decreases items
  {
    hide EntryOf, Encode;
    if items != [] {
      EntriesLength(pos + |Encode(items[0])|, items[1..]);
    }
  }

  lemma {:induction false} NamedLength(pos: nat, entries: seq<Pair>)
    ensures |NamedOf(pos, entries)| == |entries|
    decreases entries
  {
    hide EntryOf, Encode, EncodeStr, Decimal;
    if entries != [] {
      NamedLength(pos + |EncodeStr(entries[0].key)| + |Encode(entries[0].val)|, entries[1..]);
    }
  }

  /** The state within a list or dictionary that was opened just now. */
  lemma LayerRead(buf: string, depthLimit: int, p: nat, below: seq<Frame>, l: Layer, limit: int) returns (name: nat)
    requires |buf| <= MAX64 && LayerFits(l, |below| + 1, depthLimit)
    requires At(buf, p, LayerText(l)) && LayerCount(l) < limit
    ensures
      && p + |LayerText(l)| <= |buf|
      && After(buf, depthLimit, ReadValue(buf, buf[p], p + 1, below, limit, NoneEntry)) ==
         Run(buf, depthLimit, State(p + |LayerText(l)|, below + [LayerFrame(l, p, name)], limit - LayerCount(l),
                                    NoneEntry))
  {
    hide Run, After, ReadValue, EncodeItems, EncodeEntries, EntriesOf, NamedOf, ItemsNesting, ItemsWidth,
      EntriesNesting, EntriesWidth, ItemsCount, EntriesCount, At;
    match l {
      case InList(items) =>
        ListRead(buf, depthLimit, p, below, items, limit);
        name := 0;
      case InDict(entries, _) =>
        name := DictRead(buf, depthLimit, p, below, entries, limit);
    }
  }

  lemma ListRead(buf: string, depthLimit: int, p: nat, below: seq<Frame>, items: seq<Value>, limit: int)
    requires |buf| <= MAX64 && |below| + 1 + ItemsNesting(items) <= depthLimit
    requires ItemsWidth(items) <= MOST && |items| < MOST
    requires At(buf, p, "l" + EncodeItems(items)) && 1 + ItemsCount(items) < limit
    ensures
      var end := p + 1 + |EncodeItems(items)|;
      && end <= |buf|
      && After(buf, depthLimit, ReadValue(buf, buf[p], p + 1, below, limit, NoneEntry)) ==
         Run(buf, depthLimit, State(end, below + [ListFrame(p, EntriesOf(p + 1, items))], limit - 1 - ItemsCount(items),
                                    NoneEntry))
  {
    hide Run, ReadValue, EncodeItems, EntriesOf, ItemsNesting, ItemsWidth, ItemsCount, At;
    AtSplit(buf, p, "l", EncodeItems(items));
    AtBound(buf, p, "l");
    AtItem(buf, p, "l", 0);
    OpensContainer(buf, p + 1, below, limit, NoneEntry);
    ItemsRead(buf, depthLimit, p + 1, items, below, p, [], limit - 1, NoneEntry);
    assert [] + EntriesOf(p + 1, items) == EntriesOf(p + 1, items);
  }

  lemma DictRead(buf: string, depthLimit: int, p: nat, below: seq<Frame>, entries: seq<Pair>, limit: int)
    returns (name: nat)
    requires |buf| <= MAX64 && |below| + 1 + EntriesNesting(entries) <= depthLimit
    requires EntriesWidth(entries) <= MOST && |entries| < MOST
    requires At(buf, p, "d" + EncodeEntries(entries)) && 1 + EntriesCount(entries) < limit
    ensures
      var end := p + 1 + |EncodeEntries(entries)|;
      && end <= |buf|
      && After(buf, depthLimit, ReadValue(buf, buf[p], p + 1, below, limit, NoneEntry)) ==
         Run(buf, depthLimit, State(end, below + [DictFrame(p, NamedOf(p + 1, entries), name)],
                                    limit - 1 - EntriesCount(entries), NoneEntry))
  {
    hide Run, ReadValue, EncodeEntries, NamedOf, EntriesNesting, EntriesWidth, EntriesCount, At;
    AtSplit(buf, p, "d", EncodeEntries(entries));
    AtBound(buf, p, "d");
    AtItem(buf, p, "d", 0);
    OpensContainer(buf, p + 1, below, limit, NoneEntry);
    name := EntriesRead(buf, depthLimit, p + 1, entries, below, p, [], 0, limit - 1, NoneEntry);
    assert [] + NamedOf(p + 1, entries) == NamedOf(p + 1, entries);
  }

  /**
    Every place is reached if nothing before it exceeds the limits, unless the text ends with an
    opening character.
   */
  lemma {:induction false} Reaches(buf: string, depthLimit: int, ls: seq<Layer>, itemLimit: int) returns (name: nat)
    requires |buf| <= MAX64 && Fit(ls, depthLimit) && |ls| <= depthLimit
    requires At(buf, 0, Opened(ls)) && (ls != [] ==> NextAt(ls[..|ls| - 1]) + 2 <= |buf| && Begun(ls) < itemLimit)
    ensures Decode(buf, depthLimit, itemLimit) == Run(buf, depthLimit, Place(ls, name, itemLimit))
  {
    hide Run, After, ReadValue, At, LayerFits, KeyText, LayerText, LayerCount, LayerFrame, Opened, Begun, Place, NextAt,
      Stack, KeyAt;
    if ls == [] {
      name := 0;
      OpenedNone();
      assert Place(ls, name, itemLimit) == START.(limit := itemLimit) by { NoPlace(itemLimit); }
    } else {
      var n := |ls| - 1;
      var outer, l := ls[..n], ls[n];
      assert ls == outer + [l];
      assert LayerFits(l, n + 1, depthLimit);
      OpenedMore(buf, outer, l);
      BegunMore(outer, l);
      var name' := Reaches(buf, depthLimit, outer, itemLimit);
      NextRead(buf, depthLimit, outer, name', itemLimit);
      name := LayerRead(buf, depthLimit, NextAt(outer), Stack(outer, KeyAt(outer)), l, itemLimit - Begun(outer));
      PlaceMore(outer, l, name, itemLimit);
    }
  }

  lemma NoPlace(itemLimit: int)
    ensures Place([], 0, itemLimit) == START.(limit := itemLimit)
  {
  }

  lemma BegunMore(outer: seq<Layer>, l: Layer)
    ensures Begun(outer + [l]) == Begun(outer) + LayerCount(l)
  {
    hide LayerCount;
    assert (outer + [l])[..|outer|] == outer;
  }

  lemma PlaceMore(outer: seq<Layer>, l: Layer, name: nat, itemLimit: int)
    ensures
      var p, below := NextAt(outer), Stack(outer, KeyAt(outer));
      Place(outer + [l], name, itemLimit) ==
        State(p + |LayerText(l)|, below + [LayerFrame(l, p, name)], itemLimit - Begun(outer) - LayerCount(l), NoneEntry)
  {
    hide LayerCount, LayerText, KeyText, KeyAt, LayerFrame;
    assert (outer + [l])[..|outer|] == outer;
  }

  /** Where the parts of the text stand. */
  lemma OpenedMore(buf: string, outer: seq<Layer>, l: Layer)
    requires At(buf, 0, Opened(outer + [l]))
    ensures At(buf, 0, Opened(outer)) && At(buf, 0, Opened(outer) + KeyText(outer))
    ensures At(buf, NextAt(outer), LayerText(l)) && NextAt(outer) < |buf| && buf[NextAt(outer)] != 'e'
    ensures outer != [] ==> NextAt(outer[..|outer| - 1]) < NextAt(outer)
    ensures |Opened(outer + [l])| == NextAt(outer) + |LayerText(l)|
  {
    hide KeyText, LayerText, At, Opened;
    OpenedText(outer, l);
    if outer != [] {
      OpenedText(outer[..|outer| - 1], outer[|outer| - 1]);
      assert outer[..|outer| - 1] + [outer[|outer| - 1]] == outer;
    }
    ThreeParts(buf, Opened(outer), KeyText(outer), LayerText(l));
    FirstLetter(l);
    AtBound(buf, |Opened(outer)| + |KeyText(outer)|, LayerText(l));
  }

  lemma OpenedText(outer: seq<Layer>, l: Layer)
    ensures Opened(outer + [l]) == Opened(outer) + (KeyText(outer) + LayerText(l))
  {
    hide KeyText, LayerText;
    assert (outer + [l])[..|outer|] == outer;
  }

  lemma ThreeParts(buf: string, a: string, k: string, t: string)
    requires At(buf, 0, a + (k + t)) && t != ""
    ensures At(buf, 0, a) && At(buf, 0, a + k) && At(buf, |a| + |k|, t) && buf[|a| + |k|] == t[0]
  {
    hide At;
    assert a + (k + t) == (a + k) + t;
    AtSplit(buf, 0, a, k + t);
    AtSplit(buf, 0, a + k, t);
    AtItem(buf, |a + k|, t, 0);
  }

  lemma FirstLetter(l: Layer)
    ensures LayerText(l)[0] == if l.InList? then 'l' else 'd'
  {
    hide EncodeItems, EncodeEntries;
  }

  // ---------------------------------------------------------------------------------------
  // Text that ends between two values
  // ---------------------------------------------------------------------------------------

  /** An open list or dictionary as an entry, with the one open in it, if there is one. */
  function OpenEntry(l: Layer, begin: nat, name: nat, inner: seq<Entry>): Entry
    requires |inner| <= 1
  {
    match l
    case InList(items) => ListEntry(begin, 0, EntriesOf(begin + 1, items) + inner)
    case InDict(entries, _) =>
      DictEntry(begin, 0, NamedOf(begin + 1, entries) + if inner == [] then [] else [Named(name, inner[0])])
  }

  /** The whole that has been decoded: what is complete, and no lengths. */
  function Whole(ls: seq<Layer>, inner: seq<Entry>): Entry
    requires ls != [] && |inner| <= 1
    decreases |ls|
  {
    var outer := ls[..|ls| - 1];
    var e := OpenEntry(ls[|ls| - 1], NextAt(outer), KeyAt(ls), inner);
    if outer == [] then e else Whole(outer, [e])
  }

  lemma UnfinishedStep(below: seq<Frame>, f: Frame, e: Entry)
    requires match f
      case NoneFrame => false
      case ListFrame(begin, items) => e == ListEntry(begin, 0, items)
      case DictFrame(begin, pairs, _) => e == DictEntry(begin, 0, pairs)
    ensures Unfinished(below + [f]) == if below == [] then e else Unfinished(Attach(below, e, 0, 0, NoneEntry).stack)
  {
    var stack := below + [f];
    assert stack[..|stack| - 1] == below;
  }

  lemma AttachTop(below: seq<Frame>, f: Frame, x: Entry)
    ensures
      var s := Attach(below + [f], x, 0, 0, NoneEntry).stack;
      match f
      case NoneFrame => s == below + [f]
      case ListFrame(begin, items) => s == below + [ListFrame(begin, items + [x])]
      case DictFrame(begin, pairs, name) => s == below + [DictFrame(begin, pairs + [Named(name, x)], name)]
  {
    if f.ListFrame? {
      AttachToList(below, f.begin, f.items, x, 0, 0, NoneEntry);
    } else if f.DictFrame? {
      AttachToDict(below, f.begin, f.pairs, f.name, x, 0, 0, NoneEntry);
    }
  }

  lemma StackTop(ls: seq<Layer>, name: nat)
    requires ls != []
    ensures
      var outer := ls[..|ls| - 1];
      Stack(ls, name) == Stack(outer, KeyAt(outer)) + [LayerFrame(ls[|ls| - 1], NextAt(outer), name)]
  {
    hide NextAt, KeyAt, LayerFrame;
  }

  lemma {:induction false} UnfinishedInner(ls: seq<Layer>, x: Entry)
    requires ls != []
    ensures
      var s := Attach(Stack(ls, KeyAt(ls)), x, 0, 0, NoneEntry).stack;
      s != [] && Unfinished(s) == Whole(ls, [x])
    decreases |ls|
  {
    hide NextAt, KeyAt, EntriesOf, NamedOf, Attach, Unfinished, Stack;
    var outer, l := ls[..|ls| - 1], ls[|ls| - 1];
    var f, e := LayerFrame(l, NextAt(outer), KeyAt(ls)), OpenEntry(l, NextAt(outer), KeyAt(ls), [x]);
    var below := Stack(outer, KeyAt(outer));
    StackTop(ls, KeyAt(ls));
    AttachTop(below, f, x);
    var g := if f.ListFrame? then ListFrame(f.begin, f.items + [x])
             else DictFrame(f.begin, f.pairs + [Named(f.name, x)], f.name);
    UnfinishedStep(below, g, e);
    if outer != [] {
      UnfinishedInner(outer, e);
    }
  }

  lemma UnfinishedIs(ls: seq<Layer>, name: nat)
    requires ls != []
    ensures Unfinished(Stack(ls, name)) == Whole(ls, [])
  {
    hide NextAt, KeyAt, EntriesOf, NamedOf, Attach, Unfinished, Stack;
    var outer, l := ls[..|ls| - 1], ls[|ls| - 1];
    var f, e := LayerFrame(l, NextAt(outer), name), OpenEntry(l, NextAt(outer), KeyAt(ls), []);
    StackTop(ls, name);
    UnfinishedStep(Stack(outer, KeyAt(outer)), f, e);
    if outer != [] {
      UnfinishedInner(outer, e);
    }
  }

  /** If the text ends after a complete value, decoding succeeds with what was complete. */
  lemma EndsBetween(depthLimit: int, ls: seq<Layer>, itemLimit: int)
    requires |Opened(ls)| <= MAX64 && Fit(ls, depthLimit) && |ls| <= depthLimit
    requires ls != [] && Begun(ls) < itemLimit && |LayerText(ls[|ls| - 1])| >= 2
    ensures Decode(Opened(ls), depthLimit, itemLimit) == Ok(Whole(ls, []))
  {
    hide Fit, Begun, LayerText, Whole, Unfinished, Stack, At;
    var buf := Opened(ls);
    AtStart(buf, "");
    assert buf + "" == buf;
    assert |buf| == NextAt(ls[..|ls| - 1]) + |LayerText(ls[|ls| - 1])| by { hide KeyText; }
    var name := Reaches(buf, depthLimit, ls, itemLimit);
    UnfinishedIs(ls, name);
  }

  // ---------------------------------------------------------------------------------------
  // Flaws
  // ---------------------------------------------------------------------------------------

  /** A character that cannot begin anything, a number without an end, or a length that is flawed or too great. */
  datatype Flaw =
    | NoStart(c: char)
    | NoEnd(text: string)
    | NoColon(digits: string, c: char)
    | OnlyDigits(digits: string)
    | TooShort(digits: string, data: string)

  predicate AreDigits(ds: string) {
    ds != "" && forall i :: 0 <= i < |ds| ==> IsDigit(ds[i])
  }

  /** The rest of the text, where a key or a value is expected. A key must be followed by two more characters. */
  predicate Shows(f: Flaw, rest: string, key: bool) {
    match f
    case NoStart(c) => rest != "" && rest[0] == c && !IsDigit(c) && c !in if key then "e" else "dli"
    case NoEnd(text) => !key && rest == "i" + text && 'e' !in text
    case NoColon(digits, c) => AreDigits(digits) && digits + [c] <= rest && !IsDigit(c) && c != ':'
    case OnlyDigits(digits) => AreDigits(digits) && rest == digits && Number(digits, 0) <= MAX64
    case TooShort(digits, data) =>
      && AreDigits(digits) && rest == digits + (":" + data)
      && |data| < Number(digits, 0) + (if key then 2 else 0) && Number(digits, 0) <= MAX64
  }

  /** What is reported. */
  function ErrorOf(f: Flaw, key: bool): Error {
    match f
    case NoStart(_) => if key then ExpectedString else ExpectedValue
    case NoEnd(_) => UnexpectedEof
    case _ => ExpectedColon
  }

  function ErrorAt(f: Flaw, p: nat): int {
    match f
    case NoStart(_) => p + 1
    case NoEnd(text) => p + 1 + |text|
    case NoColon(_, _) => -1
    case OnlyDigits(digits) => p + |digits|
    case TooShort(digits, _) => p + |digits|
  }

  /** Digits up to a character that is neither a digit nor the delimiter. */
  lemma {:induction false} StopsAtLetter(buf: string, start: nat, end: nat, ds: string, c: char, delimiter: char,
                                         val: nat)
    requires end <= |buf| && start + |ds| < end && At(buf, start, ds + [c])
    requires !IsDigit(c) && c != delimiter && !IsDigit(delimiter)
    requires forall i :: 0 <= i < |ds| ==> IsDigit(ds[i])
    ensures ParsedInt(buf, start, end, delimiter, Wrap64(val)) == NotANumber(Wrap64(Number(ds, val)))
    decreases ds
  {
    hide Wrap64;
    AtItem(buf, start, ds + [c], 0);
    if ds != "" {
      assert ds + [c] == ds[..1] + (ds[1..] + [c]);
      AtSplit(buf, start, ds[..1], ds[1..] + [c]);
      WrapStep(val, DigitValue(ds[0]));
      StopsAtLetter(buf, start + 1, end, ds[1..], c, delimiter, val * 10 + DigitValue(ds[0]));
    }
  }

  /** A number that is malformed counts as far as its digits go. */
  lemma MalformedNumber(buf: string, start: nat, size: nat, ds: string, c: char)
    requires start + size < |buf| && |ds| < size && At(buf, start, ds + [c]) && !IsDigit(c) && c != 'e'
    requires (ds == "" ==> c != '-') && forall i :: 0 <= i < |ds| ==> IsDigit(ds[i])
    ensures IntValue(buf, start, size) == Wrap64(Number(ds, 0))
  {
    hide Wrap64, ParsedInt, Number, At;
    WrapZero();
    NoMinus(buf, start, ds, c);
    StopsAtLetter(buf, start, start + size, ds, c, 'e', 0);
  }

  lemma NoMinus(buf: string, start: nat, ds: string, c: char)
    requires start < |buf| && At(buf, start, ds + [c]) && (ds == "" ==> c != '-') && (ds != "" ==> IsDigit(ds[0]))
    ensures buf[start] != '-'
  {
    hide At;
    AtItem(buf, start, ds + [c], 0);
  }

  lemma RestAt(buf: string, p: nat, w: string)
    requires p <= |buf| && w <= buf[p..]
    ensures At(buf, p, w)
  {
    assert buf[p..p + |w|] == buf[p..][..|w|];
  }

  lemma DigitsAt(buf: string, p: nat, ds: string, w: string)
    requires AreDigits(ds) && At(buf, p, ds + w)
    ensures p < |buf| && buf[p] == ds[0] && At(buf, p + 1, ds[1..] + w) && p + |ds| + |w| <= |buf|
    ensures forall i :: 0 <= i < |ds[1..]| ==> IsDigit(ds[1..][i])
  {
    AtBound(buf, p, ds + w);
    AtItem(buf, p, ds + w, 0);
    assert ds + w == ds[..1] + (ds[1..] + w);
    AtSplit(buf, p, ds[..1], ds[1..] + w);
  }

  lemma LetterInLength(buf: string, p: nat, ds: string, c: char)
    requires p <= |buf| && AreDigits(ds) && ds + [c] <= buf[p..] && !IsDigit(c) && c != ':'
    ensures p < |buf| && IsDigit(buf[p]) && ParsedInt(buf, p + 1, |buf|, ':', DigitValue(buf[p])).NotANumber?
  {
    hide ParsedInt, At;
    RestAt(buf, p, ds + [c]);
    DigitsAt(buf, p, ds, [c]);
    StopsAtLetter(buf, p + 1, |buf|, ds[1..], c, ':', DigitValue(buf[p]));
  }

  lemma LengthParsed(buf: string, p: nat, ds: string)
    requires AreDigits(ds) && At(buf, p, ds) && Number(ds, 0) <= MAX64
    requires p + |ds| < |buf| ==> buf[p + |ds|] == ':'
    ensures p < |buf| && IsDigit(buf[p])
    ensures ParsedInt(buf, p + 1, |buf|, ':', DigitValue(buf[p])) == Parsed(p + |ds|, Number(ds, 0))
  {
    hide ParsedInt, At, Number;
    assert ds + "" == ds && ds[1..] + "" == ds[1..];
    DigitsAt(buf, p, ds, "");
    ParsesDigits(buf, p + 1, |buf|, ds[1..], ':', DigitValue(buf[p]));
    NumberFirst(ds);
  }

  lemma RestIs(buf: string, p: nat, ds: string, more: string)
    requires p <= |buf| && buf[p..] == ds + more
    ensures At(buf, p, ds) && p + |ds| + |more| == |buf| && (more != "" ==> buf[p + |ds|] == more[0])
  {
    var rest := buf[p..];
    assert rest[..|ds|] == ds;
    assert buf[p..p + |ds|] == rest[..|ds|];
    if more != "" {
      assert buf[p + |ds|] == rest[|ds|] == more[0];
    }
  }

  lemma LengthRead(buf: string, p: nat, ds: string, more: string)
    requires p <= |buf| && AreDigits(ds) && buf[p..] == ds + more && (more != "" ==> more[0] == ':')
    requires Number(ds, 0) <= MAX64
    ensures p < |buf| && IsDigit(buf[p])
    ensures ParsedInt(buf, p + 1, |buf|, ':', DigitValue(buf[p])) == Parsed(p + |ds|, Number(ds, 0))
  {
    hide *;
    RestIs(buf, p, ds, more);
    LengthParsed(buf, p, ds);
  }

  /** What is found of a flawed length. */
  lemma FlawedLength(buf: string, p: nat, f: Flaw, key: bool)
    requires p < |buf| && Shows(f, buf[p..], key) && (f.NoColon? || f.OnlyDigits? || f.TooShort?)
    ensures IsDigit(buf[p])
    ensures
      var r := ParsedInt(buf, p + 1, |buf|, ':', DigitValue(buf[p]));
      if f.NoColon? then r.NotANumber? else r == Parsed(p + |f.digits|, Number(f.digits, 0))
  {
    hide ParsedInt, Number, AreDigits;
    match f
    case NoColon(digits, c) =>
      LetterInLength(buf, p, digits, c);
    case OnlyDigits(digits) =>
      assert digits + "" == digits;
      LengthRead(buf, p, digits, "");
    case TooShort(digits, data) =>
      LengthRead(buf, p, digits, ":" + data);
  }

  lemma NumberFirst(ds: string)
    requires AreDigits(ds)
    ensures Number(ds[1..], DigitValue(ds[0])) == Number(ds, 0)
  {
  }

  lemma ValueFlawed(buf: string, p: nat, f: Flaw, below: seq<Frame>, limit: int)
    requires p < |buf| && Shows(f, buf[p..], false) && limit > 1
    ensures ReadValue(buf, buf[p], p + 1, below, limit, NoneEntry) == Failed(ErrorOf(f, false), ErrorAt(f, p))
  {
    hide ParsedInt, Attach, Number, AreDigits;
    match f
    case NoStart(c) =>
    case NoEnd(text) =>
      assert forall k :: 0 <= k < |text| ==> buf[p + 1 + k] == buf[p..][1 + k] == text[k];
    case _ =>
      FlawedLength(buf, p, f, false);
  }

  lemma KeyFlawed(buf: string, depthLimit: int, p: nat, f: Flaw, st: State)
    requires st.pos == p && p + 2 <= |buf| && Shows(f, buf[p..], true) && |st.stack| <= depthLimit
    requires st.stack != [] && st.stack[|st.stack| - 1].DictFrame?
    ensures Run(buf, depthLimit, st) == Bad(ErrorOf(f, true), ErrorAt(f, p))
  {
    hide ParsedInt, Attach, Number, ReadValue, AreDigits;
    if f.NoStart? {
    } else {
      FlawedLength(buf, p, f, true);
    }
  }

  /** A flaw where a value is expected: at the beginning, in a list, or after a key. */
  lemma ValueRefused(depthLimit: int, ls: seq<Layer>, rest: string, f: Flaw, itemLimit: int)
    requires |Opened(ls) + KeyText(ls) + rest| <= MAX64 && Fit(ls, depthLimit) && |ls| <= depthLimit
    requires Begun(ls) + 1 < itemLimit && |rest| >= 2
    requires Shows(f, rest, false) && (ls != [] && ls[|ls| - 1].InList? ==> rest[0] != 'e')
    ensures Decode(Opened(ls) + KeyText(ls) + rest, depthLimit, itemLimit) ==
      Bad(ErrorOf(f, false), ErrorAt(f, NextAt(ls)))
  {
    hide Run, ReadValue, At, Fit, Opened, Begun, KeyText, Shows, Stack, Place;
    var head := Opened(ls) + KeyText(ls);
    var buf := head + rest;
    AtStart(head, rest);
    AtSplit(buf, 0, Opened(ls), KeyText(ls));
    EnoughLeft(buf, ls);
    var name := Reaches(buf, depthLimit, ls, itemLimit);
    assert buf[NextAt(ls)] == rest[0] && buf[NextAt(ls)..] == rest;
    NextRead(buf, depthLimit, ls, name, itemLimit);
    ValueFlawed(buf, NextAt(ls), f, Stack(ls, KeyAt(ls)), itemLimit - Begun(ls));
  }

  lemma EnoughLeft(buf: string, ls: seq<Layer>)
    requires |Opened(ls)| < |buf|
    ensures ls != [] ==> NextAt(ls[..|ls| - 1]) + 2 <= |buf|
  {
    hide KeyText, LayerText;
  }

  /** A flaw where a key is expected. */
  lemma KeyRefused(depthLimit: int, ls: seq<Layer>, rest: string, f: Flaw, itemLimit: int)
    requires |Opened(ls) + rest| <= MAX64 && Fit(ls, depthLimit) && |ls| <= depthLimit
    requires Begun(ls) < itemLimit && |rest| >= 2
    requires Shows(f, rest, true) && ls != [] && ls[|ls| - 1].InDict?
    ensures Decode(Opened(ls) + rest, depthLimit, itemLimit) ==
      Bad(ErrorOf(f, true), ErrorAt(f, |Opened(ls)|))
  {
    hide Run, At, Fit, Opened, Begun, Shows, NextAt, KeyAt, EntriesOf, NamedOf;
    var buf := Opened(ls) + rest;
    AtStart(Opened(ls), rest);
    EnoughLeft(buf, ls);
    var name := Reaches(buf, depthLimit, ls, itemLimit);
    assert buf[|Opened(ls)|..] == rest;
    KeyFlawed(buf, depthLimit, |Opened(ls)|, f, Place(ls, name, itemLimit));
  }

  /** A single character that closes nothing. */
  lemma OneLeft(depthLimit: int, ls: seq<Layer>, c: char, itemLimit: int)
    requires |Opened(ls) + [c]| <= MAX64 && Fit(ls, depthLimit) && |ls| <= depthLimit && c != 'e'
    requires ls != [] ==> Begun(ls) < itemLimit
    ensures Decode(Opened(ls) + [c], depthLimit, itemLimit) == Bad(UnexpectedEof, |Opened(ls)| + 1)
  {
    hide Run, At, Fit, Opened, Begun, NextAt, Stack;
    var buf := Opened(ls) + [c];
    AtStart(Opened(ls), [c]);
    EnoughLeft(buf, ls);
    var name := Reaches(buf, depthLimit, ls, itemLimit);
    assert 1 <= depthLimit by { FitLimit(ls, depthLimit); }
    LastCharacter(buf, depthLimit, Place(ls, name, itemLimit));
  }

  lemma FitLimit(ls: seq<Layer>, depthLimit: int)
    requires Fit(ls, depthLimit)
    ensures 1 <= depthLimit
  {
  }

  lemma LastCharacter(buf: string, depthLimit: int, st: State)
    requires st.pos + 1 == |buf| && buf[st.pos] != 'e' && st.stack != [] && |st.stack| <= depthLimit
    ensures Run(buf, depthLimit, st) == Bad(UnexpectedEof, |buf|)
  {
  }
}
