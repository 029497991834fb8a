/**
  The lazy bencode decoder: one pass over the buffer with an explicit stack, building entries
  that only hold positions in the buffer. An integer or string is read when it is asked for,
  and the length of a dictionary key is recovered from where its value begins.

  Numbers are accumulated in 64 bits and sizes are kept in 32 bits. A length that has wrapped
  around may be negative, and takes the decoder back.
 */
module LazyBdecode {
  import opened Basics
  import opened Bencode

  // ---------------------------------------------------------------------------------------
  // Entries
  // ---------------------------------------------------------------------------------------

  datatype Entry =
    | NoneEntry
    | IntEntry(start: nat, size: uint32)
    | StringEntry(start: nat, size: uint32)
    | ListEntry(begin: nat, len: uint32, items: seq<Entry>)
    | DictEntry(begin: nat, len: uint32, pairs: seq<Named>)

  /** A dictionary entry: where its name starts, and its value. */
  datatype Named = Named(name: nat, val: Entry)

  /** num_digits: how many decimal digits a number has. */
  function NumDigits(val: int): (n: nat)
    ensures n >= 1
  {
    if val >= 10 then NumDigits(val / 10) + 1 else 1
  }

  /** Where an entry's data begins in the buffer; strings assume a canonical length prefix. */
  function Begin(e: Entry): int {
    match e
    case NoneEntry => 0
    case IntEntry(start, _) => start - 1
    case StringEntry(start, size) => start - 1 - NumDigits(Signed32(size))
    case ListEntry(begin, _, _) => begin
    case DictEntry(begin, _, _) => begin
  }

  // ---------------------------------------------------------------------------------------
  // Scanning
  // ---------------------------------------------------------------------------------------

  /** What `ParseInt` finds: the delimiter's position and the number, or a character that is no digit. */
  datatype Parsed = Parsed(pos: nat, val: int64) | NotANumber(val: int64)

  function ParsedInt(buf: string, start: nat, end: nat, delimiter: char, val: int64): (r: Parsed)
    requires start <= end <= |buf|
    ensures r.Parsed? ==> start <= r.pos <= end && (r.pos < end ==> buf[r.pos] == delimiter)
    decreases end - start
  {
    if start == end || buf[start] == delimiter then Parsed(start, val)
    else if !IsDigit(buf[start]) then NotANumber(val)
    else ParsedInt(buf, start + 1, end, delimiter, Wrap64(val * 10 + DigitValue(buf[start])))
  }

  method ParseInt(buf: string, start: nat, end: nat, delimiter: char, val: int64)
    returns (ok: bool, pos: nat, newVal: int64)
    requires start <= end <= |buf|
    ensures match ParsedInt(buf, start, end, delimiter, val)
      case Parsed(p, v) => ok && pos == p && newVal == v
      case NotANumber(v) => !ok && newVal == v
  {
    pos, newVal := start, val;
    while pos < end && buf[pos] != delimiter
      invariant start <= pos <= end
      invariant ParsedInt(buf, start, end, delimiter, val) == ParsedInt(buf, pos, end, delimiter, newVal)
    {
      if !IsDigit(buf[pos]) {
        return false, pos, newVal;
      }
      WrapStep(newVal, DigitValue(buf[pos]));
      newVal := Wrap64(newVal * 10);
      newVal := Wrap64(newVal + DigitValue(buf[pos]));
      pos := pos + 1;
    }
    return true, pos, newVal;
  }

  method FindChar(buf: string, start: nat, delimiter: char) returns (pos: nat)
    requires start <= |buf|
    ensures pos == FindFrom(buf, start, delimiter)
  {
    pos := start;
    while pos < |buf| && buf[pos] != delimiter
      invariant start <= pos <= |buf|
      invariant FindFrom(buf, start, delimiter) == FindFrom(buf, pos, delimiter)
    {
      pos := pos + 1;
    }
  }

  // ---------------------------------------------------------------------------------------
  // The machine
  // ---------------------------------------------------------------------------------------

  datatype Error = DepthExceeded | UnexpectedEof | ExpectedString | ExpectedColon | LimitExceeded | ExpectedValue

  /** An entry on the stack: not yet known, or a list or dictionary that is still open. */
  datatype Frame =
    | NoneFrame
    | ListFrame(begin: nat, items: seq<Entry>)
    | DictFrame(begin: nat, pairs: seq<Named>, name: nat)

  /** The position, the stack (its last element is the top), the items left, and the finished root. */
  datatype State = State(pos: nat, stack: seq<Frame>, limit: int, root: Entry)

  /**
    `Failed`: with the position of the error, or -1 where the decoder has lost it. `Astray`: a length
    that has wrapped around leads out of the buffer, or the size of an array overflows, and anything
    can happen.
   */
  datatype Step = Next(st: State) | Failed(error: Error, at: int) | Astray

  /** The size of the largest array; computing the size of the next one overflows. */
  const MOST := 20767725

  /** Every turn uses up one of the items, or closes a list or dictionary. */
  predicate Smaller(next: State, st: State) {
    || 0 < next.limit < st.limit
    || (next.limit == st.limit && |next.stack| < |st.stack|)
  }

  /** A finished entry goes into the list or dictionary below it on the stack. */
  function Attach(below: seq<Frame>, e: Entry, pos: nat, limit: int, root: Entry): (st: State)
    ensures |st.stack| == |below| && st.limit == limit && st.pos == pos
  {
    if below == [] then State(pos, [], limit, e)
    else
      var n := |below| - 1;
      match below[n]
      case NoneFrame => State(pos, below, limit, root)
      case ListFrame(begin, items) => State(pos, below[n := ListFrame(begin, items + [e])], limit, root)
      case DictFrame(begin, pairs, name) =>
        State(pos, below[n := DictFrame(begin, pairs + [Named(name, e)], name)], limit, root)
  }

  /** The second half of a turn: the first character `t` of a value, and `start` just after it. */
  function ReadValue(buf: string, t: char, start: nat, below: seq<Frame>, limit: int, root: Entry): (r: Step)
    requires 0 < start <= |buf|
    ensures r.Next? ==> r.st.pos <= |buf| && 0 < r.st.limit < limit
  {
    if limit - 1 <= 0 then Failed(LimitExceeded, start)
    else if t == 'd' then Next(State(start, below + [DictFrame(start - 1, [], 0)], limit - 1, root))
    else if t == 'l' then Next(State(start, below + [ListFrame(start - 1, [])], limit - 1, root))
    else if t == 'i' then
      var e := FindFrom(buf, start, 'e');
      if e == |buf| then Failed(UnexpectedEof, e)
      else Next(Attach(below, IntEntry(start, Unsigned32(e - start)), e + 1, limit - 1, root))
    else if !IsDigit(t) then Failed(ExpectedValue, start)
    else
      match ParsedInt(buf, start, |buf|, ':', DigitValue(t))
      case NotANumber(_) => Failed(ExpectedColon, -1)
      case Parsed(colon, len) =>
        if colon + len + 1 > |buf| then Failed(ExpectedColon, colon)
        else if colon == |buf| || colon + 1 + len < 0 then Astray
        else Next(Attach(below, StringEntry(colon + 1, Unsigned32(len)), colon + 1 + len, limit - 1, root))
  }

  /** A dictionary's key, whose first digit is `t`, and the first character of its value. */
  function ReadKey(buf: string, t: char, start: nat, st: State): (r: Step)
    requires 0 < start <= |buf| && st.stack != [] && st.stack[|st.stack| - 1].DictFrame?
    ensures r.Next? ==> r.st.pos <= |buf| && 0 < r.st.limit < st.limit
  {
    if !IsDigit(t) then Failed(ExpectedString, start)
    else
      match ParsedInt(buf, start, |buf|, ':', DigitValue(t))
      case NotANumber(_) => Failed(ExpectedColon, -1)
      case Parsed(colon, len) =>
        if colon + len + 3 > |buf| then Failed(ExpectedColon, colon)
        else if colon == |buf| then Astray
        else if colon + 1 == |buf| then Failed(UnexpectedEof, colon + 1)
        else if colon + 1 + len < 0 || |st.stack[|st.stack| - 1].pairs| >= MOST then Astray
        else
          var n := |st.stack| - 1;
          var at := colon + 1 + len;
          ReadValue(buf, buf[at], at + 1, st.stack[n := st.stack[n].(name := colon + 1)], st.limit, st.root)
  }

  /** One turn of the decoding loop. */
  function Turn(buf: string, depthLimit: int, st: State): (r: Step)
    requires st.pos < |buf| && st.stack != []
    ensures r.Next? ==> r.st.pos <= |buf| && Smaller(r.st, st)
  {
    var n := |st.stack| - 1;
    var t, start := buf[st.pos], st.pos + 1;
    if |st.stack| > depthLimit then Failed(DepthExceeded, st.pos)
    else if start >= |buf| && t != 'e' then Failed(UnexpectedEof, start)
    else
      match st.stack[n]
      case NoneFrame => ReadValue(buf, t, start, st.stack[..n], st.limit, st.root)
      case ListFrame(begin, items) =>
        if t == 'e' then
          Next(Attach(st.stack[..n], ListEntry(begin, Unsigned32(start - begin), items), start, st.limit, st.root))
        else if |items| >= MOST then Astray
        else ReadValue(buf, t, start, st.stack, st.limit, st.root)
      case DictFrame(begin, pairs, _) =>
        if t == 'e' then
          Next(Attach(st.stack[..n], DictEntry(begin, Unsigned32(start - begin), pairs), start, st.limit, st.root))
        else ReadKey(buf, t, start, st)
  }

  /** What has been built when the buffer ends with lists or dictionaries still open. */
  function Unfinished(stack: seq<Frame>): Entry
    requires stack != []
    decreases |stack|
  {
    var n := |stack| - 1;
    var e := match stack[n]
      case NoneFrame => NoneEntry
      case ListFrame(begin, items) => ListEntry(begin, 0, items)
      case DictFrame(begin, pairs, _) => DictEntry(begin, 0, pairs);
    if n == 0 then e
    else
      var below := Attach(stack[..n], e, 0, 0, NoneEntry).stack;
      Unfinished(below)
  }

  function Result(st: State): Entry {
    if st.stack == [] then st.root else Unfinished(st.stack)
  }

  datatype Decoded = Ok(root: Entry) | Bad(error: Error, at: int) | Undefined

  /** The whole run from a state. */
  function Run(buf: string, depthLimit: int, st: State): Decoded
    requires st.pos <= |buf|
    decreases Max(st.limit, 0), |st.stack|
  {
    if st.pos == |buf| || st.stack == [] then Ok(Result(st))
    else
      match Turn(buf, depthLimit, st)
      case Failed(e, at) => Bad(e, at)
      case Astray => Undefined
      case Next(next) => Run(buf, depthLimit, next)
  }

  const START := State(0, [NoneFrame], 0, NoneEntry)

  function Decode(buf: string, depthLimit: int, itemLimit: int): Decoded {
    Run(buf, depthLimit, START.(limit := itemLimit))
  }

  // ---------------------------------------------------------------------------------------
  // The accessors
  // ---------------------------------------------------------------------------------------

  /** int_value: a sign, then digits up to the end. */
  function IntValue(buf: string, start: nat, size: nat): int64
    requires start + size < |buf|
  {
    var negative := buf[start] == '-';
    var from := if negative then start + 1 else start;
    if from > start + size then 0
    else
      var val := ParsedInt(buf, from, start + size, 'e', 0).val;
      if negative then Negate(val) else val
  }

  function Between(buf: string, a: int, b: int): string {
    if 0 <= a <= b <= |buf| then buf[a..b] else ""
  }

  /** What the accessors return for an entry, all the way down. */
  function Read(buf: string, e: Entry): Value
    decreases e, 1
  {
    match e
    case NoneEntry => Str("")
    case IntEntry(start, size) => Int(if start + size < |buf| then IntValue(buf, start, size) else 0)
    case StringEntry(start, size) => Str(Between(buf, start, start + size))
    case ListEntry(_, _, items) => List(ReadItems(buf, items))
    case DictEntry(_, _, pairs) => Dict(ReadPairs(buf, pairs))
  }

  function ReadItems(buf: string, items: seq<Entry>): seq<Value>
    decreases items, 0
  {
    if items == [] then [] else [Read(buf, items[0])] + ReadItems(buf, items[1..])
  }

  function ReadPairs(buf: string, pairs: seq<Named>): seq<Pair>
    decreases pairs, 0
  {
    if pairs == [] then [] else [ReadPair(buf, pairs[0])] + ReadPairs(buf, pairs[1..])
  }

  /** dict_at: the key is what stands between the name and the beginning of the value. */
  function ReadPair(buf: string, e: Named): Pair
    decreases e, 0
  {
    Pair(Between(buf, e.name, Begin(e.val)), Read(buf, e.val))
  }

  /** The character of a null-terminated string at index `i`. */
  function CharAt(name: string, i: nat): char
    requires i <= |name|
  {
    if i == |name| then '\0' else name[i]
  }

  /** Compares a null-terminated string with `key`, which may hold any characters. */
  method StringEqual(name: string, key: string) returns (equal: bool)
    requires '\0' !in name
    ensures equal <==> name == key
  {
    var i := 0;
    while i < |key|
      invariant i <= |key| && i <= |name| && name[..i] == key[..i]
    {
      if CharAt(name, i) != key[i] {
        return false;
      }
      if CharAt(name, i) == '\0' {
        return false;
      }
      i := i + 1;
    }
    assert key[..i] == key;
    return CharAt(name, i) == '\0';
  }

  /** The first pair with the given name, or -1. */
  method DictFind(buf: string, pairs: seq<Named>, name: string) returns (i: int)
    requires '\0' !in name
    ensures -1 <= i < |pairs|
    ensures i >= 0 ==> Between(buf, pairs[i].name, Begin(pairs[i].val)) == name
    ensures forall k :: 0 <= k < (if i < 0 then |pairs| else i) ==>
      Between(buf, pairs[k].name, Begin(pairs[k].val)) != name
  {
    i := 0;
    while i < |pairs|
      invariant 0 <= i <= |pairs|
      invariant forall k :: 0 <= k < i ==> Between(buf, pairs[k].name, Begin(pairs[k].val)) != name
    {
      var found := StringEqual(name, Between(buf, pairs[i].name, Begin(pairs[i].val)));
      if found {
        return i;
      }
      i := i + 1;
    }
    return -1;
  }
}
