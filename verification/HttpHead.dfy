/**
  The head of a message as it is written: a first line, header fields and a blank line. Reading it
  gives back what was written, and tells how long the body is.
 */
module HttpHead {
  import opened Basics
  import opened HttpFormat
  import opened HttpResume

  // ---------------------------------------------------------------------------------------
  // Lines
  // ---------------------------------------------------------------------------------------

  lemma FindIn(a: string, c: char, b: string)
    requires c !in a
    ensures FindFrom(a + [c] + b, 0, c) == |a|
  {
    hide FindFrom;
    var s := a + [c] + b;
    assert s[|a|] == c;
    forall k | 0 <= k < |a|
      ensures s[k] != c
    {
      assert s[k] == a[k];
    }
  }

  lemma FindNone(a: string, c: char)
    requires c !in a
    ensures FindFrom(a, 0, c) == |a|
  {
    hide FindFrom;
  }

  // ---------------------------------------------------------------------------------------
  // The first line
  // ---------------------------------------------------------------------------------------

  /** A word, and what follows it after one blank. */
  lemma WordRead(word: string, rest: string)
    requires ' ' !in word && (rest != "" ==> rest[0] != ' ')
    ensures ReadUntil(word + " " + rest, ' ') == (word, rest)
  {
    hide FindFrom;
    var s := word + [' '] + rest;
    FindIn(word, ' ', rest);
    assert s[..|word|] == word && s[|word|..] == [' '] + rest;
    assert ([' '] + rest)[1..] == rest;
    assert SkipAll([' '] + rest, ' ') == SkipAll(rest, ' ') == rest;
  }

  lemma LastWord(word: string, c: char)
    requires c !in word
    ensures ReadUntil(word, c).0 == word
  {
    hide FindFrom, SkipAll;
    FindNone(word, c);
    assert word[..|word|] == word;
  }

  /** The first line of a response. */
  predicate StatusOk(protocol: string, code: string, message: string) {
    && |protocol| >= 5 && protocol[..5] == "HTTP/" && ' ' !in protocol && '\n' !in protocol
    && code != "" && ' ' !in code && '\n' !in code
    && (message != "" ==> message[0] != ' ') && '\n' !in message && '\r' !in message
  }

  lemma StatusRead(lib: Libc, protocol: string, code: string, message: string, f: Fields)
    requires StatusOk(protocol, code, message)
    ensures StatusLine(lib, protocol + " " + (code + " " + message), f) ==
      f.(protocol := protocol, status := lib.atoi(code), message := message)
  {
    hide ReadUntil;
    WordRead(protocol, code + " " + message);
    WordRead(code, message);
    LastWord(message, '\r');
  }

  /** The first line of a request. */
  predicate RequestOk(verb: string, path: string, protocol: string) {
    && ' ' !in verb && '\n' !in verb && !(|verb| >= 5 && verb[..5] == "HTTP/")
    && path != "" && ' ' !in path && '\n' !in path
    && ' ' !in protocol && '\n' !in protocol && '\r' !in protocol
  }

  lemma RequestRead(lib: Libc, verb: string, path: string, protocol: string, f: Fields)
    requires RequestOk(verb, path, protocol)
    ensures StatusLine(lib, verb + " " + (path + " " + protocol), f) ==
      f.(method_ := Lower(verb), contentLength := 0, path := path, protocol := protocol, status := 0)
  {
    hide ReadUntil, Lower;
    WordRead(verb, path + " " + protocol);
    if protocol != "" {
      assert protocol[0] != ' ' by { assert protocol[0] in protocol; }
    }
    WordRead(path, protocol);
    LastWord(protocol, ' ');
  }

  // ---------------------------------------------------------------------------------------
  // Header fields
  // ---------------------------------------------------------------------------------------

  const UPPER := "ABCDEFGHIJKLMNOPQRSTUVWXYZ"
  const LOWER := "abcdefghijklmnopqrstuvwxyz"

  lemma Letter(k: nat)
    requires k < 26
    ensures UPPER[k] as int == 65 + k && LOWER[k] as int == 97 + k
  {
  }

  /** Upper-case letters become lower-case ones, and nothing else changes. */
  lemma LowerIs(s: string, i: nat)
    requires i < |s|
    ensures |Lower(s)| == |s| && (s[i] !in UPPER ==> Lower(s)[i] == s[i])
    ensures forall k :: 0 <= k < 26 && s[i] == UPPER[k] ==> Lower(s)[i] == LOWER[k]
  {
    forall k | 0 <= k < 26 && s[i] == UPPER[k]
      ensures Lower(s)[i] == LOWER[k]
    {
      Letter(k);
    }
    if 'A' <= s[i] <= 'Z' {
      Letter(s[i] as int - 65);
    }
  }

  /** A field with a value, or one whose value is a range of bytes. */
  datatype Field =
    | Plain(name: string, blanks: string, value: string)
    | Range(name: string, blanks: string, unit: string, first: string, last: string)

  function Text(x: Field): string {
    match x
    case Plain(_, _, value) => value
    case Range(_, _, unit, first, last) => unit + (first + "-" + last)
  }

  function Written(x: Field): string {
    x.name + ":" + (x.blanks + Text(x))
  }

  predicate IsBlank(c: char) {
    c == ' ' || c == '\t'
  }

  predicate Named(x: Field, name: string) {
    Lower(x.name) == name
  }

  /** The number of a field, and the number after the dash of a range. */
  function Number(lib: Libc, x: Field): int {
    lib.strtoll(if x.Range? then x.first + "-" + x.last else x.value).0
  }

  function Second(lib: Libc, x: Field): int {
    if x.Range? then lib.strtoll(x.last).0 else -1
  }

  /** The unit may be left out, if what is left does not begin with one. */
  predicate UnitOk(unit: string, rest: string) {
    if unit == "" then !BeginsNoCase("bytes ", rest) else Lower(unit) == "bytes "
  }

  /** A range that begins with a number, a dash and a number that is not smaller. */
  predicate RangeOk(lib: Libc, x: Field)
    requires x.Range?
  {
    && UnitOk(x.unit, x.first + "-" + x.last)
    && lib.strtoll(x.first + "-" + x.last).1 == |x.first| > 0
    && lib.strtoll(x.last).1 > 0
    && Number(lib, x) <= Second(lib, x)
  }

  predicate LineOk(x: Field) {
    && ':' !in x.name && '\n' !in x.name
    && (forall i :: 0 <= i < |x.blanks| ==> IsBlank(x.blanks[i]))
    && '\n' !in Text(x) && (Text(x) != "" ==> !IsBlank(Text(x)[0]))
  }

  predicate FieldOk(lib: Libc, x: Field) {
    && LineOk(x)
    && (x.Range? <==> Named(x, "content-range"))
    && (x.Range? ==> RangeOk(lib, x))
  }

  lemma {:induction false} SkipsBlanks(blanks: string, value: string)
    requires forall i :: 0 <= i < |blanks| ==> IsBlank(blanks[i])
    requires value != "" ==> !IsBlank(value[0])
    ensures SkipSpace(blanks + value) == value
  {
    if blanks == "" {
      assert blanks + value == value;
    } else {
      assert (blanks + value)[0] == blanks[0] && (blanks + value)[1..] == blanks[1..] + value;
      SkipsBlanks(blanks[1..], value);
    }
  }

  /** The name and the value of a line. */
  lemma LineParts(x: Field)
    requires LineOk(x)
    ensures
      var w := Written(x);
      && '\n' !in w && |x.name| < |w| && FindFrom(w, 0, ':') == |x.name|
      && w[..|x.name|] == x.name && SkipSpace(w[|x.name| + 1..]) == Text(x)
  {
    hide FindFrom, SkipSpace;
    var w := Written(x);
    FindIn(x.name, ':', x.blanks + Text(x));
    SkipsBlanks(x.blanks, Text(x));
    assert w[..|x.name|] == x.name && w[|x.name| + 1..] == x.blanks + Text(x);
    assert '\n' !in x.blanks;
  }

  /** Every line with a colon is a field: what comes before the colon, blanks, and the rest. */
  lemma HasField(t: string) returns (x: Field)
    requires ':' in t && '\n' !in t
    ensures x.Plain? && LineOk(x) && Written(x) == t
  {
    var colon := FindFrom(t, 0, ':');
    var rest := t[colon + 1..];
    var n := BlanksIn(rest);
    x := Plain(t[..colon], rest[..n], rest[n..]);
    assert rest[..n] + rest[n..] == rest;
    assert t[..colon] + ":" + rest == t;
  }

  lemma {:induction false} BlanksIn(s: string) returns (n: nat)
    ensures n <= |s| && (forall i :: 0 <= i < n ==> IsBlank(s[i])) && (n < |s| ==> !IsBlank(s[n]))
  {
    n := 0;
    if s != "" && IsBlank(s[0]) {
      var k := BlanksIn(s[1..]);
      n := k + 1;
      assert forall i :: 0 < i < n ==> s[i] == s[1..][i - 1];
      assert k < |s[1..]| ==> s[n] == s[1..][k];
    }
  }

  lemma UnitSkipped(unit: string, rest: string)
    requires UnitOk(unit, rest)
    ensures (if BeginsNoCase("bytes ", unit + rest) then (unit + rest)[6..] else unit + rest) == rest
  {
    hide Lower;
    var s := unit + rest;
    if unit == "" {
      assert s == rest;
    } else {
      LowerBytes();
      assert |unit| == |Lower(unit)| == 6 by { LowerLength(unit); }
      assert s[..6] == unit && s[6..] == rest;
    }
  }

  lemma LowerLength(s: string)
    ensures |Lower(s)| == |s|
  {
  }

  lemma LowerBytes()
    ensures Lower("bytes ") == "bytes "
  {
  }

  lemma RangeRead(lib: Libc, x: Field, f: Fields)
    requires x.Range? && RangeOk(lib, x)
    ensures ContentRange(lib, Text(x), f) ==
      (true, f.(rangeStart := Number(lib, x), rangeEnd := Second(lib, x),
                contentLength := Second(lib, x) - Number(lib, x) + 1))
  {
    hide BeginsNoCase, UnitOk;
    var s := x.first + "-" + x.last;
    UnitSkipped(x.unit, s);
    assert s[|x.first|] == '-' && s[|x.first| + 1..] == x.last;
  }

  /** What one field changes. */
  function Gives(lib: Libc, x: Field, f: Fields): Fields {
    var g := f.(header := AddHeader(f.header, Lower(x.name), Text(x)));
    if x.Range? then
      g.(rangeStart := Number(lib, x), rangeEnd := Second(lib, x),
         contentLength := Second(lib, x) - Number(lib, x) + 1)
    else if Named(x, "content-length") then g.(contentLength := Number(lib, x))
    else if Named(x, "transfer-encoding") then g.(chunked := BeginsNoCase("chunked", Text(x)))
    else g
  }

  lemma FieldRead(lib: Libc, x: Field, f: Fields)
    requires FieldOk(lib, x)
    ensures
      var w := Written(x);
      && '\n' !in w && |x.name| < |w| && FindFrom(w, 0, ':') == |x.name|
      && HeaderLine(lib, w, |x.name|, f) == (true, Gives(lib, x, f))
  {
    hide Lower, FindFrom, SkipSpace, BeginsNoCase, ContentRange, Written, Text, RangeOk, LineOk;
    LineParts(x);
    if x.Range? {
      RangeRead(lib, x, f.(header := AddHeader(f.header, Lower(x.name), Text(x))));
    } else {
      assert x.value == Text(x) by { PlainText(x); }
    }
  }

  lemma PlainText(x: Field)
    requires x.Plain?
    ensures Text(x) == x.value
  {
  }

  // ---------------------------------------------------------------------------------------
  // A list of fields
  // ---------------------------------------------------------------------------------------

  function WrittenAll(xs: seq<Field>): string {
    if xs == [] then "" else Written(xs[0]) + CRLF + WrittenAll(xs[1..])
  }

  /** The values of the fields with a name, in their order. */
  function ValuesOf(xs: seq<Field>, name: string): seq<string> {
    if xs == [] then []
    else if Named(xs[0], name) then [Text(xs[0])] + ValuesOf(xs[1..], name)
    else ValuesOf(xs[1..], name)
  }

  predicate GivesLength(x: Field) {
    x.Range? || Named(x, "content-length")
  }

  function LengthOf(lib: Libc, x: Field): int {
    if x.Range? then Second(lib, x) - Number(lib, x) + 1 else Number(lib, x)
  }

  predicate IsTransfer(x: Field) {
    Named(x, "transfer-encoding")
  }

  predicate IsRange(x: Field) {
    x.Range?
  }

  /** What the last of the fields with a property says, or what was known before if there is none. */
  ghost predicate LastSays<T(!new)>(xs: seq<Field>, has: Field -> bool, says: Field -> T, before: T, v: T) {
    || (exists i :: 0 <= i < |xs| && has(xs[i]) && v == says(xs[i]) && forall k :: i < k < |xs| ==> !has(xs[k]))
    || (v == before && forall k :: 0 <= k < |xs| ==> !has(xs[k]))
  }

  lemma LastNone<T(!new)>(has: Field -> bool, says: Field -> T, before: T)
    ensures LastSays([], has, says, before, before)
  {
  }

  lemma LastLater<T(!new)>(xs: seq<Field>, has: Field -> bool, says: Field -> T, before: T, v: T)
    requires xs != [] && LastSays(xs[1..], has, says, if has(xs[0]) then says(xs[0]) else before, v)
    ensures LastSays(xs, has, says, before, v)
  {
    var ys := xs[1..];
    if i :| 0 <= i < |ys| && has(ys[i]) && v == says(ys[i]) && forall k :: i < k < |ys| ==> !has(ys[k]) {
      var j := i + 1;
      assert xs[j] == ys[i];
      forall k | j < k < |xs|
        ensures !has(xs[k])
      {
        assert xs[k] == ys[k - 1];
      }
    } else {
      forall k | 0 < k < |xs|
        ensures !has(xs[k])
      {
        assert xs[k] == ys[k - 1];
      }
    }
  }

  /** What a list of fields turns `f` into. */
  ghost predicate Reads(lib: Libc, xs: seq<Field>, f: Fields, g: Fields) {
    && g == f.(header := g.header, contentLength := g.contentLength, rangeStart := g.rangeStart,
               rangeEnd := g.rangeEnd, chunked := g.chunked)
    && (forall name :: Values(g.header, name) == Values(f.header, name) + ValuesOf(xs, name))
    && LastSays(xs, GivesLength, x => LengthOf(lib, x), f.contentLength, g.contentLength)
    && LastSays(xs, IsRange, x => Number(lib, x), f.rangeStart, g.rangeStart)
    && LastSays(xs, IsRange, x => Second(lib, x), f.rangeEnd, g.rangeEnd)
    && LastSays(xs, IsTransfer, x => BeginsNoCase("chunked", Text(x)), f.chunked, g.chunked)
  }

  lemma ReadsNone(lib: Libc, f: Fields)
    ensures Reads(lib, [], f, f)
  {
    forall name
      ensures Values(f.header, name) == Values(f.header, name) + ValuesOf([], name)
    {
    }
  }

  lemma GivesValue(lib: Libc, x: Field, f: Fields, name: string)
    ensures Values(Gives(lib, x, f).header, name) ==
      Values(f.header, name) + if Named(x, name) then [Text(x)] else []
  {
    hide Lower, Text, Number, Second, BeginsNoCase;
    assert Gives(lib, x, f).header == AddHeader(f.header, Lower(x.name), Text(x));
  }

  lemma ValuesOfMore(xs: seq<Field>, name: string)
    requires xs != []
    ensures ValuesOf(xs, name) == (if Named(xs[0], name) then [Text(xs[0])] else []) + ValuesOf(xs[1..], name)
  {
    hide Named, Text;
  }

  lemma ValuesMore(lib: Libc, xs: seq<Field>, f: Fields, g: Fields, name: string)
    requires xs != []
    requires Values(g.header, name) == Values(Gives(lib, xs[0], f).header, name) + ValuesOf(xs[1..], name)
    ensures Values(g.header, name) == Values(f.header, name) + ValuesOf(xs, name)
  {
    hide *;
    GivesValue(lib, xs[0], f, name);
    ValuesOfMore(xs, name);
    var own := if Named(xs[0], name) then [Text(xs[0])] else [];
    var rest := ValuesOf(xs[1..], name);
    assert Values(f.header, name) + own + rest == Values(f.header, name) + (own + rest);
  }

  lemma ReadsMore(lib: Libc, xs: seq<Field>, f: Fields, g: Fields)
    requires xs != [] && FieldOk(lib, xs[0]) && Reads(lib, xs[1..], Gives(lib, xs[0], f), g)
    ensures Reads(lib, xs, f, g)
  {
    hide Lower, Text, Number, Second, BeginsNoCase, LastSays, LineOk, RangeOk;
    forall name
      ensures Values(g.header, name) == Values(f.header, name) + ValuesOf(xs, name)
    {
      ValuesMore(lib, xs, f, g, name);
    }
    LastLater(xs, GivesLength, x => LengthOf(lib, x), f.contentLength, g.contentLength);
    LastLater(xs, IsRange, x => Number(lib, x), f.rangeStart, g.rangeStart);
    LastLater(xs, IsRange, x => Second(lib, x), f.rangeEnd, g.rangeEnd);
    LastLater(xs, IsTransfer, x => BeginsNoCase("chunked", Text(x)), f.chunked, g.chunked);
  }

  /** Reading on after the fields written at `pos`. */
  lemma {:induction false} FieldsRead(lib: Libc, p: string, pos: nat, xs: seq<Field>, f: Fields) returns (g: Fields)
    requires At(p, pos, WrittenAll(xs)) && forall i :: 0 <= i < |xs| ==> FieldOk(lib, xs[i])
    ensures Reads(lib, xs, f, g)
    ensures pos + |WrittenAll(xs)| <= |p| && ScanHeader(lib, p, pos, f) == ScanHeader(lib, p, pos + |WrittenAll(xs)|, g)
    decreases |xs|
  {
    hide ScanHeader, ScanStatus, FindFrom, Reads, Written, FieldOk, At, HeaderLine, Line;
    if xs == [] {
      g := f;
      ReadsNone(lib, f);
      AtEnds(p, pos, "");
    } else {
      var w := Written(xs[0]);
      AtSplit(p, pos, w + CRLF, WrittenAll(xs[1..]));
      FieldRead(lib, xs[0], f);
      LineRead(p, pos, w);
      HeaderStep(lib, p, pos, f);
      g := FieldsRead(lib, p, pos + |w + CRLF|, xs[1..], Gives(lib, xs[0], f));
      ReadsMore(lib, xs, f, g);
    }
  }

  lemma AtEnds(p: string, pos: nat, w: string)
    requires At(p, pos, w)
    ensures pos + |w| <= |p|
  {
  }

  // ---------------------------------------------------------------------------------------
  // The head
  // ---------------------------------------------------------------------------------------

  datatype First =
    | Response(protocol: string, code: string, message: string)
    | Request(verb: string, path: string, protocol: string)

  /** A first line, fields, and a line without a colon, which is mostly empty. */
  datatype Head = Head(first: First, fields: seq<Field>, end: string)

  function WrittenFirst(first: First): string {
    match first
    case Response(protocol, code, message) => protocol + " " + (code + " " + message)
    case Request(verb, path, protocol) => verb + " " + (path + " " + protocol)
  }

  predicate FirstOk(first: First) {
    match first
    case Response(protocol, code, message) => StatusOk(protocol, code, message)
    case Request(verb, path, protocol) => RequestOk(verb, path, protocol)
  }

  predicate HeadOk(lib: Libc, h: Head) {
    && FirstOk(h.first)
    && (forall i :: 0 <= i < |h.fields| ==> FieldOk(lib, h.fields[i]))
    && ':' !in h.end && '\n' !in h.end
  }

  function StatusOf(lib: Libc, first: First): int {
    if first.Response? then lib.atoi(first.code) else 0
  }

  /** A request has no body, unless a field says otherwise. */
  function FirstFields(lib: Libc, first: First, f: Fields): Fields {
    match first
    case Response(protocol, code, message) =>
      f.(protocol := protocol, status := lib.atoi(code), message := message)
    case Request(verb, path, protocol) =>
      f.(method_ := Lower(verb), path := path, protocol := protocol, status := 0, contentLength := 0)
  }

  lemma FirstRead(lib: Libc, first: First, f: Fields)
    requires FirstOk(first)
    ensures '\n' !in WrittenFirst(first)
    ensures StatusLine(lib, WrittenFirst(first), f) == FirstFields(lib, first, f)
  {
    hide StatusLine, Lower;
    match first
    case Response(protocol, code, message) =>
      StatusRead(lib, protocol, code, message, f);
    case Request(verb, path, protocol) =>
      RequestRead(lib, verb, path, protocol, f);
  }

  /** The first line and fields, before `rest`. */
  function Lines(first: First, xs: seq<Field>, rest: string): string {
    WrittenFirst(first) + CRLF + (WrittenAll(xs) + rest)
  }

  /** Reading on after the first line, and after the fields. */
  lemma LinesRead(lib: Libc, p: string, pos: nat, h: Head, rest: string, f: Fields) returns (g: Fields)
    requires At(p, pos, Lines(h.first, h.fields, rest)) && HeadOk(lib, h)
    ensures Reads(lib, h.fields, FirstFields(lib, h.first, f), g)
    ensures
      var end := pos + |Lines(h.first, h.fields, "")|;
      && pos + |Lines(h.first, h.fields, rest)| == end + |rest| <= |p| && At(p, end, rest)
      && ScanStatus(lib, p, pos, f) == ScanHeader(lib, p, end, g)
  {
    hide ScanHeader, ScanStatus, FindFrom, WrittenFirst, FirstOk, At, StatusLine, Line, WrittenAll, FieldOk, Reads;
    var w, rest1 := WrittenFirst(h.first), WrittenAll(h.fields) + rest;
    AtSplit(p, pos, w + CRLF, rest1);
    var pos1 := pos + |w + CRLF|;
    AtSplit(p, pos1, WrittenAll(h.fields), rest);
    AtEnds(p, pos1 + |WrittenAll(h.fields)|, rest);
    FirstRead(lib, h.first, f);
    LineRead(p, pos, w);
    StatusStep(lib, p, pos, f);
    g := FieldsRead(lib, p, pos1, h.fields, FirstFields(lib, h.first, f));
  }

  function WrittenHead(h: Head): string {
    Lines(h.first, h.fields, h.end + CRLF)
  }

  /**
    A head is read as it was written: the first line, for each name its values in order, and the
    last length, range and transfer encoding. After a status of 100 another head is read.
   */
  lemma HeadRead(lib: Libc, p: string, pos: nat, h: Head, f: Fields) returns (g: Fields)
    requires At(p, pos, WrittenHead(h)) && HeadOk(lib, h)
    ensures Reads(lib, h.fields, FirstFields(lib, h.first, f), g)
    ensures
      var end := pos + |WrittenHead(h)|;
      && end <= |p|
      && ScanStatus(lib, p, pos, f) ==
           if StatusOf(lib, h.first) == 100 then ScanStatus(lib, p, end, g) else InBody(end, g)
  {
    hide ScanHeader, ScanStatus, FindFrom, FirstOk, At, StatusLine, Line, FieldOk, Lines, LastSays, Values, ValuesOf;
    g := LinesRead(lib, p, pos, h, h.end + CRLF, f);
    var end := pos + |Lines(h.first, h.fields, "")|;
    LineRead(p, end, h.end);
    FindNone(h.end, ':');
    HeaderStep(lib, p, end, g);
  }

  /** Of a part of a head the end is not reached, and no error is found. */
  lemma HeadPart(lib: Libc, h: Head, f: Fields, m: nat)
    requires HeadOk(lib, h) && StatusOf(lib, h.first) != 100 && m < |WrittenHead(h)|
    ensures var s := ScanStatus(lib, WrittenHead(h)[..m], 0, f); s.InStatus? || s.InHeader?
  {
    hide ScanHeader, ScanStatus, WrittenHead, HeadOk, Reads, StatusOf;
    var w := WrittenHead(h);
    assert w[0..0 + |w|] == w;
    var g := HeadRead(lib, w, 0, h, f);
    StatusContinues(lib, w[..m], w, 0, f);
  }

  lemma Stands(w: string, rest: string)
    ensures At(w + rest, 0, w)
  {
    assert (w + rest)[0..0 + |w|] == w;
  }

  /**
    A message without chunks is finished when the body has the length the head says: `g` is what
    the head says. Without a length it is not finished, nor if there are chunks that are not looked
    at. What comes after the body is left alone.
   */
  lemma MessageRead(lib: Libc, dontParseChunks: bool, h: Head, f: Fields, body: string) returns (g: Fields)
    requires HeadOk(lib, h) && StatusOf(lib, h.first) != 100
    ensures Reads(lib, h.fields, FirstFields(lib, h.first, f), g)
    ensures
      var s := ParserOf(lib, dontParseChunks, f, WrittenHead(h) + body);
      !ParsesChunks(g, dontParseChunks) ==>
        && s.phase == ReadBody && s.f == g && s.bodyStart == |WrittenHead(h)|
        && (s.finished <==> 0 <= g.contentLength <= |body| && !g.chunked)
        && s.recvPos == |WrittenHead(h)| + (if 0 <= g.contentLength <= |body| then g.contentLength else |body|)
        && Payload(s) == s.recvPos - s.bodyStart && Protocol(s, |WrittenHead(h) + body|) == |WrittenHead(h)|
  {
    hide ScanHeader, ScanStatus, WrittenHead, HeadOk, Reads, StatusOf, FirstFields;
    Stands(WrittenHead(h), body);
    g := HeadRead(lib, WrittenHead(h) + body, 0, h, f);
  }

  /** No part of the message is finished. */
  lemma MessagePart(lib: Libc, dontParseChunks: bool, h: Head, f: Fields, body: string, m: nat)
    requires HeadOk(lib, h) && StatusOf(lib, h.first) != 100 && m < |WrittenHead(h) + body|
    requires ParserOf(lib, dontParseChunks, f, WrittenHead(h) + body).f.contentLength == |body|
    requires !ParserOf(lib, dontParseChunks, f, WrittenHead(h) + body).f.chunked
    ensures !ParserOf(lib, dontParseChunks, f, (WrittenHead(h) + body)[..m]).finished
  {
    hide ScanHeader, ScanStatus, WrittenHead, HeadOk, Reads, StatusOf, FirstFields, ScanChunks;
    var w := WrittenHead(h);
    if m < |w| {
      assert (w + body)[..m] == w[..m];
      HeadPart(lib, h, f, m);
    } else {
      var part := body[..m - |w|];
      assert (w + body)[..m] == w + part;
      Stands(WrittenHead(h), part);
      Stands(WrittenHead(h), body);
      var g := HeadRead(lib, w + body, 0, h, f);
      var g' := HeadRead(lib, w + part, 0, h, f);
      StatusContinues(lib, w + part, w + body, 0, f);
    }
  }

  // ---------------------------------------------------------------------------------------
  // Heads that are refused
  // ---------------------------------------------------------------------------------------

  /** A range without a first number, a dash after it, a second number, or one that ends before it begins. */
  predicate RangeBad(lib: Libc, unit: string, s: string) {
    var (a, n) := lib.strtoll(s);
    && UnitOk(unit, s)
    && (n == 0 || n >= |s| || s[n] != '-' || lib.strtoll(s[n + 1..]).1 == 0 || lib.strtoll(s[n + 1..]).0 < a)
  }

  lemma RangeRefused(lib: Libc, unit: string, s: string, f: Fields)
    requires RangeBad(lib, unit, s)
    ensures !ContentRange(lib, unit + s, f).0
  {
    hide BeginsNoCase, UnitOk;
    UnitSkipped(unit, s);
  }

  /** A head up to a field with a bad range is an error, whatever follows. */
  lemma HeadRefused(lib: Libc, h: Head, x: Field, unit: string, s: string, rest: string, f: Fields)
    requires HeadOk(lib, h) && LineOk(x) && x.Plain? && Named(x, "content-range")
    requires x.value == unit + s && RangeBad(lib, unit, s)
    ensures ScanStatus(lib, Lines(h.first, h.fields, Written(x) + CRLF) + rest, 0, f).InError?
  {
    hide ScanHeader, ScanStatus, FindFrom, At, Line, Written, RangeBad, ContentRange, LineOk, SkipSpace, Lower, Reads,
      Lines, HeadOk;
    var w := Lines(h.first, h.fields, Written(x) + CRLF);
    Stands(w, rest);
    var g := LinesRead(lib, w + rest, 0, h, Written(x) + CRLF, f);
    var end := |Lines(h.first, h.fields, "")|;
    LineParts(x);
    LineRead(w + rest, end, Written(x));
    HeaderStep(lib, w + rest, end, g);
    RangeRefused(lib, unit, s, g.(header := AddHeader(g.header, "content-range", x.value)));
  }

  /** A first line with nothing before its line feed is an error. */
  lemma EmptyRefused(lib: Libc, rest: string, f: Fields)
    ensures ScanStatus(lib, "\n" + rest, 0, f) == InError(0, f)
  {
    hide ScanHeader, ScanStatus, FindFrom;
    var p := "\n" + rest;
    assert p[0] == '\n';
    StatusStep(lib, p, 0, f);
    var j := FindFrom(p, 0, '\n');
  }
}
