/**
  What the HTTP response parser is to make of the bytes received so far, as functions of those
  bytes alone. Nothing here knows how the bytes arrived.
 */
module HttpFormat {
  import opened Basics
  import opened HexNumber

  /** The C library functions that turn text into decimal numbers. `strtoll` also tells how many characters it used. */
  datatype Libc = Libc(atoi: string -> int, strtoll: string -> (int, nat))

  // ---------------------------------------------------------------------------------------
  // Lines and words
  // ---------------------------------------------------------------------------------------

  /** The line from `a` to the newline at `b`, without a carriage return before the newline. */
  function Line(p: string, a: nat, b: nat): string
    requires a <= b <= |p|
  {
    if a < b && p[b - 1] == '\r' then p[a..b - 1] else p[a..b]
  }

  /** The text up to the delimiter, and the rest without the delimiters that follow it. */
  function ReadUntil(s: string, delim: char): (string, string) {
    var j := FindFrom(s, 0, delim);
    (s[..j], SkipAll(s[j..], delim))
  }

  function SkipAll(s: string, c: char): string {
    if s != [] && s[0] == c then SkipAll(s[1..], c) else s
  }

  function ToLower(c: char): char {
    if 'A' <= c <= 'Z' then (c as int + 32) as char else c
  }

  function Lower(s: string): string {
    seq(|s|, i requires 0 <= i < |s| => ToLower(s[i]))
  }

  predicate BeginsNoCase(prefix: string, s: string) {
    |prefix| <= |s| && Lower(prefix) == Lower(s[..|prefix|])
  }

  function SkipSpace(s: string): string {
    if s != [] && (s[0] == ' ' || s[0] == '\t') then SkipSpace(s[1..]) else s
  }

  // ---------------------------------------------------------------------------------------
  // The status line and the headers
  // ---------------------------------------------------------------------------------------

  /** Header fields: for each name, its values in the order they came. */
  type Headers = map<string, seq<string>>

  function Values(h: Headers, name: string): seq<string> {
    if name in h then h[name] else []
  }

  function AddHeader(h: Headers, name: string, value: string): Headers {
    h[name := Values(h, name) + [value]]
  }

  datatype Fields = Fields(
    status: int, method_: string, path: string, protocol: string, message: string,
    contentLength: int, rangeStart: int, rangeEnd: int, header: Headers, chunked: bool)

  const NO_FIELDS := Fields(-1, "", "", "", "", -1, -1, -1, map[], false)

  function StatusLine(lib: Libc, line: string, f: Fields): Fields {
    var (protocol, rest) := ReadUntil(line, ' ');
    if |protocol| >= 5 && protocol[..5] == "HTTP/" then
      var (code, rest1) := ReadUntil(rest, ' ');
      f.(protocol := protocol, status := lib.atoi(code), message := ReadUntil(rest1, '\r').0)
    else
      var (path, rest1) := ReadUntil(rest, ' ');
      f.(method_ := Lower(protocol), contentLength := 0, path := path, protocol := ReadUntil(rest1, ' ').0, status := 0)
  }

  function CharAt(s: string, i: nat): char {
    if i < |s| then s[i] else '\0'
  }

  /** A byte range; not ok when it is malformed or ends before it starts. */
  function ContentRange(lib: Libc, value: string, f: Fields): (bool, Fields) {
    var s := if BeginsNoCase("bytes ", value) then value[6..] else value;
    var (from, used) := lib.strtoll(s);
    var g := f.(rangeStart := from);
    if used == 0 || used > |s| || CharAt(s, used) != '-' then (false, g)
    else
      var (to, used1) := lib.strtoll(s[used + 1..]);
      var g1 := g.(rangeEnd := to);
      if used1 == 0 || to < from then (false, g1)
      else (true, g1.(contentLength := to - from + 1))
  }

  /** A header line with a colon at `colon`. */
  function HeaderLine(lib: Libc, line: string, colon: nat, f: Fields): (bool, Fields)
    requires colon < |line|
  {
    var name, value := Lower(line[..colon]), SkipSpace(line[colon + 1..]);
    var g := f.(header := AddHeader(f.header, name, value));
    if name == "content-length" then (true, g.(contentLength := lib.strtoll(value).0))
    else if name == "content-range" then ContentRange(lib, value, g)
    else if name == "transfer-encoding" then (true, g.(chunked := BeginsNoCase("chunked", value)))
    else (true, g)
  }

  /** Where reading has come to: a line is still incomplete, or the body has begun, or an error. */
  datatype Scan =
    | InStatus(pos: nat, f: Fields)
    | InHeader(pos: nat, f: Fields)
    | InBody(pos: nat, f: Fields)
    | InError(pos: nat, f: Fields)

  function ScanStatus(lib: Libc, p: string, pos: nat, f: Fields): (s: Scan)
    requires pos <= |p|
    ensures pos <= s.pos <= |p|
    decreases |p| - pos
  {
    var j := FindFrom(p, pos, '\n');
    if j == |p| then InStatus(pos, f)
    else if j == pos then InError(pos, f)
    else ScanHeader(lib, p, j + 1, StatusLine(lib, Line(p, pos, j), f))
  }

  function ScanHeader(lib: Libc, p: string, pos: nat, f: Fields): (s: Scan)
    requires pos <= |p|
    ensures pos <= s.pos <= |p|
    decreases |p| - pos
  {
    var j := FindFrom(p, pos, '\n');
    if j == |p| then InHeader(pos, f)
    else
      var line := Line(p, pos, j);
      var colon := FindFrom(line, 0, ':');
      if colon == |line| then
        if f.status == 100 then ScanStatus(lib, p, j + 1, f) else InBody(j + 1, f)
      else
        var (ok, g) := HeaderLine(lib, line, colon, f);
        if ok then ScanHeader(lib, p, j + 1, g) else InError(j + 1, g)
  }

  // ---------------------------------------------------------------------------------------
  // Chunks
  // ---------------------------------------------------------------------------------------

  /** A chunk header: the size of the chunk, of the header, and the headers after the last chunk. */
  datatype ChunkHeader = Complete(size: int, headerSize: nat, tail: map<string, string>) | Incomplete

  /** The headers after the last chunk, up to a line without a colon; `start` is where the chunk header began. */
  function TailHeaders(p: string, start: nat, pos: nat, tail: map<string, string>): (h: ChunkHeader)
    requires start < pos <= |p|
    ensures h.Complete? ==> h.size == 0 && 0 < h.headerSize && start + h.headerSize <= |p|
    decreases |p| - pos
  {
    var j := FindFrom(p, pos, '\n');
    if j == |p| then Incomplete
    else
      var line := Line(p, pos, j);
      var colon := FindFrom(line, 0, ':');
      if colon == |line| then Complete(0, j + 1 - start, tail)
      else
        var name, value := Lower(line[..colon]), SkipSpace(line[colon + 1..]);
        TailHeaders(p, start, j + 1, if name in tail then tail else tail[name := value])
  }

  /** Where the line of a chunk header starts, after at most one line break. */
  function SkipBreak(p: string, start: nat): (pos: nat)
    requires start <= |p|
    ensures start <= pos <= |p|
  {
    var a := if start < |p| && p[start] == '\r' then start + 1 else start;
    if a < |p| && p[a] == '\n' then a + 1 else a
  }

  /**
    The chunk header at `start`. The size is read from all that follows, not from the line alone:
    on a line of blanks the number is looked for on later lines.
   */
  function ChunkHeaderAt(p: string, start: nat): (h: ChunkHeader)
    requires start <= |p|
    ensures h.Complete? ==> 0 < h.headerSize && start + h.headerSize <= |p|
  {
    var pos := SkipBreak(p, start);
    if pos == |p| then Incomplete
    else
      var j := FindFrom(p, pos, '\n');
      if j == |p| then Incomplete
      else
        var size := Strtoll16(p[pos..]);
        if size != 0 then Complete(size, j + 1 - start, map[]) else TailHeaders(p, start, j + 1, map[])
  }

  function AddTail(h: Headers, tail: map<string, string>): Headers {
    map n | n in h.Keys + tail.Keys :: if n in tail then Values(h, n) + [tail[n]] else h[n]
  }

  /**
    The chunks seen so far: where the next header is, up to where bytes are accounted for, the
    ranges, the bytes of headers, and whether the last chunk was seen. A negative size takes the
    next header back, before what is accounted for.
   */
  datatype Chunks = Chunks(
    end: int, at: int, ranges: seq<(int, int)>, headerBytes: int, finished: bool, header: Headers)

  /** The chunks seen after one more header. */
  function AfterChunk(c: Chunks, h: ChunkHeader): Chunks
    requires h.Complete?
  {
    var data := c.end + h.headerSize;
    Chunks(data + h.size, Max(c.at, c.end) + h.headerSize,
           if h.size > 0 then c.ranges + [(data, data + h.size)] else c.ranges,
           c.headerBytes + h.headerSize, h.size == 0, if h.size == 0 then AddTail(c.header, h.tail) else c.header)
  }

  /** There is a complete chunk header to read. */
  predicate CanTurn(p: string, c: Chunks) {
    && !c.finished && 0 <= c.end <= |p| && Max(c.at, c.end) < |p|
    && ChunkHeaderAt(p, c.end).Complete?
  }

  function ScanChunks(p: string, c: Chunks): (r: Chunks)
    ensures c.ranges <= r.ranges && r.at >= c.at
    decreases |p| - c.at
  {
    if CanTurn(p, c) then ScanChunks(p, AfterChunk(c, ChunkHeaderAt(p, c.end))) else c
  }

  // ---------------------------------------------------------------------------------------
  // The state of the parser
  // ---------------------------------------------------------------------------------------

  datatype Phase = ReadStatus | ReadHeader | ReadBody | ErrorState

  datatype Parser = Parser(
    phase: Phase, recvPos: int, f: Fields, bodyStart: int, finished: bool,
    ranges: seq<(int, int)>, curChunkEnd: int, chunkHeaderSize: int, partialChunkHeader: int)

  predicate ParsesChunks(f: Fields, dontParseChunks: bool) {
    f.chunked && !dontParseChunks
  }

  /** The parser in the body, with the chunks seen so far in a buffer of `n` bytes. */
  function InChunks(start: int, f: Fields, n: nat, c: Chunks): Parser {
    var partial := if !c.finished && 0 <= c.end <= n then Max(0, n - Max(c.at, c.end)) else 0;
    Parser(ReadBody, Max(c.at, n), f.(header := c.header), start, c.finished, c.ranges, c.end,
           c.headerBytes + partial, partial)
  }

  function InPlain(start: int, f: Fields, n: nat): Parser {
    var recvPos := if f.contentLength >= 0 then Min(n, start + f.contentLength) else n;
    Parser(ReadBody, recvPos, f, start,
           f.contentLength >= 0 && !f.chunked && recvPos - start >= f.contentLength, [], -1, 0, 0)
  }

  function NoChunks(start: int, f: Fields): Chunks {
    Chunks(start, start, [], 0, false, f.header)
  }

  /** The chunks a parser in the body has seen. */
  function ChunksOf(s: Parser): Chunks {
    Chunks(s.curChunkEnd, s.recvPos - s.partialChunkHeader, s.ranges, s.chunkHeaderSize - s.partialChunkHeader,
           s.finished, s.f.header)
  }

  /** The parser when the status line and the headers were read as far as `scan` says. */
  function AfterScan(dontParseChunks: bool, scan: Scan, p: string): Parser {
    match scan
    case InStatus(pos, f) => Parser(ReadStatus, pos, f, 0, false, [], -1, 0, 0)
    case InHeader(pos, f) => Parser(ReadHeader, pos, f, 0, false, [], -1, 0, 0)
    case InError(pos, f) => Parser(ErrorState, pos, f, 0, false, [], -1, 0, 0)
    case InBody(start, f) =>
      if ParsesChunks(f, dontParseChunks) then InChunks(start, f, |p|, ScanChunks(p, NoChunks(start, f)))
      else InPlain(start, f, |p|)
  }

  /** The parser for a buffer `p`, when its fields were `f0` at the start. */
  function ParserOf(lib: Libc, dontParseChunks: bool, f0: Fields, p: string): Parser {
    AfterScan(dontParseChunks, ScanStatus(lib, p, 0, f0), p)
  }

  /** The state of a parser that was handed `n` bytes. */
  predicate Sane(dontParseChunks: bool, s: Parser, n: nat) {
    match s.phase
    case ErrorState => true
    case ReadBody =>
      && 0 <= s.bodyStart <= n
      && if ParsesChunks(s.f, dontParseChunks) then
           && 0 <= s.curChunkEnd && 0 <= s.partialChunkHeader <= s.recvPos
           && (s.partialChunkHeader > 0 ==>
               s.recvPos == n && s.curChunkEnd <= s.recvPos - s.partialChunkHeader && !s.finished)
         else s == InPlain(s.bodyStart, s.f, n)
    case _ =>
      0 <= s.recvPos <= n && s == Parser(s.phase, s.recvPos, s.f, 0, false, [], -1, 0, 0)
  }

  /** The next chunk header is before the buffer. */
  predicate Lost(dontParseChunks: bool, s: Parser) {
    s.phase == ReadBody && ParsesChunks(s.f, dontParseChunks) && s.curChunkEnd < 0
  }

  /** What a parser becomes when it is handed a longer buffer. */
  function Resumed(lib: Libc, dontParseChunks: bool, s: Parser, b: string): Parser
    requires s.phase == ReadStatus || s.phase == ReadHeader ==> 0 <= s.recvPos <= |b|
  {
    match s.phase
    case ErrorState => s
    case ReadStatus => AfterScan(dontParseChunks, ScanStatus(lib, b, s.recvPos, s.f), b)
    case ReadHeader => AfterScan(dontParseChunks, ScanHeader(lib, b, s.recvPos, s.f), b)
    case ReadBody =>
      if ParsesChunks(s.f, dontParseChunks) then InChunks(s.bodyStart, s.f, |b|, ScanChunks(b, ChunksOf(s)))
      else InPlain(s.bodyStart, s.f, |b|)
  }

  /** How many of the bytes were counted as payload, and how many of `n` as protocol. */
  function Payload(s: Parser): int {
    if s.phase == ReadBody then s.recvPos - s.bodyStart - s.chunkHeaderSize else 0
  }

  function Protocol(s: Parser, n: nat): int {
    if s.phase == ReadBody then s.bodyStart + s.chunkHeaderSize else n
  }
}
