/**
  The resumable HTTP response parser. It is handed ever longer prefixes of a message and keeps
  in its fields where it is.
 */
module HttpParser {
  import opened Basics
  import opened HttpFormat
  import opened HttpResume

  /** What is known of the chunks after one turn of the chunk loop. */
  function AfterTurn(buf: string, c: Chunks): Chunks
    requires 0 <= c.end <= |buf|
  {
    var h, d := ChunkHeaderAt(buf, c.end), c.(at := Max(c.at, c.end));
    if h.Complete? then AfterChunk(d, h) else d
  }

  lemma TurnKeeps(buf: string, start: int, g: Fields, c: Chunks)
    requires 0 <= c.end <= |buf| && !c.finished && c.at < |buf|
    ensures
      var d, complete := AfterTurn(buf, c), ChunkHeaderAt(buf, c.end).Complete?;
      && c.at <= d.at && (complete ==> c.at < d.at) && (!complete ==> !CanTurn(buf, d))
      && InChunks(start, g, |buf|, ScanChunks(buf, c)) == InChunks(start, g, |buf|, ScanChunks(buf, d))
  {
    hide ScanChunks, ChunkHeaderAt, AfterChunk, InChunks;
    var h, d := ChunkHeaderAt(buf, c.end), c.(at := Max(c.at, c.end));
    ChunksStep(buf, c);
    ChunksStep(buf, d);
    if h.Complete? {
      AfterSkip(c, h);
    } else {
      AlikeParser(|buf|, start, g, c, d, |buf|);
    }
  }

  /** Skipping the rest of a chunk's data first makes no difference. */
  lemma AfterSkip(c: Chunks, h: ChunkHeader)
    requires h.Complete?
    ensures AfterChunk(c.(at := Max(c.at, c.end)), h) == AfterChunk(c, h)
    ensures h.headerSize > 0 ==> AfterChunk(c, h).at > c.at
  {
    hide AddTail;
  }

  class HttpParser {
    const lib: Libc
    const dontParseChunks: bool

    var phase: Phase
    var recvPos: int
    var f: Fields
    var bufLen: nat
    var bodyStart: int
    var finished: bool
    var ranges: seq<(int, int)>
    var curChunkEnd: int
    var chunkHeaderSize: int
    var partialChunkHeader: int

    function Snapshot(): Parser
      reads this
    {
      Parser(phase, recvPos, f, bodyStart, finished, ranges, curChunkEnd, chunkHeaderSize, partialChunkHeader)
    }

    ghost predicate Valid()
      reads this
    {
      Sane(dontParseChunks, Snapshot(), bufLen)
    }

    constructor (lib: Libc, dontParseChunks: bool)
      ensures Valid() && bufLen == 0 && this.lib == lib && this.dontParseChunks == dontParseChunks
      ensures Snapshot() == ParserOf(lib, dontParseChunks, NO_FIELDS, "")
    {
      this.lib, this.dontParseChunks := lib, dontParseChunks;
      phase, recvPos, f, bufLen, bodyStart := ReadStatus, 0, NO_FIELDS, 0, 0;
      finished, ranges, curChunkEnd, chunkHeaderSize, partialChunkHeader := false, [], -1, 0, 0;
      new;
      hide ParserOf;
      EmptyParser(lib, dontParseChunks, NO_FIELDS);
    }

    /** Starts over; the path, the protocol and the message of the last response stay. */
    method Reset()
      modifies this
      ensures Valid() && bufLen == 0
      ensures
        var f0 := NO_FIELDS.(path := old(f.path), protocol := old(f.protocol), message := old(f.message));
        Snapshot() == ParserOf(lib, dontParseChunks, f0, "")
    {
      hide ParserOf;
      f := NO_FIELDS.(path := f.path, protocol := f.protocol, message := f.message);
      phase, recvPos, bufLen, bodyStart := ReadStatus, 0, 0, 0;
      finished, ranges, curChunkEnd, chunkHeaderSize, partialChunkHeader := false, [], -1, 0, 0;
      EmptyParser(lib, dontParseChunks, f);
    }

    /** Scanning `buf` from the position and fields of this parser gives `s`. */
    ghost predicate OnTheWay(buf: string, s: Scan)
      reads this
    {
      && 0 <= recvPos <= |buf|
      && (phase == ReadStatus || phase == ReadHeader)
      && s == (if phase == ReadStatus then ScanStatus(lib, buf, recvPos, f) else ScanHeader(lib, buf, recvPos, f))
    }

    /** The status line and the headers, as far as they have come. */
    method Lines(buf: string, startPos: nat, ghost s: Scan) returns (error: bool, protocol: int)
      requires OnTheWay(buf, s) && bodyStart == 0
      modifies `phase, `recvPos, `f, `bodyStart
      ensures
        && recvPos == s.pos && f == s.f && error == s.InError?
        && match s
           case InStatus(_, _) => phase == ReadStatus && bodyStart == 0 && protocol == |buf| - startPos
           case InHeader(_, _) => phase == ReadHeader && bodyStart == 0 && protocol == |buf| - startPos
           case InError(_, _) => phase == ErrorState && bodyStart == 0
           case InBody(_, _) => phase == ReadBody && bodyStart == s.pos && protocol == s.pos - startPos
    {
      hide ScanStatus, ScanHeader, FindFrom, Line, StatusLine, HeaderLine;
      var from: int := startPos;
      protocol := 0;
      while true
        invariant OnTheWay(buf, s) && bodyStart == 0 && protocol == from - startPos
        decreases |buf| - recvPos
      {
        var pos := recvPos;
        var newline := FindFrom(buf, pos, '\n');
        if phase == ReadStatus {
          StatusStep(lib, buf, pos, f);
          if newline == |buf| {
            protocol := protocol + |buf| - from;
            return false, protocol;
          }
          if newline == pos {
            phase := ErrorState;
            return true, protocol;
          }
          var line := Line(buf, pos, newline);
          newline := newline + 1;
          recvPos := recvPos + (newline - pos);
          protocol := protocol + newline - from;
          f := StatusLine(lib, line, f);
          phase := ReadHeader;
          from := newline;
        } else {
          HeaderStep(lib, buf, pos, f);
          if newline == |buf| {
            protocol := protocol + |buf| - from;
            return false, protocol;
          }
          var line := Line(buf, pos, newline);
          newline := newline + 1;
          recvPos := recvPos + (newline - pos);
          var separator := FindFrom(line, 0, ':');
          if separator == |line| {
            if f.status == 100 {
              phase := ReadStatus;
            } else {
              phase := ReadBody;
              bodyStart := recvPos;
              protocol := protocol + newline - from;
              return false, protocol;
            }
          } else {
            var r := HeaderLine(lib, line, separator, f);
            f := r.1;
            if !r.0 {
              phase := ErrorState;
              return true, protocol;
            }
          }
        }
      }
    }

    /** The fields are those of a parser that has seen the chunks `c`. */
    ghost predicate HasChunks(start: int, g: Fields, c: Chunks)
      reads this
    {
      && phase == ReadBody && bodyStart == start && f == g.(header := c.header) && c == ChunksOf(Snapshot())
      && 0 <= partialChunkHeader <= recvPos && (partialChunkHeader > 0 ==> 0 <= c.end <= c.at && !finished)
    }

    /** One turn of the chunk loop: the rest of a chunk, then the next chunk header or a part of it. */
    method ChunkTurn(buf: string, ghost start: int, ghost g: Fields, ghost c: Chunks)
      returns (payload: int, protocol: int)
      requires HasChunks(start, g, c) && recvPos < |buf| && 0 <= c.end <= |buf| && !c.finished
      modifies `recvPos, `f, `finished, `ranges, `curChunkEnd, `chunkHeaderSize, `partialChunkHeader
      ensures
        && HasChunks(start, g, AfterTurn(buf, c))
        && recvPos == if ChunkHeaderAt(buf, c.end).Complete? then AfterTurn(buf, c).at else |buf|
      ensures protocol == chunkHeaderSize - old(chunkHeaderSize)
      ensures payload + protocol == recvPos - old(recvPos)
    {
      hide ChunkHeaderAt, AfterChunk;
      var incoming := |buf| - recvPos;
      payload := 0;
      var ahead := curChunkEnd - recvPos;
      if ahead > 0 {
        recvPos := recvPos + ahead;
        payload := ahead;
        incoming := incoming - ahead;
      }
      match ChunkHeaderAt(buf, curChunkEnd) {
        case Complete(size, n, tail) =>
          protocol := TakeHeader(size, n, tail, start, g, c.(at := Max(c.at, c.end)));
        case Incomplete =>
          partialChunkHeader := partialChunkHeader + incoming;
          chunkHeaderSize := chunkHeaderSize + incoming;
          recvPos := recvPos + incoming;
          protocol := incoming;
      }
    }

    /** What a complete chunk header changes, and how many of its bytes are new. */
    method TakeHeader(size: int, n: nat, tail: map<string, string>, ghost start: int, ghost g: Fields, ghost c: Chunks)
      returns (headerSize: int)
      requires HasChunks(start, g, c) && c.end <= c.at && !c.finished
      modifies `recvPos, `f, `finished, `ranges, `curChunkEnd, `chunkHeaderSize, `partialChunkHeader
      ensures HasChunks(start, g, AfterChunk(c, Complete(size, n, tail))) && partialChunkHeader == 0
      ensures headerSize == chunkHeaderSize - old(chunkHeaderSize) == recvPos - old(recvPos)
    {
      hide AddTail;
      if size > 0 {
        ranges := ranges + [(curChunkEnd + n, curChunkEnd + n + size)];
      }
      if size == 0 {
        f := f.(header := AddTail(f.header, tail));
        finished := true;
      }
      curChunkEnd := curChunkEnd + n + size;
      headerSize := n - partialChunkHeader;
      partialChunkHeader := 0;
      chunkHeaderSize := chunkHeaderSize + headerSize;
      recvPos := recvPos + headerSize;
    }

    /** The chunks of the body, as far as they have come. Where the next header is before the buffer, the loop stops. */
    method ChunkedBody(buf: string, ghost start: int, ghost g: Fields, ghost c0: Chunks)
      returns (payload: int, protocol: int)
      requires HasChunks(start, g, c0) && 0 <= c0.end && (partialChunkHeader > 0 ==> recvPos < |buf|)
      modifies `recvPos, `f, `finished, `ranges, `curChunkEnd, `chunkHeaderSize, `partialChunkHeader
      ensures Snapshot() == InChunks(start, g, |buf|, ScanChunks(buf, c0))
      ensures protocol == chunkHeaderSize - old(chunkHeaderSize)
      ensures payload + protocol == recvPos - old(recvPos)
    {
      hide ScanChunks, ChunkHeaderAt, AfterTurn, CanTurn, InChunks;
      ghost var c := c0;
      payload, protocol := 0, 0;
      while 0 <= curChunkEnd <= |buf| && !finished && recvPos < |buf|
        invariant HasChunks(start, g, c)
        invariant InChunks(start, g, |buf|, ScanChunks(buf, c0)) == InChunks(start, g, |buf|, ScanChunks(buf, c))
        invariant partialChunkHeader > 0 && recvPos >= |buf| ==> recvPos == |buf| && !CanTurn(buf, c)
        invariant protocol == chunkHeaderSize - old(chunkHeaderSize)
        invariant payload + protocol == recvPos - old(recvPos)
        decreases |buf| - (recvPos - partialChunkHeader), |buf| - recvPos
      {
        TurnKeeps(buf, start, g, c);
        var a, b := ChunkTurn(buf, start, g, c);
        payload, protocol := payload + a, protocol + b;
        c := AfterTurn(buf, c);
      }
      StopsHere(buf, start, g, c);
      ChunksStep(buf, c);
      if recvPos < |buf| {
        payload := payload + |buf| - recvPos;
        recvPos := |buf|;
      }
    }
    /** The body without chunks: all of it, or as much as its length says. */
    method PlainBody(buf: string) returns (payload: int)
      requires phase == ReadBody && 0 <= bodyStart <= recvPos <= |buf|
      requires f.contentLength >= 0 ==> recvPos <= bodyStart + f.contentLength
      modifies `recvPos
      ensures recvPos == if f.contentLength >= 0 then Min(|buf|, bodyStart + f.contentLength) else |buf|
      ensures payload == recvPos - old(recvPos)
    {
      var incoming := |buf| - recvPos;
      var payloadReceived := recvPos - bodyStart + incoming;
      if payloadReceived > f.contentLength && f.contentLength >= 0 {
        incoming := f.contentLength - recvPos + bodyStart;
      }
      recvPos := recvPos + incoming;
      payload := incoming;
    }

    /** The body, when the headers have just ended or when the parser has `n` bytes of the message. */
    method Body(buf: string, ghost n: nat) returns (payload: int, protocol: int)
      requires phase == ReadBody && 0 <= bodyStart <= |buf|
      requires Snapshot() == Parser(ReadBody, bodyStart, f, bodyStart, false, [], -1, 0, 0)
        || (Valid() && n == bufLen < |buf|)
      modifies `recvPos, `f, `finished, `ranges, `curChunkEnd, `chunkHeaderSize, `partialChunkHeader
      ensures
        var s := old(Snapshot());
        Snapshot() ==
          if ParsesChunks(s.f, dontParseChunks) then
            InChunks(s.bodyStart, s.f, |buf|,
              ScanChunks(buf, if s.curChunkEnd == -1 then NoChunks(s.bodyStart, s.f) else ChunksOf(s)))
          else InPlain(s.bodyStart, s.f, |buf|)
      ensures payload == Payload(Snapshot()) - Payload(old(Snapshot()))
      ensures protocol == chunkHeaderSize - old(chunkHeaderSize)
    {
      hide ScanChunks;
      if f.chunked && !dontParseChunks {
        if curChunkEnd == -1 {
          curChunkEnd := bodyStart;
        }
        payload, protocol := ChunkedBody(buf, bodyStart, f, ChunksOf(Snapshot()));
      } else {
        payload := PlainBody(buf);
        protocol := 0;
        if f.contentLength >= 0 && !f.chunked && recvPos - bodyStart >= f.contentLength {
          finished := true;
        }
      }
    }

    /**
      More bytes have come; `buf` holds all of them from the start of the message. The parser
      goes on where it was, and the bytes that are new are counted. It can go on unless the next
      chunk header is said to be before the buffer.
     */
    method Incoming(buf: string) returns (payload: int, protocol: int, error: bool)
      requires Valid() && bufLen <= |buf|
      modifies this
      ensures bufLen == |buf| && (Valid() <==> !Lost(dontParseChunks, Snapshot()))
      ensures Snapshot() == if old(bufLen) == |buf| then old(Snapshot())
        else Resumed(lib, dontParseChunks, old(Snapshot()), buf)
      ensures error <==> phase == ErrorState && old(bufLen) < |buf|
      ensures phase != ErrorState ==>
        && payload == Payload(Snapshot()) - Payload(old(Snapshot()))
        && protocol == Protocol(Snapshot(), |buf|) - Protocol(old(Snapshot()), old(bufLen))
    {
      hide ScanStatus, ScanHeader, ScanChunks, AfterScan;
      payload, protocol, error := 0, 0, false;
      var startPos := bufLen;
      ResumedSane(lib, dontParseChunks, Snapshot(), startPos, buf);
      if startPos == |buf| {
        return;
      }
      if phase == ErrorState {
        bufLen := |buf|;
        error := true;
        return;
      }
      if phase == ReadBody {
        payload, protocol := Body(buf, startPos);
        bufLen := |buf|;
      } else {
        ghost var scan := if phase == ReadStatus then ScanStatus(lib, buf, recvPos, f)
          else ScanHeader(lib, buf, recvPos, f);
        payload, protocol, error := Head(buf, startPos, scan);
        bufLen := |buf|;
      }
    }

    /** The status line and the headers, and the body if it begins. */
    method Head(buf: string, startPos: nat, ghost scan: Scan) returns (payload: int, protocol: int, error: bool)
      requires OnTheWay(buf, scan) && Snapshot() == Parser(phase, recvPos, f, 0, false, [], -1, 0, 0)
      modifies this
      ensures bufLen == old(bufLen) && Snapshot() == AfterScan(dontParseChunks, scan, buf)
      ensures error <==> phase == ErrorState
      ensures phase != ErrorState ==>
        payload == Payload(Snapshot()) && protocol == Protocol(Snapshot(), |buf|) - startPos
    {
      hide ScanStatus, ScanHeader, ScanChunks;
      payload := 0;
      error, protocol := Lines(buf, startPos, scan);
      if phase == ReadBody {
        var more;
        payload, more := Body(buf, 0);
        protocol := protocol + more;
      }
    }

    /** What is left to do after the last turn is to account for the rest of the bytes. */
    lemma StopsHere(buf: string, start: int, g: Fields, c: Chunks)
      requires HasChunks(start, g, c)
      requires !(0 <= curChunkEnd <= |buf| && !finished && recvPos < |buf|)
      requires partialChunkHeader > 0 && recvPos >= |buf| ==> recvPos == |buf| && !CanTurn(buf, c)
      ensures !CanTurn(buf, c)
      ensures Snapshot().(recvPos := Max(recvPos, |buf|)) == InChunks(start, g, |buf|, c)
    {
    }
  }

  /**
    A message fed to a fresh parser in any parts: `cuts` are the lengths of the ever longer
    prefixes. If every chunk header of the message is steady, the parser ends up as if it were fed
    all at once, and the summed counts are those of that.
   */
  method FeedAll(lib: Libc, dontParseChunks: bool, message: string, cuts: seq<nat>)
    returns (parser: HttpParser, payload: int, protocol: int, error: bool)
    requires Growing(cuts, |message|) && FedTo(cuts) == |message|
    ensures fresh(parser) && parser.Snapshot() == Fed(lib, dontParseChunks, message, cuts)
    ensures parser.phase != ErrorState && !Lost(dontParseChunks, parser.Snapshot()) ==>
      !error && payload == Payload(parser.Snapshot()) && protocol == Protocol(parser.Snapshot(), |message|)
    ensures SteadyMessage(lib, dontParseChunks, NO_FIELDS, message) ==>
      parser.Snapshot() == ParserOf(lib, dontParseChunks, NO_FIELDS, message)
        && !Lost(dontParseChunks, parser.Snapshot())
  {
    hide Resumed, ParserOf, SteadyMessage;
    parser := new HttpParser(lib, dontParseChunks);
    EmptyParser(lib, dontParseChunks, NO_FIELDS);
    payload, protocol, error := 0, 0, false;
    for i := 0 to |cuts|
      invariant fresh(parser) && parser.lib == lib && parser.dontParseChunks == dontParseChunks
      invariant parser.Snapshot() == Fed(lib, dontParseChunks, message, cuts[..i])
      invariant Lost(dontParseChunks, parser.Snapshot()) || (parser.Valid() && parser.bufLen == FedTo(cuts[..i]))
      invariant parser.phase != ErrorState && !Lost(dontParseChunks, parser.Snapshot()) ==>
        !error && payload == Payload(parser.Snapshot()) && protocol == Protocol(parser.Snapshot(), FedTo(cuts[..i]))
    {
      assert cuts[..i + 1][..i] == cuts[..i];
      if !Lost(dontParseChunks, parser.Snapshot()) {
        if parser.phase == ErrorState {
          ErrorStays(lib, dontParseChunks, parser.Snapshot(), message[..cuts[i]]);
        }
        var a, b, e := parser.Incoming(message[..cuts[i]]);
        payload, protocol, error := payload + a, protocol + b, error || e;
      }
    }
    assert cuts[..|cuts|] == cuts && message[..|message|] == message;
    if SteadyMessage(lib, dontParseChunks, NO_FIELDS, message) {
      FedIs(lib, dontParseChunks, message, cuts);
      ResumedIs(lib, dontParseChunks, NO_FIELDS, message, message);
    }
  }

  lemma ErrorStays(lib: Libc, dontParseChunks: bool, s: Parser, b: string)
    requires s.phase == ErrorState
    ensures Resumed(lib, dontParseChunks, s, b) == s
  {
  }
}
