/**
  The payload of a chunked body: what the ranges found by the parser hold, how it is moved
  together in place, and that it is what was sent.
 */
module HttpChunks {
  import opened Basics
  import opened HexNumber
  import opened HttpFormat
  import opened HttpResume
  import H = HttpHead

  // ---------------------------------------------------------------------------------------
  // What the ranges hold
  // ---------------------------------------------------------------------------------------

  /** Where the last range ends. */
  function EndOf(ranges: seq<(int, int)>, start: nat): int {
    if ranges == [] then start else ranges[|ranges| - 1].1
  }

  /** The ranges follow one another from `start` on, gaps allowed. */
  predicate InOrder(ranges: seq<(int, int)>, start: nat) {
    ranges != [] ==>
      var last, rest := ranges[|ranges| - 1], ranges[..|ranges| - 1];
      EndOf(rest, start) <= last.0 <= last.1 && InOrder(rest, start)
  }

  /** Ranges in order, each of which begins at `n` at the latest. */
  predicate Fit(ranges: seq<(int, int)>, start: nat, n: nat) {
    InOrder(ranges, start) && (ranges != [] ==> ranges[|ranges| - 1].0 <= n)
  }

  lemma {:induction false} OrderStart(ranges: seq<(int, int)>, start: nat)
    requires InOrder(ranges, start)
    ensures start <= EndOf(ranges, start)
  {
    if ranges != [] {
      OrderStart(ranges[..|ranges| - 1], start);
    }
  }

  /** The part of a range that is in the text; `offset` is the position of the text's first byte. */
  function Clip(s: string, offset: nat, r: (int, int)): string
    requires offset <= r.0 <= offset + |s| && r.0 <= r.1
  {
    s[r.0 - offset..Min(r.1 - offset, |s|)]
  }

  /** The bytes of all ranges, one after the other. */
  function Collected(s: string, offset: nat, ranges: seq<(int, int)>): (r: string)
    requires Fit(ranges, offset, offset + |s|)
    ensures ranges != [] ==> |r| <= Min(EndOf(ranges, offset) - offset, |s|)
    ensures ranges == [] ==> r == ""
  {
    if ranges == [] then ""
    else
      var last, rest := ranges[|ranges| - 1], ranges[..|ranges| - 1];
      OrderStart(rest, offset);
      Collected(s, offset, rest) + Clip(s, offset, last)
  }

  lemma CollectMore(s: string, offset: nat, ranges: seq<(int, int)>, r: (int, int))
    requires Fit(ranges, offset, offset + |s|) && EndOf(ranges, offset) <= r.0 <= r.1 && r.0 <= offset + |s|
    ensures Fit(ranges + [r], offset, offset + |s|) && offset <= r.0
    ensures Collected(s, offset, ranges + [r]) == Collected(s, offset, ranges) + Clip(s, offset, r)
  {
    OrderStart(ranges, offset);
    assert (ranges + [r])[..|ranges|] == ranges;
  }

  // ---------------------------------------------------------------------------------------
  // Moving the payload together
  // ---------------------------------------------------------------------------------------

  /** A text after bytes of it were moved to the front. */
  function Moved(s: string, dst: nat, src: nat, len: nat): string
    requires dst <= src && src + len <= |s|
  {
    s[..dst] + s[src..src + len] + s[dst + len..]
  }

  lemma MovedNext(x: string, t: string, src: nat, len: nat)
    requires |x| <= src && src + len <= |t|
    ensures Moved(x + t[|x|..], |x|, src, len) == x + t[src..src + len] + t[|x| + len..]
  {
    var s := x + t[|x|..];
    assert s[..|x|] == x;
    assert s[src..src + len] == t[src..src + len];
    assert s[|x| + len..] == t[|x| + len..];
  }

  /** Moves bytes towards the front of the same buffer. */
  method MoveDown(a: array<char>, dst: nat, src: nat, len: nat)
    requires dst <= src && src + len <= a.Length
    modifies a
    ensures a[..] == Moved(old(a[..]), dst, src, len)
  {
    hide Moved;
    ghost var was := a[..];
    MovedNone(was, dst, src);
    for k := 0 to len
      invariant a[..] == Moved(was, dst, src, k)
    {
      MovedOne(was, dst, src, k);
      ghost var now := a[..];
      assert a[src + k] == now[src + k];
      a[dst + k] := a[src + k];
      assert a[..] == now[dst + k := was[src + k]];
    }
  }

  lemma MovedNone(s: string, dst: nat, src: nat)
    requires dst <= src <= |s|
    ensures Moved(s, dst, src, 0) == s
  {
  }

  lemma MovedOne(s: string, dst: nat, src: nat, k: nat)
    requires dst <= src && src + k < |s|
    ensures |Moved(s, dst, src, k)| == |s| && Moved(s, dst, src, k)[src + k] == s[src + k]
    ensures Moved(s, dst, src, k)[dst + k := s[src + k]] == Moved(s, dst, src, k + 1)
  {
    var a, b := Moved(s, dst, src, k), Moved(s, dst, src, k + 1);
    assert |a| == |b| == |s|;
    forall i | 0 <= i < |s|
      ensures a[dst + k := s[src + k]][i] == b[i]
    {
      MovedAt(s, dst, src, k, i);
      MovedAt(s, dst, src, k + 1, i);
    }
    MovedAt(s, dst, src, k, src + k);
  }

  lemma MovedAt(s: string, dst: nat, src: nat, len: nat, i: nat)
    requires dst <= src && src + len <= |s| && i < |s|
    ensures |Moved(s, dst, src, len)| == |s|
    ensures Moved(s, dst, src, len)[i] == if dst <= i < dst + len then s[src + (i - dst)] else s[i]
  {
  }

  /**
    Removes the chunk headers from a body in place. The write position is never ahead of the
    position read from, and nothing after the result is touched.
   */
  method CollapseChunkHeaders(a: array<char>, size: nat, offset: nat, ranges: seq<(int, int)>, chunked: bool)
    returns (n: nat)
    requires size <= a.Length && Fit(ranges, offset, offset + size)
    modifies a
    ensures !chunked ==> n == size && a[..] == old(a[..])
    ensures n <= size && (chunked ==> n == |Collected(old(a[..size]), offset, ranges)|)
    ensures chunked ==> a[..] == Collected(old(a[..size]), offset, ranges) + old(a[..])[n..]
  {
    if !chunked {
      return size;
    }
    n := CollapseRanges(a, size, offset, ranges, a[..]);
  }

  method CollapseRanges(a: array<char>, size: nat, offset: nat, ranges: seq<(int, int)>, ghost was: string)
    returns (n: nat)
    requires size <= a.Length && Fit(ranges, offset, offset + size) && a[..] == was
    modifies a
    ensures n == |Collected(was[..size], offset, ranges)| <= size
    ensures a[..] == Collected(was[..size], offset, ranges) + was[n..]
  {
    hide *;
    n := 0;
    ghost var text := was[..size];
    NoneFits(text, ranges, offset);
    for i := 0 to |ranges|
      invariant Fit(ranges[..i], offset, offset + size)
      invariant n == |Collected(text, offset, ranges[..i])| <= size
      invariant a[..] == Collected(text, offset, ranges[..i]) + was[n..]
    {
      n := CollapseRange(a, n, was, size, ranges, i, offset);
    }
    assert ranges[..|ranges|] == ranges;
  }

  /** Moves one range to where the ranges before it end. */
  method CollapseRange(a: array<char>, n: nat, ghost was: string, size: nat, ranges: seq<(int, int)>, i: nat,
                       offset: nat)
    returns (m: nat)
    requires size <= |was| == a.Length && i < |ranges|
    requires Fit(ranges, offset, offset + size) && Fit(ranges[..i], offset, offset + size)
    requires n == |Collected(was[..size], offset, ranges[..i])| <= size
    requires a[..] == Collected(was[..size], offset, ranges[..i]) + was[n..]
    modifies a
    ensures Fit(ranges[..i + 1], offset, offset + size)
    ensures m == |Collected(was[..size], offset, ranges[..i + 1])| <= size
    ensures a[..] == Collected(was[..size], offset, ranges[..i + 1]) + was[m..]
  {
    hide *;
    var r := ranges[i];
    var len := r.1 - r.0;
    if r.0 - offset + len > size {
      len := size - r.0 + offset;
    }
    MovedRange(was, size, ranges, i, offset, len);
    MoveDown(a, n, r.0 - offset, len);
    m := n + len;
  }

  /** What moving a range to the end of those before it makes of the buffer. */
  lemma MovedRange(was: string, size: nat, ranges: seq<(int, int)>, i: nat, offset: nat, len: int)
    requires size <= |was| && i < |ranges|
    requires Fit(ranges, offset, offset + size) && Fit(ranges[..i], offset, offset + size)
    requires len == if ranges[i].1 - offset > size then size - ranges[i].0 + offset else ranges[i].1 - ranges[i].0
    ensures Fit(ranges[..i + 1], offset, offset + size)
    ensures
      var done, more := Collected(was[..size], offset, ranges[..i]), Collected(was[..size], offset, ranges[..i + 1]);
      && |done| <= ranges[i].0 - offset && 0 <= len && ranges[i].0 - offset + len <= size
      && |more| == |done| + len
      && Moved(done + was[|done|..], |done|, ranges[i].0 - offset, len) == more + was[|more|..]
  {
    hide Collected, Moved, InOrder, Fit, Clip;
    var done, r := Collected(was[..size], offset, ranges[..i]), ranges[i];
    CollectNext(was[..size], ranges, i, offset);
    MovedNext(done, was, r.0 - offset, len);
    ClipOf(was, size, offset, r, len);
  }

  lemma ClipOf(was: string, size: nat, offset: nat, r: (int, int), len: nat)
    requires offset <= r.0 <= r.1 && r.0 - offset + len <= size <= |was|
    requires len == if r.1 - offset > size then size - r.0 + offset else r.1 - r.0
    ensures was[r.0 - offset..r.0 - offset + len] == Clip(was[..size], offset, r)
  {
    var a, b := r.0 - offset, r.0 - offset + len;
    assert b == Min(r.1 - offset, size);
    assert was[a..b] == was[..size][a..b];
  }

  lemma NoneFits(s: string, ranges: seq<(int, int)>, offset: nat)
    ensures Fit(ranges[..0], offset, offset + |s|) && Collected(s, offset, ranges[..0]) == ""
  {
  }

  /** The next range is read from where nothing was written yet. */
  lemma CollectNext(s: string, ranges: seq<(int, int)>, i: nat, offset: nat)
    requires Fit(ranges, offset, offset + |s|) && i < |ranges| && Fit(ranges[..i], offset, offset + |s|)
    ensures offset <= ranges[i].0 <= ranges[i].1 && ranges[i].0 <= offset + |s|
    ensures |Collected(s, offset, ranges[..i])| <= ranges[i].0 - offset
    ensures Fit(ranges[..i + 1], offset, offset + |s|)
    ensures Collected(s, offset, ranges[..i + 1]) == Collected(s, offset, ranges[..i]) + Clip(s, offset, ranges[i])
  {
    PartFits(ranges, i + 1, offset, offset + |s|);
    assert ranges[..i + 1][..i] == ranges[..i];
    OrderStart(ranges[..i], offset);
  }

  lemma {:induction false} PartFits(ranges: seq<(int, int)>, k: nat, start: nat, n: nat)
    requires Fit(ranges, start, n) && k <= |ranges|
    ensures Fit(ranges[..k], start, n)
    decreases |ranges|
  {
    if k < |ranges| {
      var rest := ranges[..|ranges| - 1];
      assert rest[..k] == ranges[..k];
      PartFits(rest, k, start, n);
    } else {
      assert ranges[..k] == ranges;
    }
  }

  // ---------------------------------------------------------------------------------------
  // What the parser leaves to be moved together
  // ---------------------------------------------------------------------------------------

  /** Where the body ends, as far as it is there. */
  function BodyEnd(s: Parser): int {
    if s.f.chunked && s.ranges != [] then Min(s.ranges[|s.ranges| - 1].1, s.recvPos)
    else if s.f.contentLength < 0 then s.recvPos
    else Min(s.bodyStart + s.f.contentLength, s.recvPos)
  }

  /** The chunks of a text whose body starts at `start`: every byte of it is in a header or in a range. */
  predicate Accounted(p: string, start: nat, c: Chunks) {
    && start <= |p| && EndOf(c.ranges, start) <= c.end && c.at <= c.end && c.at <= |p| && Fit(c.ranges, start, |p|)
    && c.headerBytes + |Collected(p[start..], start, c.ranges)| == Min(c.end, |p|) - start
  }

  lemma AccountedNext(p: string, start: nat, c: Chunks, h: ChunkHeader)
    requires Accounted(p, start, c) && h.Complete? && c.end + h.headerSize <= |p| && h.size >= 0
    ensures Accounted(p, start, AfterChunk(c, h))
  {
    hide Collected, InOrder;
    OrderStart(c.ranges, start);
    if h.size > 0 {
      var at := c.end + h.headerSize;
      CollectMore(p[start..], start, c.ranges, (at, at + h.size));
    }
  }

  lemma {:induction false} ScanAccounts(p: string, start: nat, c: Chunks)
    requires Accounted(p, start, c) && NoneNegative(p, c)
    ensures Accounted(p, start, ScanChunks(p, c))
    decreases |p| - c.at
  {
    hide Accounted, ChunkHeaderAt;
    if CanTurn(p, c) {
      AccountedNext(p, start, c, ChunkHeaderAt(p, c.end));
      ScanAccounts(p, start, AfterChunk(c, ChunkHeaderAt(p, c.end)));
    }
  }

  /** A text that goes as far as the last range holds all there is of the ranges. */
  lemma {:induction false} CollectedPrefix(s: string, n: nat, offset: nat, ranges: seq<(int, int)>)
    requires Fit(ranges, offset, offset + |s|) && Min(EndOf(ranges, offset) - offset, |s|) <= n <= |s|
    ensures Fit(ranges, offset, offset + n)
    ensures Collected(s[..n], offset, ranges) == Collected(s, offset, ranges)
  {
    hide Clip;
    if ranges != [] {
      var last, rest := ranges[|ranges| - 1], ranges[..|ranges| - 1];
      OrderStart(rest, offset);
      CollectedPrefix(s, n, offset, rest);
      ClipPrefix(s, n, offset, last);
    }
  }

  lemma ClipPrefix(s: string, n: nat, offset: nat, r: (int, int))
    requires offset <= r.0 <= offset + n <= offset + |s| && r.0 <= r.1 && Min(r.1 - offset, |s|) <= n
    ensures Clip(s[..n], offset, r) == Clip(s, offset, r)
  {
    var a, b := r.0 - offset, Min(r.1 - offset, |s|);
    assert s[..n][a..b] == s[a..b];
  }

  /**
    Moving the body together leaves as many bytes as were counted as payload, except that bytes
    received after the end of the last chunk are counted too. This is for sizes that are not
    negative.
   */
  lemma CollapsedIsPayload(lib: Libc, f0: Fields, p: string)
    requires
      var s := ScanStatus(lib, p, 0, f0);
      s.InBody? && s.f.chunked && NoneNegative(p, NoChunks(s.pos, s.f))
    ensures
      var s := ParserOf(lib, false, f0, p);
      && 0 <= s.bodyStart <= BodyEnd(s) <= |p| && Fit(s.ranges, s.bodyStart, BodyEnd(s))
      && Payload(s) == |Collected(p[s.bodyStart..BodyEnd(s)], s.bodyStart, s.ranges)|
                       + if s.finished && s.curChunkEnd < |p| then |p| - s.curChunkEnd else 0
  {
    hide ScanStatus, ScanChunks, Collected, NoneNegative, Accounted, BodyEnd, Fit, Payload, InChunks;
    var scan := ScanStatus(lib, p, 0, f0);
    NothingAccounted(p, scan.pos, scan.f);
    ScanAccounts(p, scan.pos, NoChunks(scan.pos, scan.f));
    AccountedIsPayload(p, scan.pos, scan.f, ScanChunks(p, NoChunks(scan.pos, scan.f)));
  }

  lemma NothingAccounted(p: string, start: nat, f: Fields)
    requires start <= |p|
    ensures Accounted(p, start, NoChunks(start, f))
  {
    NoneFits(p[start..], [], start);
  }

  lemma FromTo(p: string, a: nat, b: nat)
    requires a <= b <= |p|
    ensures p[a..][..b - a] == p[a..b]
  {
  }

  lemma AccountedIsPayload(p: string, start: nat, f: Fields, c: Chunks)
    requires Accounted(p, start, c) && f.chunked
    ensures
      var s := InChunks(start, f, |p|, c);
      && 0 <= s.bodyStart <= BodyEnd(s) <= |p| && Fit(s.ranges, s.bodyStart, BodyEnd(s))
      && Payload(s) == |Collected(p[s.bodyStart..BodyEnd(s)], s.bodyStart, s.ranges)|
                       + if s.finished && s.curChunkEnd < |p| then |p| - s.curChunkEnd else 0
  {
    hide Collected, InOrder;
    var s := InChunks(start, f, |p|, c);
    OrderStart(s.ranges, start);
    CollectedPrefix(p[start..], BodyEnd(s) - start, start, s.ranges);
    FromTo(p, start, BodyEnd(s));
  }

  /**
    Whenever the bytes after a chunk header belong to a chunk or follow the last one, that header is
    not before what was counted already.
   */
  predicate NeverBehind(p: string, c: Chunks)
    decreases |p| - c.at
  {
    CanTurn(p, c) ==>
      var h := ChunkHeaderAt(p, c.end);
      !Behind(p, c, h) && NeverBehind(p, AfterChunk(c, h))
  }

  predicate Behind(p: string, c: Chunks, h: ChunkHeader)
    requires h.Complete?
  {
    h.size >= 0 && c.end + h.headerSize < |p| && c.end < c.at
  }

  /** What was counted as payload, without the bytes after the last chunk. */
  function Counted(start: int, n: nat, c: Chunks): int {
    if c.finished then Max(c.at, n) - start - c.headerBytes - Max(0, n - c.end)
    else Max(c.at, Min(c.end, n)) - start - c.headerBytes
  }

  /** All that is in the ranges was counted, and nothing else. */
  predicate Right(p: string, start: nat, c: Chunks) {
    && start <= |p| && Fit(c.ranges, start, |p|)
    && Counted(start, |p|, c) == |Collected(p[start..], start, c.ranges)|
  }

  /** Less was counted. */
  predicate Short(p: string, start: nat, c: Chunks) {
    && start <= |p|
    && (Fit(c.ranges, start, |p|) ==> Counted(start, |p|, c) < |Collected(p[start..], start, c.ranges)|)
  }

  lemma AfterFits(p: string, start: nat, c: Chunks, h: ChunkHeader)
    requires h.Complete? && start <= |p| && c.end + h.headerSize <= |p|
    ensures
      var at, d := c.end + h.headerSize, AfterChunk(c, h);
      if h.size <= 0 then d.ranges == c.ranges
      else
        && (Fit(d.ranges, start, |p|) <==> Fit(c.ranges, start, |p|) && EndOf(c.ranges, start) <= at)
        && (Fit(d.ranges, start, |p|) ==>
            |Collected(p[start..], start, d.ranges)| ==
            |Collected(p[start..], start, c.ranges)| + Min(at + h.size, |p|) - at)
  {
    hide Collected;
    if h.size > 0 {
      var at, d := c.end + h.headerSize, AfterChunk(c, h);
      assert d.ranges[..|c.ranges|] == c.ranges;
      if EndOf(c.ranges, start) <= at && InOrder(c.ranges, start) {
        OrderStart(c.ranges, start);
        LastStart(c.ranges, start);
        CollectMore(p[start..], start, c.ranges, (at, at + h.size));
      }
    }
  }

  lemma LastStart(ranges: seq<(int, int)>, start: nat)
    requires InOrder(ranges, start)
    ensures ranges != [] ==> ranges[|ranges| - 1].0 <= EndOf(ranges, start)
  {
  }

  /** One more header, not behind what was counted: the count stays right. */
  lemma RightNext(p: string, start: nat, c: Chunks, h: ChunkHeader)
    requires Right(p, start, c) && h.Complete? && !c.finished && 0 <= c.end
    requires c.end + h.headerSize <= |p| && Max(c.at, c.end) < |p| && EndOf(c.ranges, start) <= Max(c.at, c.end)
    ensures
      var d := AfterChunk(c, h);
      && EndOf(d.ranges, start) <= Max(d.at, d.end)
      && if Behind(p, c, h) then Short(p, start, d) else Right(p, start, d)
  {
    hide Collected, InOrder;
    AfterFits(p, start, c, h);
  }

  lemma ShortNext(p: string, start: nat, c: Chunks, h: ChunkHeader)
    requires Short(p, start, c) && h.Complete? && !c.finished && 0 <= c.end
    requires c.end + h.headerSize <= |p| && Max(c.at, c.end) < |p|
    ensures Short(p, start, AfterChunk(c, h))
  {
    hide Collected, InOrder;
    AfterFits(p, start, c, h);
  }

  lemma {:induction false} ScanShort(p: string, start: nat, c: Chunks)
    requires Short(p, start, c)
    ensures Short(p, start, ScanChunks(p, c))
    decreases |p| - c.at
  {
    hide Short, ChunkHeaderAt;
    if CanTurn(p, c) {
      var h := ChunkHeaderAt(p, c.end);
      ShortNext(p, start, c, h);
      ScanShort(p, start, AfterChunk(c, h));
    }
  }

  lemma {:induction false} ScanRight(p: string, start: nat, c: Chunks)
    requires Right(p, start, c) && EndOf(c.ranges, start) <= Max(c.at, c.end)
    ensures
      var r := ScanChunks(p, c);
      if NeverBehind(p, c) then Right(p, start, r) else Short(p, start, r)
    decreases |p| - c.at
  {
    hide Short, Right, ChunkHeaderAt, Behind;
    if CanTurn(p, c) {
      var h := ChunkHeaderAt(p, c.end);
      RightNext(p, start, c, h);
      if Behind(p, c, h) {
        ScanShort(p, start, AfterChunk(c, h));
      } else {
        ScanRight(p, start, AfterChunk(c, h));
      }
    }
  }

  /**
    For chunk sizes of either sign: what was counted as payload is as much as the ranges hold, and
    the bytes after the last chunk, if and only if no header of bytes that were received is before
    what was counted already.
   */
  lemma PayloadIff(lib: Libc, f0: Fields, p: string)
    requires
      var s := ScanStatus(lib, p, 0, f0);
      s.InBody? && s.f.chunked && !Lost(false, ParserOf(lib, false, f0, p))
    ensures
      var scan, s := ScanStatus(lib, p, 0, f0), ParserOf(lib, false, f0, p);
      var start := scan.pos;
      NeverBehind(p, NoChunks(start, scan.f)) <==>
        && Fit(s.ranges, start, |p|)
        && Payload(s) == |Collected(p[start..], start, s.ranges)|
                         + if s.finished && s.curChunkEnd < |p| then |p| - s.curChunkEnd else 0
  {
    hide ScanStatus, ScanChunks, Collected, NeverBehind;
    var scan := ScanStatus(lib, p, 0, f0);
    var start := scan.pos;
    var c := NoChunks(start, scan.f);
    NoneFits(p[start..], [], start);
    assert Right(p, start, c);
    ScanRight(p, start, c);
  }

  /**
    With a negative size it is not so: the body `-2 CRLF 3 CRLF abc` has a range of three bytes, and one
    byte is counted as payload.
   */
  lemma NegativeExample(f: Fields)
    ensures
      var p := "-2\r\n3\r\nabc";
      var s := InChunks(0, f, |p|, ScanChunks(p, NoChunks(0, f)));
      Payload(s) == 1 && s.ranges == [(7, 10)] && Clip(p, 0, s.ranges[0]) == "abc"
  {
    hide ChunkHeaderAt, AddTail, ScanChunks;
    var p := "-2\r\n3\r\nabc";
    var c := NoChunks(0, f);
    NegativeHeader();
    ChunksStep(p, c);
    var d := AfterChunk(c, Complete(-2, 4, map[]));
    NextHeader();
    ChunksStep(p, d);
    var e := AfterChunk(d, Complete(3, 5, map[]));
    ChunksStep(p, e);
    assert [] + [(7, 10)] == [(7, 10)];
  }

  lemma NegativeHeader()
    ensures ChunkHeaderAt("-2\r\n3\r\nabc", 0) == Complete(-2, 4, map[])
  {
    hide Strtoll16, ChunkHeaderAt, TailHeaders;
    var p := "-2\r\n3\r\nabc";
    assert p[0..] == "-2" + ("\r" + "\n3\r\nabc");
    ReadsMinusTwo("\n3\r\nabc");
    assert SkipBreak(p, 0) == 0;
    FindAt(p, 0, 3);
    ChunkHeaderStep(p, 0);
  }

  lemma NextHeader()
    ensures ChunkHeaderAt("-2\r\n3\r\nabc", 2) == Complete(3, 5, map[])
  {
    hide Strtoll16, ChunkHeaderAt, TailHeaders;
    var p := "-2\r\n3\r\nabc";
    assert p[4..] == "3" + (['\r'] + "\nabc");
    assert "3"[..0] == "" && HexValue("3") == 3;
    ReadsBack("3", '\r', "\nabc");
    assert SkipBreak(p, 2) == 4;
    FindAt(p, 4, 6);
    ChunkHeaderStep(p, 2);
  }

  lemma FindAt(p: string, i: nat, j: nat)
    requires i <= j < |p| && p[j] == '\n' && forall k :: i <= k < j ==> p[k] != '\n'
    ensures FindFrom(p, i, '\n') == j
  {
    hide FindFrom;
  }

  lemma ReadsMinusTwo(rest: string)
    ensures Strtoll16("-2" + ("\r" + rest)) == -2
  {
    assert "-2"[..1] == "-" && "-"[..0] == "" && "\r"[..0] == "";
    ReadConcat(Blank, "-2", "\r" + rest);
    ReadConcat(Digits(true, 2), "\r", rest);
    ReadStopped(-2, rest);
  }

  // ---------------------------------------------------------------------------------------
  // What was sent: section 4.1 of RFC 7230
  // ---------------------------------------------------------------------------------------

  /** A size in hexadecimal digits, with an extension. */
  datatype SizeLine = SizeLine(digits: string, ext: string)

  function Text(l: SizeLine): string {
    l.digits + l.ext
  }

  predicate LineOk(l: SizeLine, size: nat) {
    && AreHexDigits(l.digits) && HexValue(l.digits) == size <= MAX64
    && '\n' !in l.ext && (l.ext != "" ==> HexDigit(l.ext[0]) < 0 && l.ext[0] != 'x' && l.ext[0] != 'X')
  }

  /** After the data of a chunk a line break, or a part of it, or nothing. */
  predicate IsBreak(brk: string) {
    brk == "" || brk == "\r" || brk == "\n" || brk == CRLF
  }

  datatype Chunk = Chunk(line: SizeLine, data: string, brk: string)

  predicate ChunkOk(c: Chunk) {
    c.data != "" && LineOk(c.line, |c.data|) && IsBreak(c.brk)
  }

  lemma ChunkBreak(c: Chunk)
    requires ChunkOk(c)
    ensures IsBreak(c.brk)
  {
  }

  /** Every chunk that is not too long to be counted has a size line, with or without an extension. */
  lemma HasLine(data: string, ext: string)
    requires data != "" && |data| <= MAX64 && '\n' !in ext && (ext != "" ==> ext[0] == ';')
    ensures ChunkOk(Chunk(SizeLine(Hex(|data|), ext), data, CRLF))
  {
    HexValueOfHex(|data|);
  }

  function Trailers(ts: seq<H.Field>): string {
    if ts == [] then CRLF else H.Written(ts[0]) + CRLF + Trailers(ts[1..])
  }

  /** The body for a list of chunks, the size line of the last chunk, and the trailers. */
  function Encoded(cs: seq<Chunk>, last: SizeLine, ts: seq<H.Field>): string {
    if cs == [] then Text(last) + CRLF + Trailers(ts)
    else Text(cs[0].line) + CRLF + (cs[0].data + (cs[0].brk + Encoded(cs[1..], last, ts)))
  }

  function Data(cs: seq<Chunk>): string {
    if cs == [] then "" else cs[0].data + Data(cs[1..])
  }

  /** The value of a name in the headers after the last chunk, if there is one. */
  function InTail(tail: map<string, string>, name: string): seq<string> {
    if name in tail then [tail[name]] else []
  }

  /** The first value of a name. */
  function FirstOf(ts: seq<H.Field>, name: string): seq<string> {
    var vs := H.ValuesOf(ts, name);
    if vs == [] then [] else [vs[0]]
  }

  /** Values that are known already are kept, and otherwise the first one counts. */
  predicate TailKeeps(tail: map<string, string>, ts: seq<H.Field>, name: string, r: map<string, string>) {
    InTail(r, name) == if name in tail then InTail(tail, name) else FirstOf(ts, name)
  }

  lemma TailStep(p: string, start: nat, pos: nat, tail: map<string, string>, x: H.Field)
    returns (more: map<string, string>)
    requires start < pos && At(p, pos, H.Written(x) + CRLF) && H.LineOk(x)
    ensures pos + |H.Written(x)| + 2 <= |p|
    ensures TailHeaders(p, start, pos, tail) == TailHeaders(p, start, pos + |H.Written(x)| + 2, more)
    ensures more == if Lower(x.name) in tail then tail else tail[Lower(x.name) := H.Text(x)]
  {
    hide At, Line, Lower, SkipSpace, H.Written, H.Text, H.LineOk, FindFrom;
    H.LineParts(x);
    LineRead(p, pos, H.Written(x));
    more := if Lower(x.name) in tail then tail else tail[Lower(x.name) := H.Text(x)];
  }

  lemma TailEnd(p: string, start: nat, pos: nat, tail: map<string, string>)
    requires start < pos && At(p, pos, CRLF)
    ensures TailHeaders(p, start, pos, tail) == Complete(0, pos + 2 - start, tail)
  {
    hide FindFrom, At, Line;
    assert "" + CRLF == CRLF;
    LineRead(p, pos, "");
  }

  lemma KeepsMore(tail: map<string, string>, x: H.Field, rest: seq<H.Field>, name: string, r: map<string, string>)
    requires
      var more := if Lower(x.name) in tail then tail else tail[Lower(x.name) := H.Text(x)];
      TailKeeps(more, rest, name, r)
    ensures TailKeeps(tail, [x] + rest, name, r)
  {
    hide Lower, H.Text;
    H.ValuesOfMore([x] + rest, name);
  }

  lemma {:induction false} TailRead(p: string, start: nat, pos: nat, tail: map<string, string>, ts: seq<H.Field>)
    requires start < pos && At(p, pos, Trailers(ts)) && forall i :: 0 <= i < |ts| ==> H.LineOk(ts[i])
    ensures
      var h := TailHeaders(p, start, pos, tail);
      && h.Complete? && h.headerSize == pos + |Trailers(ts)| - start
      && forall name :: TailKeeps(tail, ts, name, h.tail)
    decreases |ts|
  {
    hide TailHeaders, At, H.LineOk, H.Written, H.Text, Lower;
    if ts == [] {
      TailEnd(p, start, pos, tail);
    } else {
      AtSplit(p, pos, H.Written(ts[0]) + CRLF, Trailers(ts[1..]));
      var more := TailStep(p, start, pos, tail, ts[0]);
      TailRead(p, start, pos + |H.Written(ts[0])| + 2, more, ts[1..]);
      var h := TailHeaders(p, start, pos, tail);
      forall name
        ensures TailKeeps(tail, ts, name, h.tail)
      {
        assert ts == [ts[0]] + ts[1..];
        KeepsMore(tail, ts[0], ts[1..], name, h.tail);
      }
    }
  }

  /** The headers of the head are kept, and the first value of each name after the last chunk comes behind them. */
  ghost predicate Joins(before: Headers, ts: seq<H.Field>, after: Headers) {
    forall name :: Values(after, name) == Values(before, name) + FirstOf(ts, name)
  }

  lemma TailJoins(before: Headers, ts: seq<H.Field>, tail: map<string, string>)
    requires forall name :: TailKeeps(map[], ts, name, tail)
    ensures Joins(before, ts, AddTail(before, tail))
  {
    hide FirstOf;
    forall name
      ensures Values(AddTail(before, tail), name) == Values(before, name) + FirstOf(ts, name)
    {
      assert TailKeeps(map[], ts, name, tail);
    }
  }

  /** Where the size line is, after the line break that ended the chunk before, if any. */
  lemma SkipsBreak(p: string, start: nat, brk: string, line: string)
    requires IsBreak(brk)
    requires At(p, start, brk + line) && line != "" && line[0] != '\r' && '\n' !in line
    ensures start < |p| && SkipBreak(p, start) == start + |brk| < |p|
  {
    var t := brk + line;
    assert p[start] == p[start..start + |t|][0];
    assert brk != "" ==> p[start + 1] == p[start..start + |t|][1];
  }

  /** A size line is some text without a line break, and the size is read from it whatever follows. */
  lemma SizeText(l: SizeLine, size: nat, rest: string)
    requires LineOk(l, size)
    ensures Text(l) != "" && HexDigit(Text(l)[0]) >= 0 && '\n' !in Text(l)
    ensures Strtoll16(Text(l) + CRLF + rest) == size
  {
    hide Strtoll16, HexValue;
    var more := if l.ext == "" then "\n" + rest else l.ext[1..] + CRLF + rest;
    var c := if l.ext == "" then '\r' else l.ext[0];
    assert Text(l) + CRLF + rest == l.digits + ([c] + more);
    ReadsBack(l.digits, c, more);
    assert forall i :: 0 <= i < |l.digits| ==> l.digits[i] != '\n';
  }

  lemma LineAfterBreak(p: string, start: nat, brk: string, l: SizeLine, size: nat)
    requires IsBreak(brk)
    requires LineOk(l, size) && At(p, start, brk + (Text(l) + CRLF))
    ensures
      var pos, j := start + |brk|, start + |brk| + |Text(l)| + 1;
      && start < |p| && SkipBreak(p, start) == pos && j < |p| && FindFrom(p, pos, '\n') == j
      && Strtoll16(p[pos..]) == size && HasText(p, pos, j)
  {
    hide *;
    SizeText(l, size, "");
    BreakThenLine(p, start, brk, Text(l));
    SizeAt(p, start + |brk|, l, size);
  }

  lemma BreakThenLine(p: string, start: nat, brk: string, line: string)
    requires IsBreak(brk)
    requires At(p, start, brk + (line + CRLF)) && line != "" && HexDigit(line[0]) >= 0 && '\n' !in line
    ensures
      var pos, j := start + |brk|, start + |brk| + |line| + 1;
      && start < |p| && SkipBreak(p, start) == pos && j < |p| && FindFrom(p, pos, '\n') == j && HasText(p, pos, j)
      && At(p, pos, line + CRLF)
  {
    hide *;
    BreakParts(p, start, brk, line);
    SkipsBreak(p, start, brk, line);
    LineRead(p, start + |brk|, line);
    TextThere(p, start + |brk|, line);
  }

  lemma BreakParts(p: string, start: nat, brk: string, line: string)
    requires At(p, start, brk + (line + CRLF)) && line != "" && HexDigit(line[0]) >= 0
    ensures At(p, start, brk + line) && At(p, start + |brk|, line + CRLF) && line[0] != '\r'
  {
    hide At;
    assert brk + (line + CRLF) == brk + line + CRLF;
    AtSplit(p, start, brk + line, CRLF);
    AtSplit(p, start, brk, line + CRLF);
  }

  lemma TextThere(p: string, pos: nat, line: string)
    requires At(p, pos, line + CRLF) && line != "" && HexDigit(line[0]) >= 0
    ensures HasText(p, pos, pos + |line| + 1)
  {
    FollowedBy(p, pos, line + CRLF);
    assert p[pos + 0] == line[0];
  }

  lemma SizeAt(p: string, pos: nat, l: SizeLine, size: nat)
    requires LineOk(l, size) && At(p, pos, Text(l) + CRLF)
    ensures Strtoll16(p[pos..]) == size
  {
    hide Strtoll16, Text, LineOk;
    FollowedBy(p, pos, Text(l) + CRLF);
    SizeText(l, size, p[pos + |Text(l) + CRLF|..]);
  }

  lemma FollowedBy(p: string, at: nat, t: string)
    requires At(p, at, t)
    ensures p[at..] == t + p[at + |t|..]
    ensures forall k :: 0 <= k < |t| ==> p[at + k] == t[k]
  {
    var u := p[at..at + |t|];
    assert p[at..] == u + p[at + |t|..];
    assert forall k :: 0 <= k < |u| ==> u[k] == p[at + k];
  }

  lemma HeaderRead(p: string, start: nat, brk: string, l: SizeLine, size: nat)
    requires IsBreak(brk)
    requires LineOk(l, size) && At(p, start, brk + (Text(l) + CRLF))
    ensures start < start + |brk| + |Text(l)| + 2 <= |p| && SteadyAt(p, start)
    ensures
      ChunkHeaderAt(p, start) ==
        if size != 0 then Complete(size, |brk| + |Text(l)| + 2, map[])
        else TailHeaders(p, start, start + |brk| + |Text(l)| + 2, map[])
  {
    hide FindFrom, SkipBreak, At, Strtoll16, Text, LineOk, ChunkHeaderAt, TailHeaders, HasText;
    LineAfterBreak(p, start, brk, l, size);
    ChunkHeaderStep(p, start);
  }

  lemma LastHeader(p: string, start: nat, brk: string, last: SizeLine, ts: seq<H.Field>)
    requires IsBreak(brk)
    requires LineOk(last, 0) && forall i :: 0 <= i < |ts| ==> H.LineOk(ts[i])
    requires At(p, start, brk + Encoded([], last, ts))
    ensures start < |p| && SteadyAt(p, start)
    ensures
      var h := ChunkHeaderAt(p, start);
      && h.Complete? && h.size == 0 && h.headerSize == |brk + Encoded([], last, ts)|
      && forall name :: TailKeeps(map[], ts, name, h.tail)
  {
    hide TailHeaders, ChunkHeaderAt, LineOk, Text, SteadyAt, TailKeeps, At, H.LineOk, Trailers;
    var size := Text(last) + CRLF;
    assert brk + Encoded([], last, ts) == brk + size + Trailers(ts);
    AtSplit(p, start, brk + size, Trailers(ts));
    HeaderRead(p, start, brk, last, 0);
    TailRead(p, start, start + |brk + size|, map[], ts);
  }

  lemma LastRead(p: string, c: Chunks, brk: string, last: SizeLine, ts: seq<H.Field>)
    requires !c.finished && c.at <= c.end && 0 <= c.end && IsBreak(brk)
    requires LineOk(last, 0) && forall i :: 0 <= i < |ts| ==> H.LineOk(ts[i])
    requires At(p, c.end, brk + Encoded([], last, ts))
    ensures
      var r := ScanChunks(p, c);
      && r.finished && r.ranges == c.ranges && r.end == c.end + |brk + Encoded([], last, ts)|
      && AllSteady(p, c) && NoneNegative(p, c) && Joins(c.header, ts, r.header)
  {
    hide ChunkHeaderAt, LineOk, SteadyAt, AddTail, Joins, TailKeeps, At, H.LineOk, Encoded, ScanChunks;
    LastHeader(p, c.end, brk, last, ts);
    TailJoins(c.header, ts, ChunkHeaderAt(p, c.end).tail);
    ChunksStep(p, c);
    ChunksStep(p, AfterChunk(c, ChunkHeaderAt(p, c.end)));
  }

  /** The chunks after one more chunk with data. */
  function WithData(c: Chunks, brk: string, k: Chunk): Chunks {
    var n := |brk| + |Text(k.line)| + 2;
    var at := c.end + n;
    Chunks(at + |k.data|, at, c.ranges + [(at, at + |k.data|)], c.headerBytes + n, false, c.header)
  }

  lemma ChunkRead(p: string, c: Chunks, brk: string, k: Chunk)
    requires !c.finished && c.at <= c.end && 0 <= c.end && IsBreak(brk)
    requires ChunkOk(k) && At(p, c.end, brk + (Text(k.line) + CRLF))
    ensures ScanChunks(p, c) == ScanChunks(p, WithData(c, brk, k))
    ensures AllSteady(p, WithData(c, brk, k)) ==> AllSteady(p, c)
    ensures NoneNegative(p, WithData(c, brk, k)) ==> NoneNegative(p, c)
  {
    hide TailHeaders, ChunkHeaderAt, LineOk, Text, SteadyAt, AddTail;
    HeaderRead(p, c.end, brk, k.line, |k.data|);
    assert CanTurn(p, c) && AfterChunk(c, ChunkHeaderAt(p, c.end)) == WithData(c, brk, k);
  }

  /** Every list of chunks is read to its end, and the new ranges hold its data. */
  lemma {:induction false} ScanEncoded(
      p: string, start: nat, c: Chunks, brk: string, cs: seq<Chunk>, last: SizeLine, ts: seq<H.Field>)
    requires !c.finished && c.at <= c.end && 0 <= c.end && IsBreak(brk)
    requires forall i :: 0 <= i < |cs| ==> ChunkOk(cs[i])
    requires LineOk(last, 0) && forall i :: 0 <= i < |ts| ==> H.LineOk(ts[i])
    requires At(p, c.end, brk + Encoded(cs, last, ts))
    requires start <= |p| && Fit(c.ranges, start, |p|) && EndOf(c.ranges, start) <= c.end
    ensures
      var r := ScanChunks(p, c);
      && r.finished && r.end == c.end + |brk + Encoded(cs, last, ts)| && AllSteady(p, c) && NoneNegative(p, c)
      && Fit(r.ranges, start, |p|) && Joins(c.header, ts, r.header)
      && Collected(p[start..], start, r.ranges) == Collected(p[start..], start, c.ranges) + Data(cs)
    decreases |cs|
  {
    hide ScanChunks, Collected, Fit, At, ChunkOk, LineOk, H.LineOk, Encoded, Text, AllSteady, NoneNegative, Joins;
    if cs == [] {
      LastRead(p, c, brk, last, ts);
    } else {
      var k := cs[0];
      EncodedSplit(p, c.end, brk, cs, last, ts);
      ChunkRead(p, c, brk, k);
      var d := WithData(c, brk, k);
      DataRead(p, start, c.ranges, d.at, k.data);
      assert IsBreak(k.brk) by { ChunkBreak(k); }
      ScanEncoded(p, start, d, k.brk, cs[1..], last, ts);
      var before, after := Collected(p[start..], start, c.ranges), Data(cs[1..]);
      assert before + k.data + after == before + (k.data + after);
    }
  }

  lemma EncodedSplit(p: string, at: nat, brk: string, cs: seq<Chunk>, last: SizeLine, ts: seq<H.Field>)
    requires cs != [] && At(p, at, brk + Encoded(cs, last, ts))
    ensures
      var k, more := cs[0], cs[0].brk + Encoded(cs[1..], last, ts);
      var next := at + |brk| + |Text(k.line)| + 2;
      && At(p, at, brk + (Text(k.line) + CRLF)) && At(p, next, k.data) && At(p, next + |k.data|, more)
      && at + |brk + Encoded(cs, last, ts)| == next + |k.data| + |more|
  {
    hide At, Text;
    var k, more := cs[0], cs[0].brk + Encoded(cs[1..], last, ts);
    var head := brk + (Text(k.line) + CRLF);
    assert brk + Encoded(cs, last, ts) == head + (k.data + more);
    AtSplit(p, at, head, k.data + more);
    AtSplit(p, at + |head|, k.data, more);
  }

  lemma DataRead(p: string, start: nat, ranges: seq<(int, int)>, at: nat, data: string)
    requires start <= |p| && Fit(ranges, start, |p|) && EndOf(ranges, start) <= at && At(p, at, data)
    ensures Fit(ranges + [(at, at + |data|)], start, |p|)
    ensures Collected(p[start..], start, ranges + [(at, at + |data|)]) == Collected(p[start..], start, ranges) + data
  {
    hide Collected, InOrder;
    OrderStart(ranges, start);
    CollectMore(p[start..], start, ranges, (at, at + |data|));
    var a, b := at - start, at - start + |data|;
    assert p[start..][a..b] == p[at..at + |data|];
  }

  /** The chunks of an encoded body, from its start. */
  lemma ScanArrived(p: string, start: nat, c: Chunks, cs: seq<Chunk>, last: SizeLine, ts: seq<H.Field>)
    requires start <= |p| && c == Chunks(start, start, [], 0, false, c.header)
    requires At(p, start, Encoded(cs, last, ts))
    requires forall i :: 0 <= i < |cs| ==> ChunkOk(cs[i])
    requires LineOk(last, 0) && forall i :: 0 <= i < |ts| ==> H.LineOk(ts[i])
    ensures
      var d := ScanChunks(p, c);
      && AllSteady(p, c) && NoneNegative(p, c) && d.finished && d.end == start + |Encoded(cs, last, ts)|
      && Fit(d.ranges, start, |p|) && Collected(p[start..], start, d.ranges) == Data(cs)
      && Joins(c.header, ts, d.header)
  {
    hide ScanChunks, Collected, Encoded, InOrder, ChunkOk, LineOk, H.LineOk, Data, AllSteady, NoneNegative, Joins;
    assert "" + Encoded(cs, last, ts) == Encoded(cs, last, ts) && "" + Data(cs) == Data(cs);
    NoneFits(p[start..], [], start);
    ScanEncoded(p, start, c, "", cs, last, ts);
  }

  lemma AllInBody(p: string, start: nat, f: Fields, c: Chunks)
    requires start <= |p| && Fit(c.ranges, start, |p|) && f.chunked
    requires
      var s := InChunks(start, f, |p|, c);
      start <= BodyEnd(s) <= |p| && Fit(c.ranges, start, BodyEnd(s))
    ensures
      var s := InChunks(start, f, |p|, c);
      Collected(p[start..BodyEnd(s)], start, c.ranges) == Collected(p[start..], start, c.ranges)
  {
    hide Collected, InOrder;
    var s := InChunks(start, f, |p|, c);
    OrderStart(c.ranges, start);
    CollectedPrefix(p[start..], BodyEnd(s) - start, start, c.ranges);
    FromTo(p, start, BodyEnd(s));
  }

  /** The parser has finished, and the ranges of the body that starts at `start` hold the data. */
  predicate Arrived(s: Parser, p: string, start: nat, data: string) {
    && s.phase == ReadBody && s.finished && s.bodyStart == start
    && start <= BodyEnd(s) <= |p| && Fit(s.ranges, start, BodyEnd(s))
    && Collected(p[start..BodyEnd(s)], start, s.ranges) == data
  }

  /**
    A response whose head announces chunks, then any list of chunks, then anything: the message is
    steady, the parser finishes, what moving the body together leaves is the data that was sent, and
    the headers after the last chunk are known.
   */
  lemma PayloadArrives(lib: Libc, f0: Fields, head: string, cs: seq<Chunk>, last: SizeLine, ts: seq<H.Field>,
                       rest: string)
    requires var s := ScanStatus(lib, head, 0, f0); s.InBody? && s.pos == |head| && s.f.chunked
    requires forall i :: 0 <= i < |cs| ==> ChunkOk(cs[i])
    requires LineOk(last, 0) && forall i :: 0 <= i < |ts| ==> H.LineOk(ts[i])
    ensures
      var p := head + Encoded(cs, last, ts) + rest;
      var s, g := ParserOf(lib, false, f0, p), ScanStatus(lib, head, 0, f0).f;
      && SteadyMessage(lib, false, f0, p)
      && Arrived(s, p, |head|, Data(cs))
      && s.curChunkEnd == |head + Encoded(cs, last, ts)| && Payload(s) == |Data(cs)| + |rest|
      && s.f == g.(header := s.f.header) && Joins(g.header, ts, s.f.header)
  {
    hide ScanStatus, ScanHeader, ScanChunks, Collected, Encoded, Fit, ChunkOk, LineOk, H.LineOk, Payload, Data,
      AllSteady, NoneNegative, BodyEnd, Joins;
    var p, start := head + Encoded(cs, last, ts) + rest, |head|;
    assert head <= p;
    StatusContinues(lib, head, p, 0, f0);
    var g := ScanStatus(lib, head, 0, f0).f;
    var c := NoChunks(start, g);
    assert p[start..start + |Encoded(cs, last, ts)|] == Encoded(cs, last, ts);
    ScanArrived(p, start, c, cs, last, ts);
    CollapsedIsPayload(lib, f0, p);
    AllInBody(p, start, g, ScanChunks(p, c));
  }

  /** The last chunk is seen only when all of it is there. */
  lemma {:induction false} FinishedInside(p: string, c: Chunks)
    requires !c.finished && ScanChunks(p, c).finished
    ensures ScanChunks(p, c).end <= |p|
    decreases |p| - c.at
  {
    hide ScanChunks, ChunkHeaderAt, AddTail;
    ChunksStep(p, c);
    var d := AfterChunk(c, ChunkHeaderAt(p, c.end));
    ChunksStep(p, d);
    if !d.finished {
      FinishedInside(p, d);
    }
  }

  /** A chunked message is not finished before its last byte. */
  lemma ChunkedPart(lib: Libc, f0: Fields, head: string, cs: seq<Chunk>, last: SizeLine, ts: seq<H.Field>, m: nat)
    requires var s := ScanStatus(lib, head, 0, f0); s.InBody? && s.pos == |head| && s.f.chunked
    requires forall i :: 0 <= i < |cs| ==> ChunkOk(cs[i])
    requires LineOk(last, 0) && forall i :: 0 <= i < |ts| ==> H.LineOk(ts[i])
    requires m < |head + Encoded(cs, last, ts)|
    ensures !ParserOf(lib, false, f0, (head + Encoded(cs, last, ts))[..m]).finished
  {
    hide ScanStatus, ScanHeader, ScanChunks, Encoded, Fit, ChunkOk, LineOk, H.LineOk, Data, AllSteady, Joins;
    var b, start := head + Encoded(cs, last, ts), |head|;
    var p := b[..m];
    var g := ScanStatus(lib, head, 0, f0).f;
    assert head <= b;
    StatusContinues(lib, head, b, 0, f0);
    StatusContinues(lib, p, b, 0, f0);
    if ScanStatus(lib, p, 0, f0).InBody? {
      var c := NoChunks(start, g);
      assert b[start..start + |Encoded(cs, last, ts)|] == Encoded(cs, last, ts);
      ScanArrived(b, start, c, cs, last, ts);
      ChunksContinue(p, b, c);
      if ScanChunks(p, c).finished {
        FinishedInside(p, c);
        ChunksStep(b, ScanChunks(p, c));
      }
    }
  }

  /**
    From the message as it is written, head and body, to what the parser ends with: finished, not
    before the last byte, with the fields of the head, the data of the chunks, and the trailers.
   */
  lemma ChunkedRead(lib: Libc, h: H.Head, f0: Fields, cs: seq<Chunk>, last: SizeLine, ts: seq<H.Field>)
    returns (g: Fields)
    requires H.HeadOk(lib, h) && H.StatusOf(lib, h.first) != 100
    requires forall i :: 0 <= i < |cs| ==> ChunkOk(cs[i])
    requires LineOk(last, 0) && forall i :: 0 <= i < |ts| ==> H.LineOk(ts[i])
    ensures H.Reads(lib, h.fields, H.FirstFields(lib, h.first, f0), g)
    ensures
      var p := H.WrittenHead(h) + Encoded(cs, last, ts);
      var s := ParserOf(lib, false, f0, p);
      g.chunked ==>
        && Arrived(s, p, |H.WrittenHead(h)|, Data(cs)) && s.curChunkEnd == |p| && Payload(s) == |Data(cs)|
        && s.f == g.(header := s.f.header) && Joins(g.header, ts, s.f.header)
        && forall m :: 0 <= m < |p| ==> !ParserOf(lib, false, f0, p[..m]).finished
  {
    hide ScanStatus, ScanHeader, ScanChunks, Collected, Encoded, Fit, ChunkOk, LineOk, H.LineOk, H.HeadOk, H.Reads,
      Data, Joins, Arrived, Payload, H.WrittenHead, H.StatusOf, H.FirstFields, ParserOf, SteadyMessage;
    var w := H.WrittenHead(h);
    H.Stands(w, "");
    assert w + "" == w;
    g := H.HeadRead(lib, w, 0, h, f0);
    if g.chunked {
      var p := w + Encoded(cs, last, ts);
      assert p + "" == p;
      PayloadArrives(lib, f0, w, cs, last, ts, "");
      forall m | 0 <= m < |p|
        ensures !ParserOf(lib, false, f0, p[..m]).finished
      {
        ChunkedPart(lib, f0, w, cs, last, ts, m);
      }
    }
  }
}
