/**
  Reading on where a shorter buffer ended: when the parser ends up the same however the bytes
  of a message are split, and when not.
 */
module HttpResume {
  import opened Basics
  import opened HexNumber
  import opened HttpFormat

  // ---------------------------------------------------------------------------------------
  // Lines
  // ---------------------------------------------------------------------------------------

  const CRLF := "\r\n"

  lemma {:induction false} FindMore(p: string, b: string, i: nat, c: char)
    requires p <= b && i <= |p|
    ensures FindFrom(b, i, c) == if FindFrom(p, i, c) < |p| then FindFrom(p, i, c) else FindFrom(b, |p|, c)
    decreases |p| - i
  {
    if i < |p| && p[i] != c {
      FindMore(p, b, i + 1, c);
    }
  }

  lemma LineMore(p: string, b: string, a: nat, j: nat)
    requires p <= b && a <= j <= |p|
    ensures Line(p, a, j) == Line(b, a, j)
  {
  }

  lemma LineAt(p: string, pos: nat, t: string)
    requires At(p, pos, t + "\n") && forall i :: 0 <= i < |t| ==> t[i] != '\n'
    ensures FindFrom(p, pos, '\n') == pos + |t|
  {
    hide FindFrom;
    assert (t + "\n")[|t|] == '\n';
    AtItem(p, pos, t + "\n", |t|);
    forall k | pos <= k < pos + |t|
      ensures p[k] != '\n'
    {
      AtItem(p, pos, t + "\n", k - pos);
    }
  }

  /** The line `t`, read without a carriage return at its end. */
  lemma LineIs(p: string, pos: nat, t: string)
    requires At(p, pos, t + "\n") && forall i :: 0 <= i < |t| ==> t[i] != '\n'
    ensures pos + |t| < |p| && FindFrom(p, pos, '\n') == pos + |t|
    ensures Line(p, pos, pos + |t|) == if t != "" && t[|t| - 1] == '\r' then t[..|t| - 1] else t
  {
    hide FindFrom;
    LineAt(p, pos, t);
    AtSplit(p, pos, t, "\n");
    if t != "" {
      AtItem(p, pos, t, |t| - 1);
      assert p[pos..pos + |t| - 1] == p[pos..pos + |t|][..|t| - 1];
    }
  }

  /** A line that ends in a carriage return and a line feed is read without them. */
  lemma LineRead(p: string, pos: nat, t: string)
    requires At(p, pos, t + CRLF) && '\n' !in t
    ensures pos + |t| + 2 <= |p| && FindFrom(p, pos, '\n') == pos + |t| + 1 && Line(p, pos, pos + |t| + 1) == t
  {
    hide FindFrom;
    var u := t + "\r";
    assert t + CRLF == u + "\n" && u[..|t|] == t;
    LineIs(p, pos, u);
  }

  /** Scanning a longer buffer goes through the place where scanning the shorter one stopped. */
  ghost predicate Continues(lib: Libc, b: string, s: Scan, t: Scan)
    requires s.pos <= |b|
  {
    match s
    case InStatus(pos, f) => t == ScanStatus(lib, b, pos, f)
    case InHeader(pos, f) => t == ScanHeader(lib, b, pos, f)
    case InBody(_, _) => t == s
    case InError(_, _) => t == s
  }

  lemma StatusStep(lib: Libc, p: string, pos: nat, f: Fields)
    requires pos <= |p|
    ensures var j := FindFrom(p, pos, '\n');
      ScanStatus(lib, p, pos, f) ==
      if j == |p| then InStatus(pos, f)
      else if j == pos then InError(pos, f)
      else ScanHeader(lib, p, j + 1, StatusLine(lib, Line(p, pos, j), f))
  {
    hide FindFrom, Line, StatusLine;
  }

  lemma HeaderStep(lib: Libc, p: string, pos: nat, f: Fields)
    requires pos <= |p|
    ensures var j := FindFrom(p, pos, '\n');
      ScanHeader(lib, p, pos, f) ==
      if j == |p| then InHeader(pos, f)
      else
        var line := Line(p, pos, j);
        var colon := FindFrom(line, 0, ':');
        if colon == |line| then
          if f.status == 100 then ScanStatus(lib, p, j + 1, f) else InBody(j + 1, f)
        else
          var (ok, g) := HeaderLine(lib, line, colon, f);
          if ok then ScanHeader(lib, p, j + 1, g) else InError(j + 1, g)
  {
    hide FindFrom, Line, HeaderLine;
  }

  lemma {:induction false} StatusContinues(lib: Libc, p: string, b: string, pos: nat, f: Fields)
    requires p <= b && pos <= |p|
    ensures Continues(lib, b, ScanStatus(lib, p, pos, f), ScanStatus(lib, b, pos, f))
    decreases |p| - pos
  {
    hide FindFrom, Line, StatusLine, ScanStatus, ScanHeader;
    FindMore(p, b, pos, '\n');
    StatusStep(lib, p, pos, f);
    StatusStep(lib, b, pos, f);
    var j := FindFrom(p, pos, '\n');
    if pos < j < |p| {
      LineMore(p, b, pos, j);
      HeaderContinues(lib, p, b, j + 1, StatusLine(lib, Line(p, pos, j), f));
    }
  }

  lemma {:induction false} HeaderContinues(lib: Libc, p: string, b: string, pos: nat, f: Fields)
    requires p <= b && pos <= |p|
    ensures Continues(lib, b, ScanHeader(lib, p, pos, f), ScanHeader(lib, b, pos, f))
    decreases |p| - pos
  {
    hide FindFrom, Line, HeaderLine, ScanStatus, ScanHeader;
    FindMore(p, b, pos, '\n');
    HeaderStep(lib, p, pos, f);
    HeaderStep(lib, b, pos, f);
    var j := FindFrom(p, pos, '\n');
    if j < |p| {
      LineMore(p, b, pos, j);
      var line := Line(p, pos, j);
      var colon := FindFrom(line, 0, ':');
      if colon == |line| {
        if f.status == 100 {
          StatusContinues(lib, p, b, j + 1, f);
        }
      } else {
        var r := HeaderLine(lib, line, colon, f);
        if r.0 {
          HeaderContinues(lib, p, b, j + 1, r.1);
        }
      }
    }
  }

  lemma {:induction false} TailMore(p: string, b: string, start: nat, pos: nat, tail: map<string, string>)
    requires p <= b && start < pos <= |p| && TailHeaders(p, start, pos, tail).Complete?
    ensures TailHeaders(b, start, pos, tail) == TailHeaders(p, start, pos, tail)
    decreases |p| - pos
  {
    hide FindFrom, Line, Lower, SkipSpace;
    FindMore(p, b, pos, '\n');
    var j := FindFrom(p, pos, '\n');
    LineMore(p, b, pos, j);
    var line := Line(p, pos, j);
    var colon := FindFrom(line, 0, ':');
    if colon < |line| {
      var name, value := Lower(line[..colon]), SkipSpace(line[colon + 1..]);
      TailMore(p, b, start, j + 1, if name in tail then tail else tail[name := value]);
    }
  }

  // ---------------------------------------------------------------------------------------
  // Chunk headers
  // ---------------------------------------------------------------------------------------

  predicate HasText(p: string, i: nat, j: nat)
    requires j <= |p|
  {
    exists k :: i <= k < j && !IsSpace(p[k])
  }

  /**
    The size that is read does not change while more bytes come. The line at `pos` ends at `j`;
    either there is something on it, or the number that is found later is zero, or it is a single
    digit and on the very next line.
   */
  predicate SteadyLine(p: string, pos: nat, j: nat)
    requires pos <= j < |p|
  {
    var n := Strtoll16(p[pos..]);
    HasText(p, pos, j) || n == 0 || (-16 < n < 16 && HasText(p, j + 1, FindFrom(p, j + 1, '\n')))
  }

  predicate SteadyAt(p: string, start: nat)
    requires start <= |p|
  {
    var pos := SkipBreak(p, start);
    pos < |p| && FindFrom(p, pos, '\n') < |p| ==> SteadyLine(p, pos, FindFrom(p, pos, '\n'))
  }

  lemma SkipBreakMore(p: string, b: string, start: nat)
    requires p <= b && start <= |p| && SkipBreak(p, start) < |p|
    ensures SkipBreak(b, start) == SkipBreak(p, start)
  {
  }

  /** A line with something on it settles the number. */
  lemma TextSettles(p: string, b: string, pos: nat, j: nat)
    requires p <= b && pos <= j < |p| && p[j] == '\n' && HasText(p, pos, j)
    ensures Strtoll16(p[pos..]) == Strtoll16(b[pos..])
  {
    var line := p[pos..j];
    var k :| pos <= k < j && !IsSpace(p[k]);
    assert line[k - pos] == p[k] && p[k] in line;
    LineEnds(line);
    var r := Read(Blank, line + "\n");
    assert p[pos..] == line + "\n" + p[j + 1..] && b[pos..] == line + "\n" + b[j + 1..];
    ReadConcat(Blank, line + "\n", p[j + 1..]);
    ReadConcat(Blank, line + "\n", b[j + 1..]);
    ReadStopped(r.value, p[j + 1..]);
    ReadStopped(r.value, b[j + 1..]);
  }

  /** A line without anything on it is passed over. */
  lemma BlankPasses(p: string, pos: nat, j: nat)
    requires pos <= j < |p| && p[j] == '\n' && !HasText(p, pos, j)
    ensures Strtoll16(p[pos..]) == Strtoll16(p[j + 1..])
  {
    var line := p[pos..j];
    forall c | c in line
      ensures IsSpace(c)
    {
      var i :| 0 <= i < |line| && line[i] == c;
      assert p[pos + i] == c;
    }
    LineEnds(line);
    assert p[pos..] == line + "\n" + p[j + 1..];
    ReadConcat(Blank, line + "\n", p[j + 1..]);
  }

  /**
    More bytes make a number that is not zero the same or at least sixteen, and leave a zero zero
    only if it ends as zero.
   */
  lemma MoreDigits(p: string, b: string, pos: nat)
    requires p <= b && pos <= |p|
    ensures
      var n, m := Strtoll16(p[pos..]), Strtoll16(b[pos..]);
      && (m == 0 ==> n == 0) && (n != 0 && -16 < m < 16 ==> m == n)
  {
    assert b[pos..] == p[pos..] + b[|p|..];
    ReadConcat(Blank, p[pos..], b[|p|..]);
    OnlyGrows(Read(Blank, p[pos..]), b[|p|..]);
  }

  lemma ChunkHeaderStep(p: string, start: nat)
    requires start <= |p|
    ensures
      var pos := SkipBreak(p, start);
      var j := FindFrom(p, pos, '\n');
      ChunkHeaderAt(p, start) ==
        if pos == |p| || j == |p| then Incomplete
        else if Strtoll16(p[pos..]) != 0 then Complete(Strtoll16(p[pos..]), j + 1 - start, map[])
        else TailHeaders(p, start, j + 1, map[])
  {
    hide FindFrom, TailHeaders, Strtoll16, SkipBreak;
  }

  lemma TailNeedsLine(p: string, start: nat, pos: nat, tail: map<string, string>)
    requires start < pos <= |p| && TailHeaders(p, start, pos, tail).Complete?
    ensures FindFrom(p, pos, '\n') < |p|
  {
  }

  /** The number is the same in a shorter buffer in which the header is complete. */
  lemma SteadyNumber(p: string, b: string, start: nat, pos: nat, j: nat)
    requires p <= b && start <= pos <= j < |p| && p[j] == '\n' && j == FindFrom(p, pos, '\n') && SteadyLine(b, pos, j)
    requires Strtoll16(p[pos..]) == 0 ==> TailHeaders(p, start, j + 1, map[]).Complete?
    ensures Strtoll16(p[pos..]) == Strtoll16(b[pos..])
  {
    hide TailHeaders, Strtoll16;
    MoreDigits(p, b, pos);
    if exists k :: pos <= k < j && !IsSpace(b[k]) {
      var k :| pos <= k < j && !IsSpace(b[k]);
      assert !IsSpace(p[k]);
      TextSettles(p, b, pos, j);
    } else if Strtoll16(p[pos..]) == 0 && Strtoll16(b[pos..]) != 0 {
      TailNeedsLine(p, start, j + 1, map[]);
      FindMore(p, b, j + 1, '\n');
      var next := FindFrom(p, j + 1, '\n');
      var k :| j + 1 <= k < next && !IsSpace(b[k]);
      assert !IsSpace(p[k]);
      BlankPasses(p, pos, j);
      BlankPasses(b, pos, j);
      TextSettles(p, b, j + 1, next);
    }
  }

  /** A chunk header that is steady in the whole buffer is the same in every part in which it is complete. */
  lemma SteadyHeader(p: string, b: string, start: nat)
    requires p <= b && start <= |p| && ChunkHeaderAt(p, start).Complete? && SteadyAt(b, start)
    ensures ChunkHeaderAt(b, start) == ChunkHeaderAt(p, start)
  {
    hide TailHeaders, ChunkHeaderAt, SkipBreak, Strtoll16, SteadyLine;
    ChunkHeaderStep(p, start);
    ChunkHeaderStep(b, start);
    SkipBreakMore(p, b, start);
    var pos := SkipBreak(p, start);
    FindMore(p, b, pos, '\n');
    var j := FindFrom(p, pos, '\n');
    SteadyNumber(p, b, start, pos, j);
    if Strtoll16(p[pos..]) == 0 {
      TailMore(p, b, start, j + 1, map[]);
    }
  }

  lemma NoNumber(p: string, pos: nat)
    requires pos <= |p| && !HasText(p, pos, |p|)
    ensures Strtoll16(p[pos..]) == 0
  {
    var t := p[pos..];
    forall c | c in t
      ensures IsSpace(c)
    {
      var i :| 0 <= i < |t| && t[i] == c;
      assert p[pos + i] == c;
    }
    ReadBlanks(t);
  }

  lemma NothingLeft(p: string)
    ensures Strtoll16(p[|p|..]) == 0
  {
    NoNumber(p, |p|);
  }

  /** A line of blanks ends the headers after the last chunk. */
  lemma BlankEnds(p: string, start: nat, pos: nat, tail: map<string, string>)
    requires start < pos <= |p| && FindFrom(p, pos, '\n') < |p| && !HasText(p, pos, FindFrom(p, pos, '\n'))
    ensures TailHeaders(p, start, pos, tail) == Complete(0, FindFrom(p, pos, '\n') + 1 - start, tail)
  {
    var j := FindFrom(p, pos, '\n');
    var line := Line(p, pos, j);
    assert forall k :: 0 <= k < |line| ==> line[k] == p[pos + k];
    assert forall k :: pos <= k < j ==> IsSpace(p[k]);
  }

  /** A buffer cut after a line of blanks that follows the size line: the chunk looks like the last one. */
  lemma CutAfterBlanks(b: string, start: nat, pos: nat, j: nat) returns (m: nat)
    requires start <= |b| && pos == SkipBreak(b, start) && j == FindFrom(b, pos, '\n') < |b| && !HasText(b, pos, j)
    requires Strtoll16(b[pos..]) != 0 && !HasText(b, j + 1, FindFrom(b, j + 1, '\n'))
    ensures start <= m <= |b| && ChunkHeaderAt(b[..m], start).Complete? && ChunkHeaderAt(b[..m], start).size == 0
  {
    hide Strtoll16, TailHeaders, ChunkHeaderAt, SkipBreak, HasText, FindFrom;
    var next := FindFrom(b, j + 1, '\n');
    BlankPasses(b, pos, j);
    if next == |b| {
      NoNumber(b, j + 1);
    }
    m := next + 1;
    var q := b[..m];
    SkipBreakLess(b, start, m);
    FindMore(q, b, pos, '\n');
    FindMore(q, b, j + 1, '\n');
    NoText(b, q, pos, j);
    NoText(b, q, j + 1, next);
    BlankPasses(q, pos, j);
    BlankPasses(q, j + 1, next);
    NothingLeft(q);
    ChunkHeaderStep(q, start);
    BlankEnds(q, start, j + 1, map[]);
  }

  lemma NoText(b: string, q: string, i: nat, j: nat)
    requires q <= b && j <= |q| && !HasText(b, i, j)
    ensures !HasText(q, i, j)
  {
    assert forall k :: i <= k < j ==> q[k] == b[k] && IsSpace(b[k]);
  }

  lemma SkipBreakLess(b: string, start: nat, m: nat)
    requires start <= |b| && SkipBreak(b, start) < m <= |b|
    ensures SkipBreak(b[..m], start) == SkipBreak(b, start)
  {
  }

  /** A buffer cut after the first digit of several. */
  lemma CutAfterDigit(b: string, start: nat, pos: nat, j: nat) returns (m: nat)
    requires start <= |b| && pos == SkipBreak(b, start) && j == FindFrom(b, pos, '\n') < |b| && !HasText(b, pos, j)
    requires !(-16 < Strtoll16(b[pos..]) < 16)
    ensures start <= m <= |b| && ChunkHeaderAt(b[..m], start).Complete?
    ensures
      var n, d := Strtoll16(b[pos..]), ChunkHeaderAt(b[..m], start);
      d.headerSize == j + 1 - start && (if n > 0 then 0 < d.size < 16 else -16 < d.size < 0)
  {
    hide TailHeaders, ChunkHeaderAt, SkipBreak, FindFrom, HasText, Read;
    var t := b[pos..];
    var k := FirstDigit(Blank, t);
    DigitPastLine(b, pos, j, k);
    m := pos + k + 1;
    var q := b[..m];
    SkipBreakLess(b, start, m);
    FindMore(q, b, pos, '\n');
    ChunkHeaderStep(q, start);
    assert q[pos..] == t[..k + 1];
    assert t == t[..k + 1] + t[k + 1..];
    ReadConcat(Blank, t[..k + 1], t[k + 1..]);
    OnlyGrows(Read(Blank, t[..k + 1]), t[k + 1..]);
  }

  lemma DigitPastLine(b: string, pos: nat, j: nat, k: nat)
    requires pos <= |b| && j == FindFrom(b, pos, '\n') < |b| && !HasText(b, pos, j)
    requires k < |b[pos..]| && HexDigit(b[pos..][k]) > 0
    ensures j < pos + k
  {
    assert b[pos + k] == b[pos..][k];
    assert forall i :: pos <= i < j ==> IsSpace(b[i]);
  }

  /**
    A chunk header is the same in every part of the buffer in which it is complete if and only if
    it is steady.
   */
  lemma SteadyIff(b: string, start: nat)
    requires start <= |b|
    ensures SteadyAt(b, start) <==>
      forall m :: start <= m <= |b| && ChunkHeaderAt(b[..m], start).Complete? ==>
        ChunkHeaderAt(b[..m], start) == ChunkHeaderAt(b, start)
  {
    hide ChunkHeaderAt, SteadyLine;
    if SteadyAt(b, start) {
      forall m | start <= m <= |b| && ChunkHeaderAt(b[..m], start).Complete?
        ensures ChunkHeaderAt(b[..m], start) == ChunkHeaderAt(b, start)
      {
        SteadyHeader(b[..m], b, start);
      }
    } else {
      var m := Unsteady(b, start);
    }
  }

  /** Where to cut a buffer for an unsteady header to be read as another size, of the same sign or zero. */
  lemma Unsteady(b: string, start: nat) returns (m: nat)
    requires start <= |b| && !SteadyAt(b, start)
    ensures start <= m <= |b| && ChunkHeaderAt(b[..m], start).Complete? && ChunkHeaderAt(b, start).Complete?
    ensures
      var cut, whole := ChunkHeaderAt(b[..m], start), ChunkHeaderAt(b, start);
      cut.size != whole.size
        && (whole.size > 0 ==> cut.size >= 0 && (cut.size > 0 ==> cut.headerSize == whole.headerSize))
  {
    hide ChunkHeaderAt, Strtoll16, TailHeaders, SkipBreak;
    ChunkHeaderStep(b, start);
    var pos := SkipBreak(b, start);
    var j := FindFrom(b, pos, '\n');
    if HasText(b, j + 1, FindFrom(b, j + 1, '\n')) {
      m := CutAfterDigit(b, start, pos, j);
    } else {
      m := CutAfterBlanks(b, start, pos, j);
    }
  }

  /** The line `" \r\n\r\n5\r\nhello..."`: cut after five bytes the chunk is the last one, whole it has five bytes. */
  lemma UnsteadyExample(rest: string)
    ensures
      var cut := " \r\n\r\n";
      && ChunkHeaderAt(cut, 0) == Complete(0, 5, map[])
      && ChunkHeaderAt(cut + ("5" + ("\r" + rest)), 0) == Complete(5, 3, map[])
  {
    hide Strtoll16, TailHeaders, ChunkHeaderAt;
    var cut := " \r\n\r\n";
    assert cut[2] == '\n' && cut[4] == '\n' && cut[1] == '\r' && cut[3] == '\r';
    assert SkipBreak(cut, 0) == 0 && FindFrom(cut, 0, '\n') == 2 && FindFrom(cut, 3, '\n') == 4;
    BlankPasses(cut, 0, 2);
    BlankPasses(cut, 3, 4);
    NoNumber(cut, 5);
    assert cut[0..] == cut;
    ChunkHeaderStep(cut, 0);
    BlankEnds(cut, 0, 3, map[]);
    var more := "5" + ("\r" + rest);
    var b := cut + more;
    assert forall k :: 0 <= k < 5 ==> b[k] == cut[k];
    assert SkipBreak(b, 0) == 0 && FindFrom(b, 0, '\n') == 2 && FindFrom(b, 3, '\n') == 4;
    BlankPasses(b, 0, 2);
    BlankPasses(b, 3, 4);
    assert b[0..] == b && b[5..] == more;
    assert "5"[..0] == "" && HexValue("5") == 5;
    ReadsBack("5", '\r', rest);
    ChunkHeaderStep(b, 0);
  }

  // ---------------------------------------------------------------------------------------
  // Chunks
  // ---------------------------------------------------------------------------------------

  lemma ChunksStep(p: string, c: Chunks)
    ensures ScanChunks(p, c) == if CanTurn(p, c) then ScanChunks(p, AfterChunk(c, ChunkHeaderAt(p, c.end))) else c
  {
    hide ChunkHeaderAt, AfterChunk;
  }

  /** There is room for a chunk header. */
  predicate AtHeader(p: string, c: Chunks) {
    !c.finished && 0 <= c.end <= |p| && Max(c.at, c.end) < |p|
  }

  /** Every chunk header that is reached is steady, and no size leads before the buffer. */
  predicate AllSteady(p: string, c: Chunks)
    decreases |p| - c.at
  {
    AtHeader(p, c) ==>
      && SteadyAt(p, c.end)
      && (ChunkHeaderAt(p, c.end).Complete? ==>
            var d := AfterChunk(c, ChunkHeaderAt(p, c.end));
            0 <= d.end && AllSteady(p, d))
  }

  /** The chunks found in a part of the buffer are a stage of those found in the whole. */
  lemma {:induction false} ChunksContinue(p: string, b: string, c: Chunks)
    requires p <= b && AllSteady(b, c)
    ensures ScanChunks(b, ScanChunks(p, c)) == ScanChunks(b, c)
    ensures 0 <= c.end ==> 0 <= ScanChunks(p, c).end
    decreases |p| - c.at
  {
    hide ChunkHeaderAt, ScanChunks, AddTail, SteadyAt;
    ChunksStep(p, c);
    if CanTurn(p, c) {
      SteadyHeader(p, b, c.end);
      ChunksStep(b, c);
      ChunksContinue(p, b, AfterChunk(c, ChunkHeaderAt(p, c.end)));
    }
  }

  /** Chunks that differ only in how far the bytes of a chunk's data are accounted for. */
  predicate Alike(c: Chunks, d: Chunks, n: nat) {
    && d == c.(at := d.at) && (n < c.at || n < d.at ==> c.at == d.at)
    && (!c.finished && 0 <= c.end ==> Max(c.at, c.end) == Max(d.at, d.end))
  }

  lemma KeepsAlike(n: nat, start: int, f: Fields, c: Chunks)
    ensures Alike(c, ChunksOf(InChunks(start, f, n, c)), n)
  {
  }

  lemma AlikeParser(n: nat, start: int, f: Fields, c: Chunks, d: Chunks, m: nat)
    requires Alike(c, d, n) && n <= m
    ensures InChunks(start, f, m, c) == InChunks(start, f, m, d)
  {
  }

  lemma AlikeTurn(b: string, n: nat, c: Chunks, d: Chunks)
    requires Alike(c, d, n)
    ensures CanTurn(b, c) <==> CanTurn(b, d)
    ensures CanTurn(b, c) ==>
      c.end == d.end && AfterChunk(c, ChunkHeaderAt(b, c.end)) == AfterChunk(d, ChunkHeaderAt(b, d.end))
  {
    hide ChunkHeaderAt, AddTail;
  }

  /** A parser keeps all that matters of the chunks it has seen. */
  lemma KeepsChunks(b: string, n: nat, start: int, f: Fields, c: Chunks)
    requires n <= |b|
    ensures
      var d := ChunksOf(InChunks(start, f, n, c));
      InChunks(start, f, |b|, ScanChunks(b, d)) == InChunks(start, f, |b|, ScanChunks(b, c))
  {
    hide ChunkHeaderAt, ScanChunks, AfterChunk, CanTurn, InChunks, ChunksOf, Alike;
    var d := ChunksOf(InChunks(start, f, n, c));
    KeepsAlike(n, start, f, c);
    AlikeTurn(b, n, c, d);
    ChunksStep(b, c);
    ChunksStep(b, d);
    if !CanTurn(b, c) {
      AlikeParser(n, start, f, c, d, |b|);
    }
  }

  // ---------------------------------------------------------------------------------------
  // Messages
  // ---------------------------------------------------------------------------------------

  /** Every chunk header of the message is steady. */
  predicate SteadyMessage(lib: Libc, dontParseChunks: bool, f0: Fields, b: string) {
    match ScanStatus(lib, b, 0, f0)
    case InBody(start, f) => ParsesChunks(f, dontParseChunks) ==> AllSteady(b, NoChunks(start, f))
    case _ => true
  }

  /** Handed a longer buffer, a parser becomes the parser of that buffer, if the message is steady. */
  lemma ResumedIs(lib: Libc, dontParseChunks: bool, f0: Fields, p: string, b: string)
    requires p <= b && SteadyMessage(lib, dontParseChunks, f0, b)
    ensures
      var s := ParserOf(lib, dontParseChunks, f0, p);
      && Sane(dontParseChunks, s, |p|)
      && Resumed(lib, dontParseChunks, s, b) == ParserOf(lib, dontParseChunks, f0, b)
  {
    hide ScanStatus, ScanHeader, ScanChunks, AllSteady;
    StatusContinues(lib, p, b, 0, f0);
    match ScanStatus(lib, p, 0, f0)
    case InBody(start, f) =>
      if ParsesChunks(f, dontParseChunks) {
        var c := NoChunks(start, f);
        ChunksContinue(p, b, c);
        KeepsChunks(b, |p|, start, f, ScanChunks(p, c));
        KeepsFields(start, f, |p|, |b|, ScanChunks(p, c),
          ScanChunks(b, ChunksOf(InChunks(start, f, |p|, ScanChunks(p, c)))));
      }
    case _ =>
  }

  /**
    The fields of the status line and the headers stay as they are in the body, but for headers
    after the last chunk.
   */
  lemma KeepsFields(start: int, f: Fields, n: nat, m: nat, c: Chunks, d: Chunks)
    ensures InChunks(start, InChunks(start, f, n, c).f, m, d) == InChunks(start, f, m, d)
  {
  }

  lemma ChunksSane(dontParseChunks: bool, start: nat, f: Fields, n: nat, c: Chunks)
    requires ParsesChunks(f, dontParseChunks) && start <= n && 0 <= c.at
    ensures var r := InChunks(start, f, n, c); Sane(dontParseChunks, r, n) <==> !Lost(dontParseChunks, r)
  {
  }

  lemma ScanSane(dontParseChunks: bool, scan: Scan, b: string)
    requires scan.pos <= |b|
    ensures var r := AfterScan(dontParseChunks, scan, b); Sane(dontParseChunks, r, |b|) <==> !Lost(dontParseChunks, r)
  {
    hide ScanChunks, InChunks;
    match scan
    case InBody(start, f) =>
      if ParsesChunks(f, dontParseChunks) {
        ChunksSane(dontParseChunks, start, f, |b|, ScanChunks(b, NoChunks(start, f)));
      }
    case _ =>
  }

  /** A parser stays in order, or has lost its way. */
  lemma ResumedSane(lib: Libc, dontParseChunks: bool, s: Parser, n: nat, b: string)
    requires Sane(dontParseChunks, s, n) && n <= |b|
    ensures
      var r := Resumed(lib, dontParseChunks, s, b);
      Sane(dontParseChunks, r, |b|) <==> !Lost(dontParseChunks, r)
  {
    hide ScanStatus, ScanHeader, ScanChunks, InChunks, AfterScan;
    match s.phase
    case ReadStatus => ScanSane(dontParseChunks, ScanStatus(lib, b, s.recvPos, s.f), b);
    case ReadHeader => ScanSane(dontParseChunks, ScanHeader(lib, b, s.recvPos, s.f), b);
    case ReadBody =>
      if ParsesChunks(s.f, dontParseChunks) {
        ChunksSane(dontParseChunks, s.bodyStart, s.f, |b|, ScanChunks(b, ChunksOf(s)));
      }
    case ErrorState =>
  }

  /** No chunk that is reached has a negative size. */
  predicate NoneNegative(p: string, c: Chunks)
    decreases |p| - c.at
  {
    CanTurn(p, c) ==> ChunkHeaderAt(p, c.end).size >= 0 && NoneNegative(p, AfterChunk(c, ChunkHeaderAt(p, c.end)))
  }

  /** After steady headers of chunks with data, an unsteady header of a chunk with data is reached. */
  predicate UnsteadyChunk(p: string, c: Chunks)
    decreases |p| - c.at
  {
    && AtHeader(p, c) && ChunkHeaderAt(p, c.end).Complete? && ChunkHeaderAt(p, c.end).size > 0
    && (SteadyAt(p, c.end) ==> UnsteadyChunk(p, AfterChunk(c, ChunkHeaderAt(p, c.end))))
  }

  /** Where the size line of a header ends. */
  function SizeLineEnd(p: string, start: nat): (j: nat)
    requires start <= |p|
    ensures start <= j <= |p|
  {
    FindFrom(p, SkipBreak(p, start), '\n')
  }

  /** The buffer can be cut, not before the end of the next size line, so that another range is found. */
  lemma {:induction false} UnsteadyRanges(b: string, c: Chunks) returns (m: nat)
    requires UnsteadyChunk(b, c) && c.at <= c.end
    ensures c.end <= SizeLineEnd(b, c.end) < m <= |b|
    ensures ScanChunks(b, ScanChunks(b[..m], c)).ranges != ScanChunks(b, c).ranges
    decreases |b| - c.at
  {
    hide ChunkHeaderAt, ScanChunks, AddTail, SteadyAt;
    ChunksStep(b, c);
    var h := ChunkHeaderAt(b, c.end);
    if SteadyAt(b, c.end) {
      var d := AfterChunk(c, h);
      m := UnsteadyRanges(b, d);
      LineFirst(b, c.end, d.end);
      WholeHeader(b, c.end, m);
      ChunksStep(b[..m], c);
    } else {
      m := Unsteady(b, c.end);
      var cut := ChunkHeaderAt(b[..m], c.end);
      CompleteLine(b, c.end, m);
      ChunksStep(b[..m], c);
      assert ScanChunks(b[..m], c) == ScanChunks(b[..m], AfterChunk(c, cut));
      OtherRanges(b, b[..m], c, cut, h);
    }
  }

  lemma CompleteLine(b: string, start: nat, m: nat)
    requires start <= m <= |b| && ChunkHeaderAt(b[..m], start).Complete?
    ensures SizeLineEnd(b, start) < m
  {
    hide TailHeaders, Strtoll16;
    var q := b[..m];
    ChunkHeaderStep(q, start);
    SkipBreakMore(q, b, start);
    FindMore(q, b, SkipBreak(q, start), '\n');
  }

  /** The line after the size line of a chunk with data ends no later than the next size line. */
  lemma LineFirst(b: string, start: nat, next: nat)
    requires start <= |b| && ChunkHeaderAt(b, start).Complete? && ChunkHeaderAt(b, start).size > 0
    requires next == start + ChunkHeaderAt(b, start).headerSize + ChunkHeaderAt(b, start).size <= |b|
    ensures SizeLineEnd(b, start) + 1 <= next
    ensures FindFrom(b, SizeLineEnd(b, start) + 1, '\n') <= SizeLineEnd(b, next)
  {
    hide TailHeaders, Strtoll16, ChunkHeaderAt, SkipBreak, FindFrom;
    ChunkHeaderStep(b, start);
    FindOrder(b, SizeLineEnd(b, start) + 1, SkipBreak(b, next));
  }

  lemma FindOrder(b: string, i: nat, k: nat)
    requires i <= k <= |b|
    ensures FindFrom(b, i, '\n') <= FindFrom(b, k, '\n')
  {
    hide FindFrom;
  }

  /** A steady header of a chunk with data is complete when its line and the next one are there. */
  lemma WholeHeader(b: string, start: nat, m: nat)
    requires start <= |b| && SteadyAt(b, start)
    requires ChunkHeaderAt(b, start).Complete? && ChunkHeaderAt(b, start).size != 0
    requires SizeLineEnd(b, start) < m <= |b| && FindFrom(b, SizeLineEnd(b, start) + 1, '\n') < m
    ensures ChunkHeaderAt(b[..m], start) == ChunkHeaderAt(b, start)
  {
    hide TailHeaders, ChunkHeaderAt, SkipBreak, Strtoll16, FindFrom, HasText;
    var q, pos := b[..m], SkipBreak(b, start);
    var j := FindFrom(b, pos, '\n');
    ChunkHeaderStep(b, start);
    SkipBreakLess(b, start, m);
    FindLess(b, pos, m);
    ChunkHeaderStep(q, start);
    var end := if HasText(b, pos, j) then j else FindFrom(b, j + 1, '\n');
    TextLess(b, m, pos, j, end);
    TextSettles(q, b, pos, end);
  }

  lemma FindLess(b: string, pos: nat, m: nat)
    requires pos <= |b| && FindFrom(b, pos, '\n') < m <= |b|
    ensures FindFrom(b[..m], pos, '\n') == FindFrom(b, pos, '\n')
  {
    FindMore(b[..m], b, pos, '\n');
  }

  lemma TextLess(b: string, m: nat, pos: nat, j: nat, end: nat)
    requires pos <= j <= end < m <= |b| && (HasText(b, pos, j) || HasText(b, j + 1, end))
    ensures HasText(b[..m], pos, end)
  {
    var k :| pos <= k < end && !IsSpace(b[k]);
    assert !IsSpace(b[..m][k]);
  }

  lemma OtherRanges(b: string, q: string, c: Chunks, cut: ChunkHeader, whole: ChunkHeader)
    requires cut.Complete? && whole.Complete? && whole.size > 0 && cut.size >= 0 && cut.size != whole.size
    requires cut.size > 0 ==> cut.headerSize == whole.headerSize
    ensures ScanChunks(b, ScanChunks(q, AfterChunk(c, cut))).ranges != ScanChunks(b, AfterChunk(c, whole)).ranges
  {
    hide ScanChunks, AddTail;
    var x, y := AfterChunk(c, cut), AfterChunk(c, whole);
    ChunksStep(q, x);
    ChunksStep(b, x);
    var k := |c.ranges|;
    assert y.ranges[k] == (c.end + whole.headerSize, c.end + whole.headerSize + whole.size);
    assert ScanChunks(b, y).ranges[k] == y.ranges[k];
    if cut.size > 0 {
      assert x.ranges[k] == (c.end + cut.headerSize, c.end + cut.headerSize + cut.size);
      assert ScanChunks(q, x).ranges[k] == x.ranges[k];
      assert ScanChunks(b, ScanChunks(q, x)).ranges[k] == x.ranges[k];
    }
  }

  lemma {:induction false} BodyEarly(lib: Libc, b: string, m: nat, pos: nat, f: Fields)
    requires pos <= m <= |b| && ScanStatus(lib, b, pos, f).InBody? && ScanStatus(lib, b, pos, f).pos <= m
    ensures ScanStatus(lib, b[..m], pos, f) == ScanStatus(lib, b, pos, f)
    decreases |b| - pos
  {
    hide FindFrom, Line, StatusLine, ScanStatus, ScanHeader;
    var q := b[..m];
    FindMore(q, b, pos, '\n');
    StatusStep(lib, q, pos, f);
    StatusStep(lib, b, pos, f);
    var j := FindFrom(b, pos, '\n');
    LineMore(q, b, pos, j);
    BodyEarlyInHeader(lib, b, m, j + 1, StatusLine(lib, Line(b, pos, j), f));
  }

  lemma {:induction false} BodyEarlyInHeader(lib: Libc, b: string, m: nat, pos: nat, f: Fields)
    requires pos <= m <= |b| && ScanHeader(lib, b, pos, f).InBody? && ScanHeader(lib, b, pos, f).pos <= m
    ensures ScanHeader(lib, b[..m], pos, f) == ScanHeader(lib, b, pos, f)
    decreases |b| - pos
  {
    hide FindFrom, Line, HeaderLine, ScanStatus, ScanHeader;
    var q := b[..m];
    FindMore(q, b, pos, '\n');
    HeaderStep(lib, q, pos, f);
    HeaderStep(lib, b, pos, f);
    var j := FindFrom(b, pos, '\n');
    LineMore(q, b, pos, j);
    var line := Line(b, pos, j);
    var colon := FindFrom(line, 0, ':');
    if colon == |line| {
      if f.status == 100 {
        BodyEarly(lib, b, m, j + 1, f);
      }
    } else {
      BodyEarlyInHeader(lib, b, m, j + 1, HeaderLine(lib, line, colon, f).1);
    }
  }

  /**
    A message with an unsteady header can be cut so that the parser ends with other ranges than if
    it is fed at once.
   */
  lemma UnsteadyDiffers(lib: Libc, f0: Fields, b: string) returns (m: nat)
    requires
      var s := ScanStatus(lib, b, 0, f0);
      s.InBody? && s.f.chunked && UnsteadyChunk(b, NoChunks(s.pos, s.f))
    ensures m <= |b| && ParserOf(lib, false, f0, b[..m]).phase == ReadBody
    ensures Resumed(lib, false, ParserOf(lib, false, f0, b[..m]), b).ranges != ParserOf(lib, false, f0, b).ranges
  {
    hide ScanStatus, ScanHeader, ScanChunks, UnsteadyChunk;
    var s := ScanStatus(lib, b, 0, f0);
    var c := NoChunks(s.pos, s.f);
    m := UnsteadyRanges(b, c);
    BodyEarly(lib, b, m, 0, f0);
    KeepsChunks(b, m, s.pos, s.f, ScanChunks(b[..m], c));
  }

  /** When a message is cut and fed in two parts, the parser ends up as if it were fed at once. */
  predicate SameAfterCut(lib: Libc, f0: Fields, b: string, m: nat) {
    m <= |b| ==>
      var s := ParserOf(lib, false, f0, b[..m]);
      && (s.phase == ReadStatus || s.phase == ReadHeader ==> 0 <= s.recvPos <= |b|)
      && Resumed(lib, false, s, b) == ParserOf(lib, false, f0, b)
  }

  lemma {:induction false} NotSteady(b: string, c: Chunks)
    requires NoneNegative(b, c) && !AllSteady(b, c) && c.at <= c.end
    ensures UnsteadyChunk(b, c)
    decreases |b| - c.at
  {
    hide ChunkHeaderAt, AddTail, SteadyAt;
    if SteadyAt(b, c.end) {
      NotSteady(b, AfterChunk(c, ChunkHeaderAt(b, c.end)));
    } else {
      UnsteadyIsComplete(b, c.end);
    }
  }

  lemma UnsteadyIsComplete(b: string, start: nat)
    requires start <= |b| && !SteadyAt(b, start)
    ensures ChunkHeaderAt(b, start).Complete? && ChunkHeaderAt(b, start).size != 0
  {
    hide TailHeaders, Strtoll16, ChunkHeaderAt, SkipBreak, FindFrom;
    ChunkHeaderStep(b, start);
  }

  /** No chunk of the message has a negative size, as far as chunks are looked for. */
  predicate NoneNegativeIn(lib: Libc, f0: Fields, b: string) {
    var s := ScanStatus(lib, b, 0, f0);
    s.InBody? && s.f.chunked ==> NoneNegative(b, NoChunks(s.pos, s.f))
  }

  /**
    A message may be cut anywhere if every chunk header that is reached is steady, and, when no
    chunk size is negative, only if.
   */
  lemma SteadyMessageIff(lib: Libc, f0: Fields, b: string)
    ensures SteadyMessage(lib, false, f0, b) ==> forall m: nat :: SameAfterCut(lib, f0, b, m)
    ensures NoneNegativeIn(lib, f0, b) && (forall m: nat :: SameAfterCut(lib, f0, b, m)) ==>
      SteadyMessage(lib, false, f0, b)
  {
    hide ScanStatus, ParserOf, Resumed, NoneNegative, AllSteady;
    if SteadyMessage(lib, false, f0, b) {
      forall m: nat
        ensures SameAfterCut(lib, f0, b, m)
      {
        if m <= |b| {
          ResumedIs(lib, false, f0, b[..m], b);
        }
      }
    } else if NoneNegativeIn(lib, f0, b) {
      var s := ScanStatus(lib, b, 0, f0);
      NotSteady(b, NoChunks(s.pos, s.f));
      var m := UnsteadyDiffers(lib, f0, b);
      assert !SameAfterCut(lib, f0, b, m);
    }
  }

  // ---------------------------------------------------------------------------------------
  // Pieces
  // ---------------------------------------------------------------------------------------

  /** Lengths of ever longer parts of a message. */
  predicate Growing(cuts: seq<nat>, n: nat) {
    forall i, j :: 0 <= i <= j < |cuts| ==> cuts[i] <= cuts[j] <= n
  }

  /** How much of a message a parser has when it was fed the parts. */
  function FedTo(cuts: seq<nat>): nat {
    if cuts == [] then 0 else cuts[|cuts| - 1]
  }

  /** A new parser after it was fed the parts of a message. */
  function Fed(lib: Libc, dontParseChunks: bool, message: string, cuts: seq<nat>): (s: Parser)
    requires Growing(cuts, |message|)
    ensures Sane(dontParseChunks, s, FedTo(cuts)) || Lost(dontParseChunks, s)
  {
    if cuts == [] then Parser(ReadStatus, 0, NO_FIELDS, 0, false, [], -1, 0, 0)
    else
      var before, n := cuts[..|cuts| - 1], cuts[|cuts| - 1];
      var s := Fed(lib, dontParseChunks, message, before);
      if Lost(dontParseChunks, s) || n == FedTo(before) then s
      else
        ResumedSane(lib, dontParseChunks, s, FedTo(before), message[..n]);
        Resumed(lib, dontParseChunks, s, message[..n])
  }

  lemma SteadyLineLess(p: string, b: string, pos: nat, j: nat)
    requires p <= b && pos <= j < |p| && p[j] == '\n' && SteadyLine(b, pos, j)
    ensures SteadyLine(p, pos, j)
  {
    hide Strtoll16;
    MoreDigits(p, b, pos);
    assert forall k :: 0 <= k < |p| ==> p[k] == b[k];
    if !HasText(p, pos, j) && Strtoll16(p[pos..]) != 0 {
      var next := FindFrom(p, j + 1, '\n');
      FindMore(p, b, j + 1, '\n');
      BlankPasses(p, pos, j);
      if next == |p| && !HasText(p, j + 1, next) {
        NoNumber(p, j + 1);
      }
    }
  }

  lemma SteadyAtLess(p: string, b: string, start: nat)
    requires p <= b && start <= |p| && SteadyAt(b, start)
    ensures SteadyAt(p, start)
  {
    hide SteadyLine, SkipBreak;
    var pos := SkipBreak(p, start);
    if pos < |p| {
      SkipBreakMore(p, b, start);
      FindMore(p, b, pos, '\n');
      var j := FindFrom(p, pos, '\n');
      if j < |p| {
        SteadyLineLess(p, b, pos, j);
      }
    }
  }

  /** All parts of a steady message are steady. */
  lemma {:induction false} SteadyLess(p: string, b: string, c: Chunks)
    requires p <= b && AllSteady(b, c)
    ensures AllSteady(p, c)
    decreases |p| - c.at
  {
    hide ChunkHeaderAt, SteadyAt, AddTail;
    if AtHeader(p, c) {
      SteadyAtLess(p, b, c.end);
      if ChunkHeaderAt(p, c.end).Complete? {
        SteadyHeader(p, b, c.end);
        SteadyLess(p, b, AfterChunk(c, ChunkHeaderAt(p, c.end)));
      }
    }
  }

  lemma SteadyMessageLess(lib: Libc, dontParseChunks: bool, f0: Fields, p: string, b: string)
    requires p <= b && SteadyMessage(lib, dontParseChunks, f0, b)
    ensures SteadyMessage(lib, dontParseChunks, f0, p)
  {
    hide ScanStatus, ScanHeader, AllSteady;
    StatusContinues(lib, p, b, 0, f0);
    var s := ScanStatus(lib, p, 0, f0);
    if s.InBody? && ParsesChunks(s.f, dontParseChunks) {
      SteadyLess(p, b, NoChunks(s.pos, s.f));
    }
  }

  /** Fed a steady message in any parts, a parser ends up as if it were fed all at once. */
  lemma {:induction false} FedIs(lib: Libc, dontParseChunks: bool, message: string, cuts: seq<nat>)
    requires Growing(cuts, |message|) && SteadyMessage(lib, dontParseChunks, NO_FIELDS, message)
    ensures Fed(lib, dontParseChunks, message, cuts) ==
      ParserOf(lib, dontParseChunks, NO_FIELDS, message[..FedTo(cuts)])
  {
    hide ParserOf, Resumed, SteadyMessage;
    if cuts == [] {
      EmptyParser(lib, dontParseChunks, NO_FIELDS);
      assert message[..0] == "";
    } else {
      var before, n := cuts[..|cuts| - 1], cuts[|cuts| - 1];
      FedIs(lib, dontParseChunks, message, before);
      var p, b := message[..FedTo(before)], message[..n];
      SteadyMessageLess(lib, dontParseChunks, NO_FIELDS, b, message);
      ResumedIs(lib, dontParseChunks, NO_FIELDS, p, b);
    }
  }

  lemma EmptyParser(lib: Libc, dontParseChunks: bool, f0: Fields)
    ensures ParserOf(lib, dontParseChunks, f0, "") == Parser(ReadStatus, 0, f0, 0, false, [], -1, 0, 0)
  {
    hide FindFrom;
    StatusStep(lib, "", 0, f0);
  }
}
