/**
  With negative chunk sizes an unsteady header need not matter: here is a message that has one,
  and ends in the same way wherever it is cut. Both sizes that the header may be read as lead back
  into the message headers, on two ways that meet again.
 */
module HttpDetour {
  import opened Basics
  import opened HexNumber
  import opened HttpFormat
  import opened HttpResume

  /** If the chunks are found the same after every cut in the body, the message may be cut anywhere. */
  lemma SameChunksSame(lib: Libc, f0: Fields, b: string, start: nat, f: Fields, m: nat)
    requires ScanStatus(lib, b, 0, f0) == InBody(start, f) && f.chunked
    requires start <= m <= |b| ==>
      ScanChunks(b, ScanChunks(b[..m], NoChunks(start, f))) == ScanChunks(b, NoChunks(start, f))
    ensures SameAfterCut(lib, f0, b, m)
  {
    hide ScanStatus, ScanHeader, ScanChunks;
    if m <= |b| {
      var p, c := b[..m], NoChunks(start, f);
      StatusContinues(lib, p, b, 0, f0);
      if ScanStatus(lib, p, 0, f0).InBody? {
        KeepsChunks(b, m, start, f, ScanChunks(p, c));
        KeepsFields(start, f, m, |b|, ScanChunks(p, c),
          ScanChunks(b, ChunksOf(InChunks(start, f, m, ScanChunks(p, c)))));
      }
    }
  }

  // ---------------------------------------------------------------------------------------
  // The body, and the end of the headers before it
  // ---------------------------------------------------------------------------------------

  /** The number at `pos`, when the characters of `t` are all that is read of it. */
  lemma NumberAt(p: string, pos: nat, t: string)
    requires At(p, pos, t) && Read(Blank, t).Stopped?
    ensures Strtoll16(p[pos..]) == Value(Read(Blank, t))
  {
    assert p[pos..] == t + p[pos + |t|..];
    ReadConcat(Blank, t, p[pos + |t|..]);
    ReadStopped(Value(Read(Blank, t)), p[pos + |t|..]);
  }

  lemma Reads()
    ensures Read(Blank, "-1") == Digits(true, 1) && Read(Blank, "-12") == Digits(true, 18)
    ensures Read(Blank, "  -1\r") == Stopped(-1) && Read(Blank, "-12\r") == Stopped(-18)
      && Read(Blank, "0:") == Stopped(0)
  {
    assert "-1"[..1] == "-" && "-"[..0] == "" && "-12"[..2] == "-1" && "-12\r"[..3] == "-12";
    assert "  -1\r"[..4] == "  -1" && "  -1"[..3] == "  -" && "  -"[..2] == "  " && "  "[..1] == " " && " "[..0] == "";
    assert "0:"[..1] == "0" && "0"[..0] == "";
  }

  /** Back in the headers: a chunk of size minus one. */
  lemma MinusOne(p: string, s: nat)
    requires At(p, s, "  -1\r\n")
    ensures ChunkHeaderAt(p, s) == Complete(-1, 6, map[]) && SteadyAt(p, s)
  {
    hide Strtoll16, TailHeaders, ChunkHeaderAt, FindFrom, Read;
    Reads();
    AtItem(p, s, "  -1\r\n", 0);
    AtItem(p, s, "  -1\r\n", 2);
    assert "  -1\r\n" == "  -1\r" + "\n";
    LineAt(p, s, "  -1\r");
    AtSplit(p, s, "  -1\r", "\n");
    NumberAt(p, s, "  -1\r");
    ChunkHeaderStep(p, s);
    assert !IsSpace(p[s + 2]);
  }

  /** Further on in the headers: the last chunk. */
  lemma LastChunk(p: string, s: nat)
    requires At(p, s, "\n0: ab\r\n\r\n")
    ensures ChunkHeaderAt(p, s) == Complete(0, 10, map[]) && SteadyAt(p, s)
  {
    hide Strtoll16, TailHeaders, ChunkHeaderAt, FindFrom, At, HasText;
    assert "\n0: ab\r\n\r\n" == "\n" + ("0: ab\r\n" + "\r\n");
    AtItem(p, s, "\n0: ab\r\n\r\n", 0);
    AtSplit(p, s, "\n", "0: ab\r\n" + "\r\n");
    AtSplit(p, s + 1, "0: ab\r\n", "\r\n");
    ZeroLine(p, s + 1);
    BlankLine(p, s + 8);
    ChunkHeaderStep(p, s);
    BlankEnds(p, s, s + 8, map[]);
  }

  lemma ZeroLine(p: string, pos: nat)
    requires At(p, pos, "0: ab\r\n")
    ensures pos + 7 <= |p| && FindFrom(p, pos, '\n') == pos + 6 && Strtoll16(p[pos..]) == 0
  {
    hide Strtoll16, FindFrom, Read;
    Reads();
    assert "0: ab\r\n" == "0: ab\r" + "\n" && "0: ab\r\n" == "0:" + " ab\r\n";
    LineAt(p, pos, "0: ab\r");
    AtSplit(p, pos, "0:", " ab\r\n");
    NumberAt(p, pos, "0:");
  }

  lemma BlankLine(p: string, pos: nat)
    requires At(p, pos, "\r\n")
    ensures pos + 2 <= |p| && FindFrom(p, pos, '\n') == pos + 1 && !HasText(p, pos, pos + 1)
  {
    hide FindFrom;
    AtItem(p, pos, "\r\n", 0);
    assert "\r\n" == "\r" + "\n";
    LineAt(p, pos, "\r");
  }

  /** The first header of the body, whole. */
  lemma WholeSize(p: string, s: nat)
    requires At(p, s, " \r\n-12") && (|p| == s + 6 || p[s + 6] == '\r')
    ensures ChunkHeaderAt(p, s) == Complete(-18, 3, map[])
  {
    hide Strtoll16, TailHeaders, ChunkHeaderAt, FindFrom, Read;
    Reads();
    FirstLine(p, s, "-12");
    if |p| == s + 6 {
      assert p[s + 3..] == "-12";
    } else {
      assert p[s + 3..s + 7] == p[s + 3..s + 6] + [p[s + 6]] == "-12\r";
      NumberAt(p, s + 3, "-12\r");
    }
    SizeIs("-12");
  }

  /** The first header of the body, cut after the first digit. */
  lemma CutSize(p: string, s: nat)
    requires s <= |p| && p[s..] == " \r\n-1"
    ensures ChunkHeaderAt(p, s) == Complete(-1, 3, map[])
  {
    hide Strtoll16, TailHeaders, ChunkHeaderAt, FindFrom, Read;
    Reads();
    assert p[s..s + 5] == " \r\n-1";
    FirstLine(p, s, "-1");
    assert p[s + 3..] == "-1";
    SizeIs("-1");
  }

  lemma SizeIs(t: string)
    ensures Strtoll16(t) == Value(Read(Blank, t))
  {
  }

  lemma FirstLine(p: string, s: nat, t: string)
    requires At(p, s, " \r\n" + t)
    ensures SkipBreak(p, s) == s && FindFrom(p, s, '\n') == s + 2 && At(p, s + 3, t) && !HasText(p, s, s + 2)
    ensures Strtoll16(p[s..]) == Strtoll16(p[s + 3..])
    ensures ChunkHeaderAt(p, s) ==
      if Strtoll16(p[s..]) != 0 then Complete(Strtoll16(p[s..]), 3, map[]) else TailHeaders(p, s, s + 3, map[])
  {
    hide Strtoll16, TailHeaders, ChunkHeaderAt, FindFrom, Read;
    AtSplit(p, s, " \r\n", t);
    AtItem(p, s, " \r\n", 0);
    AtItem(p, s, " \r\n", 1);
    AtItem(p, s, " \r\n", 2);
    assert " \r\n" == " \r" + "\n";
    LineAt(p, s, " \r");
    BlankPasses(p, s, s + 2);
    ChunkHeaderStep(p, s);
  }

  /** Too little of the first header is there. */
  lemma TooLittle(p: string, s: nat)
    requires s < |p| < s + 5 && p[s..] <= " \r\n-1"
    ensures ChunkHeaderAt(p, s) == Incomplete
  {
    hide Strtoll16, TailHeaders, ChunkHeaderAt, FindFrom, Read;
    var t := p[s..];
    assert forall k :: s <= k < |p| ==> p[k] == t[k - s] == " \r\n-1"[k - s];
    ChunkHeaderStep(p, s);
    if |t| >= 3 {
      assert p[s..s + 3] == " \r\n" + "";
      FirstLine(p, s, "");
      NoSize(p, s + 3);
      NoLine(p, s, s + 3);
    }
  }

  lemma NoSize(p: string, pos: nat)
    requires pos <= |p| && (p[pos..] == "" || p[pos..] == "-")
    ensures Strtoll16(p[pos..]) == 0
  {
    assert "-"[..0] == "";
  }

  lemma NoLine(p: string, start: nat, pos: nat)
    requires start < pos <= |p| && FindFrom(p, pos, '\n') == |p|
    ensures TailHeaders(p, start, pos, map[]) == Incomplete
  {
  }

  /** After the cut the header is looked for at the end of its own first line. */
  lemma OtherWay(p: string, s: nat)
    requires At(p, s, "\n-12\r\n")
    ensures ChunkHeaderAt(p, s) == Complete(-18, 6, map[])
  {
    hide Strtoll16, TailHeaders, ChunkHeaderAt, FindFrom, Read;
    Reads();
    assert "\n-12\r\n" == "\n" + "-12\r\n" && "-12\r\n" == "-12\r" + "\n";
    AtItem(p, s, "\n-12\r\n", 0);
    AtSplit(p, s, "\n", "-12\r\n");
    LineAt(p, s + 1, "-12\r");
    AtSplit(p, s + 1, "-12\r", "\n");
    NumberAt(p, s + 1, "-12\r");
    ChunkHeaderStep(p, s);
  }

  lemma NoneYet(p: string, s: nat)
    requires s <= |p| && p[s..] == "\n-1"
    ensures ChunkHeaderAt(p, s) == Incomplete
  {
    hide Strtoll16, TailHeaders, ChunkHeaderAt, FindFrom, Read;
    assert p[s] == p[s..][0] && p[s + 1] == p[s..][1] && p[s + 2] == p[s..][2];
    ChunkHeaderStep(p, s);
  }

  // ---------------------------------------------------------------------------------------
  // The two ways
  // ---------------------------------------------------------------------------------------

  /** A buffer with the end of the message headers, and the body at `start`. */
  ghost predicate HasDetour(b: string, start: nat) {
    && start >= 15 && |b| == start + 12
    && At(b, start - 15, "  -1\r\n") && At(b, start - 10, "\n0: ab\r\n\r\n")
    && At(b, start, " \r\n-12") && At(b, start + 2, "\n-12\r\n")
  }

  /** Where the two ways meet. */
  function Met(start: nat, f: Fields): Chunks {
    Chunks(start - 10, start + 9, [], 9, false, f.header)
  }

  lemma FromMet(b: string, start: nat, f: Fields)
    requires HasDetour(b, start)
    ensures AllSteady(b, Met(start, f)) && ScanChunks(b, Met(start, f)).finished
  {
    hide ChunkHeaderAt, SteadyAt, AddTail, ScanChunks;
    var c := Met(start, f);
    LastChunk(b, start - 10);
    ChunksStep(b, c);
    ChunksStep(b, AfterChunk(c, ChunkHeaderAt(b, c.end)));
  }

  /** The way of the whole size: to the end of the headers' values, and on from there. */
  lemma LongWay(b: string, start: nat, f: Fields)
    requires HasDetour(b, start)
    ensures
      var c := NoChunks(start, f);
      var d := AfterChunk(c, Complete(-18, 3, map[]));
      AllSteady(b, d) && ScanChunks(b, c) == ScanChunks(b, d) == ScanChunks(b, Met(start, f))
  {
    hide ChunkHeaderAt, SteadyAt, AddTail, ScanChunks;
    var c := NoChunks(start, f);
    var d := AfterChunk(c, Complete(-18, 3, map[]));
    SixthIs(b, start);
    WholeSize(b, start);
    ChunksStep(b, c);
    MinusOne(b, start - 15);
    ChunksStep(b, d);
    assert AfterChunk(d, ChunkHeaderAt(b, d.end)) == Met(start, f);
    FromMet(b, start, f);
  }

  lemma SixthIs(b: string, start: nat)
    requires HasDetour(b, start)
    ensures b[start + 6] == '\r'
  {
    AtItem(b, start + 2, "\n-12\r\n", 4);
  }

  /** The way of the size that was cut. */
  lemma ShortWay(b: string, start: nat, f: Fields)
    requires HasDetour(b, start)
    ensures
      var d := AfterChunk(NoChunks(start, f), Complete(-1, 3, map[]));
      ScanChunks(b[..start + 5], NoChunks(start, f)) == d && ScanChunks(b, d) == ScanChunks(b, Met(start, f))
  {
    hide ChunkHeaderAt, SteadyAt, AddTail, ScanChunks;
    var p, c := b[..start + 5], NoChunks(start, f);
    var d := AfterChunk(c, Complete(-1, 3, map[]));
    var t := b[start..start + 6];
    assert p[start..] == t[..5] == " \r\n-1";
    CutSize(p, start);
    ChunksStep(p, c);
    assert p[start + 2..] == t[2..5] == "\n-1";
    NoneYet(p, start + 2);
    ChunksStep(p, d);
    OtherWay(b, start + 2);
    ChunksStep(b, d);
  }

  /** Wherever the body is cut, the same chunks are found. */
  lemma Converges(b: string, start: nat, f: Fields, m: nat)
    requires HasDetour(b, start) && start <= m <= |b|
    ensures ScanChunks(b, ScanChunks(b[..m], NoChunks(start, f))) == ScanChunks(b, NoChunks(start, f))
  {
    hide ChunkHeaderAt, SteadyAt, AllSteady, ScanChunks, AfterChunk;
    var p, c := b[..m], NoChunks(start, f);
    var t := b[start..start + 6];
    ChunksStep(p, c);
    LongWay(b, start, f);
    if start < m < start + 5 {
      assert p[start..] == t[..m - start];
      TooLittle(p, start);
    } else if m == start + 5 {
      ShortWay(b, start, f);
    } else if start + 6 <= m {
      SixthIs(b, start);
      assert p[start..start + 6] == t;
      WholeSize(p, start);
      ChunksContinue(p, b, AfterChunk(c, Complete(-18, 3, map[])));
    }
  }

  /** The first header is not steady. */
  lemma DetourUnsteady(b: string, start: nat)
    requires HasDetour(b, start)
    ensures !SteadyAt(b, start)
  {
    hide ChunkHeaderAt, SteadyAt;
    var p, t := b[..start + 5], b[start..start + 6];
    assert p[start..] == t[..5] == " \r\n-1";
    CutSize(p, start);
    SixthIs(b, start);
    WholeSize(b, start);
    if SteadyAt(b, start) {
      SteadyHeader(p, b, start);
    }
  }

  // ---------------------------------------------------------------------------------------
  // The message
  // ---------------------------------------------------------------------------------------

  const CODING := "transfer-encoding:chunked"

  const MESSAGE :=
    "A\n" + ((CODING + "\n") + ("x:  -1\r\n" + ("0: ab\r\n" + ("\r\n" + " \r\n-12\r\nabcd"))))

  lemma Lines()
    ensures |CODING| == 25 && |MESSAGE| == 57
    ensures At(MESSAGE, 0, "A\n") && At(MESSAGE, 2, CODING + "\n") && At(MESSAGE, 28, "x:  -1\r\n")
    ensures At(MESSAGE, 36, "0: ab\r\n") && At(MESSAGE, 43, "\r\n") && At(MESSAGE, 45, " \r\n-12\r\nabcd")
  {
    var t4 := "\r\n" + " \r\n-12\r\nabcd";
    var t3 := "0: ab\r\n" + t4;
    var t2 := "x:  -1\r\n" + t3;
    var t1 := (CODING + "\n") + t2;
    assert MESSAGE[0..|MESSAGE|] == MESSAGE == "A\n" + t1;
    AtSplit(MESSAGE, 0, "A\n", t1);
    AtSplit(MESSAGE, 2, CODING + "\n", t2);
    AtSplit(MESSAGE, 28, "x:  -1\r\n", t3);
    AtSplit(MESSAGE, 36, "0: ab\r\n", t4);
    AtSplit(MESSAGE, 43, "\r\n", " \r\n-12\r\nabcd");
  }

  lemma MessageHasDetour()
    ensures HasDetour(MESSAGE, 45)
  {
    hide MESSAGE;
    Lines();
    var b := MESSAGE;
    assert "x:  -1\r\n" == "x:" + "  -1\r\n" && "  -1\r\n" == "  -1\r" + "\n";
    AtSplit(b, 28, "x:", "  -1\r\n");
    AtSplit(b, 30, "  -1\r", "\n");
    assert b[35..45] == b[35..36] + b[36..43] + b[43..45] == "\n0: ab\r\n\r\n";
    assert " \r\n-12\r\nabcd" == " \r\n-12" + "\r\nabcd" == " \r" + ("\n-12\r\n" + "abcd");
    AtSplit(b, 45, " \r\n-12", "\r\nabcd");
    AtSplit(b, 45, " \r", "\n-12\r\n" + "abcd");
    AtSplit(b, 47, "\n-12\r\n", "abcd");
  }

  /** A header line of the message that is read as any other. */
  lemma PlainLine(lib: Libc, b: string, pos: nat, name: string, value: string, f: Fields) returns (g: Fields)
    requires At(b, pos, (name + ":" + value + "\r") + "\n") && |name| == 1 && name[0] != ':'
    requires forall i :: 0 <= i < |value| ==> value[i] != '\n'
    requires name[0] != '\n'
    ensures pos + |value| + 4 <= |b|
    ensures g.chunked == f.chunked && g.status == f.status
    ensures ScanHeader(lib, b, pos, f) == ScanHeader(lib, b, pos + |value| + 4, g)
  {
    hide ScanStatus, ScanHeader, HeaderLine, FindFrom, Line;
    var line := name + ":" + value;
    assert (line + "\r")[..|line|] == line;
    LineIs(b, pos, line + "\r");
    HeaderStep(lib, b, pos, f);
    OtherLine(lib, name, value, f);
    g := HeaderLine(lib, line, 1, f).1;
  }

  lemma CodedLine(lib: Libc, f: Fields) returns (g: Fields)
    ensures g.chunked && g.status == f.status
    ensures |MESSAGE| == 57 && ScanHeader(lib, MESSAGE, 2, f) == ScanHeader(lib, MESSAGE, 28, g)
  {
    hide MESSAGE, ScanStatus, ScanHeader, HeaderLine, FindFrom, CODING, Line;
    Lines();
    CodingParts();
    CodingLine(lib, f);
    LineIs(MESSAGE, 2, CODING);
    HeaderStep(lib, MESSAGE, 2, f);
    g := HeaderLine(lib, CODING, 17, f).1;
  }

  lemma StatusRead(lib: Libc, f0: Fields) returns (f: Fields)
    ensures |MESSAGE| == 57 && f.status == 0 && ScanStatus(lib, MESSAGE, 0, f0) == ScanHeader(lib, MESSAGE, 2, f)
  {
    hide MESSAGE, ScanStatus, ScanHeader, StatusLine, FindFrom, Line;
    Lines();
    assert "A\n" == "A" + "\n";
    LineIs(MESSAGE, 0, "A");
    StatusStep(lib, MESSAGE, 0, f0);
    StatusA(lib, f0);
    f := StatusLine(lib, "A", f0);
  }

  lemma LastLine(lib: Libc, f: Fields)
    requires f.status != 100
    ensures |MESSAGE| == 57 && ScanHeader(lib, MESSAGE, 43, f) == InBody(45, f)
  {
    hide MESSAGE, ScanStatus, ScanHeader, FindFrom, Line;
    Lines();
    assert "\r\n" == "\r" + "\n" && "\r"[..0] == "";
    LineIs(MESSAGE, 43, "\r");
    HeaderStep(lib, MESSAGE, 43, f);
  }

  /** The message is chunked, and its body is where it should be. */
  lemma MessageScanned(lib: Libc, f0: Fields)
    ensures
      var s := ScanStatus(lib, MESSAGE, 0, f0);
      s.InBody? && s.pos == 45 && s.f.chunked
  {
    hide MESSAGE, ScanStatus, ScanHeader;
    Lines();
    assert "x:  -1\r\n" == ("x" + ":" + "  -1" + "\r") + "\n" && "0: ab\r\n" == ("0" + ":" + " ab" + "\r") + "\n";
    var f1 := StatusRead(lib, f0);
    var f2 := CodedLine(lib, f1);
    var f3 := PlainLine(lib, MESSAGE, 28, "x", "  -1", f2);
    var f4 := PlainLine(lib, MESSAGE, 36, "0", " ab", f3);
    LastLine(lib, f4);
  }

  lemma StatusA(lib: Libc, f: Fields)
    ensures StatusLine(lib, "A", f).status == 0
  {
    assert "A"[..1] == "A" && |"A"[..FindFrom("A", 0, ' ')]| < 5;
  }

  lemma CodingParts()
    ensures |CODING| == 25 && FindFrom(CODING, 0, ':') == 17
    ensures forall i :: 0 <= i < 25 ==> CODING[i] != '\n' && CODING[i] != '\r'
    ensures CODING[..17] == "transfer-encoding" && CODING[18..] == "chunked"
  {
    hide FindFrom;
    assert CODING[17] == ':' && forall i :: 0 <= i < 25 && i != 17 ==> CODING[i] != ':';
  }

  lemma CodingLine(lib: Libc, f: Fields)
    ensures |CODING| == 25
    ensures
      var (ok, g) := HeaderLine(lib, CODING, 17, f);
      ok && g.chunked && g.status == f.status
  {
    hide CODING, FindFrom;
    CodingParts();
    assert Lower("transfer-encoding") == "transfer-encoding";
    assert SkipSpace("chunked") == "chunked" && "chunked"[..7] == "chunked";
  }

  lemma OtherLine(lib: Libc, name: string, value: string, f: Fields)
    requires |name| == 1 && name[0] != ':'
    ensures
      var line := name + ":" + value;
      FindFrom(line, 0, ':') == 1 &&
      var (ok, g) := HeaderLine(lib, line, 1, f);
      ok && g.chunked == f.chunked && g.status == f.status
  {
    hide FindFrom;
    var line := name + ":" + value;
    assert line[0] == name[0] && line[1] == ':';
    assert |Lower(line[..1])| == 1;
  }

  /**
    This message has an unsteady header that is reached, and the parser ends up the same wherever
    the message is cut.
   */
  lemma UnsteadyYetSame(lib: Libc, f0: Fields)
    ensures ScanStatus(lib, MESSAGE, 0, f0).InBody? && ScanStatus(lib, MESSAGE, 0, f0).f.chunked
    ensures !SteadyMessage(lib, false, f0, MESSAGE)
    ensures forall m: nat :: SameAfterCut(lib, f0, MESSAGE, m)
  {
    hide MESSAGE, HasDetour, ScanStatus, SteadyAt, ChunkHeaderAt, SameAfterCut, ScanChunks;
    var b, s := MESSAGE, ScanStatus(lib, MESSAGE, 0, f0);
    Lines();
    MessageScanned(lib, f0);
    MessageHasDetour();
    DetourUnsteady(b, 45);
    forall m: nat
      ensures SameAfterCut(lib, f0, b, m)
    {
      if 45 <= m <= |b| {
        Converges(b, 45, s.f, m);
      }
      SameChunksSame(lib, f0, b, 45, s.f, m);
    }
  }
}
