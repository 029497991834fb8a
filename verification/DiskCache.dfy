/**
  The write cache: blocks are kept until enough of them lie side by side, and then written in
  as few writes as possible.
 */
module DiskCache {
  import opened Basics
  import opened DiskBlocks

  /** A piece with blocks in the cache, and what is counted of it. */
  datatype Piece = Piece(blocks: seq<Block>, numBlocks: int, numContiguous: int, nextBlockToHash: nat)

  /** A callback that a block was written. */
  datatype Call = Call(callback: nat, offset: int, size: int)

  // ---------------------------------------------------------------------------------------
  // What a flush does, block by block
  // ---------------------------------------------------------------------------------------

  /** The calls for the blocks from `a` to `b`, one for each that is cached. */
  function CallsFor(blocks: seq<Block>, size: nat, a: nat, b: nat): (c: seq<Call>)
    requires PieceOk(blocks, size) && a <= b <= |blocks|
    ensures |c| == Count(blocks, a, b)
    decreases b - a
  {
    if a == b then []
    else
      CallsFor(blocks, size, a, b - 1) +
      if blocks[b - 1].Cached? then [Call(blocks[b - 1].callback, (b - 1) * BLOCK, BlockLen(size, b - 1))] else []
  }

  /** The buffers of the blocks from `a` to `b`. */
  function Buffers(blocks: seq<Block>, a: nat, b: nat): (c: seq<seq<byte>>)
    requires a <= b <= |blocks|
    ensures |c| == Count(blocks, a, b)
    decreases b - a
  {
    if a == b then []
    else Buffers(blocks, a, b - 1) + if blocks[b - 1].Cached? then [blocks[b - 1].data] else []
  }

  /** How many runs there are from `a` to `b`. */
  function Runs(blocks: seq<Block>, a: nat, b: nat): (n: nat)
    requires a <= b <= |blocks|
    decreases b - a
  {
    if a == b then 0
    else Runs(blocks, a, b - 1) + if blocks[b - 1].Cached? && (b - 1 == a || blocks[b - 2].Empty?) then 1 else 0
  }

  function NextToHash(blocks: seq<Block>, a: nat, b: nat, next: nat): (n: nat)
    requires a <= b <= |blocks|
    decreases b - a
  {
    if a == b then next
    else
      var m := NextToHash(blocks, a, b - 1, next);
      if blocks[b - 1].Cached? && b - 1 == m then m + 1 else m
  }

  function Concat(iov: seq<seq<byte>>): seq<byte> {
    if iov == [] then [] else Concat(iov[..|iov| - 1]) + iov[|iov| - 1]
  }

  lemma ConcatMore(iov: seq<seq<byte>>, x: seq<byte>)
    ensures Concat(iov + [x]) == Concat(iov) + x
  {
    assert (iov + [x])[..|iov|] == iov;
  }

  method MemCpy(buf: array<byte>, at: nat, data: seq<byte>, len: nat)
    requires at + len <= buf.Length && len <= |data|
    modifies buf
    ensures buf[..] == old(buf[..])[..at] + data[..len] + old(buf[..])[at + len..]
  {
    ghost var was := buf[..];
    for k := 0 to len
      invariant forall i :: 0 <= i < buf.Length ==> buf[i] == if at <= i < at + k then data[i - at] else was[i]
    {
      buf[at + k] := data[k];
    }
    ghost var now := was[..at] + data[..len] + was[at + len..];
    assert forall i :: 0 <= i < buf.Length ==> buf[i] == now[i];
  }

  // ---------------------------------------------------------------------------------------
  // Gathering a run
  // ---------------------------------------------------------------------------------------

  /** What is gathered for one write: a list of buffers, or one buffer they are copied to. */
  class Gather {
    const buf: array<byte>
    const vectored: bool
    var iov: seq<seq<byte>>
    var bufferSize: nat
    var offset: nat

    ghost predicate Valid()
      reads this, buf
    {
      && (vectored ==> |Concat(iov)| == bufferSize)
      && (!vectored ==> bufferSize <= buf.Length)
    }

    /** The bytes gathered so far. */
    ghost function Gathered(): (d: seq<byte>)
      requires Valid()
      reads this, buf
    {
      if vectored then Concat(iov) else buf[..bufferSize]
    }

    constructor (pieceSize: nat, coalesce: bool)
      ensures Valid() && Gathered() == [] && bufferSize == 0 == offset && vectored == !coalesce
      ensures fresh(buf) && (coalesce ==> buf.Length == pieceSize)
    {
      vectored := !coalesce;
      buf := new byte[if coalesce then pieceSize else 0];
      iov, bufferSize, offset := [], 0, 0;
    }

    method Add(data: seq<byte>, len: nat)
      requires Valid() && len <= |data| && (!vectored ==> bufferSize == offset && offset + len <= buf.Length)
      modifies this, buf
      ensures Valid() && Gathered() == old(Gathered()) + data[..len] && bufferSize == old(bufferSize) + len
      ensures offset == if vectored then old(offset) else old(offset) + BLOCK
    {
      if vectored {
        ConcatMore(iov, data[..len]);
        iov := iov + [data[..len]];
      } else {
        MemCpy(buf, offset, data, len);
        offset := offset + BLOCK;
      }
      bufferSize := bufferSize + len;
    }

    method Take() returns (data: seq<byte>)
      requires Valid()
      modifies this
      ensures Valid() && data == old(Gathered()) && Gathered() == [] && bufferSize == 0 == offset
    {
      if vectored {
        data := Concat(iov);
      } else {
        data := buf[..bufferSize];
      }
      iov, bufferSize, offset := [], 0, 0;
    }
  }

  // ---------------------------------------------------------------------------------------
  // Flushing
  // ---------------------------------------------------------------------------------------

  /**
    Writes the cached blocks from `start` to `end`, each run of them in one write. The disk is then as
    if every block had been written by itself.
   */
  method WriteRuns(p: Piece, was: seq<byte>, start: nat, end: nat, coalesce: bool)
    returns (q: Piece, disk: seq<byte>, writes: nat, blocksWritten: nat)
    requires PieceOk(p.blocks, |was|) && start <= end <= |p.blocks|
    ensures disk == WriteEach(was, p.blocks, start, end) && writes == Runs(p.blocks, start, end)
    ensures blocksWritten == Count(p.blocks, start, end)
    ensures q == p.(numBlocks := p.numBlocks - blocksWritten,
                      nextBlockToHash := NextToHash(p.blocks, start, end, p.nextBlockToHash))
  {
    hide WriteEach, Overwrite, Runs, Concat, Gathering;
    var size := |was|;
    q, disk, writes, blocksWritten := p, was, 0, 0;
    NothingWritten(was, p.blocks, start);
    var g := new Gather(size, coalesce);
    ghost var s: nat := start;
    StartGathering(g, p.blocks, size, start);
    for i := start to end
      invariant start <= s <= i && StartsRun(p.blocks, start, s)
      invariant fresh(g) && fresh(g.buf) && g.vectored == !coalesce && (coalesce ==> g.buf.Length == size)
      invariant g.Valid() && Gathering(g, p.blocks, size, s, i)
      invariant disk == WriteEach(was, p.blocks, start, s) && writes == Runs(p.blocks, start, s)
      invariant blocksWritten == Count(p.blocks, start, i)
      invariant q == p.(numBlocks := p.numBlocks - blocksWritten,
                          nextBlockToHash := NextToHash(p.blocks, start, i, p.nextBlockToHash))
    {
      if p.blocks[i] == Empty {
        disk, writes := Emit(g, was, disk, writes, start, s, i, p.blocks);
        EmptyWritten(was, p.blocks, start, i);
        StartGathering(g, p.blocks, size, i + 1);
        s := i + 1;
      } else {
        AddBlock(g, p.blocks, size, s, i);
        blocksWritten := blocksWritten + 1;
        q := q.(numBlocks := q.numBlocks - 1);
        if i == q.nextBlockToHash {
          q := q.(nextBlockToHash := q.nextBlockToHash + 1);
        }
      }
    }
    disk, writes := Emit(g, was, disk, writes, start, s, end, p.blocks);
  }

  lemma NothingWritten(disk: seq<byte>, blocks: seq<Block>, a: nat)
    requires PieceOk(blocks, |disk|) && a <= |blocks|
    ensures WriteEach(disk, blocks, a, a) == disk && Runs(blocks, a, a) == 0
    ensures RunBytes(blocks, |disk|, a, a) == [] && AllCached(blocks, a, a)
  {
  }

  lemma EmptyWritten(disk: seq<byte>, blocks: seq<Block>, a: nat, b: nat)
    requires PieceOk(blocks, |disk|) && a <= b < |blocks| && blocks[b] == Empty
    ensures WriteEach(disk, blocks, a, b + 1) == WriteEach(disk, blocks, a, b)
      && Runs(blocks, a, b + 1) == Runs(blocks, a, b)
    ensures RunBytes(blocks, |disk|, b + 1, b + 1) == [] && AllCached(blocks, b + 1, b + 1)
  {
  }

  lemma StartGathering(g: Gather, blocks: seq<Block>, size: nat, i: nat)
    requires g.Valid() && g.Gathered() == [] && (!g.vectored ==> g.offset == 0 && g.buf.Length == size)
    requires PieceOk(blocks, size) && i <= |blocks|
    ensures Gathering(g, blocks, size, i, i)
  {
  }

  /** A run may start here. */
  predicate StartsRun(blocks: seq<Block>, start: nat, s: nat) {
    s == start || (0 < s <= |blocks| && blocks[s - 1].Empty?)
  }

  /** Adds a block to the run that is being gathered. */
  method AddBlock(g: Gather, blocks: seq<Block>, size: nat, ghost s: nat, i: nat)
    requires g.Valid() && i < |blocks| && Gathering(g, blocks, size, s, i) && blocks[i].Cached?
    modifies g, g.buf
    ensures g.Valid() && Gathering(g, blocks, size, s, i + 1)
  {
    g.Add(blocks[i].data, Min(size - i * BLOCK, BLOCK));
  }

  /** Writes what was gathered before block `i`, if anything. */
  method Emit(g: Gather, ghost was: seq<byte>, disk: seq<byte>, writes: nat, ghost start: nat, ghost s: nat, i: nat,
              ghost blocks: seq<Block>)
    returns (disk': seq<byte>, writes': nat)
    requires PieceOk(blocks, |was|) && start <= s && StartsRun(blocks, start, s) && i <= |blocks|
    requires g.Valid() && Gathering(g, blocks, |was|, s, i)
    requires disk == WriteEach(was, blocks, start, s) && writes == Runs(blocks, start, s)
    modifies g
    ensures g.Valid() && g.Gathered() == [] && g.bufferSize == 0 && (!g.vectored ==> g.offset == 0)
    ensures disk' == WriteEach(was, blocks, start, i) && writes' == Runs(blocks, start, i)
  {
    hide WriteEach, Overwrite, Runs, Concat;
    disk', writes' := disk, writes;
    NothingWritten(disk, blocks, i);
    RunsOfRun(blocks, start, s, i);
    WriteEachSplit(was, blocks, start, s, i);
    if g.bufferSize != 0 {
      var at := Min(i * BLOCK, |disk|) - g.bufferSize;
      WriteRun(disk, blocks, s, i);
      var data := g.Take();
      disk' := Overwrite(disk, at, data);
      writes' := writes + 1;
    }
  }

  lemma {:induction false} RunsOfRun(blocks: seq<Block>, start: nat, s: nat, i: nat)
    requires start <= s <= i <= |blocks| && StartsRun(blocks, start, s) && AllCached(blocks, s, i)
    ensures Runs(blocks, start, i) == Runs(blocks, start, s) + if s < i then 1 else 0
    decreases i - s
  {
    if s < i {
      RunsOfRun(blocks, start, s, i - 1);
    }
  }

  /** The run from `s` to `i` is gathered; if there is none, `s` is `i`. */
  ghost predicate Gathering(g: Gather, blocks: seq<Block>, size: nat, s: nat, i: nat)
    requires g.Valid()
    reads g, g.buf
  {
    && PieceOk(blocks, size) && s <= i <= |blocks| && AllCached(blocks, s, i)
    && g.Gathered() == RunBytes(blocks, size, s, i)
    && (!g.vectored ==> g.buf.Length == size && g.offset == (i - s) * BLOCK)
  }

  /** Calls back for the cached blocks from `start` to `end`, and empties them. */
  method CallBack(p: Piece, size: nat, start: nat, end: nat)
    returns (q: Piece, calls: seq<Call>, buffers: seq<seq<byte>>, n: nat)
    requires PieceOk(p.blocks, size) && start <= end <= |p.blocks|
    ensures q == p.(blocks := Emptied(p.blocks, start, end))
    ensures calls == CallsFor(p.blocks, size, start, end) && buffers == Buffers(p.blocks, start, end)
    ensures n == Count(p.blocks, start, end)
  {
    hide Emptied, CallsFor, Buffers, Count, PieceOk;
    calls, buffers, n := [], [], 0;
    var blocks := p.blocks;
    NoneCalled(p.blocks, size, start);
    for i := start to end
      invariant blocks == Emptied(p.blocks, start, i)
      invariant calls == CallsFor(p.blocks, size, start, i) && buffers == Buffers(p.blocks, start, i)
      invariant n == Count(p.blocks, start, i)
    {
      OneCalled(p.blocks, size, start, i);
      if blocks[i] != Empty {
        buffers := buffers + [blocks[i].data];
        calls := calls + [Call(blocks[i].callback, i * BLOCK, Min(size - i * BLOCK, BLOCK))];
        blocks := blocks[i := Empty];
        n := n + 1;
      }
    }
    q := p.(blocks := blocks);
  }

  lemma NoneCalled(blocks: seq<Block>, size: nat, start: nat)
    requires PieceOk(blocks, size) && start <= |blocks|
    ensures Emptied(blocks, start, start) == blocks && CallsFor(blocks, size, start, start) == []
    ensures Buffers(blocks, start, start) == [] && Count(blocks, start, start) == 0
  {
  }

  lemma OneCalled(blocks: seq<Block>, size: nat, start: nat, i: nat)
    requires PieceOk(blocks, size) && start <= i < |blocks|
    ensures
      var e, b := Emptied(blocks, start, i), blocks[i];
      && |e| == |blocks| && e[i] == b && Emptied(blocks, start, i + 1) == e[i := Empty] && i * BLOCK <= size
      && (b == Empty ==> e[i := Empty] == e)
      && CallsFor(blocks, size, start, i + 1) == CallsFor(blocks, size, start, i) +
           (if b == Empty then [] else [Call(b.callback, i * BLOCK, Min(size - i * BLOCK, BLOCK))])
      && Buffers(blocks, start, i + 1) == Buffers(blocks, start, i) + (if b == Empty then [] else [b.data])
      && Count(blocks, start, i + 1) == Count(blocks, start, i) + if b == Empty then 0 else 1
  {
  }

  /** The length of the longest run of cached blocks. */
  method ContiguousBlocks(blocks: seq<Block>) returns (ret: nat)
    ensures ret == Longest(blocks, |blocks|)
  {
    ret := 0;
    var current := 0;
    for i := 0 to |blocks|
      invariant current == Trailing(blocks, i) && Longest(blocks, i) == if current > ret then current else ret
    {
      if blocks[i].Cached? {
        current := current + 1;
      } else {
        if current > ret {
          ret := current;
        }
        current := 0;
      }
    }
    if current > ret {
      ret := current;
    }
  }

  /** The first of the longest runs: none as long ends before it does. */
  method FindRun(blocks: seq<Block>) returns (pos: nat, len: nat)
    ensures len == Longest(blocks, |blocks|) && pos + len <= |blocks| && AllCached(blocks, pos, pos + len)
    ensures len > 0 ==> Longest(blocks, pos + len - 1) < len
  {
    hide AllCached, Longest, Trailing;
    len, pos := 0, 0;
    var current, start := 0, 0;
    NoRunYet(blocks);
    for i := 0 to |blocks|
      invariant current == Trailing(blocks, i) && start == i - current
      invariant Longest(blocks, i) == if current > len then current else len
      invariant current > 0 ==> Longest(blocks, i - 1) == if current - 1 > len then current - 1 else len
      invariant pos + len <= i
        && (len > 0 ==> AllCached(blocks, pos, pos + len) && Longest(blocks, pos + len - 1) < len)
    {
      RunGoesOn(blocks, i);
      if blocks[i].Cached? {
        current := current + 1;
      } else {
        if current > len {
          len := current;
          pos := start;
        }
        current := 0;
        start := i + 1;
      }
    }
    if current > len {
      len := current;
      pos := start;
    }
    NoRun(blocks, pos);
  }

  lemma NoRunYet(blocks: seq<Block>)
    ensures Trailing(blocks, 0) == 0 && Longest(blocks, 0) == 0
  {
  }

  lemma RunGoesOn(blocks: seq<Block>, i: nat)
    requires i < |blocks|
    ensures Trailing(blocks, i + 1) == if blocks[i].Cached? then Trailing(blocks, i) + 1 else 0
    ensures Longest(blocks, i + 1) == Max(Longest(blocks, i), Trailing(blocks, i + 1))
  {
  }

  lemma NoRun(blocks: seq<Block>, pos: nat)
    requires pos <= |blocks|
    ensures AllCached(blocks, pos, pos)
  {
  }

  // ---------------------------------------------------------------------------------------
  // The cache
  // ---------------------------------------------------------------------------------------

  datatype Entry = Entry(piece: int, p: Piece)

  type Disk = map<int, seq<byte>>

  /** What is counted of a piece is what there is. */
  predicate EntryOk(e: Entry, disk: Disk) {
    && e.piece in disk && PieceOk(e.p.blocks, |disk[e.piece]|)
    && e.p.numBlocks == Count(e.p.blocks, 0, |e.p.blocks|)
    && e.p.numContiguous == Longest(e.p.blocks, |e.p.blocks|)
  }

  predicate EntriesOk(pieces: seq<Entry>, disk: Disk) {
    && (forall k :: 0 <= k < |pieces| ==> EntryOk(pieces[k], disk))
    && forall j, k :: 0 <= j < k < |pieces| ==> pieces[j].piece != pieces[k].piece
  }

  /** The number of blocks in the cache. */
  function Total(pieces: seq<Entry>): nat {
    if pieces == [] then 0
    else
      var blocks := pieces[|pieces| - 1].p.blocks;
      Total(pieces[..|pieces| - 1]) + Count(blocks, 0, |blocks|)
  }

  /** The entry of a piece, or the number of entries. */
  function Find(pieces: seq<Entry>, piece: int): (k: nat)
    ensures k <= |pieces| && (k < |pieces| ==> pieces[k].piece == piece)
    ensures k == |pieces| ==> forall j :: 0 <= j < |pieces| ==> pieces[j].piece != piece
  {
    if pieces == [] then 0
    else
      var rest := pieces[..|pieces| - 1];
      var k := Find(rest, piece);
      assert forall j :: 0 <= j < |rest| ==> rest[j] == pieces[j];
      if k < |rest| then k else if pieces[|rest|].piece == piece then |rest| else |pieces|
  }

  /** What a piece holds, seen through the cache. */
  function Content(pieces: seq<Entry>, disk: Disk, piece: int): seq<byte>
    requires EntriesOk(pieces, disk) && piece in disk
  {
    var k := Find(pieces, piece);
    if k < |pieces| then
      assert EntryOk(pieces[k], disk);
      View(disk[piece], pieces[k].p.blocks)
    else disk[piece]
  }

  /** A piece after the blocks from `a` to `b` were flushed. */
  function Flushed(p: Piece, a: nat, b: nat): Piece
    requires a <= b <= |p.blocks|
  {
    var blocks := Emptied(p.blocks, a, b);
    Piece(blocks, p.numBlocks - Count(p.blocks, a, b), Longest(blocks, |blocks|),
      NextToHash(p.blocks, a, b, p.nextBlockToHash))
  }

  lemma {:induction false} TotalUpdate(pieces: seq<Entry>, k: nat, e: Entry)
    requires k < |pieces|
    ensures Total(pieces[k := e]) ==
      Total(pieces) - Count(pieces[k].p.blocks, 0, |pieces[k].p.blocks|) + Count(e.p.blocks, 0, |e.p.blocks|)
    decreases |pieces|
  {
    var n := |pieces| - 1;
    if k < n {
      assert pieces[k := e][..n] == pieces[..n][k := e];
      TotalUpdate(pieces[..n], k, e);
    } else {
      assert pieces[k := e][..n] == pieces[..n];
    }
  }

  lemma FlushedOk(e: Entry, disk: Disk, a: nat, b: nat)
    requires EntryOk(e, disk) && a <= b <= |e.p.blocks|
    ensures
      var d := WriteEach(disk[e.piece], e.p.blocks, a, b);
      var e' := e.(p := Flushed(e.p, a, b));
      && EntryOk(e', disk[e.piece := d]) && View(d, e'.p.blocks) == View(disk[e.piece], e.p.blocks)
      && e'.p.numBlocks == e.p.numBlocks - Count(e.p.blocks, a, b)
  {
    CountEmptied(e.p.blocks, a, b);
    FlushKeepsView(disk[e.piece], e.p.blocks, a, b);
  }

  /** One entry and its piece changed, with the same content; so the content of every piece is the same. */
  lemma SameContent(pieces: seq<Entry>, disk: Disk, k: nat, e: Entry, d: seq<byte>, piece: int)
    requires EntriesOk(pieces, disk) && k < |pieces| && e.piece == pieces[k].piece && EntryOk(e, disk[e.piece := d])
    requires |d| == |disk[e.piece]| && View(d, e.p.blocks) == View(disk[e.piece], pieces[k].p.blocks) && piece in disk
    ensures EntriesOk(pieces[k := e], disk[e.piece := d])
    ensures Content(pieces[k := e], disk[e.piece := d], piece) == Content(pieces, disk, piece)
  {
    hide View, PieceOk, Count, Longest;
    var pieces', disk' := pieces[k := e], disk[e.piece := d];
    assert forall j :: 0 <= j < |pieces| && j != k ==> EntryOk(pieces'[j], disk');
    SameFind(pieces, pieces', piece);
  }

  lemma {:induction false} SameFind(x: seq<Entry>, y: seq<Entry>, piece: int)
    requires |x| == |y| && forall k :: 0 <= k < |x| ==> x[k].piece == y[k].piece
    ensures Find(x, piece) == Find(y, piece)
  {
    if x != [] {
      SameFind(x[..|x| - 1], y[..|y| - 1], piece);
    }
  }

  /** A block to be written, and whom to call then. */
  datatype Job = Job(piece: int, offset: nat, data: seq<byte>, bufferSize: nat, callback: nat)

  /** A block is handed in at its place in a piece, in a full buffer. */
  predicate JobOk(job: Job, disk: Disk) {
    && job.piece in disk && job.offset < |disk[job.piece]| && job.offset % BLOCK == 0
    && |job.data| == BLOCK && job.bufferSize == Min(|disk[job.piece]| - job.offset, BLOCK)
  }

  lemma JobPlace(job: Job, disk: Disk)
    requires JobOk(job, disk)
    ensures job.piece in disk && |job.data| == BLOCK && job.bufferSize <= BLOCK
    ensures
      var block, size := job.offset / BLOCK, |disk[job.piece]|;
      && block * BLOCK == job.offset && job.offset + job.bufferSize <= size && BlockLen(size, block) == job.bufferSize
  {
  }

  /** The cache, the disk, the calls made and the buffers freed. */
  datatype Snap = Snap(pieces: seq<Entry>, disk: Disk, calls: seq<Call>, freed: seq<seq<byte>>)

  /** The state after a write job: put into a cached piece, the first of a piece, or written directly. */
  ghost predicate Wrote(s: Snap, t: Snap, job: Job, lineSize: int, avoidReadback: bool, pos: nat) {
    var k, block := Find(s.pieces, job.piece), job.offset / BLOCK;
    && job.piece in s.disk && job.offset + job.bufferSize <= |s.disk[job.piece]| && job.bufferSize <= |job.data|
    && block < BlocksIn(|s.disk[job.piece]|)
    && if k < |s.pieces| then
         block < |s.pieces[k].p.blocks| && PutAndFlushed(s, t, job, k, lineSize, avoidReadback, pos)
       else if BlocksIn(|s.disk[job.piece]|) > 1 then
         t == s.(pieces := s.pieces + [FirstEntry(job.piece, |s.disk[job.piece]|, block, job.data, job.callback)])
       else
         && t.pieces == s.pieces && t.freed == s.freed + [job.data]
         && t.calls == s.calls + [Call(job.callback, job.offset, job.bufferSize)]
         && t.disk == s.disk[job.piece := Overwrite(s.disk[job.piece], job.offset, job.data[..job.bufferSize])]
  }

  ghost predicate PutAndFlushed(s: Snap, t: Snap, job: Job, k: nat, lineSize: int, avoidReadback: bool, pos: nat)
    requires k < |s.pieces| && job.offset / BLOCK < |s.pieces[k].p.blocks| && job.piece in s.disk
  {
    var block, size := job.offset / BLOCK, |s.disk[job.piece]|;
    var p, was := PutIn(s.pieces[k].p, block, job.data, job.callback), s.pieces[k].p.blocks[block];
    var n := FlushLength(p, lineSize, avoidReadback);
    && FlushAt(p, pos, n, avoidReadback) && PieceOk(p.blocks, size)
    && t.calls == s.calls + CallsFor(p.blocks, size, pos, pos + n) + CallOf(was, job.offset, job.bufferSize)
    && t.freed == s.freed + BufferOf(was) + Buffers(p.blocks, pos, pos + n)
    && var q := AfterFlush(p, pos, n);
    && t.pieces == if q.numBlocks == 0 && q.nextBlockToHash == 0 then s.pieces[..k] + s.pieces[k + 1..]
                   else s.pieces[k := Entry(job.piece, q)]
  }

  /** Writes the cached blocks of a piece from `a` to `b`, calls back for them and empties them. */
  method FlushPiece(p: Piece, was: seq<byte>, a: nat, b: nat, coalesce: bool)
    returns (q: Piece, disk: seq<byte>, writes: nat, calls: seq<Call>, buffers: seq<seq<byte>>, n: nat)
    requires PieceOk(p.blocks, |was|) && a <= b <= |p.blocks| && p.numContiguous == Longest(p.blocks, |p.blocks|)
    ensures q == Flushed(p, a, b) && disk == WriteEach(was, p.blocks, a, b) && writes == Runs(p.blocks, a, b)
    ensures calls == CallsFor(p.blocks, |was|, a, b) && buffers == Buffers(p.blocks, a, b)
    ensures n == Count(p.blocks, a, b)
  {
    hide WriteEach, Count, Longest, Runs, NextToHash, CallsFor, Buffers, Emptied;
    var written;
    q, disk, writes, written := WriteRuns(p, was, a, b, coalesce);
    q, calls, buffers, n := CallBack(q, |was|, a, b);
    if n > 0 {
      var l := ContiguousBlocks(q.blocks);
      q := q.(numContiguous := l);
    } else {
      NothingFlushed(p, a, b);
    }
  }

  class WriteCache {
    const coalesceWrites: bool
    var pieces: seq<Entry>
    var disk: Disk
    var cacheSize: int
    var blocksWritten: nat
    var writes: nat
    var calls: seq<Call>
    var freed: seq<seq<byte>>

    ghost predicate Valid()
      reads this
    {
      EntriesOk(pieces, disk) && cacheSize == Total(pieces)
    }

    ghost function Snapshot(): Snap
      reads this
    {
      Snap(pieces, disk, calls, freed)
    }

    /** Flushes the cached blocks of a range. */
    method FlushRange(k: nat, start: nat, end: nat) returns (n: nat)
      requires Valid() && k < |pieces| && start < end
      modifies this
      ensures Valid()
      ensures
        var e := old(pieces[k]);
        var a, b := Min(start, |e.p.blocks|), Min(end, |e.p.blocks|);
        && pieces == old(pieces)[k := e.(p := Flushed(e.p, a, b))]
        && disk == old(disk)[e.piece := WriteEach(old(disk)[e.piece], e.p.blocks, a, b)]
        && calls == old(calls) + CallsFor(e.p.blocks, |old(disk)[e.piece]|, a, b)
        && freed == old(freed) + Buffers(e.p.blocks, a, b)
        && n == Count(e.p.blocks, a, b) && blocksWritten == old(blocksWritten) + n && cacheSize == old(cacheSize) - n
        && writes == old(writes) + Runs(e.p.blocks, a, b)
      ensures disk.Keys == old(disk).Keys
      ensures forall x :: x in disk ==> Content(pieces, disk, x) == old(Content(pieces, disk, x))
    {
      hide WriteEach, Count, Longest, Runs, NextToHash, CallsFor, Buffers, Emptied, View, Total, Find, Content;
      var e := pieces[k];
      assert EntryOk(e, disk);
      var piece, was := e.piece, disk[e.piece];
      var a, b := Min(start, |e.p.blocks|), Min(end, |e.p.blocks|);
      var q, d, w, cs, bs, m := FlushPiece(e.p, was, a, b, coalesceWrites);
      FlushedOk(e, disk, a, b);
      TotalUpdate(pieces, k, e.(p := q));
      forall x | x in disk
        ensures Content(pieces[k := e.(p := q)], disk[piece := d], x) == Content(pieces, disk, x)
        ensures EntriesOk(pieces[k := e.(p := q)], disk[piece := d])
      {
        SameContent(pieces, disk, k, e.(p := q), d, x);
      }
      assert disk[piece := d].Keys == disk.Keys;
      pieces := pieces[k := e.(p := q)];
      disk := disk[piece := d];
      writes, blocksWritten, cacheSize := writes + w, blocksWritten + m, cacheSize - m;
      calls, freed := calls + cs, freed + bs;
      n := m;
    }

    /**
      Flushes the longest run of cached blocks, or the one that is next to be hashed, if it is long
      enough.
     */
    method FlushContiguousBlocks(k: nat, lowerLimit: int, avoidReadback: bool) returns (n: nat, ghost pos: nat)
      requires Valid() && k < |pieces|
      modifies this
      ensures Valid() && disk.Keys == old(disk).Keys
      ensures forall x :: x in disk ==> Content(pieces, disk, x) == old(Content(pieces, disk, x))
      ensures
        var e := old(pieces[k]);
        && n == FlushLength(e.p, lowerLimit, avoidReadback) && FlushAt(e.p, pos, n, avoidReadback)
        && pieces == old(pieces)[k := e.(p := AfterFlush(e.p, pos, n))]
        && calls == old(calls) + CallsFor(e.p.blocks, |old(disk)[e.piece]|, pos, pos + n)
        && freed == old(freed) + Buffers(e.p.blocks, pos, pos + n)
        && cacheSize == old(cacheSize) - n && blocksWritten == old(blocksWritten) + n
        && writes == old(writes) + if n > 0 then 1 else 0
    {
      hide WriteEach, Count, Longest, Runs, NextToHash, CallsFor, Buffers, Emptied, View, Total, Find, Content,
        AllCached;
      var e := pieces[k];
      assert EntryOk(e, disk);
      ghost var was := pieces;
      var at, len := 0, 0;
      if avoidReadback {
        at := e.p.nextBlockToHash;
        len := RunAt(e.p.blocks, at);
      } else {
        at, len := FindRun(e.p.blocks);
      }
      NothingToFlush(e, disk);
      if len < lowerLimit || len <= 0 {
        assert was == was[k := e];
        return 0, 0;
      }
      pos := at;
      CountAll(e.p.blocks, at, at + len);
      OneRun(e.p.blocks, at, at + len);
      n := FlushRange(k, at, at + len);
    }

    /** Starts to cache a piece with one block; a piece of one block is not worth it. */
    method CacheBlock(piece: int, block: nat, data: seq<byte>, callback: nat) returns (ok: bool)
      requires Valid() && Find(pieces, piece) == |pieces| && piece in disk && block < BlocksIn(|disk[piece]|)
        && |data| == BLOCK
      modifies `pieces, `cacheSize
      ensures ok <==> BlocksIn(|disk[piece]|) > 1
      ensures !ok ==> pieces == old(pieces) && cacheSize == old(cacheSize)
      ensures ok ==>
        && Valid() && cacheSize == old(cacheSize) + 1
        && pieces == old(pieces) + [FirstEntry(piece, |disk[piece]|, block, data, callback)]
        && Content(pieces, disk, piece) == Overwrite(disk[piece], block * BLOCK, data[..BlockLen(|disk[piece]|, block)])
        && forall x :: x in disk && x != piece ==> Content(pieces, disk, x) == old(Content(pieces, disk, x))
    {
      hide Find, Content, View, Overwrite, Total;
      var size := |disk[piece]|;
      var n := BlocksIn(size);
      if n <= 1 {
        return false;
      }
      var none := NoBlocks(n);
      var blocks := none[block := Cached(data, callback)];
      var e := Entry(piece, Piece(blocks, 1, 1, 0));
      FirstBlock(disk, piece, none, block, data, callback);
      ContentAppend(pieces, disk, e);
      pieces := pieces + [e];
      cacheSize := cacheSize + 1;
      ok := true;
    }

    /**
      Puts a block into a cached piece, and returns what was in its place. The longest run is looked
      for again only when it may have changed.
     */
    method PutBlock(k: nat, block: nat, data: seq<byte>, callback: nat) returns (was: Block)
      requires Valid() && k < |pieces| && block < |pieces[k].p.blocks| && |data| == BLOCK
      modifies `pieces, `cacheSize, `freed
      ensures
        var e := old(pieces[k]);
        && Valid() && pieces == old(pieces)[k := e.(p := PutIn(e.p, block, data, callback))]
        && was == e.p.blocks[block] && freed == old(freed) + BufferOf(was)
      ensures
        var piece := pieces[k].piece;
        Content(pieces, disk, piece) ==
          Overwrite(old(Content(pieces, disk, piece)), block * BLOCK, data[..BlockLen(|disk[piece]|, block)])
      ensures forall x :: x in disk && x != pieces[k].piece ==>
        Content(pieces, disk, x) == old(Content(pieces, disk, x))
    {
      hide Find, Content, View, Overwrite, Total, Count, Longest;
      var e := pieces[k];
      assert EntryOk(e, disk);
      var p := e.p;
      was := p.blocks[block];
      var n := |p.blocks|;
      var recalc := false;
      if p.blocks[block].Cached? {
        freed := freed + [p.blocks[block].data];
        cacheSize := cacheSize - 1;
        p := p.(numBlocks := p.numBlocks - 1);
      } else if (block > 0 && p.blocks[block - 1].Cached?) || (block < n - 1 && p.blocks[block + 1].Cached?)
        || p.numBlocks == 0 {
        recalc := true;
      }
      p := p.(blocks := p.blocks[block := Cached(data, callback)]);
      cacheSize := cacheSize + 1;
      p := p.(numBlocks := p.numBlocks + 1);
      if recalc {
        var l := ContiguousBlocks(p.blocks);
        p := p.(numContiguous := l);
      }
      BlockPut(e, disk, block, Cached(data, callback), p);
      ContentUpdate(pieces, disk, k, e.(p := p));
      pieces := pieces[k := e.(p := p)];
    }

    /** Forgets a piece of which no block is cached. */
    method Erase(k: nat)
      requires Valid() && k < |pieces| && pieces[k].p.numBlocks == 0
      modifies `pieces
      ensures Valid() && pieces == old(pieces)[..k] + old(pieces)[k + 1..]
      ensures forall x :: x in disk ==> Content(pieces, disk, x) == old(Content(pieces, disk, x))
    {
      ContentErase(pieces, disk, k);
      pieces := pieces[..k] + pieces[k + 1..];
    }

    /**
      Takes a block to be written: into the cache, or to disk when caching it is not worth it. In
      either case the piece then holds the block, and everything else is as it was. At the end the
      job is called back for with the handler it then has: its own if the block went to disk, that
      of the block it replaced, or none; its buffer is freed unless it is in the cache.
     */
    method Write(job: Job, lineSize: int, avoidReadback: bool) returns (ghost pos: nat)
      requires Valid() && JobOk(job, disk)
      modifies this
      ensures Valid() && disk.Keys == old(disk).Keys
      ensures |old(Content(pieces, disk, job.piece))| >= job.offset + job.bufferSize
      ensures Content(pieces, disk, job.piece) ==
        Overwrite(old(Content(pieces, disk, job.piece)), job.offset, job.data[..job.bufferSize])
      ensures forall x :: x in disk && x != job.piece ==> Content(pieces, disk, x) == old(Content(pieces, disk, x))
      ensures Wrote(old(Snapshot()), Snapshot(), job, lineSize, avoidReadback, pos)
    {
      hide Find, Content, View, Overwrite, Total, PutAndFlushed, FirstEntry;
      pos := 0;
      var piece, block, offset, bufferSize := job.piece, job.offset / BLOCK, job.offset, job.bufferSize;
      var k := Find(pieces, piece);
      ContentLength(pieces, disk, piece);
      if k < |pieces| {
        assert EntryOk(pieces[k], disk);
        pos := PutAndFlush(k, job, lineSize, avoidReadback);
      } else {
        var ok := CacheBlock(piece, block, job.data, job.callback);
        if !ok {
          var written := Overwrite(disk[piece], offset, job.data[..bufferSize]);
          DirectWrite(pieces, disk, piece, written);
          disk := disk[piece := written];
          calls, freed := calls + [Call(job.callback, offset, bufferSize)], freed + [job.data];
        }
      }
    }

    /** Flushes a run of a piece, and takes the piece out of the cache when nothing is left of it. */
    method FlushAndErase(k: nat, lineSize: int, avoidReadback: bool) returns (ghost pos: nat)
      requires Valid() && k < |pieces|
      modifies this
      ensures Valid() && disk.Keys == old(disk).Keys
      ensures forall x :: x in disk ==> Content(pieces, disk, x) == old(Content(pieces, disk, x))
      ensures
        var e := old(pieces[k]);
        var n := FlushLength(e.p, lineSize, avoidReadback);
        && FlushAt(e.p, pos, n, avoidReadback)
        && calls == old(calls) + CallsFor(e.p.blocks, |old(disk)[e.piece]|, pos, pos + n)
        && freed == old(freed) + Buffers(e.p.blocks, pos, pos + n)
        && var q := AfterFlush(e.p, pos, n);
        && pieces == if q.numBlocks == 0 && q.nextBlockToHash == 0 then old(pieces)[..k] + old(pieces)[k + 1..]
                     else old(pieces)[k := e.(p := q)]
    {
      hide Find, Content, View, Total, Count, Longest, Flushed, AllCached, FlushLength, FlushAt, CallsFor, Buffers;
      var n;
      n, pos := FlushContiguousBlocks(k, lineSize, avoidReadback);
      if pieces[k].p.numBlocks == 0 && pieces[k].p.nextBlockToHash == 0 {
        Erase(k);
      }
    }

    /** Puts a block into a cached piece, flushes a run that is long enough, and forgets the piece if it is done. */
    method PutAndFlush(k: nat, job: Job, lineSize: int, avoidReadback: bool) returns (ghost pos: nat)
      requires Valid() && JobOk(job, disk) && k < |pieces| && pieces[k].piece == job.piece
      requires job.offset / BLOCK < |pieces[k].p.blocks|
      modifies this
      ensures Valid() && disk.Keys == old(disk).Keys
      ensures |old(Content(pieces, disk, job.piece))| >= job.offset + job.bufferSize
      ensures Content(pieces, disk, job.piece) ==
        Overwrite(old(Content(pieces, disk, job.piece)), job.offset, job.data[..job.bufferSize])
      ensures forall x :: x in disk && x != job.piece ==> Content(pieces, disk, x) == old(Content(pieces, disk, x))
      ensures PutAndFlushed(old(Snapshot()), Snapshot(), job, k, lineSize, avoidReadback, pos)
    {
      hide Find, Content, Overwrite, Total, Count, Longest, PieceOk, PutIn, AfterFlush, FlushAt, FlushLength, CallsFor,
        Buffers, CallOf, BufferOf, JobOk, BlockLen;
      ContentLength(pieces, disk, job.piece);
      JobPlace(job, disk);
      var was := PutBlock(k, job.offset / BLOCK, job.data, job.callback);
      assert EntryOk(pieces[k], disk);
      pos := FlushAndErase(k, lineSize, avoidReadback);
      calls := calls + CallOf(was, job.offset, job.bufferSize);
    }
  }

  function NoBlocks(n: nat): (b: seq<Block>)
    ensures |b| == n && forall i :: 0 <= i < n ==> b[i] == Empty
  {
    seq(n, _ => Empty)
  }

  /** A piece of which one block is cached. */
  function FirstEntry(piece: int, size: nat, block: nat, data: seq<byte>, callback: nat): Entry
    requires block < BlocksIn(size)
  {
    Entry(piece, Piece(NoBlocks(BlocksIn(size))[block := Cached(data, callback)], 1, 1, 0))
  }

  /** The buffer of a block that is replaced, and the call of its handler. */
  function BufferOf(b: Block): seq<seq<byte>> {
    if b.Cached? then [b.data] else []
  }

  function CallOf(b: Block, offset: int, size: int): seq<Call> {
    if b.Cached? then [Call(b.callback, offset, size)] else []
  }

  /** The length of the run that begins at a block. */
  function RunFrom(blocks: seq<Block>, at: nat): (n: nat)
    ensures n > 0 ==> at + n <= |blocks| && AllCached(blocks, at, at + n)
    decreases |blocks| - at
  {
    if at >= |blocks| || blocks[at].Empty? then 0 else 1 + RunFrom(blocks, at + 1)
  }

  method RunAt(blocks: seq<Block>, at: nat) returns (len: nat)
    ensures len == RunFrom(blocks, at)
  {
    len := 0;
    var i := at;
    while i < |blocks|
      invariant i == at + len && RunFrom(blocks, at) == len + RunFrom(blocks, i)
      decreases |blocks| - i
    {
      if blocks[i].Empty? {
        break;
      }
      i, len := i + 1, len + 1;
    }
  }

  lemma {:induction false} CountAll(blocks: seq<Block>, a: nat, b: nat)
    requires a <= b && AllCached(blocks, a, b)
    ensures Count(blocks, a, b) == b - a
    decreases b - a
  {
    if a < b {
      CountAll(blocks, a, b - 1);
    }
  }

  lemma NothingToFlush(e: Entry, disk: Disk)
    requires EntryOk(e, disk)
    ensures AllCached(e.p.blocks, 0, 0) && CallsFor(e.p.blocks, |disk[e.piece]|, 0, 0) == []
      && Buffers(e.p.blocks, 0, 0) == []
  {
  }

  lemma OneRun(blocks: seq<Block>, a: nat, b: nat)
    requires a < b && AllCached(blocks, a, b)
    ensures Runs(blocks, a, b) == 1
  {
    RunsOfRun(blocks, a, a, b);
  }

  /** How many blocks are flushed: the longest run, or the one next to be hashed, if it is long enough. */
  function FlushLength(p: Piece, lowerLimit: int, avoidReadback: bool): nat {
    var len := if avoidReadback then RunFrom(p.blocks, p.nextBlockToHash) else Longest(p.blocks, |p.blocks|);
    if len < lowerLimit then 0 else len
  }

  /** Where they are: next to be hashed, or the first of the longest runs. */
  predicate FlushAt(p: Piece, pos: nat, n: nat, avoidReadback: bool) {
    && pos + n <= |p.blocks| && AllCached(p.blocks, pos, pos + n)
    && (n > 0 ==> if avoidReadback then pos == p.nextBlockToHash else Longest(p.blocks, pos + n - 1) < n)
  }

  function AfterFlush(p: Piece, pos: nat, n: nat): Piece
    requires pos + n <= |p.blocks|
  {
    if n == 0 then p else Flushed(p, pos, pos + n)
  }

  /** A piece with one more block in the cache, and its counts. */
  function PutIn(p: Piece, block: nat, data: seq<byte>, callback: nat): Piece
    requires block < |p.blocks|
  {
    var blocks := p.blocks[block := Cached(data, callback)];
    Piece(blocks, Count(blocks, 0, |blocks|), Longest(blocks, |blocks|), p.nextBlockToHash)
  }

  lemma FirstBlock(disk: Disk, piece: int, none: seq<Block>, block: nat, data: seq<byte>, callback: nat)
    requires piece in disk && PieceOk(none, |disk[piece]|) && block < |none| && |data| == BLOCK
    requires forall i :: 0 <= i < |none| ==> none[i] == Empty
    ensures
      var blocks := none[block := Cached(data, callback)];
      && EntryOk(Entry(piece, Piece(blocks, 1, 1, 0)), disk) && Count(blocks, 0, |blocks|) == 1
      && View(disk[piece], blocks) == Overwrite(disk[piece], block * BLOCK, data[..BlockLen(|disk[piece]|, block)])
  {
    var blocks := none[block := Cached(data, callback)];
    CountPut(none, block, Cached(data, callback));
    CountEmpty(none, 0, |none|);
    CacheChangesView(disk[piece], none, block, Cached(data, callback));
    ViewOfNothing(disk[piece], none, |none|);
    var a := LongestExists(blocks, |blocks|);
    LongestBounds(blocks, |blocks|, block, block + 1);
    CountAll(blocks, a, a + Longest(blocks, |blocks|));
    CountSplit(blocks, 0, a, |blocks|);
    CountSplit(blocks, a, a + Longest(blocks, |blocks|), |blocks|);
  }

  lemma BlockPut(e: Entry, disk: Disk, i: nat, block: Block, p: Piece)
    requires EntryOk(e, disk) && i < |e.p.blocks| && block.Cached? && BlockOk(block)
    requires p.blocks == e.p.blocks[i := block] && p.numBlocks == e.p.numBlocks + if e.p.blocks[i].Cached? then 0 else 1
    requires p.numContiguous == Longest(p.blocks, |p.blocks|) || (p.numContiguous == e.p.numContiguous &&
      (e.p.blocks[i].Cached? ||
       (e.p.numBlocks != 0 && (i > 0 ==> e.p.blocks[i - 1].Empty?)
         && (i + 1 < |e.p.blocks| ==> e.p.blocks[i + 1].Empty?))))
    ensures EntryOk(e.(p := p), disk)
    ensures View(disk[e.piece], p.blocks) ==
      Overwrite(View(disk[e.piece], e.p.blocks), i * BLOCK, block.data[..BlockLen(|disk[e.piece]|, i)])
  {
    hide Count, Longest, View, Overwrite;
    CountPut(e.p.blocks, i, block);
    CacheChangesView(disk[e.piece], e.p.blocks, i, block);
    if e.p.blocks[i].Cached? {
      LongestSame(p.blocks, e.p.blocks);
    } else if p.numContiguous != Longest(p.blocks, |p.blocks|) {
      LonelyBlock(e.p.blocks, i, block);
    }
  }

  lemma ContentLength(pieces: seq<Entry>, disk: Disk, piece: int)
    requires EntriesOk(pieces, disk) && piece in disk
    ensures |Content(pieces, disk, piece)| == |disk[piece]|
    ensures Find(pieces, piece) == |pieces| ==> Content(pieces, disk, piece) == disk[piece]
  {
  }

  /** An entry for the same piece changes the content of that piece only. */
  lemma ContentUpdate(pieces: seq<Entry>, disk: Disk, k: nat, e: Entry)
    requires EntriesOk(pieces, disk) && k < |pieces| && e.piece == pieces[k].piece && EntryOk(e, disk)
    ensures EntriesOk(pieces[k := e], disk)
    ensures Total(pieces[k := e]) == Total(pieces) - pieces[k].p.numBlocks + e.p.numBlocks
    ensures Content(pieces[k := e], disk, e.piece) == View(disk[e.piece], e.p.blocks)
    ensures Content(pieces, disk, e.piece) == View(disk[e.piece], pieces[k].p.blocks)
    ensures forall x :: x in disk && x != e.piece ==> Content(pieces[k := e], disk, x) == Content(pieces, disk, x)
  {
    hide View, PieceOk, Count, Longest, Total, Find;
    var pieces' := pieces[k := e];
    assert EntryOk(pieces[k], disk);
    assert forall j :: 0 <= j < |pieces| && j != k ==> EntryOk(pieces'[j], disk);
    TotalUpdate(pieces, k, e);
    forall x | x in disk
      ensures Find(pieces', x) == Find(pieces, x)
    {
      SameFind(pieces, pieces', x);
    }
  }

  lemma {:induction false} TotalRemove(pieces: seq<Entry>, k: nat)
    requires k < |pieces| && Count(pieces[k].p.blocks, 0, |pieces[k].p.blocks|) == 0
    ensures Total(pieces[..k] + pieces[k + 1..]) == Total(pieces)
    decreases |pieces|
  {
    var n := |pieces| - 1;
    var less := pieces[..k] + pieces[k + 1..];
    if k < n {
      var rest := pieces[..n];
      assert less[..n - 1] == rest[..k] + rest[k + 1..];
      TotalRemove(rest, k);
    } else {
      assert less == pieces[..n];
    }
  }

  /** An entry without cached blocks can go. */
  lemma ContentErase(pieces: seq<Entry>, disk: Disk, k: nat)
    requires EntriesOk(pieces, disk) && k < |pieces| && pieces[k].p.numBlocks == 0
    ensures
      var less := pieces[..k] + pieces[k + 1..];
      && EntriesOk(less, disk) && Total(less) == Total(pieces)
      && forall x :: x in disk ==> Content(less, disk, x) == Content(pieces, disk, x)
  {
    hide View, PieceOk, Count, Longest, Total, Find;
    var less := pieces[..k] + pieces[k + 1..];
    var e := pieces[k];
    assert EntryOk(e, disk);
    TotalRemove(pieces, k);
    CountEmpty(e.p.blocks, 0, |e.p.blocks|);
    NothingSeen(disk[e.piece], e.p.blocks);
    assert forall j :: 0 <= j < |less| ==> less[j] == pieces[if j < k then j else j + 1];
    forall x | x in disk
      ensures Content(less, disk, x) == Content(pieces, disk, x)
    {
      var i, j := Find(pieces, x), Find(less, x);
      if i < |pieces| && i != k {
        assert less[if i < k then i else i - 1] == pieces[i];
      }
    }
  }

  lemma NothingSeen(disk: seq<byte>, blocks: seq<Block>)
    requires PieceOk(blocks, |disk|) && forall i :: 0 <= i < |blocks| ==> blocks[i].Empty?
    ensures View(disk, blocks) == disk
  {
    ViewOfNothing(disk, blocks, |blocks|);
  }

  lemma DirectWrite(pieces: seq<Entry>, disk: Disk, piece: int, d: seq<byte>)
    requires EntriesOk(pieces, disk) && piece in disk && Find(pieces, piece) == |pieces| && |d| == |disk[piece]|
    ensures EntriesOk(pieces, disk[piece := d]) && Content(pieces, disk[piece := d], piece) == d
    ensures forall x :: x in disk && x != piece ==> Content(pieces, disk[piece := d], x) == Content(pieces, disk, x)
  {
    hide View, PieceOk, Count, Longest;
    assert forall k :: 0 <= k < |pieces| ==> EntryOk(pieces[k], disk) && EntryOk(pieces[k], disk[piece := d]);
  }

  /** A new entry changes the content of its own piece only. */
  lemma ContentAppend(pieces: seq<Entry>, disk: Disk, e: Entry)
    requires EntriesOk(pieces, disk) && EntryOk(e, disk) && Find(pieces, e.piece) == |pieces|
    ensures EntriesOk(pieces + [e], disk) && Total(pieces + [e]) == Total(pieces) + Count(e.p.blocks, 0, |e.p.blocks|)
    ensures Content(pieces + [e], disk, e.piece) == View(disk[e.piece], e.p.blocks)
    ensures forall x :: x in disk && x != e.piece ==> Content(pieces + [e], disk, x) == Content(pieces, disk, x)
  {
    hide View, PieceOk, Count, Longest, Find, Total;
    TotalAppend(pieces, e);
    forall x | x in disk
      ensures Find(pieces + [e], x) ==
        if Find(pieces, x) < |pieces| then Find(pieces, x) else if x == e.piece then |pieces| else |pieces| + 1
    {
      FindAppend(pieces, e, x);
    }
    assert forall k :: 0 <= k < |pieces| ==> (pieces + [e])[k] == pieces[k];
  }

  lemma FindAppend(pieces: seq<Entry>, e: Entry, x: int)
    ensures Find(pieces + [e], x) ==
      if Find(pieces, x) < |pieces| then Find(pieces, x) else if x == e.piece then |pieces| else |pieces| + 1
  {
    assert (pieces + [e])[..|pieces|] == pieces;
  }

  lemma TotalAppend(pieces: seq<Entry>, e: Entry)
    ensures Total(pieces + [e]) == Total(pieces) + Count(e.p.blocks, 0, |e.p.blocks|)
  {
    assert (pieces + [e])[..|pieces|] == pieces;
  }

  lemma NothingFlushed(p: Piece, a: nat, b: nat)
    requires a <= b <= |p.blocks| && Count(p.blocks, a, b) == 0
    ensures Emptied(p.blocks, a, b) == p.blocks
  {
    CountEmpty(p.blocks, a, b);
  }
}
