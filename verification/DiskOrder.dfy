/**
  Which blocks a write leaves in the cache: no run that is long enough to be flushed; and which
  block of a piece is next to be hashed, which is never forgotten.
 */
module DiskOrder {
  import opened Basics
  import opened DiskBlocks
  import opened DiskCache

  // ---------------------------------------------------------------------------------------
  // Runs
  // ---------------------------------------------------------------------------------------

  /** A run from a block on ends at a block that is not cached, or at the end. */
  lemma {:induction false} RunFromIs(blocks: seq<Block>, at: nat, n: nat)
    requires at <= |blocks|
    ensures RunFrom(blocks, at) == n <==>
      at + n <= |blocks| && AllCached(blocks, at, at + n) && (at + n < |blocks| ==> blocks[at + n].Empty?)
    decreases |blocks| - at
  {
    if at < |blocks| && blocks[at].Cached? {
      if n > 0 {
        RunFromIs(blocks, at + 1, n - 1);
      }
    }
  }

  /** The runs on both sides of a gap are counted separately. */
  lemma {:induction false} RunsApart(blocks: seq<Block>, a: nat, m: nat, b: nat)
    requires a <= m < b <= |blocks| && blocks[m].Empty?
    ensures Runs(blocks, a, b) == Runs(blocks, a, m) + Runs(blocks, m + 1, b)
    decreases b - m
  {
    if m + 1 < b {
      RunsApart(blocks, a, m, b - 1);
    }
  }

  /** Flushing from before the next block to be hashed moves it past the cached blocks that follow, within the range. */
  lemma {:induction false} NextToHashIs(blocks: seq<Block>, a: nat, b: nat, next: nat)
    requires a <= b <= |blocks|
    ensures NextToHash(blocks, a, b, next) ==
      if a <= next < b then next + Min(RunFrom(blocks, next), b - next) else next
    decreases b - a
  {
    hide RunFrom;
    if a < b {
      NextToHashIs(blocks, a, b - 1, next);
      if a <= next < b {
        var n := RunFrom(blocks, next);
        RunFromIs(blocks, next, n);
      }
    }
  }

  // ---------------------------------------------------------------------------------------
  // No run that is long enough stays
  // ---------------------------------------------------------------------------------------

  /** No run of `lineSize` cached blocks. */
  predicate Short(blocks: seq<Block>, lineSize: int) {
    Longest(blocks, |blocks|) < lineSize
  }

  predicate AllShort(pieces: seq<Entry>, lineSize: int) {
    forall k :: 0 <= k < |pieces| ==> Short(pieces[k].p.blocks, lineSize)
  }

  /** Flushing leaves no longer run than there was. */
  lemma EmptiedShorter(blocks: seq<Block>, a: nat, b: nat)
    requires a <= b <= |blocks|
    ensures Longest(Emptied(blocks, a, b), |blocks|) <= Longest(blocks, |blocks|)
  {
    var less := Emptied(blocks, a, b);
    var i := LongestExists(less, |less|);
    LongestBounds(blocks, |blocks|, i, i + Longest(less, |less|));
  }

  /** If one block made a run long enough, flushing a longest run leaves none that is. */
  lemma OneLongRun(was: seq<Block>, i: nat, b: Block, pos: nat, lineSize: int)
    requires i < |was| && b.Cached? && Short(was, lineSize)
    requires
      var blocks := was[i := b];
      var n := Longest(blocks, |blocks|);
      n >= lineSize && pos + n <= |blocks| && AllCached(blocks, pos, pos + n)
    ensures
      var blocks := was[i := b];
      var n := Longest(blocks, |blocks|);
      Short(Emptied(blocks, pos, pos + n), lineSize)
  {
    hide Longest;
    var blocks := was[i := b];
    var n := Longest(blocks, |blocks|);
    var less := Emptied(blocks, pos, pos + n);
    var m := Longest(less, |less|);
    assert pos <= i < pos + n by {
      if !(pos <= i < pos + n) {
        assert forall j :: pos <= j < pos + n ==> was[j] == blocks[j] && blocks[j].Cached?;
        LongestBounds(was, |was|, pos, pos + n);
      }
    }
    var a := LongestExists(less, |less|);
    assert forall j :: a <= j < a + m ==> less[j].Cached? && was[j] == less[j];
    LongestBounds(was, |was|, a, a + m);
  }

  /** A write leaves no run that is long enough, if there was none and a run is more than one block. */
  lemma WroteShort(s: Snap, t: Snap, job: Job, lineSize: int, pos: nat)
    requires AllShort(s.pieces, lineSize) && lineSize >= 2 && Wrote(s, t, job, lineSize, false, pos)
    ensures AllShort(t.pieces, lineSize)
  {
    hide Longest, Find, PutAndFlushed, Short;
    var k, block := Find(s.pieces, job.piece), job.offset / BLOCK;
    if k < |s.pieces| {
      PutShort(s, t, job, k, lineSize, pos);
    } else if BlocksIn(|s.disk[job.piece]|) > 1 {
      FirstShort(BlocksIn(|s.disk[job.piece]|), block, Cached(job.data, job.callback), lineSize);
    }
  }

  lemma PutShort(s: Snap, t: Snap, job: Job, k: nat, lineSize: int, pos: nat)
    requires k < |s.pieces| && job.offset / BLOCK < |s.pieces[k].p.blocks| && job.piece in s.disk
    requires AllShort(s.pieces, lineSize) && PutAndFlushed(s, t, job, k, lineSize, false, pos)
    ensures AllShort(t.pieces, lineSize)
  {
    hide Longest, CallsFor, Buffers, PieceOk, AllCached, Short, Count, NextToHash, Emptied;
    var was, b, block := s.pieces[k].p.blocks, Cached(job.data, job.callback), job.offset / BLOCK;
    var p := PutIn(s.pieces[k].p, block, job.data, job.callback);
    assert Short(was, lineSize);
    if Longest(p.blocks, |p.blocks|) >= lineSize {
      assert Longest(p.blocks, |p.blocks|) > 0 by { LongerThan(was, lineSize); }
      OneLongRun(was, block, b, pos, lineSize);
    } else {
      assert Short(p.blocks, lineSize) by { IsShort(p.blocks, lineSize); }
    }
  }

  lemma LongerThan(blocks: seq<Block>, lineSize: int)
    requires Short(blocks, lineSize)
    ensures lineSize > 0
  {
  }

  lemma IsShort(blocks: seq<Block>, lineSize: int)
    requires Longest(blocks, |blocks|) < lineSize
    ensures Short(blocks, lineSize)
  {
  }

  lemma FirstShort(n: nat, block: nat, b: Block, lineSize: int)
    requires block < n && b.Cached? && lineSize >= 2
    ensures Short(NoBlocks(n)[block := b], lineSize)
  {
    hide Longest;
    var blocks := NoBlocks(n)[block := b];
    var a := LongestExists(blocks, n);
    LongestBounds(blocks, n, block, block + 1);
    var last := a + Longest(blocks, n) - 1;
    assert blocks[a].Cached? && blocks[last].Cached?;
  }

  /** `n` cached blocks from `a` on. */
  predicate RunOf(blocks: seq<Block>, a: nat, n: nat) {
    a + n <= |blocks| && AllCached(blocks, a, a + n)
  }

  /** Something is flushed exactly if there is a run that is long enough, anywhere or where hashing goes on. */
  lemma FlushIff(p: Piece, lineSize: int)
    requires p.nextBlockToHash <= |p.blocks|
    ensures
      var n := Max(lineSize, 1);
      && (FlushLength(p, lineSize, false) > 0 <==> exists a: nat :: RunOf(p.blocks, a, n))
      && (FlushLength(p, lineSize, true) > 0 <==> RunOf(p.blocks, p.nextBlockToHash, n))
  {
    hide Longest, RunFrom;
    var n, len := Max(lineSize, 1), Longest(p.blocks, |p.blocks|);
    var a := LongestExists(p.blocks, |p.blocks|);
    assert len >= n ==> RunOf(p.blocks, a, n);
    forall i: nat | RunOf(p.blocks, i, n)
      ensures n <= len
    {
      LongestBounds(p.blocks, |p.blocks|, i, i + n);
    }
    RunFromIs(p.blocks, p.nextBlockToHash, RunFrom(p.blocks, p.nextBlockToHash));
  }

  /** Where hashing goes on there are fewer than `lineSize` cached blocks. */
  predicate Ready(p: Piece, lineSize: int) {
    RunFrom(p.blocks, p.nextBlockToHash) < lineSize
  }

  predicate AllReady(pieces: seq<Entry>, lineSize: int) {
    forall k :: 0 <= k < |pieces| ==> Ready(pieces[k].p, lineSize)
  }

  /** What is flushed is no longer in the way; the run where hashing goes on does not become longer. */
  lemma FlushedReady(p: Piece, a: nat, b: nat)
    requires a <= b <= |p.blocks|
    ensures
      var q := Flushed(p, a, b);
      && RunFrom(q.blocks, q.nextBlockToHash) <= RunFrom(p.blocks, p.nextBlockToHash)
      && (a == p.nextBlockToHash && b == a + RunFrom(p.blocks, a) ==> RunFrom(q.blocks, q.nextBlockToHash) == 0)
  {
    hide RunFrom, NextToHash, Longest, Count;
    var q, next := Flushed(p, a, b), p.nextBlockToHash;
    NextToHashIs(p.blocks, a, b, next);
    if next > |p.blocks| {
      RunFromNone(p.blocks, next);
      RunFromNone(q.blocks, next);
    } else {
      var n, m := RunFrom(p.blocks, next), RunFrom(q.blocks, q.nextBlockToHash);
      RunFromIs(p.blocks, next, n);
      RunFromIs(q.blocks, q.nextBlockToHash, m);
      var at := q.nextBlockToHash;
      assert forall i :: at <= i < at + m ==> q.blocks[i].Cached? && q.blocks[i] == p.blocks[i];
    }
  }

  lemma RunFromNone(blocks: seq<Block>, at: nat)
    requires at >= |blocks|
    ensures RunFrom(blocks, at) == 0
  {
  }

  /** If the blocks are to be hashed in order, a write leaves none to be flushed where hashing goes on. */
  lemma WroteReady(s: Snap, t: Snap, job: Job, lineSize: int, pos: nat)
    requires AllReady(s.pieces, lineSize) && lineSize >= 2 && Wrote(s, t, job, lineSize, true, pos)
    ensures AllReady(t.pieces, lineSize)
  {
    hide RunFrom, Find, PutAndFlushed, Ready, BlocksIn;
    var k, block := Find(s.pieces, job.piece), job.offset / BLOCK;
    if k < |s.pieces| {
      PutReady(s, t, job, k, lineSize, pos);
    } else if BlocksIn(|s.disk[job.piece]|) > 1 {
      FirstReady(job.piece, |s.disk[job.piece]|, block, job.data, job.callback, lineSize);
    }
  }

  lemma PutReady(s: Snap, t: Snap, job: Job, k: nat, lineSize: int, pos: nat)
    requires k < |s.pieces| && job.offset / BLOCK < |s.pieces[k].p.blocks| && job.piece in s.disk
    requires AllReady(s.pieces, lineSize) && lineSize >= 2 && PutAndFlushed(s, t, job, k, lineSize, true, pos)
    ensures AllReady(t.pieces, lineSize)
  {
    hide RunFrom, CallsFor, Buffers, PieceOk, AllCached, Longest, Flushed, Count;
    var p := PutIn(s.pieces[k].p, job.offset / BLOCK, job.data, job.callback);
    if RunFrom(p.blocks, p.nextBlockToHash) >= lineSize {
      FlushedReady(p, pos, pos + RunFrom(p.blocks, p.nextBlockToHash));
    }
  }

  lemma FirstReady(piece: int, size: nat, block: nat, data: seq<byte>, callback: nat, lineSize: int)
    requires block < BlocksIn(size) && lineSize >= 2
    ensures Ready(FirstEntry(piece, size, block, data, callback).p, lineSize)
  {
    hide RunFrom, BlocksIn;
    var p := FirstEntry(piece, size, block, data, callback).p;
    var n := RunFrom(p.blocks, 0);
    RunFromIs(p.blocks, 0, n);
    assert n > 0 ==> p.blocks[n - 1].Cached? && p.blocks[0].Cached?;
  }

  // ---------------------------------------------------------------------------------------
  // What is next to be hashed
  // ---------------------------------------------------------------------------------------

  /** The first block that has not been flushed in order; the first of all for a piece that is not cached. */
  function NextOf(pieces: seq<Entry>, piece: int): nat {
    var k := Find(pieces, piece);
    if k < |pieces| then pieces[k].p.nextBlockToHash else 0
  }

  lemma FlushedNext(p: Piece, a: nat, b: nat)
    requires a <= b <= |p.blocks|
    ensures
      var q := Flushed(p, a, b);
      && p.nextBlockToHash <= q.nextBlockToHash
      && (p.nextBlockToHash < q.nextBlockToHash ==>
            q.nextBlockToHash <= |p.blocks| && AllCached(p.blocks, p.nextBlockToHash, q.nextBlockToHash))
  {
    hide NextToHash, RunFrom, Longest, Count;
    NextToHashIs(p.blocks, a, b, p.nextBlockToHash);
  }

  lemma NextOfNone(pieces: seq<Entry>, piece: int)
    requires forall k :: 0 <= k < |pieces| ==> pieces[k].piece != piece
    ensures NextOf(pieces, piece) == 0
  {
    hide Find;
  }

  /** A changed entry changes nothing for the other pieces. */
  lemma NextOfOthers(pieces: seq<Entry>, k: nat, e: Entry, x: int)
    requires k < |pieces| && e.piece == pieces[k].piece && x != e.piece
    ensures NextOf(pieces[k := e], x) == NextOf(pieces, x)
  {
    hide Find;
    SameFind(pieces, pieces[k := e], x);
  }

  /** Nor does an entry that is forgotten, or a new one. */
  lemma NextOfLess(pieces: seq<Entry>, disk: Disk, k: nat, x: int)
    requires EntriesOk(pieces, disk) && k < |pieces| && x != pieces[k].piece
    ensures NextOf(pieces[..k] + pieces[k + 1..], x) == NextOf(pieces, x)
  {
    hide Find, EntryOk;
    var less, j := pieces[..k] + pieces[k + 1..], Find(pieces, x);
    assert forall i :: 0 <= i < |less| ==> less[i] == pieces[if i < k then i else i + 1];
    if j < |pieces| {
      var i := if j < k then j else j - 1;
      assert less[i] == pieces[j];
      NextOfUnique(less, i);
      NextOfUnique(pieces, j);
    } else {
      NextOfNone(less, x);
    }
  }

  lemma NextOfUnique(pieces: seq<Entry>, k: nat)
    requires k < |pieces| && forall i, j :: 0 <= i < j < |pieces| ==> pieces[i].piece != pieces[j].piece
    ensures NextOf(pieces, pieces[k].piece) == pieces[k].p.nextBlockToHash
  {
    hide Find;
  }

  lemma NextOfMore(pieces: seq<Entry>, e: Entry, x: int)
    requires Find(pieces, e.piece) == |pieces| && e.p.nextBlockToHash == 0
    ensures NextOf(pieces + [e], x) == NextOf(pieces, x)
  {
    assert (pieces + [e])[..|pieces|] == pieces;
  }

  /** The blocks from `n` to `m` of a piece were cached, or are the one just written. */
  predicate Covered(pieces: seq<Entry>, piece: int, n: nat, m: nat, block: int) {
    var k := Find(pieces, piece);
    n >= m || (k < |pieces| && m <= |pieces[k].p.blocks| && AllCachedBut(pieces[k].p.blocks, n, m, block))
  }

  predicate AllCachedBut(blocks: seq<Block>, n: nat, m: nat, block: int)
    requires m <= |blocks|
  {
    forall i :: n <= i < m ==> i == block || blocks[i].Cached?
  }

  /** One entry changed by a flush after the block at `block` was put into it. */
  lemma ChangedNext(pieces: seq<Entry>, disk: Disk, k: nat, q: Piece, p: Piece, block: int, a: nat, b: nat, x: int)
    requires EntriesOk(pieces, disk) && k < |pieces| && a <= b <= |p.blocks| == |pieces[k].p.blocks|
    requires p.nextBlockToHash == pieces[k].p.nextBlockToHash && (q == p || q == Flushed(p, a, b))
    requires forall i :: 0 <= i < |p.blocks| && i != block ==> p.blocks[i] == pieces[k].p.blocks[i]
    ensures
      var n, m := NextOf(pieces, x), NextOf(pieces[k := pieces[k].(p := q)], x);
      n <= m && Covered(pieces, x, n, m, if x == pieces[k].piece then block else -1)
  {
    hide Find, EntryOk, Flushed;
    var e := pieces[k].(p := q);
    if x == e.piece {
      NextOfUnique(pieces, k);
      NextOfUnique(pieces[k := e], k);
      FlushedNext(p, a, b);
    } else {
      NextOfOthers(pieces, k, e, x);
    }
  }

  /** A flush passes only blocks that were cached. */
  lemma FlushNext(pieces: seq<Entry>, disk: Disk, k: nat, a: nat, b: nat, x: int)
    requires EntriesOk(pieces, disk) && k < |pieces| && a <= b <= |pieces[k].p.blocks|
    ensures
      var n, m := NextOf(pieces, x), NextOf(pieces[k := pieces[k].(p := Flushed(pieces[k].p, a, b))], x);
      n <= m && Covered(pieces, x, n, m, -1)
  {
    hide NextOf, EntriesOk, Flushed, Covered;
    ChangedNext(pieces, disk, k, Flushed(pieces[k].p, a, b), pieces[k].p, -1, a, b, x);
  }

  /** A write never takes the next block to be hashed back, and takes it past cached blocks only. */
  lemma WroteNext(s: Snap, t: Snap, job: Job, lineSize: int, avoidReadback: bool, pos: nat, x: int)
    requires EntriesOk(s.pieces, s.disk) && Wrote(s, t, job, lineSize, avoidReadback, pos)
    ensures
      var n, m := NextOf(s.pieces, x), NextOf(t.pieces, x);
      n <= m && Covered(s.pieces, x, n, m, if x == job.piece then job.offset / BLOCK else -1)
  {
    hide Find, EntriesOk, PutAndFlushed, NextOf, BlocksIn;
    var k, block := Find(s.pieces, job.piece), job.offset / BLOCK;
    if k < |s.pieces| {
      PutNext(s, t, job, k, lineSize, avoidReadback, pos, x);
    } else if BlocksIn(|s.disk[job.piece]|) > 1 {
      NextOfMore(s.pieces, FirstEntry(job.piece, |s.disk[job.piece]|, block, job.data, job.callback), x);
    }
  }

  lemma PutNext(s: Snap, t: Snap, job: Job, k: nat, lineSize: int, avoidReadback: bool, pos: nat, x: int)
    requires EntriesOk(s.pieces, s.disk) && k < |s.pieces| && s.pieces[k].piece == job.piece && job.piece in s.disk
    requires job.offset / BLOCK < |s.pieces[k].p.blocks| && PutAndFlushed(s, t, job, k, lineSize, avoidReadback, pos)
    ensures
      var n, m := NextOf(s.pieces, x), NextOf(t.pieces, x);
      n <= m && Covered(s.pieces, x, n, m, if x == job.piece then job.offset / BLOCK else -1)
  {
    hide NextOf, Covered, Flushed, CallsFor, Buffers, PieceOk, AllCached, Longest, Count, RunFrom, EntriesOk;
    var block := job.offset / BLOCK;
    var p := PutIn(s.pieces[k].p, block, job.data, job.callback);
    var n := FlushLength(p, lineSize, avoidReadback);
    var q := AfterFlush(p, pos, n);
    var after := s.pieces[k := Entry(job.piece, q)];
    assert after == s.pieces[k := s.pieces[k].(p := q)];
    ChangedNext(s.pieces, s.disk, k, q, p, block, pos, pos + n, x);
    if q.numBlocks == 0 && q.nextBlockToHash == 0 {
      Forgotten(s.pieces, s.disk, k, q, x);
    }
  }

  /** What is forgotten was not begun to be hashed. */
  lemma Forgotten(pieces: seq<Entry>, disk: Disk, k: nat, q: Piece, x: int)
    requires EntriesOk(pieces, disk) && k < |pieces| && q.nextBlockToHash == 0
    ensures NextOf(pieces[..k] + pieces[k + 1..], x) == NextOf(pieces[k := pieces[k].(p := q)], x)
  {
    hide Find, EntryOk;
    var e := pieces[k].(p := q);
    if x == e.piece {
      NextOfUnique(pieces[k := e], k);
      var less := pieces[..k] + pieces[k + 1..];
      assert forall i :: 0 <= i < |less| ==> less[i] == pieces[if i < k then i else i + 1];
      NextOfNone(less, x);
    } else {
      NextOfOthers(pieces, k, e, x);
      NextOfLess(pieces, disk, k, x);
    }
  }
}
