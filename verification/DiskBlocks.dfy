/**
  A piece of a torrent on disk, and the blocks of it that are still in the write cache.
 */
module DiskBlocks {
  import opened Basics

  type byte = x: int | 0 <= x < 256

  const BLOCK := 16384

  /** A block that is in the cache holds a buffer of the full size and whom to call when it is written. */
  datatype Block = Empty | Cached(data: seq<byte>, callback: nat)

  predicate BlockOk(b: Block) {
    b.Cached? ==> |b.data| == BLOCK
  }

  function BlocksIn(size: nat): (n: nat)
    ensures (n - 1) * BLOCK < size <= n * BLOCK || (size == 0 == n)
  {
    (size + BLOCK - 1) / BLOCK
  }

  /** How much of a block there is: the last one may be short. */
  function BlockLen(size: nat, i: nat): (n: nat)
    requires i < BlocksIn(size)
    ensures 0 < n <= BLOCK && i * BLOCK + n <= size
    ensures i * BLOCK + n == Min((i + 1) * BLOCK, size)
  {
    Min(size - i * BLOCK, BLOCK)
  }

  predicate PieceOk(blocks: seq<Block>, size: nat) {
    |blocks| == BlocksIn(size) && forall i :: 0 <= i < |blocks| ==> BlockOk(blocks[i])
  }

  // ---------------------------------------------------------------------------------------
  // Writing
  // ---------------------------------------------------------------------------------------

  function Overwrite(disk: seq<byte>, at: nat, data: seq<byte>): (d: seq<byte>)
    requires at + |data| <= |disk|
    ensures |d| == |disk|
  {
    disk[..at] + data + disk[at + |data|..]
  }

  /** The bytes of a block that go to disk. */
  function Bytes(blocks: seq<Block>, size: nat, i: nat): (d: seq<byte>)
    requires PieceOk(blocks, size) && i < |blocks| && blocks[i].Cached?
    ensures |d| == BlockLen(size, i)
  {
    blocks[i].data[..BlockLen(size, i)]
  }

  /** The disk after every cached block from `a` to `b` is written by itself. */
  function WriteEach(disk: seq<byte>, blocks: seq<Block>, a: nat, b: nat): (d: seq<byte>)
    requires PieceOk(blocks, |disk|) && a <= b <= |blocks|
    ensures |d| == |disk|
    decreases b - a
  {
    if a == b then disk
    else
      var d := WriteEach(disk, blocks, a, b - 1);
      if blocks[b - 1].Cached? then Overwrite(d, (b - 1) * BLOCK, Bytes(blocks, |disk|, b - 1)) else d
  }

  lemma OverwriteAt(disk: seq<byte>, at: nat, data: seq<byte>, x: nat)
    requires at + |data| <= |disk| && x < |disk|
    ensures Overwrite(disk, at, data)[x] == if at <= x < at + |data| then data[x - at] else disk[x]
  {
  }

  /** What the piece holds at a position. */
  function ByteAt(disk: seq<byte>, blocks: seq<Block>, a: nat, b: nat, x: nat): byte
    requires PieceOk(blocks, |disk|) && a <= b <= |blocks| && x < |disk|
  {
    var i := x / BLOCK;
    if a <= i < b && blocks[i].Cached? then blocks[i].data[x - i * BLOCK] else disk[x]
  }

  lemma {:induction false} WriteEachAt(disk: seq<byte>, blocks: seq<Block>, a: nat, b: nat, x: nat)
    requires PieceOk(blocks, |disk|) && a <= b <= |blocks| && x < |disk|
    ensures WriteEach(disk, blocks, a, b)[x] == ByteAt(disk, blocks, a, b, x)
    decreases b - a
  {
    if a < b {
      WriteEachAt(disk, blocks, a, b - 1, x);
      if blocks[b - 1].Cached? {
        OverwriteAt(WriteEach(disk, blocks, a, b - 1), (b - 1) * BLOCK, Bytes(blocks, |disk|, b - 1), x);
      }
    }
  }

  lemma {:induction false} WriteEachSplit(disk: seq<byte>, blocks: seq<Block>, a: nat, m: nat, b: nat)
    requires PieceOk(blocks, |disk|) && a <= m <= b <= |blocks|
    ensures WriteEach(WriteEach(disk, blocks, a, m), blocks, m, b) == WriteEach(disk, blocks, a, b)
    decreases b - m
  {
    if m < b {
      WriteEachSplit(disk, blocks, a, m, b - 1);
    }
  }

  // ---------------------------------------------------------------------------------------
  // Runs
  // ---------------------------------------------------------------------------------------

  predicate AllCached(blocks: seq<Block>, a: nat, b: nat) {
    b <= |blocks| && forall i :: a <= i < b ==> blocks[i].Cached?
  }

  /** The bytes of a run of cached blocks, one after the other. */
  function RunBytes(blocks: seq<Block>, size: nat, a: nat, b: nat): (d: seq<byte>)
    requires PieceOk(blocks, size) && a <= b && AllCached(blocks, a, b)
    ensures |d| == Min(b * BLOCK, size) - Min(a * BLOCK, size)
    decreases b - a
  {
    if a == b then [] else RunBytes(blocks, size, a, b - 1) + Bytes(blocks, size, b - 1)
  }

  lemma OverwriteTwice(disk: seq<byte>, at: nat, x: seq<byte>, y: seq<byte>)
    requires at + |x| + |y| <= |disk|
    ensures Overwrite(Overwrite(disk, at, x), at + |x|, y) == Overwrite(disk, at, x + y)
  {
  }

  /** Writing a run at once is writing its blocks one by one. */
  lemma {:induction false} WriteRun(disk: seq<byte>, blocks: seq<Block>, a: nat, b: nat)
    requires PieceOk(blocks, |disk|) && a < b && AllCached(blocks, a, b)
    ensures a * BLOCK + |RunBytes(blocks, |disk|, a, b)| <= |disk|
    ensures Overwrite(disk, a * BLOCK, RunBytes(blocks, |disk|, a, b)) == WriteEach(disk, blocks, a, b)
    decreases b - a
  {
    hide Overwrite, Bytes;
    var size := |disk|;
    if b == a + 1 {
      assert [] + Bytes(blocks, size, a) == Bytes(blocks, size, a);
    } else {
      WriteRun(disk, blocks, a, b - 1);
      OverwriteTwice(disk, a * BLOCK, RunBytes(blocks, size, a, b - 1), Bytes(blocks, size, b - 1));
    }
  }

  // ---------------------------------------------------------------------------------------
  // What the piece holds
  // ---------------------------------------------------------------------------------------

  /** What a reader is to find: the cached blocks where there are any, the disk elsewhere. */
  function View(disk: seq<byte>, blocks: seq<Block>): (v: seq<byte>)
    requires PieceOk(blocks, |disk|)
    ensures |v| == |disk|
  {
    WriteEach(disk, blocks, 0, |blocks|)
  }

  function Emptied(blocks: seq<Block>, a: nat, b: nat): (e: seq<Block>)
    requires a <= b <= |blocks|
    ensures |e| == |blocks|
    ensures forall i :: 0 <= i < |blocks| ==> e[i] == if a <= i < b then Empty else blocks[i]
  {
    seq(|blocks|, i requires 0 <= i < |blocks| => if a <= i < b then Empty else blocks[i])
  }

  /** Flushing blocks does not change what the piece holds. */
  lemma FlushKeepsView(disk: seq<byte>, blocks: seq<Block>, a: nat, b: nat)
    requires PieceOk(blocks, |disk|) && a <= b <= |blocks|
    ensures View(WriteEach(disk, blocks, a, b), Emptied(blocks, a, b)) == View(disk, blocks)
  {
    hide WriteEach;
    var d, e := WriteEach(disk, blocks, a, b), Emptied(blocks, a, b);
    forall x | 0 <= x < |disk|
      ensures View(d, e)[x] == View(disk, blocks)[x]
    {
      WriteEachAt(d, e, 0, |e|, x);
      WriteEachAt(disk, blocks, a, b, x);
      WriteEachAt(disk, blocks, 0, |blocks|, x);
    }
  }

  /** Putting a block in the cache changes what the piece holds there, and nowhere else. */
  lemma CacheChangesView(disk: seq<byte>, blocks: seq<Block>, i: nat, block: Block)
    requires PieceOk(blocks, |disk|) && i < |blocks| && block.Cached? && BlockOk(block)
    ensures View(disk, blocks[i := block]) ==
      Overwrite(View(disk, blocks), i * BLOCK, block.data[..BlockLen(|disk|, i)])
  {
    hide WriteEach;
    var more := blocks[i := block];
    var data := block.data[..BlockLen(|disk|, i)];
    forall x | 0 <= x < |disk|
      ensures View(disk, more)[x] == Overwrite(View(disk, blocks), i * BLOCK, data)[x]
    {
      WriteEachAt(disk, more, 0, |more|, x);
      WriteEachAt(disk, blocks, 0, |blocks|, x);
      OverwriteAt(View(disk, blocks), i * BLOCK, data, x);
    }
  }

  lemma {:induction false} ViewOfNothing(disk: seq<byte>, blocks: seq<Block>, n: nat)
    requires PieceOk(blocks, |disk|) && n <= |blocks| && forall i :: 0 <= i < n ==> blocks[i].Empty?
    ensures WriteEach(disk, blocks, 0, n) == disk
  {
    if n > 0 {
      ViewOfNothing(disk, blocks, n - 1);
    }
  }

  // ---------------------------------------------------------------------------------------
  // Counting
  // ---------------------------------------------------------------------------------------

  /** How many blocks from `a` to `b` are cached. */
  function Count(blocks: seq<Block>, a: nat, b: nat): (n: nat)
    requires a <= b <= |blocks|
    ensures n <= b - a
    decreases b - a
  {
    if a == b then 0 else Count(blocks, a, b - 1) + if blocks[b - 1].Cached? then 1 else 0
  }

  lemma {:induction false} CountSplit(blocks: seq<Block>, a: nat, m: nat, b: nat)
    requires a <= m <= b <= |blocks|
    ensures Count(blocks, a, b) == Count(blocks, a, m) + Count(blocks, m, b)
    decreases b - m
  {
    if m < b {
      CountSplit(blocks, a, m, b - 1);
    }
  }

  lemma {:induction false} CountSame(x: seq<Block>, y: seq<Block>, a: nat, b: nat)
    requires a <= b <= |x| == |y| && forall i :: a <= i < b ==> x[i].Cached? == y[i].Cached?
    ensures Count(x, a, b) == Count(y, a, b)
    decreases b - a
  {
    if a < b {
      CountSame(x, y, a, b - 1);
    }
  }

  lemma {:induction false} CountEmpty(blocks: seq<Block>, a: nat, b: nat)
    requires a <= b <= |blocks|
    ensures Count(blocks, a, b) == 0 <==> forall i :: a <= i < b ==> blocks[i].Empty?
    decreases b - a
  {
    if a < b {
      CountEmpty(blocks, a, b - 1);
    }
  }

  lemma CountEmptied(blocks: seq<Block>, a: nat, b: nat)
    requires a <= b <= |blocks|
    ensures Count(Emptied(blocks, a, b), 0, |blocks|) == Count(blocks, 0, |blocks|) - Count(blocks, a, b)
  {
    var e, n := Emptied(blocks, a, b), |blocks|;
    CountSplit(blocks, 0, a, n);
    CountSplit(blocks, a, b, n);
    CountSplit(e, 0, a, n);
    CountSplit(e, a, b, n);
    CountSame(e, blocks, 0, a);
    CountSame(e, blocks, b, n);
    CountEmpty(e, a, b);
  }

  lemma CountPut(blocks: seq<Block>, i: nat, block: Block)
    requires i < |blocks| && block.Cached?
    ensures Count(blocks[i := block], 0, |blocks|) == Count(blocks, 0, |blocks|) + if blocks[i].Cached? then 0 else 1
  {
    var more, n := blocks[i := block], |blocks|;
    CountSplit(blocks, 0, i, n);
    CountSplit(blocks, i, i + 1, n);
    CountSplit(more, 0, i, n);
    CountSplit(more, i, i + 1, n);
    CountSame(more, blocks, 0, i);
    CountSame(more, blocks, i + 1, n);
  }

  // ---------------------------------------------------------------------------------------
  // The longest run
  // ---------------------------------------------------------------------------------------

  /** The length of the run that ends at `n`. */
  function Trailing(blocks: seq<Block>, n: nat): (k: nat)
    requires n <= |blocks|
    ensures k <= n && AllCached(blocks, n - k, n)
    ensures k < n ==> blocks[n - k - 1].Empty?
  {
    if n == 0 || blocks[n - 1].Empty? then 0 else Trailing(blocks, n - 1) + 1
  }

  /** The length of the longest run among the first `n` blocks. */
  function Longest(blocks: seq<Block>, n: nat): (k: nat)
    requires n <= |blocks|
    ensures k <= n
  {
    if n == 0 then 0
    else
      var t, l := Trailing(blocks, n), Longest(blocks, n - 1);
      if t > l then t else l
  }

  /** No run is longer. */
  lemma {:induction false} LongestBounds(blocks: seq<Block>, n: nat, a: nat, b: nat)
    requires a <= b <= n <= |blocks| && AllCached(blocks, a, b)
    ensures b - a <= Longest(blocks, n)
    decreases n
  {
    if n > 0 {
      if b < n {
        LongestBounds(blocks, n - 1, a, b);
      }
    }
  }

  /** There is a run that long. */
  lemma {:induction false} LongestExists(blocks: seq<Block>, n: nat) returns (a: nat)
    requires n <= |blocks|
    ensures a + Longest(blocks, n) <= n && AllCached(blocks, a, a + Longest(blocks, n))
  {
    a := 0;
    if n > 0 {
      if Trailing(blocks, n) > Longest(blocks, n - 1) {
        a := n - Trailing(blocks, n);
      } else {
        a := LongestExists(blocks, n - 1);
      }
    }
  }

  /** A block without neighbours does not make the longest run longer, if there was any. */
  lemma LonelyBlock(blocks: seq<Block>, i: nat, block: Block)
    requires i < |blocks| && blocks[i].Empty? && block.Cached?
    requires (i > 0 ==> blocks[i - 1].Empty?) && (i + 1 < |blocks| ==> blocks[i + 1].Empty?)
    requires Count(blocks, 0, |blocks|) > 0
    ensures Longest(blocks[i := block], |blocks|) == Longest(blocks, |blocks|)
  {
    var more, n := blocks[i := block], |blocks|;
    var a := LongestExists(blocks, n);
    LongestBounds(more, n, a, a + Longest(blocks, n));
    CountEmpty(blocks, 0, n);
    var c :| 0 <= c < n && blocks[c].Cached?;
    LongestBounds(blocks, n, c, c + 1);
    var b := LongestExists(more, n);
    var e := b + Longest(more, n);
    if e - b > 1 {
      NotInside(more, i, b, e);
      assert forall j :: b <= j < e ==> more[j].Cached? && blocks[j] == more[j];
      LongestBounds(blocks, n, b, e);
    }
  }

  lemma NotInside(blocks: seq<Block>, i: nat, b: nat, e: nat)
    requires AllCached(blocks, b, e) && e - b > 1 && i < |blocks|
    requires (i > 0 ==> blocks[i - 1].Empty?) && (i + 1 < |blocks| ==> blocks[i + 1].Empty?)
    ensures !(b <= i < e)
  {
  }

  lemma LongestSame(x: seq<Block>, y: seq<Block>)
    requires |x| == |y| && forall i :: 0 <= i < |x| ==> x[i].Cached? == y[i].Cached?
    ensures Longest(x, |x|) == Longest(y, |y|)
  {
    var a := LongestExists(x, |x|);
    var b := LongestExists(y, |y|);
    LongestBounds(y, |y|, a, a + Longest(x, |x|));
    LongestBounds(x, |x|, b, b + Longest(y, |y|));
  }
}
