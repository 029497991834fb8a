/**
  Any run of writes and flushes. What a piece holds, seen through the cache, is what the writes
  put there in their order; and of every write the handler is called once and the buffer freed
  once, or both are still in the cache.
 */
module DiskRun {
  import opened Basics
  import opened DiskBlocks
  import opened DiskCache
  import opened DiskOrder

  // ---------------------------------------------------------------------------------------
  // What is in the cache
  // ---------------------------------------------------------------------------------------

  /** The sizes of the pieces. */
  function Sizes(disk: Disk): (m: map<int, nat>)
    ensures m.Keys == disk.Keys && forall x :: x in disk ==> m[x] == |disk[x]|
  {
    map x | x in disk :: |disk[x]|
  }

  /** Something of a block, given its piece and its place in it. */
  type Get<T> = (int, nat, Block) -> T

  /** The call that a cached block waits for, and its buffer. */
  function CallAt(sizes: map<int, nat>): Get<Call> {
    (piece: int, i: nat, b: Block) =>
      Call(if b.Cached? then b.callback else 0, i * BLOCK, if piece in sizes then SizeAt(sizes[piece], i) else 0)
  }

  /** The bytes of a block in a piece of that size. */
  function SizeAt(size: nat, i: nat): int {
    Min(BLOCK, size - i * BLOCK)
  }

  function DataAt(): Get<seq<byte>> {
    (piece: int, i: nat, b: Block) => if b.Cached? then b.data else []
  }

  /** One item of a block, if it is cached. */
  function Item<T(==)>(piece: int, i: nat, b: Block, f: Get<T>): multiset<T> {
    if b.Cached? then multiset{f(piece, i, b)} else multiset{}
  }

  /** The items of the blocks from `a` to `b`. */
  function Items<T(==)>(piece: int, blocks: seq<Block>, a: nat, b: nat, f: Get<T>): multiset<T>
    requires a <= b <= |blocks|
    decreases b - a
  {
    if a == b then multiset{} else Items(piece, blocks, a, b - 1, f) + Item(piece, b - 1, blocks[b - 1], f)
  }

  /** The items of all pieces. */
  function InCache<T(==)>(pieces: seq<Entry>, f: Get<T>): multiset<T> {
    if pieces == [] then multiset{}
    else
      var e := pieces[|pieces| - 1];
      InCache(pieces[..|pieces| - 1], f) + Items(e.piece, e.p.blocks, 0, |e.p.blocks|, f)
  }

  /** What comes in and what goes out cancel. */
  lemma Exchange<T>(after: multiset<T>, before: multiset<T>, x: multiset<T>, y: multiset<T>, gone: multiset<T>,
                    come: multiset<T>)
    requires after + x == before + y && y + gone == x + come
    ensures after + gone == before + come
  {
    forall t: T
      ensures (after + gone)[t] == (before + come)[t]
    {
      assert (after + x)[t] == (before + y)[t] && (y + gone)[t] == (x + come)[t];
    }
  }

  lemma {:induction false} ItemsSplit<T>(piece: int, blocks: seq<Block>, a: nat, m: nat, b: nat, f: Get<T>)
    requires a <= m <= b <= |blocks|
    ensures Items(piece, blocks, a, b, f) == Items(piece, blocks, a, m, f) + Items(piece, blocks, m, b, f)
    decreases b - m
  {
    if m < b {
      ItemsSplit(piece, blocks, a, m, b - 1, f);
    }
  }

  lemma {:induction false} ItemsSame<T>(piece: int, x: seq<Block>, y: seq<Block>, a: nat, b: nat, f: Get<T>)
    requires a <= b <= |x| == |y| && forall i :: a <= i < b ==> x[i] == y[i]
    ensures Items(piece, x, a, b, f) == Items(piece, y, a, b, f)
    decreases b - a
  {
    if a < b {
      ItemsSame(piece, x, y, a, b - 1, f);
    }
  }

  lemma {:induction false} ItemsNone<T>(piece: int, x: seq<Block>, a: nat, b: nat, f: Get<T>)
    requires a <= b <= |x| && forall i :: a <= i < b ==> x[i] == Empty
    ensures Items(piece, x, a, b, f) == multiset{}
    decreases b - a
  {
    if a < b {
      ItemsNone(piece, x, a, b - 1, f);
    }
  }

  lemma ItemsOne<T>(piece: int, x: seq<Block>, i: nat, f: Get<T>)
    requires i < |x|
    ensures Items(piece, x, i, i + 1, f) == Item(piece, i, x[i], f)
  {
    assert Items(piece, x, i, i, f) == multiset{};
  }

  /** Putting a block in its place. */
  lemma ItemsPut<T>(piece: int, x: seq<Block>, i: nat, b: Block, f: Get<T>)
    requires i < |x|
    ensures Items(piece, x[i := b], 0, |x|, f) + Item(piece, i, x[i], f) ==
      Items(piece, x, 0, |x|, f) + Item(piece, i, b, f)
  {
    hide Items, Item;
    var y, n := x[i := b], |x|;
    ItemsSplit(piece, x, 0, i, n, f);
    ItemsSplit(piece, x, i, i + 1, n, f);
    ItemsSplit(piece, y, 0, i, n, f);
    ItemsSplit(piece, y, i, i + 1, n, f);
    ItemsSame(piece, x, y, 0, i, f);
    ItemsSame(piece, x, y, i + 1, n, f);
    ItemsOne(piece, x, i, f);
    ItemsOne(piece, y, i, f);
  }

  lemma ItemsEmptied<T>(piece: int, x: seq<Block>, a: nat, b: nat, f: Get<T>)
    requires a <= b <= |x|
    ensures Items(piece, Emptied(x, a, b), 0, |x|, f) + Items(piece, x, a, b, f) == Items(piece, x, 0, |x|, f)
  {
    hide Items;
    var y, n := Emptied(x, a, b), |x|;
    ItemsSplit(piece, x, 0, a, n, f);
    ItemsSplit(piece, x, a, b, n, f);
    ItemsSplit(piece, y, 0, a, n, f);
    ItemsSplit(piece, y, a, b, n, f);
    ItemsSame(piece, x, y, 0, a, f);
    ItemsSame(piece, x, y, b, n, f);
    ItemsNone(piece, y, a, b, f);
  }

  lemma {:induction false} InCacheUpdate<T>(pieces: seq<Entry>, k: nat, e: Entry, f: Get<T>)
    requires k < |pieces| && e.piece == pieces[k].piece
    ensures
      var x, y := pieces[k].p.blocks, e.p.blocks;
      InCache(pieces[k := e], f) + Items(e.piece, x, 0, |x|, f) == InCache(pieces, f) + Items(e.piece, y, 0, |y|, f)
    decreases |pieces|
  {
    hide Items;
    var n := |pieces| - 1;
    if k < n {
      assert pieces[k := e][..n] == pieces[..n][k := e];
      InCacheUpdate(pieces[..n], k, e, f);
      var last, x, y := pieces[n].p.blocks, pieces[k].p.blocks, e.p.blocks;
      assert InCache(pieces[k := e], f) + Items(e.piece, x, 0, |x|, f) ==
        InCache(pieces[..n][k := e], f) + Items(e.piece, x, 0, |x|, f) + Items(pieces[n].piece, last, 0, |last|, f);
    } else {
      assert pieces[k := e][..n] == pieces[..n];
    }
  }

  lemma InCacheAppend<T>(pieces: seq<Entry>, e: Entry, f: Get<T>)
    ensures InCache(pieces + [e], f) == InCache(pieces, f) + Items(e.piece, e.p.blocks, 0, |e.p.blocks|, f)
  {
    assert (pieces + [e])[..|pieces|] == pieces;
  }

  lemma InCacheStep<T>(pieces: seq<Entry>, f: Get<T>)
    requires pieces != []
    ensures
      var e := pieces[|pieces| - 1];
      InCache(pieces, f) == InCache(pieces[..|pieces| - 1], f) + Items(e.piece, e.p.blocks, 0, |e.p.blocks|, f)
  {
    hide Items;
  }

  lemma {:induction false} InCacheRemove<T>(pieces: seq<Entry>, k: nat, f: Get<T>)
    requires k < |pieces|
    ensures
      var x := pieces[k].p.blocks;
      InCache(pieces[..k] + pieces[k + 1..], f) + Items(pieces[k].piece, x, 0, |x|, f) == InCache(pieces, f)
    decreases |pieces|
  {
    hide Items, InCache;
    var n, less := |pieces| - 1, pieces[..k] + pieces[k + 1..];
    InCacheStep(pieces, f);
    if k < n {
      assert less[..n - 1] == pieces[..n][..k] + pieces[..n][k + 1..] && less[n - 1] == pieces[n];
      InCacheStep(less, f);
      InCacheRemove(pieces[..n], k, f);
    } else {
      assert less == pieces[..n];
    }
  }

  lemma {:induction false} NothingCounted<T>(piece: int, blocks: seq<Block>, a: nat, b: nat, f: Get<T>)
    requires a <= b <= |blocks| && Count(blocks, a, b) == 0
    ensures Items(piece, blocks, a, b, f) == multiset{}
    decreases b - a
  {
    if a < b {
      NothingCounted(piece, blocks, a, b - 1, f);
    }
  }

  // ---------------------------------------------------------------------------------------
  // What has left it
  // ---------------------------------------------------------------------------------------

  lemma ItemsStep<T>(piece: int, blocks: seq<Block>, a: nat, b: nat, f: Get<T>)
    requires a <= b <= |blocks|
    ensures Items(piece, blocks, a, b, f) ==
      if a == b then multiset{} else Items(piece, blocks, a, b - 1, f) + Item(piece, b - 1, blocks[b - 1], f)
  {
  }

  lemma CallsStep(blocks: seq<Block>, size: nat, a: nat, b: nat)
    requires PieceOk(blocks, size) && a <= b <= |blocks|
    ensures a == b ==> CallsFor(blocks, size, a, b) == []
    ensures a < b ==>
      && (b - 1) * BLOCK <= size && BlockLen(size, b - 1) == SizeAt(size, b - 1)
      && CallsFor(blocks, size, a, b) ==
         CallsFor(blocks, size, a, b - 1) + CallOf(blocks[b - 1], (b - 1) * BLOCK, SizeAt(size, b - 1))
  {
  }

  lemma BuffersStep(blocks: seq<Block>, a: nat, b: nat)
    requires a <= b <= |blocks|
    ensures Buffers(blocks, a, b) == if a == b then [] else Buffers(blocks, a, b - 1) + BufferOf(blocks[b - 1])
  {
  }

  lemma BufferItem(piece: int, i: nat, b: Block)
    ensures multiset(BufferOf(b)) == Item(piece, i, b, DataAt())
  {
  }

  lemma CallItem(sizes: map<int, nat>, piece: int, i: nat, b: Block)
    requires piece in sizes
    ensures multiset(CallOf(b, i * BLOCK, SizeAt(sizes[piece], i))) == Item(piece, i, b, CallAt(sizes))
  {
  }

  lemma {:induction false} CalledItems(sizes: map<int, nat>, piece: int, blocks: seq<Block>, a: nat, b: nat)
    requires piece in sizes && PieceOk(blocks, sizes[piece]) && a <= b <= |blocks|
    ensures multiset(CallsFor(blocks, sizes[piece], a, b)) == Items(piece, blocks, a, b, CallAt(sizes))
    decreases b - a
  {
    hide Items, Item, CallsFor, CallOf, PieceOk, CallAt, SizeAt;
    ItemsStep(piece, blocks, a, b, CallAt(sizes));
    CallsStep(blocks, sizes[piece], a, b);
    if a < b {
      CalledItems(sizes, piece, blocks, a, b - 1);
      CallItem(sizes, piece, b - 1, blocks[b - 1]);
    }
  }

  lemma {:induction false} FreedItems(piece: int, blocks: seq<Block>, a: nat, b: nat)
    requires a <= b <= |blocks|
    ensures multiset(Buffers(blocks, a, b)) == Items(piece, blocks, a, b, DataAt())
    decreases b - a
  {
    hide Items, Item, Buffers, BufferOf, DataAt;
    ItemsStep(piece, blocks, a, b, DataAt());
    BuffersStep(blocks, a, b);
    if a < b {
      FreedItems(piece, blocks, a, b - 1);
      BufferItem(piece, b - 1, blocks[b - 1]);
    }
  }

  /** All calls, made or waited for, and all buffers, wherever they are. */
  ghost function AllCalls(calls: seq<Call>, pieces: seq<Entry>, sizes: map<int, nat>): multiset<Call> {
    multiset(calls) + InCache(pieces, CallAt(sizes))
  }

  ghost function AllBuffers(freed: seq<seq<byte>>, pieces: seq<Entry>): multiset<seq<byte>> {
    multiset(freed) + InCache(pieces, DataAt())
  }

  lemma FlushedItems<T>(pieces: seq<Entry>, k: nat, e: Entry, a: nat, b: nat, f: Get<T>)
    requires k < |pieces| && a <= b <= |pieces[k].p.blocks| && e.p.blocks == Emptied(pieces[k].p.blocks, a, b)
    requires e.piece == pieces[k].piece
    ensures InCache(pieces[k := e], f) + Items(e.piece, pieces[k].p.blocks, a, b, f) == InCache(pieces, f)
  {
    hide Items, InCache, Emptied;
    var x, y := pieces[k].p.blocks, e.p.blocks;
    ItemsEmptied(e.piece, x, a, b, f);
    InCacheUpdate(pieces, k, e, f);
    Exchange(InCache(pieces[k := e], f), InCache(pieces, f), Items(e.piece, x, 0, |x|, f), Items(e.piece, y, 0, |y|, f),
             Items(e.piece, x, a, b, f), multiset{});
  }

  lemma PutItems<T>(pieces: seq<Entry>, k: nat, e: Entry, block: nat, b: Block, f: Get<T>)
    requires k < |pieces| && block < |pieces[k].p.blocks| && e.p.blocks == pieces[k].p.blocks[block := b]
    requires e.piece == pieces[k].piece
    ensures InCache(pieces[k := e], f) + Item(e.piece, block, pieces[k].p.blocks[block], f) ==
      InCache(pieces, f) + Item(e.piece, block, b, f)
  {
    hide Items, InCache, Item;
    var x, y := pieces[k].p.blocks, e.p.blocks;
    ItemsPut(e.piece, x, block, b, f);
    InCacheUpdate(pieces, k, e, f);
    Exchange(InCache(pieces[k := e], f), InCache(pieces, f), Items(e.piece, x, 0, |x|, f), Items(e.piece, y, 0, |y|, f),
             Item(e.piece, block, x[block], f), Item(e.piece, block, b, f));
  }

  /** A flush moves them out of the cache. */
  lemma FlushMoves(pieces: seq<Entry>, k: nat, sizes: map<int, nat>, a: nat, b: nat, calls: seq<Call>,
                   freed: seq<seq<byte>>)
    requires k < |pieces| && pieces[k].piece in sizes && PieceOk(pieces[k].p.blocks, sizes[pieces[k].piece])
    requires a <= b <= |pieces[k].p.blocks|
    ensures
      var e := pieces[k];
      var pieces' := pieces[k := e.(p := Flushed(e.p, a, b))];
      && AllCalls(calls + CallsFor(e.p.blocks, sizes[e.piece], a, b), pieces', sizes) == AllCalls(calls, pieces, sizes)
      && AllBuffers(freed + Buffers(e.p.blocks, a, b), pieces') == AllBuffers(freed, pieces)
  {
    hide Items, InCache, CallsFor, Buffers, Emptied, Longest, Count, NextToHash, PieceOk, CallAt, DataAt;
    var e := pieces[k];
    var x, e' := e.p.blocks, e.(p := Flushed(e.p, a, b));
    CalledItems(sizes, e.piece, x, a, b);
    FreedItems(e.piece, x, a, b);
    FlushedItems(pieces, k, e', a, b, CallAt(sizes));
    FlushedItems(pieces, k, e', a, b, DataAt());
    var held, data := InCache(pieces[k := e'], CallAt(sizes)), InCache(pieces[k := e'], DataAt());
    assert AllCalls(calls + CallsFor(x, sizes[e.piece], a, b), pieces[k := e'], sizes) ==
      multiset(calls) + (held + Items(e.piece, x, a, b, CallAt(sizes)));
    assert AllBuffers(freed + Buffers(x, a, b), pieces[k := e']) ==
      multiset(freed) + (data + Items(e.piece, x, a, b, DataAt()));
  }

  lemma AfterFlushMoves(pieces: seq<Entry>, k: nat, sizes: map<int, nat>, pos: nat, n: nat, calls: seq<Call>,
                        freed: seq<seq<byte>>)
    requires k < |pieces| && pieces[k].piece in sizes && PieceOk(pieces[k].p.blocks, sizes[pieces[k].piece])
    requires pos + n <= |pieces[k].p.blocks|
    ensures
      var e := pieces[k];
      var pieces', made := pieces[k := e.(p := AfterFlush(e.p, pos, n))],
                           CallsFor(e.p.blocks, sizes[e.piece], pos, pos + n);
      && AllCalls(calls + made, pieces', sizes) == AllCalls(calls, pieces, sizes)
      && AllBuffers(freed + Buffers(e.p.blocks, pos, pos + n), pieces') == AllBuffers(freed, pieces)
  {
    hide Items, InCache, Emptied, Longest, Count, NextToHash, PieceOk;
    if n > 0 {
      FlushMoves(pieces, k, sizes, pos, pos + n, calls, freed);
    } else {
      assert pieces[k := pieces[k]] == pieces;
      assert calls + [] == calls && freed + [] == freed;
    }
  }

  /** A block put into its place adds one, and the one it replaces leaves. */
  lemma PutMoves(pieces: seq<Entry>, k: nat, sizes: map<int, nat>, block: nat, data: seq<byte>, callback: nat,
                 calls: seq<Call>, freed: seq<seq<byte>>)
    requires k < |pieces| && block < |pieces[k].p.blocks| && pieces[k].piece in sizes
    ensures
      var e := pieces[k];
      var offset, size := block * BLOCK, SizeAt(sizes[e.piece], block);
      var pieces', was := pieces[k := e.(p := PutIn(e.p, block, data, callback))], e.p.blocks[block];
      && AllCalls(calls + CallOf(was, offset, size), pieces', sizes) ==
         AllCalls(calls, pieces, sizes) + multiset{Call(callback, offset, size)}
      && AllBuffers(freed + BufferOf(was), pieces') == AllBuffers(freed, pieces) + multiset{data}
  {
    hide AllCalls, AllBuffers, CallOf, BufferOf, Longest, Count, SizeAt;
    var e := pieces[k];
    var b, e' := Cached(data, callback), e.(p := PutIn(e.p, block, data, callback));
    PutCalls(pieces, k, sizes, e', block, b, calls);
    PutBuffers(pieces, k, e', block, b, freed);
  }

  lemma PutCalls(pieces: seq<Entry>, k: nat, sizes: map<int, nat>, e: Entry, block: nat, b: Block, calls: seq<Call>)
    requires k < |pieces| && block < |pieces[k].p.blocks| && e.p.blocks == pieces[k].p.blocks[block := b] && b.Cached?
    requires e.piece == pieces[k].piece && e.piece in sizes
    ensures
      var offset, size := block * BLOCK, SizeAt(sizes[e.piece], block);
      AllCalls(calls + CallOf(pieces[k].p.blocks[block], offset, size), pieces[k := e], sizes) ==
      AllCalls(calls, pieces, sizes) + multiset{Call(b.callback, offset, size)}
  {
    hide InCache, CallOf, CallAt, SizeAt, Item;
    var was, offset, size := pieces[k].p.blocks[block], block * BLOCK, SizeAt(sizes[e.piece], block);
    CallItem(sizes, e.piece, block, was);
    CallItem(sizes, e.piece, block, b);
    OneCall(b, offset, size);
    PutItems(pieces, k, e, block, b, CallAt(sizes));
    assert AllCalls(calls + CallOf(was, offset, size), pieces[k := e], sizes) ==
      multiset(calls) + (InCache(pieces[k := e], CallAt(sizes)) + Item(e.piece, block, was, CallAt(sizes)));
  }

  lemma OneCall(b: Block, offset: int, size: int)
    requires b.Cached?
    ensures multiset(CallOf(b, offset, size)) == multiset{Call(b.callback, offset, size)}
  {
  }

  lemma PutBuffers(pieces: seq<Entry>, k: nat, e: Entry, block: nat, b: Block, freed: seq<seq<byte>>)
    requires k < |pieces| && block < |pieces[k].p.blocks| && e.p.blocks == pieces[k].p.blocks[block := b] && b.Cached?
    requires e.piece == pieces[k].piece
    ensures AllBuffers(freed + BufferOf(pieces[k].p.blocks[block]), pieces[k := e]) ==
      AllBuffers(freed, pieces) + multiset{b.data}
  {
    hide InCache, BufferOf;
    var was := pieces[k].p.blocks[block];
    BufferItem(e.piece, block, was);
    PutItems(pieces, k, e, block, b, DataAt());
    assert AllBuffers(freed + BufferOf(was), pieces[k := e]) ==
      multiset(freed) + (InCache(pieces[k := e], DataAt()) + Item(e.piece, block, was, DataAt()));
  }

  lemma FirstItems<T>(piece: int, none: seq<Block>, block: nat, b: Block, f: Get<T>)
    requires block < |none| && forall i :: 0 <= i < |none| ==> none[i] == Empty
    ensures Items(piece, none[block := b], 0, |none|, f) == Item(piece, block, b, f)
  {
    hide Items;
    ItemsPut(piece, none, block, b, f);
    ItemsNone(piece, none, 0, |none|, f);
    assert Item(piece, block, Empty, f) == multiset{};
    assert Items(piece, none[block := b], 0, |none|, f) + multiset{} == Items(piece, none[block := b], 0, |none|, f);
    assert multiset{} + Item(piece, block, b, f) == Item(piece, block, b, f);
  }

  lemma FirstMoves(pieces: seq<Entry>, piece: int, sizes: map<int, nat>, block: nat, data: seq<byte>, callback: nat)
    requires piece in sizes && block < BlocksIn(sizes[piece])
    ensures
      var pieces' := pieces + [FirstEntry(piece, sizes[piece], block, data, callback)];
      && InCache(pieces', CallAt(sizes)) ==
         InCache(pieces, CallAt(sizes)) + multiset{Call(callback, block * BLOCK, SizeAt(sizes[piece], block))}
      && InCache(pieces', DataAt()) == InCache(pieces, DataAt()) + multiset{data}
  {
    hide Items, InCache, BlocksIn;
    var size, b := sizes[piece], Cached(data, callback);
    var none, e := NoBlocks(BlocksIn(size)), FirstEntry(piece, size, block, data, callback);
    FirstItems(piece, none, block, b, CallAt(sizes));
    FirstItems(piece, none, block, b, DataAt());
    InCacheAppend(pieces, e, CallAt(sizes));
    InCacheAppend(pieces, e, DataAt());
  }

  lemma EraseMoves(pieces: seq<Entry>, k: nat, sizes: map<int, nat>, calls: seq<Call>, freed: seq<seq<byte>>)
    requires k < |pieces| && Count(pieces[k].p.blocks, 0, |pieces[k].p.blocks|) == 0
    ensures AllCalls(calls, pieces[..k] + pieces[k + 1..], sizes) == AllCalls(calls, pieces, sizes)
    ensures AllBuffers(freed, pieces[..k] + pieces[k + 1..]) == AllBuffers(freed, pieces)
  {
    hide Items, InCache, Count, CallAt, DataAt;
    var x := pieces[k].p.blocks;
    NothingCounted(pieces[k].piece, x, 0, |x|, CallAt(sizes));
    NothingCounted(pieces[k].piece, x, 0, |x|, DataAt());
    InCacheRemove(pieces, k, CallAt(sizes));
    InCacheRemove(pieces, k, DataAt());
  }

  // ---------------------------------------------------------------------------------------
  // Runs
  // ---------------------------------------------------------------------------------------

  datatype Op =
    | Put(job: Job, lineSize: int, avoidReadback: bool)
    | Flush(entry: nat, start: nat, end: nat)

  predicate OpOk(op: Op, disk: Disk) {
    op.Put? ==> JobOk(op.job, disk)
  }

  predicate AllFit(ops: seq<Op>, piece: int, size: nat) {
    forall i :: 0 <= i < |ops| ==> Fits(ops[i], piece, size)
  }

  predicate Fits(op: Op, piece: int, size: nat) {
    op.Put? && op.job.piece == piece ==> op.job.offset + op.job.bufferSize <= size && op.job.bufferSize <= |op.job.data|
  }

  /** What a piece holds after the writes. */
  function Replay(ops: seq<Op>, piece: int, content: seq<byte>): (r: seq<byte>)
    requires AllFit(ops, piece, |content|)
    ensures |r| == |content|
  {
    if ops == [] then content
    else
      var op := ops[|ops| - 1];
      Applied(op, piece, Replay(ops[..|ops| - 1], piece, content))
  }

  function Applied(op: Op, piece: int, content: seq<byte>): (r: seq<byte>)
    requires Fits(op, piece, |content|)
    ensures |r| == |content|
  {
    if op.Put? && op.job.piece == piece then Overwrite(content, op.job.offset, op.job.data[..op.job.bufferSize])
    else content
  }

  /** The setting under which a write is made. */
  predicate SetTo(op: Op, lineSize: int, avoidReadback: bool) {
    op.Put? ==> op.lineSize == lineSize && op.avoidReadback == avoidReadback
  }

  predicate AllSetTo(ops: seq<Op>, lineSize: int, avoidReadback: bool) {
    forall i :: 0 <= i < |ops| ==> SetTo(ops[i], lineSize, avoidReadback)
  }

  /** No blocks are left that should have been flushed. */
  predicate NoneLeft(pieces: seq<Entry>, lineSize: int, avoidReadback: bool) {
    if avoidReadback then AllReady(pieces, lineSize) else AllShort(pieces, lineSize)
  }

  /** A change of the entries keeps that so, under this setting, and takes no piece back in its hashing. */
  predicate Orderly(pieces: seq<Entry>, pieces': seq<Entry>, x: int, lineSize: int, avoidReadback: bool,
                    applies: bool)
  {
    && NextOf(pieces, x) <= NextOf(pieces', x)
    && (applies && lineSize >= 2 && NoneLeft(pieces, lineSize, avoidReadback) ==>
          NoneLeft(pieces', lineSize, avoidReadback))
  }

  lemma WroteOrderly(s: Snap, t: Snap, op: Op, pos: nat, x: int, lineSize: int, avoidReadback: bool)
    requires EntriesOk(s.pieces, s.disk) && op.Put? && Wrote(s, t, op.job, op.lineSize, op.avoidReadback, pos)
    ensures Orderly(s.pieces, t.pieces, x, lineSize, avoidReadback, SetTo(op, lineSize, avoidReadback))
  {
    hide EntriesOk, Wrote, NextOf, AllReady, AllShort;
    WroteNext(s, t, op.job, op.lineSize, op.avoidReadback, pos, x);
    if lineSize >= 2 && SetTo(op, lineSize, avoidReadback) && NoneLeft(s.pieces, lineSize, avoidReadback) {
      if avoidReadback {
        WroteReady(s, t, op.job, lineSize, pos);
      } else {
        WroteShort(s, t, op.job, lineSize, pos);
      }
    }
  }

  lemma FlushOrderly(pieces: seq<Entry>, disk: Disk, k: nat, a: nat, b: nat, x: int, lineSize: int,
                     avoidReadback: bool)
    requires EntriesOk(pieces, disk) && k < |pieces| && a <= b <= |pieces[k].p.blocks|
    ensures Orderly(pieces, pieces[k := pieces[k].(p := Flushed(pieces[k].p, a, b))], x, lineSize, avoidReadback, true)
  {
    hide EntriesOk, NextOf, Longest, RunFrom, NextToHash, Count;
    FlushNext(pieces, disk, k, a, b, x);
    FlushedReady(pieces[k].p, a, b);
    EmptiedShorter(pieces[k].p.blocks, a, b);
  }

  /** The call that a job is to be answered with: its handler, for its block. */
  function CallsIn(ops: seq<Op>): multiset<Call> {
    if ops == [] then multiset{} else CallsIn(ops[..|ops| - 1]) + CallIn(ops[|ops| - 1])
  }

  function CallIn(op: Op): multiset<Call> {
    if op.Put? then multiset{Call(op.job.callback, op.job.offset, op.job.bufferSize)} else multiset{}
  }

  function BuffersIn(ops: seq<Op>): multiset<seq<byte>> {
    if ops == [] then multiset{} else BuffersIn(ops[..|ops| - 1]) + BufferIn(ops[|ops| - 1])
  }

  function BufferIn(op: Op): multiset<seq<byte>> {
    if op.Put? then multiset{op.job.data} else multiset{}
  }

  lemma Swap<T>(a: seq<T>, b: seq<T>, c: seq<T>)
    ensures multiset(a + b + c) == multiset(a + c + b)
  {
  }

  /** A block put into a cached piece, the flush after it, and the piece forgotten if nothing is left. */
  lemma WriteMoves(pieces: seq<Entry>, k: nat, sizes: map<int, nat>, block: nat, data: seq<byte>, callback: nat,
                   pos: nat, n: nat, calls: seq<Call>, freed: seq<seq<byte>>)
    requires k < |pieces| && block < |pieces[k].p.blocks| && pieces[k].piece in sizes
    requires
      var p := PutIn(pieces[k].p, block, data, callback);
      PieceOk(p.blocks, sizes[pieces[k].piece]) && pos + n <= |p.blocks|
    ensures
      var e := pieces[k];
      var offset, size := block * BLOCK, SizeAt(sizes[e.piece], block);
      var p, was := PutIn(e.p, block, data, callback), e.p.blocks[block];
      var pieces', made := pieces[k := e.(p := AfterFlush(p, pos, n))],
                           CallsFor(p.blocks, sizes[e.piece], pos, pos + n);
      && AllCalls(calls + made + CallOf(was, offset, size), pieces', sizes) ==
         AllCalls(calls, pieces, sizes) + multiset{Call(callback, offset, size)}
      && AllBuffers(freed + BufferOf(was) + Buffers(p.blocks, pos, pos + n), pieces') ==
         AllBuffers(freed, pieces) + multiset{data}
  {
    hide Items, InCache, CallsFor, Buffers, PieceOk, Count, Longest, Flushed, SizeAt;
    var e := pieces[k];
    var offset, size := block * BLOCK, SizeAt(sizes[e.piece], block);
    var p, was := PutIn(e.p, block, data, callback), e.p.blocks[block];
    var put := pieces[k := e.(p := p)];
    PutMoves(pieces, k, sizes, block, data, callback, calls, freed);
    AfterFlushMoves(put, k, sizes, pos, n, calls + CallOf(was, offset, size), freed + BufferOf(was));
    Swap(calls, CallsFor(p.blocks, sizes[e.piece], pos, pos + n), CallOf(was, offset, size));
    assert put[k := e.(p := AfterFlush(p, pos, n))] == pieces[k := e.(p := AfterFlush(p, pos, n))];
  }

  /** The blocks of a piece after a flush are counted right. */
  lemma LeftCounted(p: Piece, pos: nat, n: nat)
    requires pos + n <= |p.blocks| && p.numBlocks == Count(p.blocks, 0, |p.blocks|)
    ensures var q := AfterFlush(p, pos, n);
      q.numBlocks == Count(q.blocks, 0, |q.blocks|)
  {
    CountEmptied(p.blocks, pos, pos + n);
  }

  lemma JobCall(job: Job, disk: Disk)
    requires JobOk(job, disk)
    ensures job.piece in disk && job.offset == job.offset / BLOCK * BLOCK
    ensures job.bufferSize == SizeAt(|disk[job.piece]|, job.offset / BLOCK)
  {
  }

  /** A write job adds its call and its buffer. */
  lemma WroteMoves(s: Snap, t: Snap, job: Job, lineSize: int, avoidReadback: bool, pos: nat)
    requires EntriesOk(s.pieces, s.disk) && JobOk(job, s.disk) && Wrote(s, t, job, lineSize, avoidReadback, pos)
    ensures
      var sizes := Sizes(s.disk);
      AllCalls(t.calls, t.pieces, sizes) ==
      AllCalls(s.calls, s.pieces, sizes) + multiset{Call(job.callback, job.offset, job.bufferSize)}
    ensures AllBuffers(t.freed, t.pieces) == AllBuffers(s.freed, s.pieces) + multiset{job.data}
  {
    hide InCache, Find, PutAndFlushed, Sizes, SizeAt, JobOk;
    JobCall(job, s.disk);
    var k, block, size := Find(s.pieces, job.piece), job.offset / BLOCK, |s.disk[job.piece]|;
    if k < |s.pieces| {
      PutAndFlushedMoves(s, t, job, k, lineSize, avoidReadback, pos);
    } else if BlocksIn(size) > 1 {
      FirstMoves(s.pieces, job.piece, Sizes(s.disk), block, job.data, job.callback);
    }
  }

  lemma PutAndFlushedMoves(s: Snap, t: Snap, job: Job, k: nat, lineSize: int, avoidReadback: bool, pos: nat)
    requires EntriesOk(s.pieces, s.disk) && k < |s.pieces| && s.pieces[k].piece == job.piece && JobOk(job, s.disk)
    requires job.offset / BLOCK < |s.pieces[k].p.blocks| && PutAndFlushed(s, t, job, k, lineSize, avoidReadback, pos)
    ensures
      var sizes := Sizes(s.disk);
      AllCalls(t.calls, t.pieces, sizes) ==
      AllCalls(s.calls, s.pieces, sizes) + multiset{Call(job.callback, job.offset, job.bufferSize)}
    ensures AllBuffers(t.freed, t.pieces) == AllBuffers(s.freed, s.pieces) + multiset{job.data}
  {
    hide AllCalls, AllBuffers, InCache, CallsFor, Buffers, PieceOk, Count, Longest, AfterFlush, FlushLength, AllCached,
      EntriesOk, Sizes, JobOk, SizeAt, CallOf, BufferOf;
    JobCall(job, s.disk);
    var block, sizes := job.offset / BLOCK, Sizes(s.disk);
    var p := PutIn(s.pieces[k].p, block, job.data, job.callback);
    var n := FlushLength(p, lineSize, avoidReadback);
    var q := AfterFlush(p, pos, n);
    WriteMoves(s.pieces, k, sizes, block, job.data, job.callback, pos, n, s.calls, s.freed);
    var after := s.pieces[k := Entry(job.piece, q)];
    assert after == s.pieces[k := s.pieces[k].(p := q)];
    LeftCounted(p, pos, n);
    if q.numBlocks == 0 && q.nextBlockToHash == 0 {
      assert after[..k] + after[k + 1..] == s.pieces[..k] + s.pieces[k + 1..];
      EraseMoves(after, k, sizes, t.calls, t.freed);
    }
  }

  method PutOne(c: WriteCache, op: Op, ghost x: int, ghost lineSize: int, ghost avoidReadback: bool)
    requires c.Valid() && op.Put? && OpOk(op, c.disk) && x in c.disk
    modifies c
    ensures c.Valid() && Sizes(c.disk) == old(Sizes(c.disk))
    ensures AllCalls(c.calls, c.pieces, Sizes(c.disk)) == old(AllCalls(c.calls, c.pieces, Sizes(c.disk))) + CallIn(op)
    ensures AllBuffers(c.freed, c.pieces) == old(AllBuffers(c.freed, c.pieces)) + multiset{op.job.data}
    ensures Orderly(old(c.pieces), c.pieces, x, lineSize, avoidReadback, SetTo(op, lineSize, avoidReadback))
    ensures |old(Content(c.pieces, c.disk, x))| == |old(c.disk)[x]|
    ensures Content(c.pieces, c.disk, x) == Applied(op, x, old(Content(c.pieces, c.disk, x)))
  {
    hide AllCalls, AllBuffers, Content, EntriesOk, Wrote, Total, Overwrite, Orderly;
    ghost var s := c.Snapshot();
    ghost var pos := c.Write(op.job, op.lineSize, op.avoidReadback);
    SameLengths(s.pieces, s.disk, c.pieces, c.disk);
    WroteMoves(s, c.Snapshot(), op.job, op.lineSize, op.avoidReadback, pos);
    WroteOrderly(s, c.Snapshot(), op, pos, x, lineSize, avoidReadback);
    forall y | y in c.disk
      ensures |c.disk[y]| == |s.disk[y]|
    {
      if y != op.job.piece {
        assert Content(c.pieces, c.disk, y) == Content(s.pieces, s.disk, y);
      }
    }
    assert Sizes(c.disk) == Sizes(s.disk);
  }

  lemma SameLengths(pieces: seq<Entry>, disk: Disk, pieces': seq<Entry>, disk': Disk)
    requires EntriesOk(pieces, disk) && EntriesOk(pieces', disk') && disk.Keys == disk'.Keys
    ensures forall x :: x in disk ==>
      |Content(pieces, disk, x)| == |disk[x]| && |Content(pieces', disk', x)| == |disk'[x]|
  {
    forall x | x in disk
      ensures |Content(pieces, disk, x)| == |disk[x]| && |Content(pieces', disk', x)| == |disk'[x]|
    {
      ContentLength(pieces, disk, x);
      ContentLength(pieces', disk', x);
    }
  }

  method FlushOne(c: WriteCache, op: Op, ghost x: int, ghost lineSize: int, ghost avoidReadback: bool)
    requires c.Valid() && op.Flush? && op.entry < |c.pieces| && op.start < op.end && x in c.disk
    modifies c
    ensures c.Valid() && Sizes(c.disk) == old(Sizes(c.disk))
    ensures AllCalls(c.calls, c.pieces, Sizes(c.disk)) == old(AllCalls(c.calls, c.pieces, Sizes(c.disk)))
    ensures AllBuffers(c.freed, c.pieces) == old(AllBuffers(c.freed, c.pieces))
    ensures Orderly(old(c.pieces), c.pieces, x, lineSize, avoidReadback, SetTo(op, lineSize, avoidReadback))
    ensures Content(c.pieces, c.disk, x) == old(Content(c.pieces, c.disk, x))
  {
    hide AllCalls, AllBuffers, CallsFor, Buffers, PieceOk, Count, Longest, Flushed, Content, View, WriteEach, Orderly;
    ghost var pieces, calls, freed, disk := c.pieces, c.calls, c.freed, c.disk;
    var e := c.pieces[op.entry];
    assert EntryOk(e, disk);
    FlushMoves(pieces, op.entry, Sizes(disk), Min(op.start, |e.p.blocks|), Min(op.end, |e.p.blocks|), calls, freed);
    FlushOrderly(pieces, disk, op.entry, Min(op.start, |e.p.blocks|), Min(op.end, |e.p.blocks|), x, lineSize,
                 avoidReadback);
    var _ := c.FlushRange(op.entry, op.start, op.end);
    SameLengths(pieces, disk, c.pieces, c.disk);
    assert Sizes(c.disk) == Sizes(disk);
  }

  /** One write or flush. */
  method Do(c: WriteCache, op: Op, ghost x: int, ghost lineSize: int, ghost avoidReadback: bool)
    requires c.Valid() && OpOk(op, c.disk) && x in c.disk
    modifies c
    ensures c.Valid() && Sizes(c.disk) == old(Sizes(c.disk))
    ensures AllCalls(c.calls, c.pieces, Sizes(c.disk)) == old(AllCalls(c.calls, c.pieces, Sizes(c.disk))) + CallIn(op)
    ensures AllBuffers(c.freed, c.pieces) == old(AllBuffers(c.freed, c.pieces)) + BufferIn(op)
    ensures Orderly(old(c.pieces), c.pieces, x, lineSize, avoidReadback, SetTo(op, lineSize, avoidReadback))
    ensures |old(Content(c.pieces, c.disk, x))| == |old(c.disk)[x]|
    ensures Content(c.pieces, c.disk, x) == Applied(op, x, old(Content(c.pieces, c.disk, x)))
  {
    hide AllCalls, AllBuffers, Content, EntriesOk, Total, Applied, Sizes, Orderly;
    SameLengths(c.pieces, c.disk, c.pieces, c.disk);
    OrderlySame(c.pieces, x, lineSize, avoidReadback, SetTo(op, lineSize, avoidReadback));
    FlushApplies(op, x, Content(c.pieces, c.disk, x));
    if op.Put? {
      PutOne(c, op, x, lineSize, avoidReadback);
    } else if op.entry < |c.pieces| && op.start < op.end {
      FlushOne(c, op, x, lineSize, avoidReadback);
    }
  }

  lemma NoItems()
    ensures CallsIn([]) == multiset{} && BuffersIn([]) == multiset{}
  {
  }

  lemma ItemsNext(ops: seq<Op>, k: nat)
    requires k < |ops|
    ensures CallsIn(ops[..k + 1]) == CallsIn(ops[..k]) + CallIn(ops[k])
    ensures BuffersIn(ops[..k + 1]) == BuffersIn(ops[..k]) + BufferIn(ops[k])
  {
    assert ops[..k + 1][..k] == ops[..k];
  }

  /**
    Any writes and flushes in any order; flushes of what is not cached are skipped. Any piece `x`
    then holds what was written to it; every job is answered once, with its handler, for its block,
    or its block is in the cache and the answer still to come; no buffer is lost or freed twice; if
    all writes are made under one setting, no blocks are left in the cache that should have been
    flushed; and hashing is not taken back.
   */
  method Run(c: WriteCache, ops: seq<Op>, ghost x: int, ghost lineSize: int, ghost avoidReadback: bool)
    requires c.Valid() && x in c.disk && forall i :: 0 <= i < |ops| ==> OpOk(ops[i], c.disk)
    modifies c
    ensures c.Valid() && Sizes(c.disk) == old(Sizes(c.disk))
    ensures AllCalls(c.calls, c.pieces, Sizes(c.disk)) ==
      old(AllCalls(c.calls, c.pieces, Sizes(c.disk))) + CallsIn(ops)
    ensures AllBuffers(c.freed, c.pieces) == old(AllBuffers(c.freed, c.pieces)) + BuffersIn(ops)
    ensures Orderly(old(c.pieces), c.pieces, x, lineSize, avoidReadback, AllSetTo(ops, lineSize, avoidReadback))
    ensures AllFit(ops, x, |old(Content(c.pieces, c.disk, x))|)
    ensures Content(c.pieces, c.disk, x) == Replay(ops, x, old(Content(c.pieces, c.disk, x)))
  {
    hide AllCalls, AllBuffers, Content, EntriesOk, Total, Applied, CallsIn, BuffersIn, CallIn, BufferIn, Sizes, Orderly,
      AllSetTo, SetTo, OpOk, Fits;
    ghost var disk, content := c.disk, Content(c.pieces, c.disk, x);
    SameLengths(c.pieces, c.disk, c.pieces, c.disk);
    NoItems();
    OpsFit(ops, disk, x);
    OrderlySame(c.pieces, x, lineSize, avoidReadback, AllSetTo(ops, lineSize, avoidReadback));
    assert ops[..0] == [];
    for k := 0 to |ops|
      invariant c.Valid() && Sizes(c.disk) == Sizes(disk)
      invariant AllCalls(c.calls, c.pieces, Sizes(disk)) ==
        old(AllCalls(c.calls, c.pieces, Sizes(c.disk))) + CallsIn(ops[..k])
      invariant AllBuffers(c.freed, c.pieces) == old(AllBuffers(c.freed, c.pieces)) + BuffersIn(ops[..k])
      invariant Orderly(old(c.pieces), c.pieces, x, lineSize, avoidReadback, AllSetTo(ops, lineSize, avoidReadback))
      invariant Content(c.pieces, c.disk, x) == Replay(ops[..k], x, content)
    {
      ItemsNext(ops, k);
      SameSizes(ops[k], c.disk, disk);
      ghost var pieces := c.pieces;
      Do(c, ops[k], x, lineSize, avoidReadback);
      OrderlyNext(old(c.pieces), pieces, c.pieces, ops, k, x, lineSize, avoidReadback);
      ReplayNext(ops, k, x, content);
    }
    assert ops[..|ops|] == ops;
  }

  lemma OpsFit(ops: seq<Op>, disk: Disk, x: int)
    requires x in disk && forall i :: 0 <= i < |ops| ==> OpOk(ops[i], disk)
    ensures AllFit(ops, x, |disk[x]|)
  {
  }

  lemma OrderlySame(a: seq<Entry>, x: int, lineSize: int, avoidReadback: bool, applies: bool)
    ensures Orderly(a, a, x, lineSize, avoidReadback, applies)
  {
  }

  lemma OrderlyNext(a: seq<Entry>, b: seq<Entry>, c: seq<Entry>, ops: seq<Op>, k: nat, x: int, lineSize: int,
                    avoidReadback: bool)
    requires k < |ops| && Orderly(a, b, x, lineSize, avoidReadback, AllSetTo(ops, lineSize, avoidReadback))
    requires Orderly(b, c, x, lineSize, avoidReadback, SetTo(ops[k], lineSize, avoidReadback))
    ensures Orderly(a, c, x, lineSize, avoidReadback, AllSetTo(ops, lineSize, avoidReadback))
  {
    hide NextOf, NoneLeft;
  }

  lemma SameSizes(op: Op, disk: Disk, was: Disk)
    requires Sizes(disk) == Sizes(was)
    ensures disk.Keys == was.Keys && (OpOk(op, was) ==> OpOk(op, disk))
  {
  }

  lemma ReplayNext(ops: seq<Op>, k: nat, x: int, content: seq<byte>)
    requires k < |ops| && AllFit(ops, x, |content|)
    ensures Replay(ops[..k + 1], x, content) == Applied(ops[k], x, Replay(ops[..k], x, content))
  {
    assert ops[..k + 1][..k] == ops[..k];
  }

  lemma FlushApplies(op: Op, x: int, content: seq<byte>)
    requires Fits(op, x, |content|)
    ensures op.Flush? ==> Applied(op, x, content) == content
  {
  }
}
