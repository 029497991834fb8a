/**
  The entries in memory. A list or dictionary has its items in an array that is replaced by a
  larger one when it is full; pointers into the old array are then no longer valid. The decoder
  keeps pointers to the entries it is working on, and only ever follows valid ones.
 */
module LazyTree {
  import opened Basics
  import opened Bencode
  import opened LazyBdecode

  // ---------------------------------------------------------------------------------------
  // Entries and pointers
  // ---------------------------------------------------------------------------------------

  /** An entry; the array of a list or dictionary is told by `gen` from those it had before. */
  datatype Node =
    | NoneNode
    | IntNode(start: nat, size: uint32)
    | StringNode(start: nat, size: uint32)
    | Container(isDict: bool, begin: nat, len: uint32, cells: seq<Cell>, count: nat, gen: nat)

  /** A place in an array: the name, if it is that of a dictionary, and the entry. */
  datatype Cell = Cell(name: nat, val: Node)

  const FREE := Cell(0, NoneNode)

  /** A pointer: from the root, which place in which array, again and again. */
  type Pointer = seq<(nat, nat)>

  /** The pointer leads through arrays that are still there, to places in use. */
  predicate Follows(node: Node, p: Pointer)
    decreases |p|
  {
    p == [] ||
    (&& node.Container? && p[0].0 == node.gen && p[0].1 < node.count <= |node.cells|
     && Follows(node.cells[p[0].1].val, p[1..]))
  }

  function Target(node: Node, p: Pointer): Node
    requires Follows(node, p)
    decreases |p|
  {
    if p == [] then node else Target(node.cells[p[0].1].val, p[1..])
  }

  function Put(node: Node, p: Pointer, x: Node): Node
    requires Follows(node, p)
    decreases |p|
  {
    if p == [] then x
    else
      var cell := node.cells[p[0].1];
      node.(cells := node.cells[p[0].1 := cell.(val := Put(cell.val, p[1..], x))])
  }

  // ---------------------------------------------------------------------------------------
  // What the entries stand for
  // ---------------------------------------------------------------------------------------

  function Shown(node: Node): Entry
    decreases node, 0
  {
    match node
    case NoneNode => NoneEntry
    case IntNode(start, size) => IntEntry(start, size)
    case StringNode(start, size) => StringEntry(start, size)
    case Container(isDict, begin, len, cells, count, _) =>
      if count > |cells| then NoneEntry
      else if isDict then DictEntry(begin, len, PairsOf(cells, count))
      else ListEntry(begin, len, ItemsOf(cells, count))
  }

  /** The first `n` items. */
  function ItemsOf(cells: seq<Cell>, n: nat): (items: seq<Entry>)
    requires n <= |cells|
    ensures |items| == n
    decreases cells, n
  {
    if n == 0 then [] else ItemsOf(cells, n - 1) + [PairOf(cells[n - 1]).val]
  }

  function PairsOf(cells: seq<Cell>, n: nat): (pairs: seq<Named>)
    requires n <= |cells|
    ensures |pairs| == n
    decreases cells, n
  {
    if n == 0 then [] else PairsOf(cells, n - 1) + [PairOf(cells[n - 1])]
  }

  function PairOf(cell: Cell): Named
    decreases cell, 0
  {
    Named(cell.name, Shown(cell.val))
  }

  lemma {:induction false} ItemsSame(x: seq<Cell>, y: seq<Cell>, n: nat)
    requires n <= |x| && n <= |y| && forall i :: 0 <= i < n ==> x[i] == y[i]
    ensures ItemsOf(x, n) == ItemsOf(y, n) && PairsOf(x, n) == PairsOf(y, n)
    decreases n
  {
    if n > 0 {
      ItemsSame(x, y, n - 1);
    }
  }

  // ---------------------------------------------------------------------------------------
  // The way to the entry at work
  // ---------------------------------------------------------------------------------------

  /** The sizes that arrays have: none, five, and from each half as many again. */
  predicate IsSize(n: nat) {
    n in {
      0, 5, 7, 10, 15, 22, 33, 49, 73, 109, 163, 244, 366, 549, 823, 1234, 1851, 2776, 4164, 6246, 9369,
      14053, 21079, 31618, 47427, 71140, 106710, 160065, 240097, 360145, 540217, 810325, 1215487, 1823230,
      2734845, 4102267, 6153400, 9230100, 13845150, 20767725
    }
  }

  /** An array can be followed by a larger one unless it is the largest: then computing the size overflows 32 bits. */
  lemma NextSize(n: nat)
    requires IsSize(n)
    ensures n <= MOST && (n * 150 > 0x7FFF_FFFF <==> n == MOST)
    ensures 0 < n < MOST ==> n >= 5 && IsSize(n * 150 / 100)
  {
  }

  /** The first `n` entries of an open list or dictionary are those of the frame; the rest are free. */
  ghost predicate Holds(c: Node, n: int, f: Frame) {
    && c.Container? && 0 <= n <= c.count <= |c.cells| && c.len == 0 && IsSize(|c.cells|)
    && (forall i :: c.count <= i < |c.cells| ==> c.cells[i].val == NoneNode)
    && match f
       case NoneFrame => false
       case ListFrame(begin, items) => !c.isDict && c.begin == begin && ItemsOf(c.cells, n) == items
       case DictFrame(begin, pairs, _) => c.isDict && c.begin == begin && PairsOf(c.cells, n) == pairs
  }

  /** The entry is open and the last of its places, at which the pointer `p` begins, is being worked on. */
  ghost predicate Inner(c: Node, p: Pointer, f: Frame) {
    && p != [] && c.Container? && Holds(c, c.count - 1, f) && p[0] == (c.gen, c.count - 1)
    && (f.DictFrame? ==> c.cells[c.count - 1].name == f.name)
  }

  /** The pointer leads through the lists and dictionaries that are open to the entry `x`. */
  ghost predicate Spine(node: Node, p: Pointer, below: seq<Frame>, x: Node)
    decreases |below|
  {
    if below == [] then p == [] && node == x
    else Inner(node, p, below[0]) && Spine(node.cells[p[0].1].val, p[1..], below[1..], x)
  }

  lemma {:induction false} SpineFollows(node: Node, p: Pointer, below: seq<Frame>, x: Node)
    requires Spine(node, p, below, x)
    ensures Follows(node, p) && Target(node, p) == x && |p| == |below|
    decreases |below|
  {
    hide Holds;
    if below != [] {
      InnerStep(node, p, below[0]);
      SpineFollows(node.cells[p[0].1].val, p[1..], below[1..], x);
    }
  }

  lemma InnerStep(c: Node, p: Pointer, f: Frame)
    requires Inner(c, p, f)
    ensures p != [] && c.Container? && p[0].0 == c.gen && p[0].1 < c.count <= |c.cells|
  {
  }

  /** The entry at the end may be changed. */
  lemma {:induction false} SpinePut(node: Node, p: Pointer, below: seq<Frame>, x: Node, y: Node)
    requires Spine(node, p, below, x)
    ensures Follows(node, p) && Spine(Put(node, p, y), p, below, y)
    decreases |below|
  {
    hide Holds;
    SpineFollows(node, p, below, x);
    if below != [] {
      var cell := node.cells[p[0].1];
      SpinePut(cell.val, p[1..], below[1..], x, y);
      InnerPut(node, p, below[0], cell.(val := Put(cell.val, p[1..], y)));
    }
  }

  lemma InnerPut(c: Node, p: Pointer, f: Frame, cell: Cell)
    requires Inner(c, p, f) && cell.name == c.cells[p[0].1].name
    ensures Inner(c.(cells := c.cells[p[0].1 := cell]), p, f)
  {
    ItemsSame(c.cells, c.cells[p[0].1 := cell], c.count - 1);
  }

  /** One level more, and one less. */
  lemma {:induction false} SpineDown(node: Node, p: Pointer, below: seq<Frame>, c: Node, step: (nat, nat), f: Frame)
    requires Spine(node, p, below, c) && Inner(c, [step], f)
    ensures Spine(node, p + [step], below + [f], c.cells[step.1].val)
    decreases |below|
  {
    hide Inner;
    InnerStep(c, [step], f);
    if below == [] {
      assert p + [step] == [step] && below + [f] == [f];
      assert (p + [step])[1..] == [] && (below + [f])[1..] == [];
    } else {
      InnerStep(node, p, below[0]);
      SpineDown(node.cells[p[0].1].val, p[1..], below[1..], c, step, f);
      assert (p + [step])[1..] == p[1..] + [step] && (below + [f])[1..] == below[1..] + [f];
      SameInner(node, p, p + [step], below[0]);
    }
  }

  lemma SameInner(c: Node, p: Pointer, q: Pointer, f: Frame)
    requires Inner(c, p, f) && q != [] && q[0] == p[0]
    ensures Inner(c, q, f)
  {
  }

  lemma {:induction false} SpineUp(node: Node, p: Pointer, below: seq<Frame>, f: Frame, x: Node)
    requires Spine(node, p, below + [f], x)
    ensures p != [] && Follows(node, p[..|p| - 1])
    ensures
      var q := p[..|p| - 1];
      var c := Target(node, q);
      && Spine(node, q, below, c) && Inner(c, [p[|p| - 1]], f) && p[|p| - 1].1 < |c.cells|
      && c.cells[p[|p| - 1].1].val == x
    decreases |below|
  {
    hide Inner, Holds;
    SpineFollows(node, p, below + [f], x);
    InnerStep(node, p, (below + [f])[0]);
    var child := node.cells[p[0].1].val;
    if below == [] {
      assert (below + [f])[1..] == [] && p == [p[0]];
      SameInner(node, p, [p[0]], f);
    } else {
      assert (below + [f])[1..] == below[1..] + [f];
      SpineUp(child, p[1..], below[1..], f, x);
      var q := p[..|p| - 1];
      assert q[1..] == p[1..][..|p| - 2] && p[1..][|p| - 2] == p[|p| - 1];
      SameInner(node, p, q, below[0]);
    }
  }

  // ---------------------------------------------------------------------------------------
  // Changing entries
  // ---------------------------------------------------------------------------------------

  function FreeCells(n: nat): (cells: seq<Cell>)
    ensures |cells| == n && forall i :: 0 <= i < n ==> cells[i] == FREE
  {
    seq(n, _ => FREE)
  }

  /** Room for one more: the first array has five places, each new one half as many again. */
  function Enlarged(c: Node): Node
    requires c.Container?
  {
    var capacity := |c.cells|;
    if capacity == 0 then c.(cells := FreeCells(5), gen := c.gen + 1)
    else if c.count == capacity then c.(cells := c.cells + FreeCells(capacity * 150 / 100 - capacity), gen := c.gen + 1)
    else c
  }

  /** dict_append and list_append: one more entry, which is not known yet. */
  function Appended(c: Node, name: nat): Node
    requires c.Container?
  {
    var e := Enlarged(c);
    if c.count >= |e.cells| then e
    else
      e.(count := c.count + 1,
         cells := if c.isDict then e.cells[c.count := e.cells[c.count].(name := name)] else e.cells)
  }

  function Renamed(f: Frame, name: nat): Frame {
    if f.DictFrame? then f.(name := name) else f
  }

  /** How many entries a list or dictionary has. */
  function Entries(f: Frame): nat {
    match f
    case NoneFrame => 0
    case ListFrame(_, items) => |items|
    case DictFrame(_, pairs, _) => |pairs|
  }

  /** There is a place for one more, or a larger array can be made. */
  predicate HasRoom(c: Node)
    requires c.Container?
  {
    c.count != |c.cells| || |c.cells| * 150 <= 0x7FFF_FFFF
  }

  lemma RoomIff(c: Node, f: Frame)
    requires c.Container? && Holds(c, c.count, f)
    ensures HasRoom(c) <==> Entries(f) < MOST
  {
    hide IsSize;
    NextSize(|c.cells|);
  }

  lemma AppendedHolds(c: Node, f: Frame, name: nat)
    requires c.Container? && Holds(c, c.count, f) && HasRoom(c)
    ensures
      var c' := Appended(c, name);
      && c'.Container? && c'.count == c.count + 1 <= |c'.cells| && c'.cells[c.count].val == NoneNode
      && Inner(c', [(c'.gen, c.count)], Renamed(f, name))
  {
    hide IsSize, Enlarged, ItemsOf, PairsOf;
    EnlargedHolds(c, f);
    ItemsSame(Enlarged(c).cells, Appended(c, name).cells, c.count);
  }

  lemma EnlargedHolds(c: Node, f: Frame)
    requires c.Container? && Holds(c, c.count, f) && HasRoom(c)
    ensures var e := Enlarged(c); e.Container? && e.count == c.count < |e.cells| && Holds(e, c.count, f)
  {
    hide IsSize, ItemsOf, PairsOf;
    NextSize(|c.cells|);
    FirstSize();
    ItemsSame(c.cells, Enlarged(c).cells, c.count);
  }

  lemma FirstSize()
    ensures IsSize(0) && IsSize(5)
  {
  }

  /** A finished entry is one more of the frame it is in. */
  lemma InnerDone(c: Node, p: Pointer, f: Frame)
    requires Inner(c, p, f)
    ensures
      var e := Shown(c.cells[c.count - 1].val);
      Holds(c, c.count, Attach([f], e, 0, 0, NoneEntry).stack[0])
  {
  }

  // ---------------------------------------------------------------------------------------
  // The decoder's stack
  // ---------------------------------------------------------------------------------------

  /** Every pointer on the stack leads one level further than the one before. */
  ghost predicate Chain(stack: seq<Pointer>) {
    && stack != [] && |stack[|stack| - 1]| == |stack| - 1
    && forall i :: 0 <= i < |stack| ==> stack[i] == stack[|stack| - 1][..i]
  }

  /** The stack leads to the entry at work, through what the frames hold; without frames, all is done. */
  ghost predicate Linked(root: Node, stack: seq<Pointer>, frames: seq<Frame>, done: Entry) {
    && |stack| == |frames|
    && if frames == [] then Shown(root) == done
       else
         var n := |frames| - 1;
         && Chain(stack)
         && if frames[n].NoneFrame? then n == 0 && root == NoneNode
            else
              && Follows(root, stack[n]) && Target(root, stack[n]).Container?
              && var c := Target(root, stack[n]);
              && Spine(root, stack[n], frames[..n], c) && Holds(c, c.count, frames[n])
  }

  /** Every pointer on the stack is valid. */
  lemma LinkedFollows(root: Node, stack: seq<Pointer>, frames: seq<Frame>, done: Entry, i: nat)
    requires Linked(root, stack, frames, done) && i < |stack|
    ensures Follows(root, stack[i])
  {
    var n := |stack| - 1;
    if frames[n].NoneFrame? {
      assert |stack[i]| == 0;
    } else {
      PrefixFollows(root, stack[n], i);
    }
  }

  lemma {:induction false} PrefixFollows(node: Node, p: Pointer, i: nat)
    requires Follows(node, p) && i <= |p|
    ensures Follows(node, p[..i])
    decreases |p|
  {
    if i > 0 {
      PrefixFollows(node.cells[p[0].1].val, p[1..], i - 1);
      assert p[..i][1..] == p[1..][..i - 1];
    }
  }

  lemma ChainPop(stack: seq<Pointer>)
    requires Chain(stack) && |stack| > 1
    ensures Chain(stack[..|stack| - 1])
    ensures stack[|stack| - 2] == stack[|stack| - 1][..|stack| - 2]
  {
    var n := |stack| - 1;
    forall i | 0 <= i < n
      ensures stack[i] == stack[n - 1][..i]
    {
      assert stack[i] == stack[n][..i] && stack[n - 1] == stack[n][..n - 1];
    }
  }

  lemma ChainPush(stack: seq<Pointer>, step: (nat, nat))
    requires Chain(stack)
    ensures Chain(stack + [stack[|stack| - 1] + [step]])
  {
    var n := |stack| - 1;
    var p := stack[n] + [step];
    forall i | 0 <= i <= n
      ensures stack[i] == p[..i]
    {
      assert p[..i] == stack[n][..i];
    }
    assert p[..n + 1] == p;
  }

  /** The entry at the end of the stack is finished: it becomes one more of the list or dictionary below. */
  lemma Finished(root: Node, stack: seq<Pointer>, below: seq<Frame>, x: Node, y: Node, pos: nat, limit: int,
                 done: Entry)
    requires Chain(stack) && Spine(root, stack[|stack| - 1], below, x)
    requires below != [] ==> !below[|below| - 1].NoneFrame?
    ensures Follows(root, stack[|stack| - 1])
    ensures
      var st := Attach(below, Shown(y), pos, limit, done);
      Linked(Put(root, stack[|stack| - 1], y), stack[..|stack| - 1], st.stack, st.root)
  {
    hide Inner, Holds, Spine, Put, Shown, Follows, Target;
    var p, n := stack[|stack| - 1], |below| - 1;
    SpineFollows(root, p, below, x);
    SpinePut(root, p, below, x, y);
    var root' := Put(root, p, y);
    if below == [] {
      RootPut(root, p, y);
    } else {
      var q, f := p[..|p| - 1], below[n];
      assert below == below[..n] + [f];
      SpineUp(root', p, below[..n], f, y);
      var c := Target(root', q);
      InnerStep(c, [p[|p| - 1]], f);
      LastCell(c, [p[|p| - 1]], f);
      InnerDone(c, [p[|p| - 1]], f);
      ChainPop(stack);
      var frames := Attach(below, Shown(y), pos, limit, done).stack;
      assert frames[..n] == below[..n] && frames[n] == Attach([f], Shown(y), 0, 0, NoneEntry).stack[0];
    }
  }

  lemma RootPut(root: Node, p: Pointer, y: Node)
    requires Follows(root, p) && p == []
    ensures Put(root, p, y) == y
  {
  }

  lemma LastCell(c: Node, p: Pointer, f: Frame)
    requires Inner(c, p, f)
    ensures p[0].1 == c.count - 1
  {
  }

  // ---------------------------------------------------------------------------------------
  // The decoder
  // ---------------------------------------------------------------------------------------

  /** After a turn: the decoder goes on, has failed, or has gone astray. */
  datatype Turned =
    | Going(root: Node, stack: seq<Pointer>, pos: nat, limit: int)
    | Halted(error: Error, at: int)
    | Lost

  ghost predicate Simulates(r: Turned, step: Step) {
    match step
    case Failed(e, at) => r == Halted(e, at)
    case Astray => r == Lost
    case Next(st) => r.Going? && r.pos == st.pos && r.limit == st.limit && Linked(r.root, r.stack, st.stack, st.root)
  }

  lemma Opened(root: Node, stack: seq<Pointer>, below: seq<Frame>, x: Node, f: Frame, done: Entry)
    requires Chain(stack) && Spine(root, stack[|stack| - 1], below, NoneNode)
    requires x.Container? && x.count == 0 && Holds(x, 0, f)
    ensures Follows(root, stack[|stack| - 1])
    ensures Linked(Put(root, stack[|stack| - 1], x), stack, below + [f], done)
  {
    hide Inner, Spine, Put, Shown, Follows, Target;
    var p := stack[|stack| - 1];
    SpineFollows(root, p, below, NoneNode);
    SpinePut(root, p, below, NoneNode, x);
    SpineFollows(Put(root, p, x), p, below, x);
    assert (below + [f])[..|below|] == below;
  }

  lemma EmptyHolds(begin: nat)
    ensures Holds(Container(true, begin, 0, [], 0, 0), 0, DictFrame(begin, [], 0))
    ensures Holds(Container(false, begin, 0, [], 0, 0), 0, ListFrame(begin, []))
  {
  }

  lemma LeafEntry(start: nat, size: uint32)
    ensures Shown(IntNode(start, size)) == IntEntry(start, size)
    ensures Shown(StringNode(start, size)) == StringEntry(start, size)
  {
  }

  /** The pointer on top of the stack is to an entry that is not known yet. */
  ghost predicate Ready(root: Node, stack: seq<Pointer>, below: seq<Frame>) {
    && Chain(stack) && Spine(root, stack[|stack| - 1], below, NoneNode)
    && (below != [] ==> !below[|below| - 1].NoneFrame?)
  }

  /** The entry on top of the stack is filled in with a number or a string. */
  method Fill(root: Node, stack: seq<Pointer>, x: Node, pos: nat, limit: int, ghost below: seq<Frame>,
              ghost done: Entry)
    returns (r: Turned)
    requires Ready(root, stack, below)
    ensures Simulates(r, Next(Attach(below, Shown(x), pos, limit, done)))
  {
    hide Spine, Put, Follows, Linked, Attach, Shown;
    Finished(root, stack, below, NoneNode, x, pos, limit, done);
    r := Going(Put(root, stack[|stack| - 1], x), stack[..|stack| - 1], pos, limit);
  }

  /** It is an empty list or dictionary. */
  method Open(root: Node, stack: seq<Pointer>, isDict: bool, start: nat, limit: int, ghost below: seq<Frame>,
              ghost done: Entry)
    returns (r: Turned)
    requires Ready(root, stack, below) && start > 0
    ensures
      var f := if isDict then DictFrame(start - 1, [], 0) else ListFrame(start - 1, []);
      Simulates(r, Next(State(start, below + [f], limit, done)))
  {
    hide Spine, Put, Follows, Linked, Holds;
    var x := Container(isDict, start - 1, 0, [], 0, 0);
    EmptyHolds(start - 1);
    Opened(root, stack, below, x, if isDict then DictFrame(start - 1, [], 0) else ListFrame(start - 1, []), done);
    r := Going(Put(root, stack[|stack| - 1], x), stack, start, limit);
  }

  /** The first character of a value was read; the pointer on top of the stack is to the entry to fill in. */
  method Value(buf: string, t: char, start: nat, root: Node, stack: seq<Pointer>, limit: int,
               ghost below: seq<Frame>, ghost done: Entry) returns (r: Turned)
    requires 0 < start <= |buf| && Ready(root, stack, below)
    ensures Simulates(r, ReadValue(buf, t, start, below, limit, done))
  {
    hide ParsedInt, FindFrom, Ready, Linked, Attach, Shown;
    var left := limit - 1;
    if left <= 0 {
      return Halted(LimitExceeded, start);
    }
    match t {
      case 'd' => r := Open(root, stack, true, start, left, below, done);
      case 'l' => r := Open(root, stack, false, start, left, below, done);
      case 'i' =>
        var pos := FindChar(buf, start, 'e');
        if pos == |buf| {
          return Halted(UnexpectedEof, pos);
        }
        LeafEntry(start, Unsigned32(pos - start));
        r := Fill(root, stack, IntNode(start, Unsigned32(pos - start)), pos + 1, left, below, done);
      case _ =>
        if !IsDigit(t) {
          return Halted(ExpectedValue, start);
        }
        var ok, pos, len := ParseInt(buf, start, |buf|, ':', DigitValue(t));
        if !ok || pos + len + 1 > |buf| {
          return Halted(ExpectedColon, if ok then pos else -1);
        }
        if pos == |buf| {
          return Lost;
        }
        if buf[pos] != ':' {
          return Halted(ExpectedColon, pos);
        }
        pos := pos + 1;
        if pos + len < 0 {
          return Lost;
        }
        LeafEntry(pos, Unsigned32(len));
        r := Fill(root, stack, StringNode(pos, Unsigned32(len)), pos + len, left, below, done);
    }
  }

  /** One more entry in the list or dictionary on top of the stack, and a pointer to it on the stack. */
  method Push(root: Node, stack: seq<Pointer>, name: nat, ghost frames: seq<Frame>, ghost done: Entry)
    returns (ok: bool, root': Node, stack': seq<Pointer>)
    requires Linked(root, stack, frames, done) && frames != [] && !frames[|frames| - 1].NoneFrame?
    ensures ok <==> Entries(frames[|frames| - 1]) < MOST
    ensures
      var n := |frames| - 1;
      ok ==> Ready(root', stack', frames[n := Renamed(frames[n], name)])
  {
    hide Inner, Holds, Spine, Put, Shown, Follows, Appended, HasRoom, Entries;
    var top := stack[|stack| - 1];
    var c := Target(root, top);
    ghost var n := |frames| - 1;
    RoomIff(c, frames[n]);
    if !HasRoom(c) {
      return false, root, stack;
    }
    ok := true;
    ghost var f := Renamed(frames[n], name);
    AppendedHolds(c, frames[n], name);
    var grown := Appended(c, name);
    SpinePut(root, top, frames[..n], c, grown);
    root' := Put(root, top, grown);
    SpineDown(root', top, frames[..n], grown, (grown.gen, c.count), f);
    ChainPush(stack, (grown.gen, c.count));
    stack' := stack + [top + [(grown.gen, c.count)]];
    assert frames[n := f] == frames[..n] + [f];
  }

  /** The list or dictionary on top of the stack is closed. */
  method Pop(root: Node, stack: seq<Pointer>, start: nat, limit: int, ghost frames: seq<Frame>, ghost done: Entry)
    returns (root': Node, stack': seq<Pointer>)
    requires Linked(root, stack, frames, done) && frames != [] && !frames[|frames| - 1].NoneFrame?
    requires forall i :: 0 <= i < |frames| ==> !frames[i].NoneFrame?
    ensures
      var n := |frames| - 1;
      var e := match frames[n]
        case NoneFrame => NoneEntry
        case ListFrame(begin, items) => ListEntry(begin, Unsigned32(start - begin), items)
        case DictFrame(begin, pairs, _) => DictEntry(begin, Unsigned32(start - begin), pairs);
      var st := Attach(frames[..n], e, start, limit, done);
      Linked(root', stack', st.stack, st.root)
  {
    hide Inner, Spine, Put, Follows, Attach;
    var top := stack[|stack| - 1];
    var c := Target(root, top);
    ghost var n := |frames| - 1;
    var closed := c.(len := Unsigned32(start - c.begin));
    Finished(root, stack, frames[..n], c, closed, start, limit, done);
    root' := Put(root, top, closed);
    stack' := stack[..|stack| - 1];
  }

  lemma LinkedTop(root: Node, stack: seq<Pointer>, frames: seq<Frame>, done: Entry)
    requires Linked(root, stack, frames, done) && frames != []
    ensures |stack| == |frames| && Follows(root, stack[|stack| - 1])
    ensures
      var c, f := Target(root, stack[|stack| - 1]), frames[|frames| - 1];
      match f
      case NoneFrame => c == NoneNode && Ready(root, stack, frames[..|frames| - 1])
      case ListFrame(_, _) => c.Container? && !c.isDict
      case DictFrame(_, _, _) => c.Container? && c.isDict
  {
    LinkedFollows(root, stack, frames, done, |stack| - 1);
  }

  /** No frame but the first is empty, and that one only while it is alone. */
  predicate Regular(frames: seq<Frame>) {
    forall i :: 0 <= i < |frames| && frames[i].NoneFrame? ==> |frames| == 1
  }

  /** A dictionary's key, whose first digit is `t`, and then the value. */
  method Key(buf: string, t: char, start: nat, root: Node, stack: seq<Pointer>, limit: int, ghost st: State)
    returns (r: Turned)
    requires 0 < start <= |buf| && Linked(root, stack, st.stack, st.root) && limit == st.limit
    requires st.stack != [] && st.stack[|st.stack| - 1].DictFrame?
    ensures Simulates(r, ReadKey(buf, t, start, st))
  {
    hide ParsedInt, Linked, ReadValue, Chain, Spine;
    if !IsDigit(t) {
      return Halted(ExpectedString, start);
    }
    var ok, colon, len := ParseInt(buf, start, |buf|, ':', DigitValue(t));
    if !ok || colon + len + 3 > |buf| {
      return Halted(ExpectedColon, if ok then colon else -1);
    }
    if colon == |buf| {
      return Lost;
    }
    if buf[colon] != ':' {
      return Halted(ExpectedColon, colon);
    }
    if colon + 1 == |buf| {
      return Halted(UnexpectedEof, colon + 1);
    }
    var root', stack';
    ok, root', stack' := Push(root, stack, colon + 1, st.stack, st.root);
    var at := colon + 1 + len;
    if !ok || at < 0 {
      return Lost;
    }
    ghost var n := |st.stack| - 1;
    ghost var below := st.stack[n := st.stack[n].(name := colon + 1)];
    r := Value(buf, buf[at], at + 1, root', stack', limit, below, st.root);
  }

  /** One turn of the decoding loop. */
  method OneTurn(buf: string, depthLimit: int, root: Node, stack: seq<Pointer>, pos: nat, limit: int, ghost st: State)
    returns (r: Turned)
    requires pos == st.pos < |buf| && limit == st.limit && st.stack != [] && Regular(st.stack)
    requires Linked(root, stack, st.stack, st.root)
    ensures Simulates(r, Turn(buf, depthLimit, st))
  {
    hide Linked, ReadValue, ReadKey, Chain, Spine, Attach;
    LinkedTop(root, stack, st.stack, st.root);
    ghost var n := |st.stack| - 1;
    if |stack| > depthLimit {
      return Halted(DepthExceeded, pos);
    }
    var t, start := buf[pos], pos + 1;
    if start >= |buf| && t != 'e' {
      return Halted(UnexpectedEof, start);
    }
    var top := Target(root, stack[|stack| - 1]);
    if !top.Container? {
      r := Value(buf, t, start, root, stack, limit, st.stack[..n], st.root);
    } else if t == 'e' {
      var root', stack' := Pop(root, stack, start, limit, st.stack, st.root);
      r := Going(root', stack', start, limit);
    } else if top.isDict {
      r := Key(buf, t, start, root, stack, limit, st);
    } else {
      var ok, root', stack' := Push(root, stack, 0, st.stack, st.root);
      if !ok {
        return Lost;
      }
      assert st.stack[n := Renamed(st.stack[n], 0)] == st.stack;
      r := Value(buf, t, start, root', stack', limit, st.stack, st.root);
    }
  }

  predicate AllOpen(frames: seq<Frame>) {
    forall i :: 0 <= i < |frames| ==> !frames[i].NoneFrame?
  }

  lemma AttachOpen(below: seq<Frame>, e: Entry, pos: nat, limit: int, root: Entry)
    requires AllOpen(below)
    ensures AllOpen(Attach(below, e, pos, limit, root).stack)
  {
  }

  lemma ValueOpen(buf: string, t: char, start: nat, below: seq<Frame>, limit: int, root: Entry)
    requires 0 < start <= |buf| && AllOpen(below)
    ensures var r := ReadValue(buf, t, start, below, limit, root);
      r.Next? ==> AllOpen(r.st.stack)
  {
    hide ParsedInt, FindFrom, Attach;
    forall e, pos, left
      ensures AllOpen(Attach(below, e, pos, left, root).stack)
    {
      AttachOpen(below, e, pos, left, root);
    }
  }

  lemma TurnRegular(buf: string, depthLimit: int, st: State)
    requires st.pos < |buf| && st.stack != [] && Regular(st.stack)
    ensures var r := Turn(buf, depthLimit, st);
      r.Next? ==> Regular(r.st.stack)
  {
    hide ReadValue, ParsedInt, Attach;
    var n := |st.stack| - 1;
    forall t: char, start, below, limit | 0 < start <= |buf| && AllOpen(below)
      ensures var r := ReadValue(buf, t, start, below, limit, st.root);
        r.Next? ==> AllOpen(r.st.stack)
    {
      ValueOpen(buf, t, start, below, limit, st.root);
    }
    forall e, pos, limit | AllOpen(st.stack)
      ensures AllOpen(Attach(st.stack[..n], e, pos, limit, st.root).stack)
    {
      AttachOpen(st.stack[..n], e, pos, limit, st.root);
    }
  }

  /** What the root stands for while entries are still open. */
  lemma {:induction false} SpineEntry(node: Node, p: Pointer, below: seq<Frame>, x: Node)
    requires Spine(node, p, below, x) && below != [] && AllOpen(below)
    ensures Shown(node) == Unfinished(Attach(below, Shown(x), 0, 0, NoneEntry).stack)
    decreases |below|
  {
    hide Inner, Holds, Spine, Follows, Target, Shown;
    var n := |below| - 1;
    var front, f := below[..n], below[n];
    assert below == front + [f];
    SpineFollows(node, p, below, x);
    SpineUp(node, p, front, f, x);
    var q, step := p[..|p| - 1], p[|p| - 1];
    var c := Target(node, q);
    InnerStep(c, [step], f);
    LastCell(c, [step], f);
    InnerEntry(c, [step], f);
    var frames := Attach(below, Shown(x), 0, 0, NoneEntry).stack;
    var f' := Attach([f], Shown(x), 0, 0, NoneEntry).stack[0];
    assert frames == front + [f'] && frames[..n] == front;
    if n > 0 {
      SpineEntry(node, q, front, c);
    } else {
      SpineRoot(node, q, front, c);
    }
  }

  lemma SpineRoot(node: Node, p: Pointer, below: seq<Frame>, x: Node)
    requires Spine(node, p, below, x) && below == []
    ensures node == x
  {
  }

  lemma InnerEntry(c: Node, p: Pointer, f: Frame)
    requires Inner(c, p, f)
    ensures
      match Attach([f], Shown(c.cells[c.count - 1].val), 0, 0, NoneEntry).stack[0]
      case NoneFrame => false
      case ListFrame(begin, items) => Shown(c) == ListEntry(begin, 0, items)
      case DictFrame(begin, pairs, _) => Shown(c) == DictEntry(begin, 0, pairs)
  {
    InnerDone(c, p, f);
  }

  lemma ResultIs(root: Node, stack: seq<Pointer>, st: State)
    requires Linked(root, stack, st.stack, st.root) && Regular(st.stack)
    ensures Shown(root) == Result(st)
  {
    hide Inner, Follows, Target, Unfinished, Spine;
    if st.stack != [] {
      var n := |st.stack| - 1;
      var f := st.stack[n];
      TopResult(st.stack);
      if !f.NoneFrame? {
        var c := Target(root, stack[n]);
        if n > 0 {
          SpineEntry(root, stack[n], st.stack[..n], c);
        } else {
          SpineRoot(root, stack[n], st.stack[..n], c);
        }
      }
    }
  }

  lemma TopResult(frames: seq<Frame>)
    requires frames != []
    ensures
      var n := |frames| - 1;
      var e := match frames[n]
        case NoneFrame => NoneEntry
        case ListFrame(begin, items) => ListEntry(begin, 0, items)
        case DictFrame(begin, pairs, _) => DictEntry(begin, 0, pairs);
      Unfinished(frames) == if n == 0 then e else Unfinished(Attach(frames[..n], e, 0, 0, NoneEntry).stack)
  {
  }

  lemma LinkedStart(itemLimit: int)
    ensures
      var st := START.(limit := itemLimit);
      Linked(NoneNode, [[]], st.stack, st.root) && Regular(st.stack) && Result(st) == NoneEntry
  {
  }

  /** Decodes a buffer; the result is what the entries in memory stand for. */
  method LazyDecode(buf: string, depthLimit: int, itemLimit: int) returns (r: Decoded)
    ensures r == Decode(buf, depthLimit, itemLimit)
  {
    hide Linked, Turn, Result, Shown, Regular;
    LinkedStart(itemLimit);
    if |buf| == 0 {
      return Ok(NoneEntry);
    }
    var root, stack: seq<Pointer>, pos, limit := NoneNode, [[]], 0, itemLimit;
    ghost var st := START.(limit := itemLimit);
    while pos < |buf|
      invariant pos == st.pos <= |buf| && limit == st.limit && |stack| == |st.stack|
      invariant Linked(root, stack, st.stack, st.root) && Regular(st.stack)
      invariant Decode(buf, depthLimit, itemLimit) == Run(buf, depthLimit, st)
      decreases Max(limit, 0), |stack|
    {
      if stack == [] {
        break;
      }
      TurnRegular(buf, depthLimit, st);
      var turned := OneTurn(buf, depthLimit, root, stack, pos, limit, st);
      match turned {
        case Halted(e, at) => return Bad(e, at);
        case Lost => return Undefined;
        case Going(root', stack', pos', limit') =>
          st := Turn(buf, depthLimit, st).st;
          root, stack, pos, limit := root', stack', pos', limit';
          SameDepth(root, stack, st);
      }
    }
    ResultIs(root, stack, st);
    return Ok(Shown(root));
  }

  lemma SameDepth(root: Node, stack: seq<Pointer>, st: State)
    requires Linked(root, stack, st.stack, st.root)
    ensures |stack| == |st.stack|
  {
  }
}
