/**
  The files of a torrent laid out one after the other, and the arrangement that puts large
  files on aligned offsets.
 */
module FileLayout {

  /** A path given by the user, or the path of the padding file with this number. */
  datatype FileName = Path(text: string) | PaddingPath(number: nat)

  datatype Attributes = Attributes(hidden: bool, executable: bool, symlink: bool, symlinkIndex: int)

  const NO_ATTRIBUTES := Attributes(false, false, false, -1)

  datatype Entry = Entry(name: FileName, offset: nat, size: nat, padFile: bool, attributes: Attributes)

  datatype Hash = NoHash | Hash(bytes: string)

  /** A file with all that is kept about it. */
  datatype Record = Record(entry: Entry, mtime: int, hash: Hash)

  const ALIGNMENT := 16384

  // ---------------------------------------------------------------------------------------
  // Sequences
  // ---------------------------------------------------------------------------------------

  function Remove<T>(s: seq<T>, i: nat): (r: seq<T>)
    requires i < |s|
    ensures |r| == |s| - 1
  {
    s[..i] + s[i + 1..]
  }

  function Insert<T>(s: seq<T>, i: nat, x: T): (r: seq<T>)
    requires i <= |s|
    ensures |r| == |s| + 1 && r[i] == x
  {
    s[..i] + [x] + s[i..]
  }

  /** One element taken out and put back further to the front. */
  function MoveUp<T>(s: seq<T>, index: nat, dst: nat): (r: seq<T>)
    requires dst <= index < |s|
    ensures |r| == |s|
  {
    Insert(Remove(s, index), dst, s[index])
  }

  lemma RemoveSplit<T>(s: seq<T>, i: nat)
    requires i < |s|
    ensures s == s[..i] + ([s[i]] + s[i + 1..])
  {
  }

  lemma RemoveMultiset<T>(s: seq<T>, i: nat)
    requires i < |s|
    ensures multiset(s) == multiset{s[i]} + multiset(Remove(s, i))
  {
    assert s == s[..i] + [s[i]] + s[i + 1..];
  }

  // ---------------------------------------------------------------------------------------
  // Layout
  // ---------------------------------------------------------------------------------------

  function Size(rs: seq<Record>): nat {
    if rs == [] then 0 else rs[0].entry.size + Size(rs[1..])
  }

  /** Every file begins where the one before it ends, the first at `at`. */
  predicate Laid(rs: seq<Record>, at: nat) {
    rs != [] ==> rs[0].entry.offset == at && Laid(rs[1..], at + rs[0].entry.size)
  }

  function Core(r: Record): Record {
    r.(entry := r.entry.(offset := 0))
  }

  /** The files, without where they are. */
  function Cores(rs: seq<Record>): (cs: seq<Record>)
    ensures |cs| == |rs|
  {
    seq(|rs|, i requires 0 <= i < |rs| => Core(rs[i]))
  }

  function Put(r: Record, at: nat): Record {
    r.(entry := r.entry.(offset := at))
  }

  function Padding(number: nat, size: nat, at: nat): Record {
    Record(Entry(PaddingPath(number), at, size, true, NO_ATTRIBUTES), 0, NoHash)
  }

  // ---------------------------------------------------------------------------------------
  // The arrangement
  // ---------------------------------------------------------------------------------------

  predicate IsFirstLargest(rs: seq<Record>, j: nat) {
    && j < |rs|
    && (forall k :: 0 <= k < |rs| ==> rs[k].entry.size <= rs[j].entry.size)
    && (forall k :: 0 <= k < j ==> rs[k].entry.size < rs[j].entry.size)
  }

  /** The first of the largest files after the first that fit in a gap, or none if there is none. */
  predicate IsBestFit(rs: seq<Record>, gap: nat, j: nat) {
    if j == |rs| then forall k :: 0 < k < |rs| ==> rs[k].entry.size > gap
    else
      && 0 < j < |rs| && rs[j].entry.size <= gap
      && (forall k :: 0 < k < |rs| ==> rs[k].entry.size <= rs[j].entry.size || rs[k].entry.size > gap)
      && (forall k :: 0 < k < j ==> rs[k].entry.size < rs[j].entry.size || rs[k].entry.size > gap)
  }

  lemma OnlyIsLargest(rs: seq<Record>)
    requires rs != []
    ensures IsFirstLargest(rs[..1], 0)
  {
  }

  lemma LargestGrows(rs: seq<Record>, j: nat, best: nat)
    requires best < j < |rs| && IsFirstLargest(rs[..j], best)
    ensures IsFirstLargest(rs[..j + 1], if rs[best].entry.size < rs[j].entry.size then j else best)
  {
    assert forall k :: 0 <= k < j ==> rs[..j + 1][k] == rs[..j][k] == rs[k];
  }

  lemma NoneFits(rs: seq<Record>, gap: nat)
    requires rs != []
    ensures IsBestFit(rs[..1], gap, 1)
  {
  }

  lemma BestFitGrows(rs: seq<Record>, gap: nat, j: nat, best: nat)
    requires best <= j < |rs| && 0 < j && IsBestFit(rs[..j], gap, best)
    ensures
      var better := rs[j].entry.size <= gap && (best == j || rs[j].entry.size > rs[best].entry.size);
      IsBestFit(rs[..j + 1], gap, if better then j else if best == j then j + 1 else best)
  {
    assert forall k :: 0 <= k < j ==> rs[..j + 1][k] == rs[..j][k] == rs[k];
  }

  function FirstLargest(rs: seq<Record>): (j: nat)
    requires rs != []
    ensures IsFirstLargest(rs, j)
  {
    if |rs| == 1 then 0
    else
      var rest := rs[..|rs| - 1];
      var k := FirstLargest(rest);
      assert forall i :: 0 <= i < |rest| ==> rest[i] == rs[i];
      if rs[|rs| - 1].entry.size > rest[k].entry.size then |rs| - 1 else k
  }

  function BestFit(rs: seq<Record>, gap: nat): (j: nat)
    requires rs != []
    ensures IsBestFit(rs, gap, j)
  {
    if |rs| == 1 then 1
    else
      var rest, last := rs[..|rs| - 1], rs[|rs| - 1];
      var k := BestFit(rest, gap);
      assert forall i :: 0 <= i < |rest| ==> rest[i] == rs[i];
      if last.entry.size <= gap && (k == |rest| || last.entry.size > rest[k].entry.size) then |rs| - 1
      else if k == |rest| then |rs| else k
  }

  predicate Large(r: Record, limit: int) {
    limit >= 0 && r.entry.size > limit && !r.entry.padFile
  }

  function Gap(off: nat): (g: nat)
    ensures 0 < g <= ALIGNMENT && (off + g) % ALIGNMENT == 0
  {
    ALIGNMENT - off % ALIGNMENT
  }

  /** Which file comes next, and whether padding comes before it. */
  datatype Choice = Choice(index: nat, padded: bool)

  /**
    At an aligned offset the largest file that is left comes next. Elsewhere a large file waits
    for the largest of the others that fits in the gap; when there is none it gets padding.
   */
  function Choose(rs: seq<Record>, off: nat, limit: int): (c: Choice)
    requires rs != []
    ensures c.index < |rs|
    ensures c.padded ==> Large(rs[c.index], limit) && off % ALIGNMENT != 0
    ensures limit >= ALIGNMENT && Large(rs[c.index], limit) ==> off % ALIGNMENT == 0 || c.padded
  {
    if off % ALIGNMENT == 0 then Choice(FirstLargest(rs), false)
    else if Large(rs[0], limit) then
      var j := BestFit(rs, Gap(off));
      if j < |rs| then Choice(j, false) else Choice(0, true)
    else Choice(0, false)
  }

  /** The next file in its place, after its padding. */
  function Next(rs: seq<Record>, c: Choice, off: nat, number: nat): (r: seq<Record>)
    requires c.index < |rs|
    ensures 1 <= |r| <= 2
  {
    if c.padded then [Padding(number, Gap(off), off), Put(rs[c.index], off + Gap(off))]
    else [Put(rs[c.index], off)]
  }

  /** The arrangement of files from the offset `off` on; `number` counts the padding files. */
  function Arrange(rs: seq<Record>, off: nat, limit: int, number: nat): (r: seq<Record>)
    decreases |rs|
  {
    if rs == [] then []
    else
      var c := Choose(rs, off, limit);
      var next := Next(rs, c, off, number);
      next + Arrange(Remove(rs, c.index), off + Size(next), limit, number + |next| - 1)
  }

  // ---------------------------------------------------------------------------------------
  // What the arrangement keeps
  // ---------------------------------------------------------------------------------------

  lemma {:induction false} SizeConcat(a: seq<Record>, b: seq<Record>)
    ensures Size(a + b) == Size(a) + Size(b)
  {
    if a == [] {
      assert a + b == b;
    } else {
      assert (a + b)[1..] == a[1..] + b;
      SizeConcat(a[1..], b);
    }
  }

  lemma {:induction false} LaidConcat(a: seq<Record>, b: seq<Record>, at: nat)
    ensures Laid(a + b, at) <==> Laid(a, at) && Laid(b, at + Size(a))
  {
    if a == [] {
      assert a + b == b;
    } else {
      assert (a + b)[1..] == a[1..] + b;
      LaidConcat(a[1..], b, at + a[0].entry.size);
    }
  }

  lemma SizeOne(r: Record)
    ensures Size([r]) == r.entry.size
  {
  }

  lemma SizeRemove(rs: seq<Record>, i: nat)
    requires i < |rs|
    ensures Size(rs) == rs[i].entry.size + Size(Remove(rs, i))
  {
    hide Size;
    SizeOne(rs[i]);
    RemoveSplit(rs, i);
    var a, x, b := rs[..i], [rs[i]], rs[i + 1..];
    SizeConcat(a, x + b);
    SizeConcat(x, b);
    SizeConcat(a, b);
  }

  lemma NextLaid(rs: seq<Record>, c: Choice, off: nat, number: nat)
    requires c.index < |rs|
    ensures Laid(Next(rs, c, off, number), off)
    ensures Size(Next(rs, c, off, number)) == rs[c.index].entry.size + if c.padded then Gap(off) else 0
  {
    var next := Next(rs, c, off, number);
    SizeOne(next[|next| - 1]);
    if c.padded {
      assert next[1..] == [next[1]];
    } else {
      assert next[1..] == [];
    }
  }

  /** The arranged files lie one after the other. */
  lemma {:induction false} ArrangeLaid(rs: seq<Record>, off: nat, limit: int, number: nat)
    ensures Laid(Arrange(rs, off, limit, number), off)
    decreases |rs|
  {
    hide Choose, Next, Size, Gap, Remove;
    if rs == [] {
      assert Laid([], off);
    } else {
      var c := Choose(rs, off, limit);
      var next := Next(rs, c, off, number);
      NextLaid(rs, c, off, number);
      ArrangeLaid(Remove(rs, c.index), off + Size(next), limit, number + |next| - 1);
      LaidConcat(next, Arrange(Remove(rs, c.index), off + Size(next), limit, number + |next| - 1), off);
    }
  }

  /** With padding, every file above the limit is on an aligned offset. */
  lemma {:induction false} ArrangeAligned(rs: seq<Record>, off: nat, limit: int, number: nat)
    requires limit >= ALIGNMENT
    ensures forall r :: r in Arrange(rs, off, limit, number) && Large(r, limit) ==> r.entry.offset % ALIGNMENT == 0
    decreases |rs|
  {
    hide Choose, Next, Size, Gap, Remove, Large;
    if rs != [] {
      var c := Choose(rs, off, limit);
      var next := Next(rs, c, off, number);
      NextAligned(rs, off, limit, number);
      ArrangeAligned(Remove(rs, c.index), off + Size(next), limit, number + |next| - 1);
    }
  }

  lemma NextAligned(rs: seq<Record>, off: nat, limit: int, number: nat)
    requires rs != [] && limit >= ALIGNMENT
    ensures forall r :: r in Next(rs, Choose(rs, off, limit), off, number) && Large(r, limit) ==>
      r.entry.offset % ALIGNMENT == 0
  {
    hide Choose, Gap;
  }

  /** How many files may need padding. */
  function LargeFiles(rs: seq<Record>, limit: int): (n: nat)
    ensures n <= |rs| && (limit < 0 ==> n == 0)
  {
    if rs == [] then 0 else (if Large(rs[0], limit) then 1 else 0) + LargeFiles(rs[1..], limit)
  }

  lemma {:induction false} LargeConcat(a: seq<Record>, b: seq<Record>, limit: int)
    ensures LargeFiles(a + b, limit) == LargeFiles(a, limit) + LargeFiles(b, limit)
  {
    if a == [] {
      assert a + b == b;
    } else {
      assert (a + b)[1..] == a[1..] + b;
      LargeConcat(a[1..], b, limit);
    }
  }

  lemma LargeOne(r: Record, limit: int)
    ensures LargeFiles([r], limit) == if Large(r, limit) then 1 else 0
  {
  }

  lemma LargeRemove(rs: seq<Record>, i: nat, limit: int)
    requires i < |rs|
    ensures LargeFiles(rs, limit) == LargeFiles(Remove(rs, i), limit) + if Large(rs[i], limit) then 1 else 0
  {
    hide LargeFiles, Large;
    LargeOne(rs[i], limit);
    RemoveSplit(rs, i);
    var a, x, b := rs[..i], [rs[i]], rs[i + 1..];
    LargeConcat(a, x + b, limit);
    LargeConcat(x, b, limit);
    LargeConcat(a, b, limit);
  }

  /** Padding files numbered from `number` on, each smaller than the alignment. */
  predicate ArePadding(pads: seq<Record>, number: nat) {
    forall k :: 0 <= k < |pads| ==>
      0 < pads[k].entry.size < ALIGNMENT && pads[k] == Padding(number + k, pads[k].entry.size, 0)
  }

  lemma CoresConcat(a: seq<Record>, b: seq<Record>)
    ensures Cores(a + b) == Cores(a) + Cores(b)
  {
  }

  lemma CoresRemove(rs: seq<Record>, i: nat)
    requires i < |rs|
    ensures Cores(Remove(rs, i)) == Remove(Cores(rs), i)
  {
  }

  /**
    The arranged files are the files there were, each with its own time and hash, and padding
    files: at most one for each large file.
   */
  lemma {:induction false} ArrangeKeeps(rs: seq<Record>, off: nat, limit: int, number: nat) returns (pads: seq<Record>)
    ensures multiset(Cores(Arrange(rs, off, limit, number))) == multiset(Cores(rs)) + multiset(pads)
    ensures ArePadding(pads, number) && |pads| <= LargeFiles(rs, limit)
    ensures Size(Arrange(rs, off, limit, number)) == Size(rs) + Size(pads)
    decreases |rs|
  {
    hide Choose, Next, Size, Gap, Remove, Large, LargeFiles, Cores, ArePadding;
    pads := [];
    if rs == [] {
      NothingKept(number);
    } else {
      var c := Choose(rs, off, limit);
      var next := Next(rs, c, off, number);
      var rest := Remove(rs, c.index);
      var more := ArrangeKeeps(rest, off + Size(next), limit, number + |next| - 1);
      var arranged := Arrange(rest, off + Size(next), limit, number + |next| - 1);
      pads := NextPads(c, off, number) + more;
      CoresConcat(next, arranged);
      CoresRemove(rs, c.index);
      RemoveMultiset(Cores(rs), c.index);
      SizeConcat(next, arranged);
      SizeRemove(rs, c.index);
      LargeRemove(rs, c.index, limit);
      NextKept(rs, c, off, number);
      PadsConcat(c, off, number, more);
    }
  }

  lemma NothingKept(number: nat)
    ensures Cores([]) == [] && Size([]) == 0 && ArePadding([], number)
  {
  }

  /** The padding before the next file, if any. */
  function NextPads(c: Choice, off: nat, number: nat): seq<Record> {
    if c.padded then [Padding(number, Gap(off), 0)] else []
  }

  lemma PadsConcat(c: Choice, off: nat, number: nat, more: seq<Record>)
    requires c.padded ==> off % ALIGNMENT != 0
    requires ArePadding(more, number + |NextPads(c, off, number)|)
    ensures ArePadding(NextPads(c, off, number) + more, number)
    ensures Size(NextPads(c, off, number) + more) == Size(NextPads(c, off, number)) + Size(more)
  {
    SizeConcat(NextPads(c, off, number), more);
  }

  lemma NextKept(rs: seq<Record>, c: Choice, off: nat, number: nat)
    requires c.index < |rs|
    ensures |Next(rs, c, off, number)| == |NextPads(c, off, number)| + 1
    ensures Cores(Next(rs, c, off, number)) == NextPads(c, off, number) + [Cores(rs)[c.index]]
    ensures Size(Next(rs, c, off, number)) == Size(NextPads(c, off, number)) + rs[c.index].entry.size
    ensures |NextPads(c, off, number)| == if c.padded then 1 else 0
  {
    var pads := NextPads(c, off, number);
    NextLaid(rs, c, off, number);
    if c.padded {
      SizeOne(pads[0]);
    }
  }
}
