/**
  The files of a torrent, as they are stored: the entries in one list, times and hashes in lists
  beside it that may be shorter.
 */
module FileStorage {
  import Basics
  import opened FileLayout
  import opened FileSlices

  // ---------------------------------------------------------------------------------------
  // The lists beside the entries
  // ---------------------------------------------------------------------------------------

  /** What a list that may be too short has for an index. */
  function AtOr<T>(v: seq<T>, i: nat, none: T): T {
    if i < |v| then v[i] else none
  }

  function Zeros<T>(n: nat, none: T): (z: seq<T>)
    ensures |z| == n
  {
    seq(n, _ => none)
  }

  /** The entries with what the other lists have for them. */
  function Joined(files: seq<Entry>, mtimes: seq<int>, hashes: seq<Hash>): (rs: seq<Record>)
    ensures |rs| == |files|
    ensures forall i :: 0 <= i < |files| ==> rs[i] == Record(files[i], AtOr(mtimes, i, 0), AtOr(hashes, i, NoHash))
  {
    seq(|files|, i requires 0 <= i < |files| => Record(files[i], AtOr(mtimes, i, 0), AtOr(hashes, i, NoHash)))
  }

  /** Where an element was before one was moved up from `index` to `dst`. */
  function Before(i: nat, index: nat, dst: nat): nat {
    if i == dst then index else if dst < i <= index then i - 1 else i
  }

  lemma MoveUpAt<T>(s: seq<T>, index: nat, dst: nat)
    requires dst <= index < |s|
    ensures forall i :: 0 <= i < |s| ==> MoveUp(s, index, dst)[i] == s[Before(i, index, dst)]
  {
    var r := Remove(s, index);
    assert forall i :: 0 <= i < |r| ==> r[i] == s[if i < index then i else i + 1];
  }

  lemma JoinedMoved(files: seq<Entry>, mtimes: seq<int>, hashes: seq<Hash>, mtimes': seq<int>, hashes': seq<Hash>,
                    index: nat, dst: nat)
    requires dst < index < |files|
    requires forall i: nat :: AtOr(mtimes', i, 0) == AtOr(mtimes, Before(i, index, dst), 0)
    requires forall i: nat :: AtOr(hashes', i, NoHash) == AtOr(hashes, Before(i, index, dst), NoHash)
    ensures Joined(MoveUp(files, index, dst), mtimes', hashes') == MoveUp(Joined(files, mtimes, hashes), index, dst)
  {
    hide AtOr, MoveUp;
    MoveUpAt(files, index, dst);
    MoveUpAt(Joined(files, mtimes, hashes), index, dst);
  }

  lemma InsertAt<T>(s: seq<T>, index: nat, x: T)
    requires index <= |s|
    ensures forall i :: 0 <= i <= |s| ==>
      Insert(s, index, x)[i] == if i == index then x else s[if i > index then i - 1 else i]
  {
  }

  lemma JoinedInserted(files: seq<Entry>, mtimes: seq<int>, hashes: seq<Hash>, mtimes': seq<int>, hashes': seq<Hash>,
                       index: nat, e: Entry)
    requires index <= |files|
    requires forall i: nat ::
      AtOr(mtimes', i, 0) == if i == index then 0 else AtOr(mtimes, if i > index then i - 1 else i, 0)
    requires forall i: nat ::
      AtOr(hashes', i, NoHash) == if i == index then NoHash else AtOr(hashes, if i > index then i - 1 else i, NoHash)
    ensures Joined(Insert(files, index, e), mtimes', hashes') ==
      Insert(Joined(files, mtimes, hashes), index, Record(e, 0, NoHash))
  {
    hide AtOr, Insert;
    InsertAt(files, index, e);
    InsertAt(Joined(files, mtimes, hashes), index, Record(e, 0, NoHash));
  }

  /** Moves what is kept for one file along with the file. */
  method ReorderBeside<T>(v: seq<T>, index: nat, dst: nat, none: T) returns (w: seq<T>)
    requires dst < index
    ensures forall i: nat :: AtOr(w, i, none) == AtOr(v, Before(i, index, dst), none)
    ensures |w| <= if |v| > index then |v| else index + 1
  {
    w := v;
    if v != [] {
      var x := none;
      if |w| > index {
        x := w[index];
        w := Remove(w, index);
      }
      if dst > |w| {
        w := w + Zeros(dst - |w|, none);
      }
      w := Insert(w, dst, x);
    }
  }

  /** Makes room for a file about which nothing is kept. */
  method InsertBeside<T>(v: seq<T>, index: nat, none: T) returns (w: seq<T>)
    ensures forall i: nat ::
      AtOr(w, i, none) == if i == index then none else AtOr(v, if i > index then i - 1 else i, none)
    ensures |w| == if |v| > index then |v| + 1 else |v|
  {
    w := v;
    if |v| > index {
      w := Insert(v, index, none);
    }
  }

  // ---------------------------------------------------------------------------------------
  // The storage
  // ---------------------------------------------------------------------------------------

  class FileStorage {
    var files: seq<Entry>
    var mtimes: seq<int>
    var hashes: seq<Hash>
    var totalSize: nat
    var numPieces: int
    var pieceLength: nat

    ghost function Records(): (rs: seq<Record>)
      reads this
      ensures |rs| == |files|
    {
      Joined(files, mtimes, hashes)
    }

    ghost predicate Sized()
      reads this
    {
      |mtimes| <= |files| && |hashes| <= |files|
    }

    /** The files lie one after the other and the total size is that of all of them. */
    ghost predicate Valid()
      reads this
    {
      Sized() && Laid(Records(), 0) && totalSize == Size(Records())
    }

    constructor ()
      ensures Valid() && Records() == []
    {
      files, mtimes, hashes := [], [], [];
      totalSize, numPieces, pieceLength := 0, 0, 0;
    }

    /** Adds a file at the end; a negative size counts as zero. */
    method AddFile(name: FileName, size: int, padFile: bool, attributes: Attributes, mtime: int, hash: Hash)
      requires Valid()
      modifies `files, `mtimes, `hashes, `totalSize
      ensures Valid()
      ensures Records() == old(Records()) +
        [Record(Entry(name, old(totalSize), if size < 0 then 0 else size, padFile, attributes), mtime, hash)]
    {
      ghost var was := Records();
      var n := if size < 0 then 0 else size;
      var e := Entry(name, totalSize, n, padFile, attributes);
      files := files + [e];
      totalSize := totalSize + n;
      if hash != NoHash {
        if |hashes| < |files| {
          hashes := hashes + Zeros(|files| - |hashes|, NoHash);
        }
        hashes := hashes[|files| - 1 := hash];
      }
      if mtime != 0 {
        if |mtimes| < |files| {
          mtimes := mtimes + Zeros(|files| - |mtimes|, 0);
        }
        mtimes := mtimes[|files| - 1 := mtime];
      }
      ghost var r := Record(e, mtime, hash);
      assert Records() == was + [r];
      Appended(was, r);
    }

    // -------------------------------------------------------------------------------------
    // Arranging
    // -------------------------------------------------------------------------------------

    /** Moves a file to the front, and what is kept about it. */
    method ReorderFile(index: nat, dst: nat)
      requires Sized() && dst < index < |files|
      modifies `files, `mtimes, `hashes
      ensures Sized() && Records() == MoveUp(old(Records()), index, dst)
    {
      hide Joined, AtOr;
      var e := files[index];
      var mtimes' := ReorderBeside(mtimes, index, dst, 0);
      var hashes' := ReorderBeside(hashes, index, dst, NoHash);
      JoinedMoved(files, mtimes, hashes, mtimes', hashes', index, dst);
      files := Remove(files, index);
      files := Insert(files, dst, e);
      mtimes, hashes := mtimes', hashes';
    }

    /** Puts a padding file before a file. */
    method InsertPadding(index: nat, size: nat, offset: nat, number: nat)
      requires Sized() && index < |files|
      modifies `files, `mtimes, `hashes
      ensures Sized() && Records() == Insert(old(Records()), index, Padding(number, size, offset))
    {
      hide Joined, AtOr, Insert;
      var e := Entry(PaddingPath(number), offset, size, true, NO_ATTRIBUTES);
      var mtimes' := InsertBeside(mtimes, index, 0);
      var hashes' := InsertBeside(hashes, index, NoHash);
      JoinedInserted(files, mtimes, hashes, mtimes', hashes', index, e);
      files := Insert(files, index, e);
      mtimes, hashes := mtimes', hashes';
    }

    /** The first of the largest files from `i` on. */
    method MaxElement(i: nat) returns (best: nat)
      requires i < |files|
      ensures i <= best < |files| && best - i == FirstLargest(Records()[i..])
    {
      hide IsFirstLargest;
      ghost var rs := Records()[i..];
      best := 0;
      OnlyIsLargest(rs);
      for j := 1 to |files| - i
        invariant best < j && IsFirstLargest(rs[..j], best)
      {
        LargestGrows(rs, j, best);
        if files[i + best].size < files[i + j].size {
          best := j;
        }
      }
      assert rs[..|files| - i] == rs;
      FirstLargestIs(rs, best);
      best := i + best;
    }

    /** The first of the largest files after `i` that fit in a gap, or the number of files. */
    method FindFit(i: nat, gap: nat) returns (best: nat)
      requires i < |files|
      ensures i < best <= |files| && best - i == BestFit(Records()[i..], gap)
    {
      ghost var rs := Records()[i..];
      hide IsBestFit;
      var n := |files| - i;
      best := n;
      NoneFits(rs, gap);
      for j := 1 to n
        invariant best == n || best < j
        invariant IsBestFit(rs[..j], gap, if best == n then j else best)
      {
        BestFitGrows(rs, gap, j, if best == n then j else best);
        if files[i + j].size <= gap {
          if best == n || files[i + j].size > files[i + best].size {
            best := j;
          }
        }
      }
      assert rs[..n] == rs;
      BestFitIs(rs, gap, best);
      best := i + best;
    }

    /** Makes the next file one of those that are left. */
    method Bring(index: nat, i: nat)
      requires Sized() && i <= index < |files|
      modifies `files, `mtimes, `hashes
      ensures Sized() && Records() == MoveUp(old(Records()), index, i)
    {
      ghost var was := Records();
      if index != i {
        ReorderFile(index, i);
      } else {
        assert MoveUp(was, i, i) == was;
      }
    }

    method Place(i: nat, off: nat)
      requires Sized() && i < |files|
      modifies `files
      ensures Sized() && Records() == old(Records())[i := Put(old(Records())[i], off)]
    {
      files := files[i := files[i].(offset := off)];
    }

    /** Puts the next file in its place, and padding before it where that is needed. */
    method ArrangeNext(i: nat, off: nat, limit: int, number: nat) returns (i': nat, off': nat, number': nat)
      requires Sized() && i < |files|
      modifies `files, `mtimes, `hashes
      ensures
        var rest := old(Records())[i..];
        var c := Choose(rest, off, limit);
        var next := Next(rest, c, off, number);
        && Sized() && i' == i + |next| && off' == off + Size(next) && number' == number + |next| - 1
        && Records() == old(Records())[..i] + next + Remove(rest, c.index)
    {
      hide Joined, Next, Remove, Size, FirstLargest, BestFit, IsFirstLargest, IsBestFit;
      assert Records()[i..][0].entry == files[i];
      if off % ALIGNMENT == 0 {
        var best := MaxElement(i);
        i', off', number' := PlaceNext(best, i, off, number);
      } else if limit >= 0 && files[i].size > limit && !files[i].padFile {
        var padSize := ALIGNMENT - off % ALIGNMENT;
        var best := FindFit(i, padSize);
        if best != |files| {
          i', off', number' := PlaceNext(best, i, off, number);
        } else {
          i', off', number' := PlacePadded(i, padSize, off, number);
        }
      } else {
        i', off', number' := PlaceNext(i, i, off, number);
      }
    }

    /** Brings a file to the front of those that are left, and puts it at an offset. */
    method PlaceNext(index: nat, i: nat, off: nat, number: nat) returns (i': nat, off': nat, number': nat)
      requires Sized() && i <= index < |files|
      modifies `files, `mtimes, `hashes
      ensures
        var rest := old(Records())[i..];
        var next := Next(rest, Choice(index - i, false), off, number);
        && Sized() && i' == i + |next| && off' == off + Size(next) && number' == number + |next| - 1
        && Records() == old(Records())[..i] + next + Remove(rest, index - i)
    {
      hide Joined, MoveUp, Remove, Size;
      ghost var was := Records();
      Bring(index, i);
      Place(i, off);
      BroughtPlace(was, i, index, off);
      i', off', number' := i + 1, off + files[i].size, number;
    }

    /** Puts the next file after padding. */
    method PlacePadded(i: nat, size: nat, off: nat, number: nat) returns (i': nat, off': nat, number': nat)
      requires Sized() && i < |files| && size == Gap(off)
      modifies `files, `mtimes, `hashes
      ensures
        var rest := old(Records())[i..];
        var next := Next(rest, Choice(0, true), off, number);
        && Sized() && i' == i + |next| && off' == off + Size(next) && number' == number + |next| - 1
        && Records() == old(Records())[..i] + next + Remove(rest, 0)
    {
      hide Joined, Insert, Remove, Size, Padding, Next;
      ghost var was := Records();
      InsertPadding(i, size, off, number);
      Place(i + 1, off + size);
      PaddedPlace(was, i, off, size, number);
      i', off', number' := i + 2, off + size + files[i + 1].size, number + 1;
    }

    /**
      Reorders the files, and puts padding between them if the limit is not negative. The result is
      the arrangement; the files lie one after the other in it, they are the files there were, each
      with its own time and hash, and padding files.
     */
    method Optimize(padFileLimit: int)
      requires Valid()
      modifies `files, `mtimes, `hashes, `totalSize
      ensures Valid() && Records() == Arrange(old(Records()), 0, Raised(padFileLimit), 0)
    {
      hide Arrange, Choose, Next, Joined, Size, Laid, Remove;
      var limit := Raised(padFileLimit);
      ghost var was := Records();
      var i, off, number := 0, 0, 0;
      ghost var placed: seq<Record> := [];
      assert was[0..] == was && placed + Arrange(was, 0, limit, 0) == Arrange(was, 0, limit, 0);
      NothingKept(0);
      while i < |files|
        invariant Sized() && i == |placed| <= |files| && placed == Records()[..i]
        invariant off == Size(placed)
        invariant placed + Arrange(Records()[i..], off, limit, number) == Arrange(was, 0, limit, 0)
        decreases |files| - i
      {
        ghost var rest := Records()[i..];
        ghost var c := Choose(rest, off, limit);
        ghost var next := Next(rest, c, off, number);
        ArrangeStep(placed, rest, off, limit, number);
        SizeConcat(placed, next);
        i, off, number := ArrangeNext(i, off, limit, number);
        placed := placed + next;
        assert Records() == placed + Remove(rest, c.index);
        assert Records()[i..] == Remove(rest, c.index);
      }
      totalSize := off;
      ArrangeNone(placed, off, limit, number);
      assert placed == Records();
      ArrangeLaid(was, 0, limit, 0);
    }
    // -------------------------------------------------------------------------------------
    // Mapping
    // -------------------------------------------------------------------------------------

    /** The first file that begins after a position. */
    method UpperBound(target: nat) returns (i: nat)
      requires Valid()
      ensures i <= |files|
      ensures forall k :: 0 <= k < i ==> files[k].offset <= target
      ensures i < |files| ==> files[i].offset > target
    {
      var hi := |files|;
      i := 0;
      while i < hi
        invariant 0 <= i <= hi <= |files|
        invariant forall k :: 0 <= k < i ==> files[k].offset <= target
        invariant hi < |files| ==> files[hi].offset > target
      {
        var mid := (i + hi) / 2;
        if files[mid].offset <= target {
          Sorted(Records(), mid);
          i := mid + 1;
        } else {
          hi := mid;
        }
      }
    }

    /** The file that holds a position; of several files there, the last one, which is the one with bytes. */
    method FileAtOffset(offset: nat) returns (i: nat)
      requires Valid() && files != []
      ensures i < |files| && files[i].offset <= offset
      ensures offset < totalSize ==> offset < files[i].offset + files[i].size
    {
      i := UpperBound(offset);
      assert files[0].offset == 0 by { LaidAt(Records(), 0, 0); }
      i := i - 1;
      HeldBy(Records(), i, offset);
    }

    /** The parts of files that hold `size` bytes of a piece. */
    method MapBlock(piece: nat, offset: nat, size: nat) returns (ret: seq<Slice>)
      requires Valid() && piece * pieceLength + offset + size <= totalSize
      ensures InFileOrder(ret)
      ensures Tiles(Records(), ret, piece * pieceLength + offset, piece * pieceLength + offset + size)
    {
      ret := [];
      if files == [] {
        return;
      }
      var target := piece * pieceLength + offset;
      ret := MapRange(target, size);
    }

    method MapRange(target: nat, n: nat) returns (ret: seq<Slice>)
      requires Valid() && files != [] && target + n <= totalSize
      ensures InFileOrder(ret) && Tiles(Records(), ret, target, target + n)
    {
      hide Tiles, Laid, Size;
      ghost var rs := Records();
      ret := [];
      var i := FileAtOffset(target);
      var size: int, fileOffset: int := n, target - files[i].offset;
      LaidAt(rs, 0, i);
      NoSlices(rs, target);
      while size > 0
        invariant 0 <= size <= n && i <= |files|
        invariant size > 0 ==> 0 <= fileOffset && target + n - size == Size(rs[..i]) + fileOffset
        invariant Tiles(rs, ret, target, target + n - size) && InFileOrder(ret)
        invariant forall k :: 0 <= k < |ret| ==> ret[k].file < i
        decreases |files| - i
      {
        assert i < |files| by { assert rs[..|rs|] == rs; }
        LaidAt(rs, 0, i);
        SizeNext(rs, i);
        if fileOffset < files[i].size {
          var f := Slice(i, fileOffset, if files[i].size - fileOffset < size then files[i].size - fileOffset else size);
          TilesSnoc(rs, ret, target, target + n - size, f);
          size := size - f.size;
          fileOffset := fileOffset + f.size;
          ret := ret + [f];
        }
        fileOffset := fileOffset - files[i].size;
        i := i + 1;
      }
    }

    /**
      The part of a piece at a position of a file; past the end, nothing in a piece that does not
      exist. A position before the first byte has no piece either: the quotient and the remainder
      have its sign.
     */
    function MapFile(fileIndex: int, fileOffset: int, size: int): (r: PeerRequest)
      requires pieceLength > 0
      reads this
      ensures 0 <= fileIndex < |files| && files[fileIndex].offset + fileOffset < totalSize ==>
        && r.piece * pieceLength + r.start == files[fileIndex].offset + fileOffset
        && -(pieceLength as int) < r.start < pieceLength
        && (files[fileIndex].offset + fileOffset >= 0 ==> 0 <= r.piece && 0 <= r.start)
        && (files[fileIndex].offset + fileOffset <= 0 ==> r.piece <= 0 && r.start <= 0)
        && r.length <= size && r.piece * pieceLength + r.start + r.length <= totalSize
        && (r.length < size ==> r.piece * pieceLength + r.start + r.length == totalSize)
      ensures !(0 <= fileIndex < |files| && files[fileIndex].offset + fileOffset < totalSize) ==>
        r == PeerRequest(numPieces, 0, 0)
    {
      if fileIndex < 0 || fileIndex >= |files| then PeerRequest(numPieces, 0, 0)
      else
        var offset := fileOffset + files[fileIndex].offset;
        if offset >= totalSize then PeerRequest(numPieces, 0, 0)
        else
          hide Basics.Quotient, Basics.Remainder;
          PeerRequest(Basics.Quotient(offset, pieceLength), Basics.Remainder(offset, pieceLength),
                      if offset + size > totalSize then totalSize - offset else size)
    }

    /** Mapping a part of a file to a piece and back gives that part of that file. */
    method MapFileAndBack(fileIndex: nat, fileOffset: nat, size: nat) returns (ret: seq<Slice>)
      requires Valid() && pieceLength > 0
      requires fileIndex < |files| && 0 < size && fileOffset + size <= files[fileIndex].size
      ensures ret == [Slice(fileIndex, fileOffset, size)]
    {
      ghost var rs := Records();
      LaidAt(rs, 0, fileIndex);
      LaidOrder(rs, 0, fileIndex, |rs|);
      assert rs[..|rs|] == rs;
      var r := MapFile(fileIndex, fileOffset, size);
      ret := MapBlock(r.piece, r.start, r.length);
      var s := Slice(fileIndex, fileOffset, size);
      var start := files[fileIndex].offset + fileOffset;
      NoSlices(rs, start);
      TilesSnoc(rs, [], start, start, s);
      assert [] + [s] == [s];
      TilesUnique(rs, ret, [s], start, start + size);
    }

    function PieceSize(index: nat): (n: int)
      reads this
    {
      if index == numPieces - 1 then totalSize - (numPieces - 1) * pieceLength else pieceLength
    }

    /** The number of pieces it takes to hold everything. */
    ghost predicate RightPieces()
      reads this
    {
      pieceLength > 0 && numPieces == (totalSize + pieceLength - 1) / pieceLength
    }

    function PieceSizes(n: nat): int
      reads this
    {
      if n == 0 then 0 else PieceSizes(n - 1) + PieceSize(n - 1)
    }

    lemma {:induction false} WholePieces(n: nat)
      requires n < numPieces
      ensures PieceSizes(n) == n * pieceLength
    {
      if n > 0 {
        WholePieces(n - 1);
      }
    }

    /** No piece is empty or too long, and together they hold everything. */
    lemma PiecesHoldAll()
      requires RightPieces()
      ensures forall i: nat :: i < numPieces ==> 0 < PieceSize(i) <= pieceLength
      ensures numPieces >= 0 && PieceSizes(numPieces) == totalSize
    {
      PiecesNeeded(totalSize, pieceLength, numPieces);
      if numPieces > 0 {
        WholePieces(numPieces - 1);
      }
    }
  }

  lemma PiecesNeeded(total: nat, length: nat, n: int)
    requires length > 0 && n == (total + length - 1) / length
    ensures n >= 0 && (n - 1) * length < total <= n * length
    ensures n == 0 ==> total == 0
  {
    var m := total + length - 1;
    assert m == n * length + m % length;
    assert (n - 1) * length == n * length - length;
  }

  lemma {:induction false} Appended(rs: seq<Record>, r: Record)
    requires Laid(rs, 0) && r.entry.offset == Size(rs)
    ensures Laid(rs + [r], 0) && Size(rs + [r]) == Size(rs) + r.entry.size
  {
    LaidConcat(rs, [r], 0);
    SizeConcat(rs, [r]);
    SizeOne(r);
    assert [r][1..] == [];
  }

  lemma {:induction false} Sorted(rs: seq<Record>, i: nat)
    requires Laid(rs, 0) && i < |rs|
    ensures forall k :: 0 <= k < i ==> rs[k].entry.offset <= rs[i].entry.offset
  {
    LaidAt(rs, 0, i);
    forall k | 0 <= k < i
      ensures rs[k].entry.offset <= rs[i].entry.offset
    {
      LaidOrder(rs, 0, k, i);
    }
  }

  lemma {:induction false} HeldBy(rs: seq<Record>, i: nat, offset: nat)
    requires Laid(rs, 0) && i < |rs| && rs[i].entry.offset <= offset
    requires i + 1 < |rs| ==> rs[i + 1].entry.offset > offset
    ensures offset < Size(rs) ==> offset < rs[i].entry.offset + rs[i].entry.size
  {
    LaidAt(rs, 0, i);
    SizeNext(rs, i);
    if i + 1 < |rs| {
      LaidAt(rs, 0, i + 1);
    } else {
      assert rs[..i + 1] == rs;
    }
  }

  lemma FirstLargestIs(rs: seq<Record>, j: nat)
    requires IsFirstLargest(rs, j)
    ensures j == FirstLargest(rs)
  {
  }

  lemma BestFitIs(rs: seq<Record>, gap: nat, j: nat)
    requires rs != [] && IsBestFit(rs, gap, j)
    ensures j == BestFit(rs, gap)
  {
  }

  /** It makes no sense to pad files smaller than the alignment. */
  function Raised(padFileLimit: int): (limit: int)
    ensures padFileLimit < 0 ==> limit < 0
    ensures padFileLimit >= 0 ==> limit == if padFileLimit < ALIGNMENT then ALIGNMENT else padFileLimit
  {
    if 0 <= padFileLimit < ALIGNMENT then ALIGNMENT else padFileLimit
  }

  lemma ArrangeStep(placed: seq<Record>, rs: seq<Record>, off: nat, limit: int, number: nat)
    requires rs != []
    ensures
      var c := Choose(rs, off, limit);
      var next := Next(rs, c, off, number);
      placed + Arrange(rs, off, limit, number) ==
      placed + next + Arrange(Remove(rs, c.index), off + Size(next), limit, number + |next| - 1)
  {
    hide Choose, Next, Remove, Size;
    var c := Choose(rs, off, limit);
    var next := Next(rs, c, off, number);
    var more := Arrange(Remove(rs, c.index), off + Size(next), limit, number + |next| - 1);
    assert placed + (next + more) == placed + next + more;
  }

  lemma ArrangeNone(placed: seq<Record>, off: nat, limit: int, number: nat)
    ensures placed + Arrange([], off, limit, number) == placed
  {
  }

  lemma BroughtPlace(was: seq<Record>, i: nat, index: nat, off: nat)
    requires i <= index < |was|
    ensures
      var moved := MoveUp(was, index, i);
      var next := Next(was[i..], Choice(index - i, false), off, 0);
      && moved[i := Put(moved[i], off)] == was[..i] + next + Remove(was[i..], index - i)
      && |next| == 1 && Size(next) == moved[i].entry.size
  {
    var moved := MoveUp(was, index, i);
    SizeOne(Put(moved[i], off));
    MoveUpAt(was, index, i);
  }

  lemma PaddedPlace(was: seq<Record>, i: nat, off: nat, size: nat, number: nat)
    requires i < |was| && size == Gap(off)
    ensures
      var padded := Insert(was, i, Padding(number, size, off));
      var next := Next(was[i..], Choice(0, true), off, number);
      && padded[i + 1 := Put(padded[i + 1], off + size)] == was[..i] + next + Remove(was[i..], 0)
      && |next| == 2 && Size(next) == size + padded[i + 1].entry.size
  {
    var next := Next(was[i..], Choice(0, true), off, number);
    SizeOne(next[1]);
    assert next[1..] == [next[1]];
    InsertAt(was, i, Padding(number, size, off));
  }

  lemma NoSlices(rs: seq<Record>, start: nat)
    ensures Tiles(rs, [], start, start)
  {
  }
}
