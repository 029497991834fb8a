/**
  Which files, and which parts of them, hold a range of a torrent's bytes.
 */
module FileSlices {
  import opened FileLayout

  /** A part of one file. */
  datatype Slice = Slice(file: nat, offset: nat, size: nat)

  /** A part of one piece. */
  datatype PeerRequest = PeerRequest(piece: int, start: int, length: int)

  predicate Within(rs: seq<Record>, s: Slice) {
    s.file < |rs| && 0 < s.size && s.offset + s.size <= rs[s.file].entry.size
  }

  /** The slices are parts of files, none empty, that follow one another from `start` to `end`. */
  predicate Tiles(rs: seq<Record>, slices: seq<Slice>, start: nat, end: nat) {
    if slices == [] then start == end
    else
      && Within(rs, slices[0]) && rs[slices[0].file].entry.offset + slices[0].offset == start
      && Tiles(rs, slices[1..], start + slices[0].size, end)
  }

  predicate InFileOrder(slices: seq<Slice>) {
    forall i, j :: 0 <= i < j < |slices| ==> slices[i].file < slices[j].file
  }

  // ---------------------------------------------------------------------------------------
  // What the slices hold
  // ---------------------------------------------------------------------------------------

  /** The bytes of the torrent: the contents of its files one after the other. */
  function Flat(contents: seq<string>): string {
    if contents == [] then "" else contents[0] + Flat(contents[1..])
  }

  predicate Holds(rs: seq<Record>, contents: seq<string>) {
    |contents| == |rs| && forall i :: 0 <= i < |rs| ==> |contents[i]| == rs[i].entry.size
  }

  function Read(rs: seq<Record>, contents: seq<string>, slices: seq<Slice>): string
    requires Holds(rs, contents) && forall i :: 0 <= i < |slices| ==> Within(rs, slices[i])
  {
    if slices == [] then ""
    else
      var s := slices[0];
      assert Within(rs, slices[0]);
      contents[s.file][s.offset..s.offset + s.size] + Read(rs, contents, slices[1..])
  }

  lemma {:induction false} TilesWithin(rs: seq<Record>, slices: seq<Slice>, start: nat, end: nat)
    requires Tiles(rs, slices, start, end)
    ensures start <= end && forall i :: 0 <= i < |slices| ==> Within(rs, slices[i])
  {
    if slices != [] {
      TilesWithin(rs, slices[1..], start + slices[0].size, end);
      assert forall i :: 1 <= i < |slices| ==> slices[i] == slices[1..][i - 1];
    }
  }

  /** The bytes of a file are those of the torrent from the file's offset on. */
  lemma {:induction false} FlatAt(rs: seq<Record>, contents: seq<string>, at: nat, i: nat, a: nat, b: nat)
    requires Holds(rs, contents) && Laid(rs, at) && i < |rs| && a <= b <= rs[i].entry.size
    ensures at <= rs[i].entry.offset && rs[i].entry.offset - at + b <= |Flat(contents)|
    ensures Flat(contents)[rs[i].entry.offset - at + a..rs[i].entry.offset - at + b] == contents[i][a..b]
    decreases |rs|
  {
    hide Flat;
    FlatStep(contents);
    var first, rest := contents[0], Flat(contents[1..]);
    if i == 0 {
      assert (first + rest)[a..b] == first[a..b];
    } else {
      var n := |first|;
      FlatAt(rs[1..], contents[1..], at + n, i - 1, a, b);
      PastFirst(first, rest, rs[i].entry.offset - at + a, rs[i].entry.offset - at + b);
    }
  }

  lemma FlatStep(contents: seq<string>)
    requires contents != []
    ensures Flat(contents) == contents[0] + Flat(contents[1..])
  {
  }

  lemma PastFirst(first: string, rest: string, x: nat, y: nat)
    requires |first| <= x <= y <= |first| + |rest|
    ensures (first + rest)[x..y] == rest[x - |first|..y - |first|]
  {
  }

  lemma ReadStep(rs: seq<Record>, contents: seq<string>, slices: seq<Slice>)
    requires Holds(rs, contents) && forall i :: 0 <= i < |slices| ==> Within(rs, slices[i])
    ensures slices == [] ==> Read(rs, contents, slices) == ""
    ensures slices != [] ==>
      var s := slices[0];
      && s.file < |rs| == |contents| && s.offset + s.size <= rs[s.file].entry.size == |contents[s.file]|
      && (forall i :: 0 <= i < |slices[1..]| ==> Within(rs, slices[1..][i]))
      && Read(rs, contents, slices) ==
         contents[s.file][s.offset..s.offset + s.size] + Read(rs, contents, slices[1..])
  {
  }

  lemma Meet(flat: string, start: nat, mid: nat, end: nat)
    requires start <= mid <= end <= |flat|
    ensures flat[start..end] == flat[start..mid] + flat[mid..end]
  {
  }

  /** Slices that tile a range of the torrent hold its bytes. */
  lemma {:induction false} TilesRead(rs: seq<Record>, contents: seq<string>, slices: seq<Slice>, start: nat, end: nat)
    requires Holds(rs, contents) && Laid(rs, 0) && Tiles(rs, slices, start, end) && start <= |Flat(contents)|
    ensures start <= end <= |Flat(contents)| && forall i :: 0 <= i < |slices| ==> Within(rs, slices[i])
    ensures Read(rs, contents, slices) == Flat(contents)[start..end]
    decreases |slices|
  {
    hide Flat, Laid, Holds, Within, Read;
    TilesWithin(rs, slices, start, end);
    ReadStep(rs, contents, slices);
    if slices != [] {
      var s := slices[0];
      FlatAt(rs, contents, 0, s.file, s.offset, s.offset + s.size);
      TilesRead(rs, contents, slices[1..], start + s.size, end);
      Meet(Flat(contents), start, start + s.size, end);
    }
  }

  // ---------------------------------------------------------------------------------------
  // There is one way to tile a range
  // ---------------------------------------------------------------------------------------

  lemma {:induction false} LaidAt(rs: seq<Record>, at: nat, i: nat)
    requires Laid(rs, at) && i < |rs|
    ensures rs[i].entry.offset == at + Size(rs[..i])
    decreases i
  {
    if i > 0 {
      LaidAt(rs[1..], at + rs[0].entry.size, i - 1);
      assert rs[..i][1..] == rs[1..][..i - 1];
    }
  }

  lemma SizeNext(rs: seq<Record>, i: nat)
    requires i < |rs|
    ensures Size(rs[..i + 1]) == Size(rs[..i]) + rs[i].entry.size
  {
    assert rs[..i + 1] == rs[..i] + [rs[i]];
    SizeConcat(rs[..i], [rs[i]]);
    SizeOne(rs[i]);
  }

  lemma {:induction false} LaidOrder(rs: seq<Record>, at: nat, i: nat, j: nat)
    requires Laid(rs, at) && i < j <= |rs|
    ensures rs[i].entry.offset + rs[i].entry.size <= at + Size(rs[..j])
    decreases j
  {
    SizeNext(rs, j - 1);
    if i + 1 < j {
      LaidOrder(rs, at, i, j - 1);
    } else {
      LaidAt(rs, at, i);
    }
  }

  /** Only one file holds the byte at a position, so a slice that begins there is of that file. */
  lemma {:induction false} SameFile(rs: seq<Record>, s: Slice, t: Slice)
    requires Laid(rs, 0) && Within(rs, s) && Within(rs, t)
    requires rs[s.file].entry.offset + s.offset == rs[t.file].entry.offset + t.offset
    ensures s.file == t.file && s.offset == t.offset
  {
    LaidAt(rs, 0, s.file);
    LaidAt(rs, 0, t.file);
    if s.file < t.file {
      LaidOrder(rs, 0, s.file, t.file);
    } else if t.file < s.file {
      LaidOrder(rs, 0, t.file, s.file);
    }
  }

  /** A slice before another one ends where its file ends. */
  lemma {:induction false} FullSlice(rs: seq<Record>, slices: seq<Slice>, start: nat, end: nat)
    requires Laid(rs, 0) && Tiles(rs, slices, start, end) && InFileOrder(slices) && |slices| >= 2
    ensures slices[0].offset + slices[0].size == rs[slices[0].file].entry.size
  {
    var s, t := slices[0], slices[1];
    assert slices[1..][0] == t;
    LaidAt(rs, 0, t.file);
    LaidOrder(rs, 0, s.file, t.file);
  }

  /** Two tilings of a range in file order are the same. */
  lemma {:induction false} TilesUnique(rs: seq<Record>, a: seq<Slice>, b: seq<Slice>, start: nat, end: nat)
    requires Laid(rs, 0) && Tiles(rs, a, start, end) && Tiles(rs, b, start, end)
    requires InFileOrder(a) && InFileOrder(b)
    ensures a == b
    decreases |a|
  {
    TilesWithin(rs, a, start, end);
    TilesWithin(rs, b, start, end);
    if a != [] && b != [] {
      SameFile(rs, a[0], b[0]);
      SameSize(rs, a, b, start, end);
      TilesUnique(rs, a[1..], b[1..], start + a[0].size, end);
      assert a == [a[0]] + a[1..] && b == [b[0]] + b[1..];
    } else {
      EmptyTiling(rs, a, start, end);
      EmptyTiling(rs, b, start, end);
    }
  }

  lemma {:induction false} EmptyTiling(rs: seq<Record>, a: seq<Slice>, start: nat, end: nat)
    requires Tiles(rs, a, start, end)
    ensures a == [] <==> start == end
  {
    if a != [] {
      TilesWithin(rs, a[1..], start + a[0].size, end);
    }
  }

  lemma {:induction false} SameSize(rs: seq<Record>, a: seq<Slice>, b: seq<Slice>, start: nat, end: nat)
    requires Laid(rs, 0) && Tiles(rs, a, start, end) && Tiles(rs, b, start, end)
    requires InFileOrder(a) && InFileOrder(b) && a != [] && b != []
    requires a[0].file == b[0].file && a[0].offset == b[0].offset
    ensures a[0].size == b[0].size
  {
    if |a| >= 2 {
      FullSlice(rs, a, start, end);
    } else {
      EmptyTiling(rs, a[1..], start + a[0].size, end);
    }
    if |b| >= 2 {
      FullSlice(rs, b, start, end);
    } else {
      EmptyTiling(rs, b[1..], start + b[0].size, end);
    }
    TilesWithin(rs, a[1..], start + a[0].size, end);
    TilesWithin(rs, b[1..], start + b[0].size, end);
  }

  lemma {:induction false} TilesSnoc(rs: seq<Record>, slices: seq<Slice>, start: nat, mid: nat, s: Slice)
    requires Tiles(rs, slices, start, mid) && Within(rs, s) && rs[s.file].entry.offset + s.offset == mid
    ensures Tiles(rs, slices + [s], start, mid + s.size)
    decreases |slices|
  {
    if slices == [] {
      assert ([] + [s])[1..] == [];
    } else {
      assert (slices + [s])[1..] == slices[1..] + [s];
      TilesSnoc(rs, slices[1..], start + slices[0].size, mid, s);
    }
  }
}
