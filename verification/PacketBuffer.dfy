/**
  The ring buffer for packets: a growing array, in which a packet's place is its sequence number
  modulo the size, behaves as a map from sequence numbers to packets. Sequence numbers have
  sixteen bits and wrap around.
 */
module PacketBuffer {
  import opened Basics

  datatype Option<T> = None | Some(value: T)

  // ---------------------------------------------------------------------------------------
  // Sequence numbers
  // ---------------------------------------------------------------------------------------

  const WRAP := 0x10000

  /** One sequence number comes before another, when the shorter way from it leads up. */
  predicate CompareLessWrap(lhs: nat, rhs: nat) {
    var distDown, distUp := (lhs - rhs) % WRAP, (rhs - lhs) % WRAP;
    distUp < distDown
  }

  /** How far it is up from one number to another. */
  function Dist(from: int, to: int): (d: nat)
    ensures d < WRAP
  {
    (to - from) % WRAP
  }

  /** Numbers that are less than half the range apart come in the order in which they are counted. */
  lemma LessWrapIff(a: int, b: int)
    ensures CompareLessWrap(a % WRAP, b % WRAP) <==> 0 < Dist(a, b) < 0x8000
  {
  }

  /** Counting on from a number leads to the other. */
  lemma DistReaches(from: int, k: int)
    requires 0 <= k < WRAP
    ensures (from + Dist(from, k)) % WRAP == k
  {
  }

  lemma DistIs(from: int, d: int)
    requires 0 <= d < WRAP
    ensures Dist(from, from + d) == d == Dist(from, (from + d) % WRAP) == Dist(from % WRAP, (from + d) % WRAP)
  {
  }

  // ---------------------------------------------------------------------------------------
  // Places
  // ---------------------------------------------------------------------------------------

  /** The sizes the buffer may have: powers of two, so that a mask takes the remainder. */
  predicate IsCapacity(c: nat) {
    c in {16, 32, 64, 128, 256, 512, 1024, 2048, 4096, 8192, 16384, 32768, 65536}
  }

  function Slot(i: int, cap: nat): (s: nat)
    requires cap > 0
    ensures s < cap
  {
    i % cap
  }

  lemma SlotShift(i: int, cap: nat)
    requires cap > 0
    ensures Slot(i + cap, cap) == Slot(i, cap)
  {
    var q, r := i / cap, i % cap;
    assert i == q * cap + r;
    assert i + cap == (q + 1) * cap + r;
    SlotUnique(i + cap, q + 1, r, cap);
  }

  lemma SlotUnique(i: int, q: int, r: nat, cap: nat)
    requires r < cap && i == q * cap + r
    ensures Slot(i, cap) == r
  {
    DivModUnique(i, q, r, cap);
  }

  /** Numbers less than the size apart have different places. */
  lemma SlotDistinct(i: int, j: int, cap: nat)
    requires cap > 0 && i - cap < j < i + cap && i != j
    ensures Slot(i, cap) != Slot(j, cap)
  {
    if i < j {
      SlotAbove(i, j - i, cap);
    } else {
      SlotAbove(j, i - j, cap);
    }
  }

  lemma SlotAbove(i: int, d: nat, cap: nat)
    requires 0 < d < cap
    ensures Slot(i, cap) != Slot(i + d, cap)
  {
    var q, r := i / cap, i % cap;
    assert i == q * cap + r;
    if r + d < cap {
      SlotUnique(i + d, q, r + d, cap);
    } else {
      assert i + d == (q + 1) * cap + (r + d - cap);
      SlotUnique(i + d, q + 1, r + d - cap, cap);
    }
  }

  /** A place belongs to one number of any stretch as long as the buffer. */
  lemma SlotOwner(first: int, s: nat, cap: nat) returns (i: int)
    requires s < cap
    ensures first <= i < first + cap && Slot(i, cap) == s
  {
    var q, r := first / cap, first % cap;
    assert first == q * cap + r;
    if s >= r {
      i := first + (s - r);
      SlotUnique(i, q, s, cap);
    } else {
      i := first + (s + cap - r);
      assert i == (q + 1) * cap + s;
      SlotUnique(i, q + 1, s, cap);
    }
  }

  lemma SlotMultiple(i: int, k: int, cap: nat)
    requires cap > 0
    ensures Slot(i + k * cap, cap) == Slot(i, cap)
  {
    var q, r := i / cap, i % cap;
    assert i == q * cap + r;
    assert i + k * cap == (q + k) * cap + r;
    SlotUnique(i + k * cap, q + k, r, cap);
  }

  lemma Divides(cap: nat) returns (m: nat)
    requires IsCapacity(cap)
    ensures cap > 0 && WRAP == m * cap
  {
    m := WRAP / cap;
  }

  lemma Associates(k: int, m: int, cap: int)
    ensures k * (m * cap) == (k * m) * cap
  {
  }

  /** Wrapping around does not change the place. */
  lemma SameSlot(i: int, j: int, cap: nat)
    requires IsCapacity(cap) && i % WRAP == j % WRAP
    ensures cap > 0 && Slot(i, cap) == Slot(j, cap)
  {
    hide Slot, IsCapacity;
    var k := j / WRAP - i / WRAP;
    var m := Divides(cap);
    assert j == i + k * WRAP;
    Associates(k, m, cap);
    SlotMultiple(i, k * m, cap);
  }

  lemma SlotBelow(i: int, cap: nat)
    requires cap > 0
    ensures Slot(Slot(i, cap) - 1, cap) == Slot(i - 1, cap)
  {
    var q, r := i / cap, i % cap;
    assert i == q * cap + r;
    if r > 0 {
      SlotUnique(i - 1, q, r - 1, cap);
      SlotUnique(r - 1, 0, r - 1, cap);
    } else {
      assert i - 1 == (q - 1) * cap + (cap - 1);
      SlotUnique(i - 1, q - 1, cap - 1, cap);
      SlotUnique(-1, -1, cap - 1, cap);
    }
  }

  // ---------------------------------------------------------------------------------------
  // The ring
  // ---------------------------------------------------------------------------------------

  /** The packet with a number, which is counted on past the wrap. */
  function Lookup<T>(contents: map<int, T>, i: int): Option<T> {
    if i % WRAP in contents then Some(contents[i % WRAP]) else None
  }

  /** Every place has what belongs to the number that owns it, counting from `first`. */
  ghost predicate Ring<T>(storage: seq<Option<T>>, contents: map<int, T>, first: int) {
    |storage| > 0 ==> forall i :: first <= i < first + |storage| ==> storage[Slot(i, |storage|)] == Lookup(contents, i)
  }

  /** The numbers in use are among the `n` from the first on. */
  ghost predicate Within<T>(contents: map<int, T>, first: int, n: int) {
    forall k :: k in contents ==> 0 <= k < WRAP && Dist(first, k) < n
  }

  lemma RingAt<T>(storage: seq<Option<T>>, contents: map<int, T>, first: int, i: int)
    requires Ring(storage, contents, first) && first <= i < first + |storage|
    ensures storage[Slot(i, |storage|)] == Lookup(contents, i)
  {
  }

  /** Counting may start anywhere from where all numbers in use are still reached. */
  lemma RingFrom<T>(storage: seq<Option<T>>, contents: map<int, T>, first: int, g: int)
    requires IsCapacity(|storage|) && Ring(storage, contents, first)
    requires Within(contents, first, |storage|) && Within(contents, g, |storage|)
    ensures Ring(storage, contents, g)
  {
    hide Slot, IsCapacity;
    var cap := |storage|;
    forall i | g <= i < g + cap
      ensures storage[Slot(i, cap)] == Lookup(contents, i)
    {
      var j := SlotOwner(first, Slot(i, cap), cap);
      RingAt(storage, contents, first, j);
      SameOwner(contents, first, i, j, cap);
      SameOwner(contents, g, j, i, cap);
    }
  }

  /** A number in use that has the place of a number of the stretch is that number. */
  lemma SameOwner<T>(contents: map<int, T>, first: int, i: int, j: int, cap: nat)
    requires IsCapacity(cap) && Within(contents, first, cap) && first <= j < first + cap && Slot(i, cap) == Slot(j, cap)
    ensures i % WRAP in contents ==> i % WRAP == j % WRAP
  {
    hide Slot, IsCapacity;
    if i % WRAP in contents {
      var k := first + Dist(first, i % WRAP);
      DistReaches(first, i % WRAP);
      SameSlot(i, k, cap);
      if k != j {
        SlotDistinct(k, j, cap);
      }
    }
  }

  /** Changing one place changes the map at one number. */
  lemma RingPut<T>(storage: seq<Option<T>>, contents: map<int, T>, first: int, idx: int, contents': map<int, T>)
    requires Ring(storage, contents, first) && first <= idx < first + |storage| <= first + WRAP
    requires forall i :: i % WRAP != idx % WRAP ==> Lookup(contents', i) == Lookup(contents, i)
    ensures Ring(storage[Slot(idx, |storage|) := Lookup(contents', idx)], contents', first)
  {
    hide Slot, Lookup;
    var cap := |storage|;
    forall i | first <= i < first + cap && i != idx
      ensures Slot(i, cap) != Slot(idx, cap) && i % WRAP != idx % WRAP
    {
      SlotDistinct(i, idx, cap);
    }
  }

  lemma EmptyRing<T>(storage: seq<Option<T>>, first: int)
    requires Ring(storage, map[], first)
    ensures forall k :: 0 <= k < |storage| ==> storage[k] == None
    ensures forall g :: Ring(storage, map[], g)
  {
    hide Slot;
    forall k | 0 <= k < |storage|
      ensures storage[k] == None
    {
      var i := SlotOwner(first, k, |storage|);
      RingAt(storage, map[], first, i);
    }
  }

  // ---------------------------------------------------------------------------------------
  // The buffer
  // ---------------------------------------------------------------------------------------

  class PacketBuffer<T> {
    var storage: array<Option<T>>
    var size: nat
    var first: nat
    var last: nat

    /** The map the buffer stands for. */
    ghost var contents: map<int, T>

    /** How many numbers there are from the first to the last one in use. */
    ghost function Span(): (n: nat)
      reads this
      ensures n < WRAP
    {
      Dist(first, last)
    }

    ghost predicate Valid()
      reads this, storage
    {
      && (IsCapacity(storage.Length) || (storage.Length == 0 && first == 0))
      && first < WRAP && size == |contents|
      && Ring(storage[..], contents, first)
      && (contents != map[] ==> Spans())
    }

    /** The first and the last are those of the numbers in use, and there is a place for all between. */
    ghost predicate Spans()
      reads this, storage
    {
      first in contents && (last - 1) % WRAP in contents && Within(contents, first, Span()) && Fitting()
    }

    ghost predicate Fitting()
      reads this, storage
    {
      last < WRAP && 1 <= Span() <= 0x8000 && Span() <= storage.Length
    }

    /** A number that can be told from those in use: with it they are still less than half the range. */
    ghost predicate InReach(idx: nat)
      reads this
    {
      && idx < WRAP
      && (contents != map[] ==>
            var d := Dist(first, idx);
            d < 0x8000 || (d > 0x8000 && WRAP - d + Span() <= 0x8000))
    }

    constructor ()
      ensures Valid() && contents == map[] && fresh(storage) && storage.Length == 0
    {
      storage := new Option<T>[0];
      size, first, last := 0, 0, 0;
      contents := map[];
    }

    /** Grows the storage to at least `n` places. */
    method Reserve(n: nat)
      requires Valid() && n <= 0xffff
      modifies `storage
      ensures Valid() && fresh(storage) && storage.Length >= n && storage.Length > 0
      ensures storage.Length >= old(storage.Length)
      ensures storage.Length > 16 && storage.Length > old(storage.Length) ==> storage.Length < 2 * n
    {
      var newSize := if storage.Length == 0 then 16 else storage.Length;
      while newSize < n
        invariant IsCapacity(newSize) && newSize >= storage.Length
        invariant newSize > 16 && newSize > storage.Length ==> newSize < 2 * n
        decreases n - newSize
      {
        newSize := 2 * newSize;
      }
      var newStorage := new Option<T>[newSize](_ => None);
      CopyTo(newStorage);
      storage := newStorage;
    }

    method CopyTo(newStorage: array<Option<T>>)
      requires Valid() && newStorage != storage && IsCapacity(newStorage.Length) && newStorage.Length >= storage.Length
      requires forall i :: 0 <= i < newStorage.Length ==> newStorage[i] == None
      modifies newStorage
      ensures Ring(newStorage[..], contents, first)
    {
      hide Slot, IsCapacity;
      var cap, newCap := storage.Length, newStorage.Length;
      for i := first to first + cap
        invariant forall j :: first <= j < i ==> newStorage[Slot(j, newCap)] == Lookup(contents, j)
        invariant forall j :: i <= j < first + newCap ==> newStorage[Slot(j, newCap)] == None
        invariant storage[..] == old(storage[..])
      {
        forall j | first <= j < first + newCap && j != i
          ensures Slot(j, newCap) != Slot(i, newCap)
        {
          SlotDistinct(j, i, newCap);
        }
        RingAt(storage[..], contents, first, i);
        newStorage[Slot(i, newCap)] := storage[Slot(i, cap)];
      }
      Sixteen(newCap);
      NothingBeyond(newCap);
    }

    lemma NothingBeyond(newCap: nat)
      requires Valid() && newCap <= WRAP
      ensures forall j :: first + storage.Length <= j < first + newCap ==> Lookup(contents, j) == None
    {
      forall j | first + storage.Length <= j < first + newCap
        ensures Lookup(contents, j) == None
      {
        DistIs(first, j - first);
      }
    }

    /** How many places before the first are free. */
    method FreeSpace() returns (n: nat)
      requires Valid() && contents != map[]
      ensures n == storage.Length - Span()
    {
      hide Slot, IsCapacity;
      var cap := storage.Length;
      ghost var end := first + Span();
      Sixteen(cap);
      var start := Slot(first, cap);
      var i := Slot(first - 1, cap);
      n := 0;
      SlotShift(first - 1, cap);
      while i != start
        invariant 0 <= n <= cap - Span() && i == Slot(first + cap - 1 - n, cap)
        decreases cap - n
      {
        var p := first + cap - 1 - n;
        RingAt(storage[..], contents, first, p);
        InUse(p);
        if storage[i] != None {
          break;
        }
        SlotBelow(p, cap);
        n := n + 1;
        i := Slot(i as int - 1, cap);
      }
      if i == start && first + cap - 1 - n != first {
        SlotDistinct(first, first + cap - 1 - n, cap);
      }
    }

    /** Of the numbers from the first on, the last one in use is known. */
    lemma InUse(p: int)
      requires Valid() && contents != map[] && first <= p < first + WRAP
      ensures p >= first + Span() ==> Lookup(contents, p) == None
      ensures p == first + Span() - 1 ==> Lookup(contents, p) != None
    {
      hide Dist, Ring, IsCapacity;
      DistIs(first, p - first);
      LastOf(first, last);
    }

    function At(idx: nat): (r: Option<T>)
      requires storage.Length == 0 ==> first == 0
      reads this, storage
    {
      if idx >= first + storage.Length || CompareLessWrap(idx, first) then None
      else storage[Slot(idx, storage.Length)]
    }

    /**
      A number past the wrap, as far from the first as there are places or more, which is not seen
      to be beyond them: its place belongs to another number.
     */
    ghost predicate Beyond(idx: nat)
      reads this, storage
    {
      contents != map[] && idx < first && storage.Length <= Dist(first, idx) <= 0x8000
    }

    /**
      Looking up a number finds the packet with that number, if there is one. For a number beyond
      the places that is so only if no number in use shares its place.
     */
    lemma AtFinds(idx: nat)
      requires Valid() && idx < WRAP
      ensures At(idx) == Lookup(contents, idx) <==>
        !Beyond(idx) || forall k :: k in contents ==> Slot(k, storage.Length) != Slot(idx, storage.Length)
    {
      hide Slot, CompareLessWrap, IsCapacity, Dist, Within, Lookup, Ring;
      if contents == map[] {
        EmptyRing(storage[..], first);
        NotFound(contents, idx);
      } else {
        Position(idx);
        Outside(contents, idx, first, Span());
        NotFound(contents, idx);
        if Beyond(idx) {
          BeyondPlace(idx);
        } else if !(idx >= first + storage.Length || CompareLessWrap(idx, first)) {
          var i := first + Dist(first, idx);
          SameSlot(idx, i, storage.Length);
          RingAt(storage[..], contents, first, i);
          LookupWrapped(contents, i);
        }
      }
    }

    /** The place of a number beyond the places is empty if and only if no number in use shares it. */
    lemma BeyondPlace(idx: nat)
      requires Valid() && IsCapacity(storage.Length) && contents != map[]
      ensures storage[Slot(idx, storage.Length)] == None <==>
        forall k :: k in contents ==> Slot(k, storage.Length) != Slot(idx, storage.Length)
    {
      hide Slot, CompareLessWrap, IsCapacity, Dist;
      var cap := storage.Length;
      var j := SlotOwner(first, Slot(idx, cap), cap);
      RingAt(storage[..], contents, first, j);
      SameSlot(j, j % WRAP, cap);
      forall k | k in contents && Slot(k, cap) == Slot(idx, cap)
        ensures k == j % WRAP
      {
        SameOwner(contents, first, k, j, cap);
      }
    }

    /** Where a number is, counting from the first. */
    lemma Position(idx: nat)
      requires idx < WRAP && first < WRAP
      ensures CompareLessWrap(idx, first) <==> Dist(first, idx) > 0x8000
      ensures first + Dist(first, idx) == if idx < first then idx + WRAP else idx
      ensures (first + Dist(first, idx)) % WRAP == idx
    {
      hide Dist, CompareLessWrap;
      LessWrapIff(idx, first);
      DistCases(first, idx);
      DistCases(idx, first);
    }

    /** All is ready for a packet to be put in. */
    ghost predicate Room(idx: nat)
      reads this, storage
    {
      && IsCapacity(storage.Length)
      && first < WRAP && size == |contents|
      && Ring(storage[..], contents, first)
      && Dist(first, idx) < Span() && Within(contents, first, Span())
      && (first in contents || first == idx) && ((last - 1) % WRAP in contents || (last - 1) % WRAP == idx)
      && Fitting()
    }

    /** A number past the wrap for which no room is made, because the places do not reach the wrap. */
    ghost predicate Misplaced(idx: nat)
      reads this, storage
    {
      contents != map[] && idx < first && Dist(first, idx) < 0x8000 && first + storage.Length < WRAP
    }

    /** The storage is not larger than it takes to hold so many. */
    ghost predicate GrownFor(n: nat)
      reads this, storage
    {
      storage.Length == 16 || storage.Length < 2 * n
    }

    method MakeRoom(idx: nat)
      requires Valid() && idx < WRAP
      modifies this
      ensures contents == old(contents) && size == old(size) && IsCapacity(storage.Length)
      ensures old(InReach(idx)) && !old(Misplaced(idx)) ==> Room(idx)
      ensures old(Misplaced(idx)) ==> Span() > storage.Length && storage == old(storage) && first == old(first)
      ensures !old(InReach(idx)) ==> Torn(idx) && first == if old(Dist(first, idx)) > 0x8000 then idx else old(first)
      ensures storage == old(storage) || (fresh(storage) && (old(InReach(idx)) ==> GrownFor(Span())))
    {
      hide Slot, CompareLessWrap, Ring, Within, Dist;
      if size != 0 {
        Extend(idx);
      } else {
        if storage.Length == 0 {
          Reserve(16);
        }
        EmptyRing(storage[..], first);
        first := idx;
        last := (idx + 1) % WRAP;
        Itself(idx);
        LastAlone(first, last);
        NoneWithin(contents, first);
      }
    }

    /** Makes room for a number beside those in use. */
    method Extend(idx: nat)
      requires Valid() && idx < WRAP && contents != map[]
      modifies `storage, `first, `last
      ensures IsCapacity(storage.Length) && (old(InReach(idx)) && !old(Misplaced(idx)) ==> Room(idx))
      ensures old(Misplaced(idx)) ==> Span() > storage.Length && storage == old(storage) && first == old(first)
      ensures !old(InReach(idx)) ==> Torn(idx) && first == if old(Dist(first, idx)) > 0x8000 then idx else old(first)
      ensures storage == old(storage) || (fresh(storage) && (old(InReach(idx)) ==> GrownFor(Span())))
    {
      hide Slot, CompareLessWrap, IsCapacity, Ring, Dist;
      Position(idx);
      if InReach(idx) {
        NewLast(first, last, idx);
      } else {
        TornApart(first, last, idx);
      }
      Itself(idx);
      if CompareLessWrap(idx, first) {
        if InReach(idx) {
          WithinFrom(contents, first, last, idx);
        }
        ReserveBelow(idx);
      } else {
        ReserveAbove(idx);
      }
      if CompareLessWrap(last, (idx + 1) % WRAP) {
        last := (idx + 1) % WRAP;
      }
    }

    /** With this number those in use are not between the first and the last, or too many for that. */
    ghost predicate Torn(idx: nat)
      reads this
    {
      Span() > 0x8000 || Dist(first, idx) >= Span() || exists k :: k in contents && Dist(first, k) >= Span()
    }

    /** Room for a number above the first, which may be past the wrap. */
    method ReserveAbove(idx: nat)
      requires Valid() && contents != map[] && idx < WRAP && Dist(first, idx) <= 0x8000
      modifies `storage
      ensures Valid()
      ensures old(Misplaced(idx)) ==> storage == old(storage) && storage.Length <= Dist(first, idx)
      ensures Dist(first, idx) < 0x8000 && !old(Misplaced(idx)) ==> storage.Length > Dist(first, idx)
      ensures storage == old(storage)
        || (fresh(storage) && Span() <= Dist(first, idx) && GrownFor(Dist(first, idx) + 1))
    {
      hide Slot, CompareLessWrap, IsCapacity, Ring, Dist, Within;
      DistCases(first, idx);
      Sixteen(storage.Length);
      EndOf(first, storage.Length);
      if idx >= first + storage.Length {
        Reserve(idx - first + 1);
      } else if idx < first {
        var end := (first + storage.Length) % WRAP;
        if idx >= end && storage.Length < 0xffff {
          Reserve(storage.Length + (idx + 1 - end));
        }
      }
      Sixteen(storage.Length);
    }

    /** Room for a number before the first. */
    method ReserveBelow(idx: nat)
      requires Valid() && idx < WRAP && contents != map[] && Dist(first, idx) > 0x8000
      modifies `storage, `first
      ensures first == idx && IsCapacity(storage.Length)
      ensures old(InReach(idx)) ==> storage.Length >= Span() && Ring(storage[..], contents, first)
      ensures storage == old(storage) || (fresh(storage) && (old(InReach(idx)) ==> GrownFor(Span())))
    {
      hide Slot, IsCapacity, Ring, Within, Dist, CompareLessWrap;
      var freeSpace := FreeSpace();
      var below := (first - idx) % WRAP;
      Below(first, idx);
      if below > freeSpace {
        Reserve(below + storage.Length - freeSpace);
      }
      Sixteen(storage.Length);
      if InReach(idx) {
        NewLast(first, last, idx);
        WithinFrom(contents, first, last, idx);
        WithinMore(contents, first, Span(), storage.Length);
        WithinMore(contents, idx, Dist(idx, last), storage.Length);
        RingFrom(storage[..], contents, first, idx);
      }
      first := idx;
    }

    /**
      Puts a packet in, or takes it out when there is none to put in; returns the one that was there.
      The storage grows to less than twice what the numbers in use span. All is well if and only if
      the number is not one for which no room is made; then it takes the place of another.
     */
    method Insert(idx: nat, value: Option<T>) returns (oldValue: Option<T>)
      requires Valid() && idx < WRAP
      modifies this, storage
      ensures value.Some? ==> contents == old(contents)[idx as int := value.value] && IsCapacity(storage.Length)
      ensures value.Some? ==> (Valid() <==> old(InReach(idx)) && !old(Misplaced(idx)))
      ensures value.Some? && Valid() ==> oldValue == Lookup(old(contents), idx)
      ensures value.Some? && old(Misplaced(idx)) ==>
        && storage == old(storage) && first == old(first)
        && oldValue == old(storage[Slot(idx, storage.Length)]) && storage[Slot(idx, storage.Length)] == value
      ensures value.Some? && !old(InReach(idx)) ==>
        first == if old(Dist(first, idx)) > 0x8000 then idx else old(first)
      ensures value.None? && !old(Beyond(idx)) ==>
        Valid() && oldValue == Lookup(old(contents), idx) && contents == old(contents) - {idx as int}
      ensures storage == old(storage) || (fresh(storage) && (old(InReach(idx)) ==> GrownFor(Span())))
    {
      hide Slot, CompareLessWrap, IsCapacity, Ring;
      if value == None {
        ghost var taken;
        oldValue, taken := Remove(idx);
        return;
      }
      MakeRoom(idx);
      oldValue := PutIn(idx, value.value);
    }

    /** Fills the place of a number. */
    method PutIn(idx: nat, value: T) returns (oldValue: Option<T>)
      requires IsCapacity(storage.Length) && idx < WRAP
      modifies storage, `contents, `size
      ensures contents == old(contents)[idx as int := value]
      ensures oldValue == old(storage[Slot(idx, storage.Length)]) && storage[Slot(idx, storage.Length)] == Some(value)
      ensures old(Room(idx)) ==> Valid() && oldValue == Lookup(old(contents), idx)
      ensures old(Torn(idx)) ==> !Valid()
    {
      hide Slot, IsCapacity, Ring, Lookup, Within, Dist;
      Sixteen(storage.Length);
      var slot := Slot(idx, storage.Length);
      oldValue := storage[slot];
      ghost var before := storage[..];
      if Room(idx) {
        PlaceOf(idx, contents[idx as int := value]);
        Added(contents, idx, value, first, Span());
      }
      storage[slot] := Some(value);
      assert storage[..] == before[slot := Some(value)];
      contents := contents[idx as int := value];
      if oldValue == None {
        size := size + 1;
      }
      if old(Torn(idx)) && Span() <= 0x8000 {
        ghost var k: int :| k in contents && Dist(first, k) >= Span();
        NotWithin(contents, first, Span(), k);
      }
    }

    /** The place of a number holds its packet, and holds the new one when it is changed. */
    lemma PlaceOf(idx: nat, contents': map<int, T>)
      requires IsCapacity(storage.Length) && idx < WRAP && first < WRAP && Ring(storage[..], contents, first)
      requires Dist(first, idx) < storage.Length
      requires forall k :: k != idx ==>
        (k in contents' <==> k in contents) && (k in contents ==> contents'[k] == contents[k])
      ensures storage[Slot(idx, storage.Length)] == Lookup(contents, idx)
      ensures Ring(storage[..][Slot(idx, storage.Length) := Lookup(contents', idx)], contents', first)
    {
      hide Slot, IsCapacity;
      Position(idx);
      Sixteen(storage.Length);
      var i := first + Dist(first, idx);
      SameSlot(idx, i, storage.Length);
      RingAt(storage[..], contents, first, i);
      RingPut(storage[..], contents, first, i, contents');
    }

    /**
      Takes a packet out and returns it. For a number beyond the places it is the packet that shares
      its place, and the first and the last are not kept up to date then.
     */
    method Remove(idx: nat) returns (oldValue: Option<T>, ghost taken: nat)
      requires Valid() && idx < WRAP
      modifies this, storage
      ensures storage == old(storage)
      ensures oldValue == Lookup(old(contents), taken) && contents == old(contents) - {taken as int}
      ensures !old(Beyond(idx)) ==> Valid() && taken == idx
      ensures old(Beyond(idx)) ==>
        && taken < WRAP && Dist(old(first), taken) < storage.Length
        && Slot(taken, storage.Length) == Slot(idx, storage.Length)
        && (Valid() <==> contents == map[] || (old(first) in contents && (old(last) - 1) % WRAP in contents))
    {
      hide Slot, CompareLessWrap, IsCapacity, Dist, Within, Ring, Lookup;
      taken := idx;
      Position(idx);
      Outside(contents, idx, first, Span());
      NotFound(contents, idx);
      if idx >= first + storage.Length {
        return None, taken;
      }
      if CompareLessWrap(idx, first) {
        return None, taken;
      }
      if Beyond(idx) {
        taken := OwnerOf(idx);
      }
      oldValue := RemoveFrom(idx, taken);
    }

    lemma OwnerOf(idx: nat) returns (taken: nat)
      requires IsCapacity(storage.Length)
      ensures taken < WRAP && Dist(first, taken) < storage.Length
      ensures Slot(taken, storage.Length) == Slot(idx, storage.Length)
    {
      hide Slot, IsCapacity;
      Sixteen(storage.Length);
      var j := SlotOwner(first, Slot(idx, storage.Length), storage.Length);
      taken := j % WRAP;
      SameSlot(j, taken, storage.Length);
      DistIs(first, j - first);
    }

    /** Takes out the packet in the place of a number, which belongs to `taken`. */
    method RemoveFrom(idx: nat, ghost taken: nat) returns (oldValue: Option<T>)
      requires Valid() && idx < WRAP && taken < WRAP && IsCapacity(storage.Length)
      requires Slot(taken, storage.Length) == Slot(idx, storage.Length)
      requires contents != map[] ==> Dist(first, taken) < storage.Length
      requires contents != map[] ==> taken == idx || Dist(first, idx) >= Span()
      modifies this, storage
      ensures storage == old(storage)
      ensures oldValue == Lookup(old(contents), taken) && contents == old(contents) - {taken as int}
      ensures taken == idx ==> Valid()
      ensures taken != idx ==>
        (Valid() <==> contents == map[] || (old(first) in contents && (old(last) - 1) % WRAP in contents))
    {
      hide Slot, CompareLessWrap, IsCapacity, Ring, Dist, Within, Lookup;
      Less(contents, taken, first, Span());
      Outside(contents, taken, first, Span());
      oldValue := TakeOut(idx, taken);
      Tidy(idx, oldValue);
    }

    /** Empties the place of a number, which belongs to `taken`. */
    method TakeOut(idx: nat, ghost taken: nat) returns (oldValue: Option<T>)
      requires Valid() && idx < WRAP && taken < WRAP && IsCapacity(storage.Length)
      requires Slot(taken, storage.Length) == Slot(idx, storage.Length)
      requires contents != map[] ==> Dist(first, taken) < storage.Length
      modifies storage, `contents
      ensures Ring(storage[..], contents, first)
      ensures oldValue == Lookup(old(contents), taken) && contents == old(contents) - {taken as int}
      ensures |contents| == old(|contents|) - if oldValue.Some? then 1 else 0
    {
      hide Slot, IsCapacity, Ring, Lookup, Within, Dist, Fitting;
      Sixteen(storage.Length);
      var slot := Slot(idx, storage.Length);
      oldValue := storage[slot];
      ghost var before := storage[..];
      ghost var contents' := contents - {taken as int};
      NotFound(contents, taken);
      if contents == map[] {
        EmptyRing(before, first);
        assert before[slot := None] == before;
      } else {
        PlaceOf(taken, contents');
      }
      storage[slot] := None;
      assert storage[..] == before[slot := None];
      Removed(contents, taken);
      contents := contents';
    }

    /** Keeps count, and the first and the last. */
    method Tidy(idx: nat, oldValue: Option<T>)
      requires IsCapacity(storage.Length) && first < WRAP && idx < WRAP && Ring(storage[..], contents, first)
      requires size == |contents| + if oldValue.Some? then 1 else 0
      requires contents != map[] ==> Fitting() && Within(contents, first, Span())
      requires contents != map[] && Dist(first, idx) < Span() ==>
        && idx as int !in contents
        && (idx != first ==> first in contents) && (idx != (last - 1) % WRAP ==> (last - 1) % WRAP in contents)
      modifies `size, `first, `last
      ensures contents == map[] || Dist(old(first), idx) < old(Span()) ==> Valid()
      ensures contents != map[] && Dist(old(first), idx) >= old(Span()) ==>
        (Valid() <==> old(first) in contents && (old(last) - 1) % WRAP in contents)
    {
      hide Slot, Ring, CompareLessWrap, IsCapacity, Dist;
      if contents != map[] {
        AtEnds(first, last, idx);
      }
      if oldValue != None {
        size := size - 1;
        if size == 0 {
          last := first;
        }
      }
      if idx == first && size != 0 {
        NotAlone(contents, first, last);
        BumpFirst();
      }
      if (idx + 1) % WRAP == last && size != 0 {
        BumpLast();
      }
    }

    /** Moves the first up to the next number in use. */
    method BumpFirst()
      requires IsCapacity(storage.Length) && first < WRAP && Ring(storage[..], contents, first) && Fitting()
      requires Within(contents, first, Span()) && (last - 1) % WRAP in contents && first !in contents
      modifies `first
      ensures first < WRAP && first in contents && Fitting() && Within(contents, first, Span())
      ensures Ring(storage[..], contents, first)
    {
      hide Slot, IsCapacity, Dist;
      Sixteen(storage.Length);
      ghost var start, n := first, Span();
      LastOf(first, last);
      OneUp(contents, start, n);
      first := first + 1;
      var i := 0;
      while i < storage.Length
        invariant start < first < start + n && first == start + 1 + i && Within(contents, first, n - 1 - i)
        decreases storage.Length - i
      {
        RingAt(storage[..], contents, start, first);
        if storage[Slot(first, storage.Length)] != None {
          break;
        }
        OneUp(contents, first, n - 1 - i);
        i := i + 1;
        first := first + 1;
      }
      WrapFirst(contents, start, last, first);
      first := first % WRAP;
      RingFrom(storage[..], contents, start, first);
    }

    /** The last number in use, counted down from the one before `last`. */
    method LastInUse() returns (p: int)
      requires IsCapacity(storage.Length) && first < WRAP && Ring(storage[..], contents, first) && Fitting()
      requires Within(contents, first, Span()) && first in contents
      ensures
        var q := p + first + Span() - last;
        first <= q < first + Span() && q % WRAP in contents && Within(contents, first, q + 1 - first)
    {
      hide Slot, IsCapacity, Dist;
      Sixteen(storage.Length);
      ghost var n := Span();
      p := last - 1;
      ghost var q: int := first + n - 1;
      ghost var c := first + n - last;
      LastOf(first, last);
      var i := 0;
      while i < storage.Length
        invariant first <= q == first + n - 1 - i && q == p + c && Within(contents, first, q + 1 - first)
        decreases storage.Length - i
      {
        SameUpTo(p, c);
        SameSlot(p, q, storage.Length);
        RingAt(storage[..], contents, first, q);
        if storage[Slot(p, storage.Length)] != None {
          return;
        }
        OneDown(contents, first, q + 1 - first);
        i := i + 1;
        p := p - 1;
        q := q - 1;
      }
      assert false;
    }

    /** Moves the last down to one past the greatest number in use. */
    method BumpLast()
      requires IsCapacity(storage.Length) && first < WRAP && Ring(storage[..], contents, first) && Fitting()
      requires Within(contents, first, Span()) && first in contents && (last - 1) % WRAP !in contents
      modifies `last
      ensures Fitting() && (last - 1) % WRAP in contents && Within(contents, first, Span())
    {
      hide Slot, IsCapacity, Dist, Ring, Within;
      LastOf(first, last);
      var p := LastInUse();
      p := p + 1;
      LastAt(first, p, first + Span() - last);
      last := p % WRAP;
    }
  }

  lemma OnlyFirst<T>(contents: map<int, T>, first: nat)
    requires first < WRAP && Within(contents, first, 1)
    ensures contents == map[] || first in contents
  {
    forall k | k in contents
      ensures k == first
    {
      DistReaches(first, k);
    }
  }

  /** Whether a number is the first or the last of those between two. */
  lemma AtEnds(first: nat, last: nat, idx: nat)
    requires first < WRAP && last < WRAP && idx < WRAP
    ensures (idx + 1) % WRAP == last <==> idx == (last - 1) % WRAP
    ensures 1 <= Dist(first, last) && (idx == first || (idx + 1) % WRAP == last) ==>
      Dist(first, idx) < Dist(first, last)
  {
  }

  lemma NotAlone<T>(contents: map<int, T>, first: nat, last: nat)
    requires first < WRAP && last < WRAP && Within(contents, first, Dist(first, last)) && contents != map[]
    requires first !in contents
    ensures (last - 1) % WRAP != first
  {
    if (last - 1) % WRAP == first {
      assert Dist(first, last) == 1;
      OnlyFirst(contents, first);
    }
  }

  lemma SameUpTo(p: int, c: int)
    requires c == 0 || c == WRAP
    ensures (p + c) % WRAP == p % WRAP
  {
  }

  lemma LastAt(first: nat, p: int, c: int)
    requires (c == 0 || c == WRAP) && first < WRAP && 0 < p + c - first < WRAP
    ensures Dist(first, p % WRAP) == p + c - first && (p % WRAP - 1) % WRAP == (p - 1) % WRAP == (p + c - 1) % WRAP
  {
  }

  lemma LastOf(first: nat, last: nat)
    requires first < WRAP && last < WRAP && Dist(first, last) >= 1
    ensures first + Dist(first, last) - last == 0 || first + Dist(first, last) - last == WRAP
    ensures (last - 1) % WRAP == (first + Dist(first, last) - 1) % WRAP
    ensures Dist(first, (last - 1) % WRAP) == Dist(first, last) - 1
  {
  }

  lemma WrapFirst<T>(contents: map<int, T>, start: nat, last: nat, found: int)
    requires start < WRAP && last < WRAP && start <= found < start + Dist(start, last)
    requires Within(contents, found, Dist(start, last) - (found - start))
    ensures Dist(found % WRAP, last) == Dist(start, last) - (found - start)
    ensures Within(contents, found % WRAP, Dist(found % WRAP, last))
  {
    hide Dist;
    WrapDist(start, last, found);
    forall k | k in contents
      ensures Dist(found % WRAP, k) == Dist(found, k)
    {
      SameDist(found, k);
    }
  }

  lemma SameDist(a: int, b: int)
    ensures Dist(a % WRAP, b) == Dist(a, b)
  {
  }

  lemma WrapDist(start: nat, last: nat, found: int)
    requires start < WRAP && last < WRAP && start <= found < start + Dist(start, last)
    ensures Dist(found % WRAP, last) == Dist(start, last) - (found - start)
  {
  }

  /** When the first number is not in use, those in use are among the rest. */
  lemma OneUp<T>(contents: map<int, T>, first: int, n: int)
    requires Within(contents, first, n) && first % WRAP !in contents
    ensures Within(contents, first + 1, n - 1)
  {
    forall k | k in contents
      ensures Dist(first + 1, k) < n - 1
    {
      assert Dist(first, k) != 0;
    }
  }

  lemma OneDown<T>(contents: map<int, T>, first: nat, n: int)
    requires Within(contents, first, n) && n >= 1 && (first + n - 1) % WRAP !in contents
    ensures Within(contents, first, n - 1)
  {
    forall k | k in contents
      ensures Dist(first, k) < n - 1
    {
      DistReaches(first, k);
    }
  }

  lemma Added<T>(contents: map<int, T>, idx: nat, value: T, first: nat, n: nat)
    requires idx < WRAP && Dist(first, idx) < n && Within(contents, first, n)
    ensures Within(contents[idx as int := value], first, n)
    ensures Lookup(contents[idx as int := value], idx) == Some(value)
    ensures |contents[idx as int := value]| == |contents| + if Lookup(contents, idx) == None then 1 else 0
  {
    assert (idx as int) % WRAP == idx as int;
    hide Dist;
    OneMore(contents, idx, value);
  }

  lemma OneMore<T>(m: map<int, T>, k: int, value: T)
    ensures |m[k := value]| == |m| + if k in m then 0 else 1
  {
    var m' := m[k := value];
    assert m'.Keys == m.Keys + {k};
    assert |m'.Keys| == |m.Keys| + if k in m then 0 else 1;
  }

  lemma Less<T>(contents: map<int, T>, k: int, first: nat, n: nat)
    ensures Within(contents, first, n) ==> Within(contents - {k}, first, n)
  {
  }

  lemma Outside<T>(contents: map<int, T>, k: nat, first: nat, n: nat)
    ensures Within(contents, first, n) && Dist(first, k) >= n ==> k as int !in contents
  {
  }

  lemma NoneWithin<T>(contents: map<int, T>, first: nat)
    requires |contents| == 0
    ensures contents == map[] && Within(contents, first, 1)
  {
  }

  lemma LookupWrapped<T>(contents: map<int, T>, i: int)
    ensures Lookup(contents, i) == Lookup(contents, i % WRAP)
  {
  }

  lemma NotFound<T>(contents: map<int, T>, k: nat)
    requires k < WRAP
    ensures Lookup(contents - {k as int}, k) == None && (contents == map[] ==> Lookup(contents, k) == None)
    ensures Lookup(contents, k).Some? <==> k as int in contents
    ensures k as int !in contents ==> contents - {k as int} == contents
  {
  }

  lemma Removed<T>(m: map<int, T>, k: int)
    ensures |m - {k}| == |m| - if k in m then 1 else 0
  {
    var m' := m - {k};
    if k in m {
      assert m'.Keys == m.Keys - {k};
      assert |m'.Keys| == |m.Keys| - 1;
    } else {
      assert m' == m;
    }
  }

  lemma Sixteen(cap: nat)
    requires IsCapacity(cap)
    ensures 16 <= cap <= WRAP
  {
  }

  lemma EndOf(first: nat, length: nat)
    requires first < WRAP && length <= WRAP
    ensures (first + length) % WRAP == if first + length < WRAP then first + length else first + length - WRAP
  {
  }

  lemma Below(first: nat, idx: nat)
    requires first < WRAP && idx < WRAP && Dist(first, idx) > 0x8000
    ensures (first - idx) % WRAP == WRAP - Dist(first, idx)
  {
  }

  lemma DistCases(a: int, b: int)
    requires 0 <= a < WRAP && 0 <= b < WRAP
    ensures Dist(a, b) == if a <= b then b - a else b - a + WRAP
  {
  }

  lemma Itself(idx: nat)
    requires idx < WRAP
    ensures Dist(idx, idx) == 0 && ((idx + 1) % WRAP - 1) % WRAP == idx
  {
  }

  lemma Next(idx: nat)
    requires idx < WRAP
    ensures (idx + 1) % WRAP == if idx == WRAP - 1 then 0 else idx + 1
  {
  }

  /** Where the first and the last are after a number is added. */
  lemma NewLast(first: nat, last: nat, idx: nat)
    requires first < WRAP && last < WRAP && idx < WRAP && 1 <= Dist(first, last) <= 0x8000
    requires
      var d := Dist(first, idx);
      d < 0x8000 || (d > 0x8000 && WRAP - d + Dist(first, last) <= 0x8000)
    ensures CompareLessWrap(last, (idx + 1) % WRAP) <==> Dist(first, last) <= Dist(first, idx) < 0x8000
    ensures Dist(first, idx) < 0x8000 ==> Dist(first, (idx + 1) % WRAP) == Dist(first, idx) + 1
    ensures Dist(first, idx) > 0x8000 ==> Dist(idx, last) == (first - idx) % WRAP + Dist(first, last) <= 0x8000
  {
    LessWrapIff(last, (idx + 1) % WRAP);
    hide Dist, CompareLessWrap;
    Next(idx);
    var next := (idx + 1) % WRAP;
    DistCases(first, last);
    DistCases(first, idx);
    DistCases(first, next);
    DistCases(last, next);
    DistCases(idx, last);
    DistCases(idx, first);
    assert (first - idx) % WRAP == Dist(idx, first) by { IsDist(idx, first); }
  }

  lemma IsDist(a: int, b: int)
    ensures (b - a) % WRAP == Dist(a, b)
  {
  }

  /** Counting from an earlier number, all numbers in use are still between it and the last. */
  /** Where a number out of reach leads: to a span of more than half the range, or past a number in use. */
  lemma TornApart(first: nat, last: nat, idx: nat)
    requires first < WRAP && last < WRAP && idx < WRAP && 1 <= Dist(first, last) <= 0x8000
    requires
      var d := Dist(first, idx);
      d == 0x8000 || (d > 0x8000 && WRAP - d + Dist(first, last) > 0x8000)
    ensures
      var next, d := (idx + 1) % WRAP, Dist(first, idx);
      var start := if d > 0x8000 then idx else first;
      var n := Dist(start, if CompareLessWrap(last, next) then next else last);
      n > 0x8000 || (d == 0x8000 && Dist(first, idx) >= n) || (d > 0x8000 && Dist(idx, first) >= n)
  {
    LessWrapIff(last, (idx + 1) % WRAP);
    hide Dist, CompareLessWrap;
    Next(idx);
    var next := (idx + 1) % WRAP;
    DistCases(first, last);
    DistCases(first, idx);
    DistCases(first, next);
    DistCases(last, next);
    DistCases(idx, last);
    DistCases(idx, first);
    DistCases(idx, next);
  }

  lemma WithinFrom<T>(contents: map<int, T>, first: nat, last: nat, idx: nat)
    requires first < WRAP && last < WRAP && idx < WRAP && Within(contents, first, Dist(first, last))
    requires Dist(first, idx) > 0x8000 && WRAP - Dist(first, idx) + Dist(first, last) <= 0x8000
    ensures Within(contents, idx, Dist(idx, last))
  {
    hide Dist;
    forall k | k in contents
      ensures 0 <= k < WRAP && Dist(idx, k) < Dist(idx, last)
    {
      DistCases(first, k);
      DistCases(idx, k);
      DistCases(first, last);
      DistCases(first, idx);
      DistCases(idx, last);
    }
  }

  // ---------------------------------------------------------------------------------------
  // Where it fails
  // ---------------------------------------------------------------------------------------

  /** A buffer with one packet, the number of which is a multiple of sixteen. */
  method OnePacket(number: nat, packet: int) returns (b: PacketBuffer<int>)
    requires number < WRAP && number % 16 == 0
    ensures fresh(b) && fresh(b.storage) && b.Valid() && b.contents == map[number as int := packet]
    ensures b.first == number && b.storage.Length == 16 && b.storage[0] == Some(packet)
  {
    hide Slot, Ring, Lookup, CompareLessWrap, Within, IsCapacity, Dist;
    b := new PacketBuffer<int>();
    var none := b.Insert(number, Some(packet));
    assert b.contents == map[number as int := packet];
    assert b.first in b.contents && (b.last - 1) % WRAP in b.contents;
    LastAlone(b.first, b.last);
    Sixteen(b.storage.Length);
    SlotUnique(number, number / 16, 0, 16);
    RingAt(b.storage[..], b.contents, b.first, b.first);
    LookupOne(number, packet);
  }

  lemma LastAlone(first: nat, last: nat)
    requires first < WRAP && last < WRAP && (last - 1) % WRAP == first
    ensures Dist(first, last) == 1
  {
  }

  lemma LookupOne(k: nat, packet: int)
    requires k < WRAP
    ensures Lookup(map[k as int := packet], k) == Some(packet)
  {
  }

  /** A packet with the number 0x8010 is found under the number 0x10, and lost when that one is removed. */
  method BeyondLookup(packet: int) returns (b: PacketBuffer<int>, found: Option<int>, removed: Option<int>)
    ensures b.contents == map[] && found == Some(packet) == removed
  {
    hide Slot, Ring, CompareLessWrap, Within, IsCapacity, Dist, Lookup;
    b := OnePacket(0x8010, packet);
    SlotUnique(0x10, 1, 0, 16);
    SlotUnique(0x8010, 0x801, 0, 16);
    DistCases(0x8010, 0x10);
    b.Position(0x10);
    found := b.At(0x10);
    ghost var taken;
    removed, taken := b.Remove(0x10);
    Nearest(0x8010, taken);
    LookupOne(0x8010, packet);
    assert b.contents == map[];
  }

  lemma Nearest(first: nat, taken: nat)
    requires first < WRAP - 16 && taken < WRAP && Dist(first, taken) < 16 && Slot(taken, 16) == Slot(first, 16)
    ensures taken == first
  {
    hide Slot, Dist;
    DistCases(first, taken);
    if taken != first {
      SlotDistinct(taken, first, 16);
    }
  }

  /** A packet with the number 0x0 takes the place of the one with the number 0xFFE0, though both are to be kept. */
  method WrapOverwrites(packet: int, next: int) returns (b: PacketBuffer<int>, found: Option<int>)
    ensures b.contents == map[0xFFE0 := packet, 0 := next] && found == Some(next)
  {
    hide Slot, Ring, CompareLessWrap, Within, IsCapacity, Dist, Lookup;
    b := OnePacket(0xFFE0, packet);
    SlotUnique(0, 0, 0, 16);
    SlotUnique(0xFFE0, 0xFFE, 0, 16);
    DistCases(0xFFE0, 0);
    var lost := b.Insert(0, Some(next));
    b.Position(0xFFE0);
    Itself(0xFFE0);
    found := b.At(0xFFE0);
  }

  /**
    Numbers that span more than half the range: a packet with the number 0x8001 is taken to come before
    those with the numbers 0 and 2, and the packet with the number 2 is then found no more.
   */
  method TooFarApart(packet: int, other: int, next: int) returns (b: PacketBuffer<int>, found: Option<int>)
    ensures b.contents == map[0 := packet, 2 := other, 0x8001 := next] && found == None && !b.Valid()
  {
    hide Slot, Ring, Within, IsCapacity, Dist, Lookup, CompareLessWrap;
    b := OnePacket(0, packet);
    DistCases(0, 2);
    DistCases(2, 0);
    LastOf(b.first, b.last);
    var _ := b.Insert(2, Some(other));
    assert b.contents == map[0 := packet, 2 := other];
    assert 0 in b.contents && 2 in b.contents;
    WithinAt(b.contents, b.first, b.Span(), 0);
    WithinAt(b.contents, b.first, b.Span(), 2);
    DistCases(0, 0x8001);
    var _ := b.Insert(0x8001, Some(next));
    DistCases(0x8001, 2);
    b.Position(2);
    Sixteen(b.storage.Length);
    found := b.At(2);
  }

  lemma WithinMore<T>(contents: map<int, T>, first: int, n: int, m: int)
    requires Within(contents, first, n) && n <= m
    ensures Within(contents, first, m)
  {
  }

  lemma NotWithin<T>(contents: map<int, T>, first: int, n: int, k: int)
    requires k in contents && Dist(first, k) >= n
    ensures !Within(contents, first, n)
  {
  }

  lemma WithinAt<T>(contents: map<int, T>, first: int, n: int, k: int)
    requires Within(contents, first, n) && k in contents
    ensures Dist(first, k) < n
  {
  }
}
