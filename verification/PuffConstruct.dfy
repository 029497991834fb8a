/**
  Building the decoding tables of a canonical Huffman code from its code lengths.
 */
module PuffConstruct {
  import opened BitStream
  import opened Huffman

  lemma CountSnoc(lengths: seq<nat>, i: nat, l: nat)
    requires i < |lengths|
    ensures Count(lengths[..i + 1], l) == Count(lengths[..i], l) + (if lengths[i] == l then 1 else 0)
    ensures SymbolsOf(lengths[..i + 1], l) == SymbolsOf(lengths[..i], l) + (if lengths[i] == l then [i] else [])
  {
    assert lengths[..i + 1][..i] == lengths[..i];
  }

  lemma {:induction false} CountAll(lengths: seq<nat>, l: nat)
    ensures Count(lengths, l) <= |lengths|
    ensures Count(lengths, l) == |lengths| <==> forall i :: 0 <= i < |lengths| ==> lengths[i] == l
  {
    if lengths != [] {
      var n := |lengths| - 1;
      CountAll(lengths[..n], l);
      assert forall i :: 0 <= i < n ==> lengths[..n][i] == lengths[i];
    }
  }

  lemma CountPrefix(lengths: seq<nat>, i: nat, l: nat)
    requires i < |lengths| && lengths[i] == l
    ensures Count(lengths[..i], l) < Count(lengths, l)
  {
    SymbolsOfHas(lengths, i);
  }

  /** Where the symbols of each length end in the table. */
  ghost predicate IsEnds(lengths: seq<nat>, ends: seq<nat>) {
    && |ends| == MAXBITS + 1
    && ends[0] == 0
    && (forall l :: 0 <= l <= MAXBITS ==> ends[l] == |Sorted(lengths, l)|)
    && (forall l :: 1 <= l <= MAXBITS ==> ends[l] == ends[l - 1] + Count(lengths, l))
    && (forall l, m :: 0 <= l <= m <= MAXBITS ==> ends[l] <= ends[m])
  }

  lemma Ends(lengths: seq<nat>) returns (ends: seq<nat>)
    ensures IsEnds(lengths, ends)
  {
    ends := seq(MAXBITS + 1, l requires 0 <= l => |Sorted(lengths, l)|);
    forall l, m | 0 <= l <= m <= MAXBITS ensures ends[l] <= ends[m] {
      SortedPrefix(lengths, l, m);
    }
  }

  lemma {:induction false} SortedWithin(lengths: seq<nat>, l: nat)
    requires l <= MAXBITS
    ensures |Sorted(lengths, l)| <= |lengths|
  {
    if lengths == [] {
      SortedOfNone(l);
    } else {
      var n := |lengths| - 1;
      SortedWithin(lengths[..n], l);
      SortedGrows(lengths, l);
    }
  }

  lemma {:induction false} SortedOfNone(l: nat)
    ensures Sorted([], l) == []
  {
    if l > 0 {
      SortedOfNone(l - 1);
    }
  }

  lemma {:induction false} SortedGrows(lengths: seq<nat>, l: nat)
    requires lengths != []
    ensures var n := |lengths| - 1;
      |Sorted(lengths, l)| == |Sorted(lengths[..n], l)| + (if 0 < lengths[n] <= l then 1 else 0)
  {
    if l > 0 {
      SortedGrows(lengths, l - 1);
    }
  }

  /** Filling each length's part of the table fills the table. */
  lemma {:induction false} PartsMakeSorted(lengths: seq<nat>, ends: seq<nat>, symbol: seq<nat>, l: nat)
    requires IsEnds(lengths, ends) && l <= MAXBITS && ends[MAXBITS] <= |symbol|
    requires forall m :: 1 <= m <= MAXBITS ==> PartFilled(lengths, ends, symbol, m)
    ensures Sorted(lengths, l) == symbol[..ends[l]]
  {
    hide Count, SymbolsOf;
    if l > 0 {
      PartsMakeSorted(lengths, ends, symbol, l - 1);
      assert PartFilled(lengths, ends, symbol, l);
      assert symbol[..ends[l]] == symbol[..ends[l - 1]] + symbol[ends[l - 1]..ends[l]];
    }
  }

  lemma NoSymbols(lengths: seq<nat>)
    requires forall i :: 0 <= i < |lengths| ==> lengths[i] == 0
    ensures !HasSymbol(lengths) && Sorted(lengths, MAXBITS) == []
  {
    var t := Sorted(lengths, MAXBITS);
    if t != [] {
      assert t[0] in t;
      SortedHas(lengths, MAXBITS, t[0]);
    }
  }

  /** The first part: how many symbols have each length. */
  method CountLengths(count: array<nat>, length: seq<nat>)
    requires count.Length == MAXBITS + 1 && ValidLengths(length)
    modifies count
    ensures forall l :: 0 <= l <= MAXBITS ==> count[l] == Count(length, l)
  {
    hide Count;
    for len := 0 to MAXBITS + 1
      invariant forall l :: 0 <= l < len ==> count[l] == 0
    {
      count[len] := 0;
    }
    forall l | 0 <= l <= MAXBITS ensures Count(length[..0], l) == 0 {
      CountNone(l);
    }
    for i := 0 to |length|
      invariant forall l :: 0 <= l <= MAXBITS ==> count[l] == Count(length[..i], l)
    {
      forall l | 0 <= l <= MAXBITS
        ensures Count(length[..i + 1], l) == Count(length[..i], l) + (if length[i] == l then 1 else 0)
      {
        CountSnoc(length, i, l);
      }
      count[length[i]] := count[length[i]] + 1;
    }
    assert length[..|length|] == length;
  }

  lemma CountNone(l: nat)
    ensures Count([], l) == 0
  {
  }

  /** The part of the table for length `l` starts with the symbols of that length in `some`. */
  ghost predicate PartFilled(some: seq<nat>, ends: seq<nat>, symbol: seq<nat>, l: nat) {
    && 1 <= l < |ends|
    && ends[l - 1] + Count(some, l) <= |symbol|
    && symbol[ends[l - 1]..ends[l - 1] + Count(some, l)] == SymbolsOf(some, l)
  }

  lemma PartKept(lengths: seq<nat>, i: nat, ends: seq<nat>, symbol: seq<nat>, l: nat, x: nat)
    requires i < |lengths| && IsEnds(lengths, ends) && ends[MAXBITS] <= |symbol|
    requires 1 <= l <= MAXBITS && PartFilled(lengths[..i], ends, symbol, l)
    requires 1 <= lengths[i] <= MAXBITS
    requires x == ends[lengths[i] - 1] + Count(lengths[..i], lengths[i]) < |symbol|
    ensures PartFilled(lengths[..i + 1], ends, symbol[x := i], l)
  {
    hide Count, SymbolsOf, Sorted;
    CountSnoc(lengths, i, l);
    CountPrefix(lengths, i, lengths[i]);
    CountUpTo(lengths, i, l);
    CountUpTo(lengths, i + 1, l);
    var a, n := ends[l - 1], Count(lengths[..i], l);
    if lengths[i] == l {
      assert symbol[x := i][a..a + n + 1] == symbol[a..a + n] + [i];
    } else {
      if lengths[i] < l {
        assert x < ends[lengths[i]] <= ends[l - 1];
      } else {
        assert ends[l] <= ends[lengths[i] - 1] <= x;
      }
      assert symbol[x := i][a..a + n] == symbol[a..a + n];
    }
  }

  lemma CountUpTo(lengths: seq<nat>, i: nat, l: nat)
    requires i <= |lengths|
    ensures Count(lengths[..i], l) <= Count(lengths, l)
  {
    CountMonotone(lengths, i, |lengths|, l);
    assert lengths[..|lengths|] == lengths;
  }

  lemma PartSkipped(lengths: seq<nat>, i: nat, ends: seq<nat>, symbol: seq<nat>, l: nat)
    requires i < |lengths| && 1 <= l < |ends| && lengths[i] == 0
    requires PartFilled(lengths[..i], ends, symbol, l)
    ensures PartFilled(lengths[..i + 1], ends, symbol, l)
  {
    CountSnoc(lengths, i, l);
  }

  lemma PartEmpty(ends: seq<nat>, symbol: seq<nat>, l: nat)
    requires 1 <= l < |ends| && ends[l - 1] <= |symbol|
    ensures PartFilled([], ends, symbol, l) && Count([], l) == 0
  {
  }

  /** The last part: the symbols in order of length, and in symbol order within a length. */
  method SortSymbols(count: array<nat>, symbol: array<nat>, length: seq<nat>)
    requires count.Length == MAXBITS + 1 && count != symbol
    requires ValidLengths(length) && |length| <= symbol.Length
    requires forall l :: 0 <= l <= MAXBITS ==> count[l] == Count(length, l)
    modifies symbol
    ensures Sorted(length, MAXBITS) <= symbol[..]
  {
    hide Count, Sorted, SymbolsOf, PartFilled;
    ghost var ends := Ends(length);
    SortedWithin(length, MAXBITS);
    var offs := new nat[MAXBITS + 1];
    offs[1] := 0;
    for len := 1 to MAXBITS
      invariant forall l :: 1 <= l <= len ==> offs[l] == ends[l - 1]
    {
      offs[len + 1] := offs[len] + count[len];
    }
    assert length[..0] == [];
    ghost var table := symbol[..];
    forall l | 1 <= l <= MAXBITS ensures PartFilled(length[..0], ends, table, l) && Count(length[..0], l) == 0 {
      PartEmpty(ends, table, l);
    }
    for i := 0 to |length|
      invariant table == symbol[..]
      invariant forall l :: 1 <= l <= MAXBITS ==> offs[l] == ends[l - 1] + Count(length[..i], l)
      invariant forall l :: 1 <= l <= MAXBITS ==> PartFilled(length[..i], ends, table, l)
    {
      ghost var before, next := table, length[..i + 1];
      forall l | 1 <= l <= MAXBITS
        ensures Count(next, l) == Count(length[..i], l) + (if length[i] == l then 1 else 0)
      {
        CountSnoc(length, i, l);
      }
      if length[i] != 0 {
        var x := offs[length[i]];
        CountPrefix(length, i, length[i]);
        assert x < ends[length[i]] <= ends[MAXBITS];
        symbol[x] := i;
        offs[length[i]] := offs[length[i]] + 1;
        table := before[x := i];
        forall l | 1 <= l <= MAXBITS ensures PartFilled(next, ends, table, l) {
          PartKept(length, i, ends, before, l, x);
        }
      } else {
        forall l | 1 <= l <= MAXBITS ensures PartFilled(next, ends, table, l) {
          PartSkipped(length, i, ends, before, l);
        }
      }
    }
    assert length[..|length|] == length;
    PartsMakeSorted(length, ends, table, MAXBITS);
  }

  lemma LeftZero(lengths: seq<nat>)
    ensures Left(lengths, 0) == 1
  {
  }

  /** How many codes are left over, in the longest length; negative, but no number of codes, when there are too few. */
  method CodesLeft(count: array<nat>, length: seq<nat>) returns (left: int)
    requires count.Length == MAXBITS + 1 && ValidLengths(length) && HasSymbol(length)
    requires forall l :: 0 <= l <= MAXBITS ==> count[l] == Count(length, l)
    ensures left < 0 <==> Kraft(length) > Pow2(MAXBITS)
    ensures left >= 0 ==> left == Pow2(MAXBITS) - Kraft(length)
  {
    hide Count, Pow2;
    LeftIsKraft(length, MAXBITS);
    LeftZero(length);
    left := 1;
    var len := 1;
    while len <= MAXBITS
      invariant 1 <= len <= MAXBITS + 1
      invariant left == Left(length, len - 1) >= 0
    {
      LeftStep(length, len);
      left := 2 * left;
      left := left - count[len];
      if left < 0 {
        LeftNegative(length, len, MAXBITS);
        return left;
      }
      len := len + 1;
    }
  }

  /**
    Builds the tables: zero for a complete code (or for no symbols at all), positive for an
    incomplete one, negative for an oversubscribed one.
   */
  method Construct(count: array<nat>, symbol: array<nat>, length: seq<nat>) returns (left: int)
    requires count.Length == MAXBITS + 1 && count != symbol
    requires ValidLengths(length) && |length| <= symbol.Length
    modifies count, symbol
    ensures forall l :: 0 <= l <= MAXBITS ==> count[l] == Count(length, l)
    ensures !HasSymbol(length) ==> left == 0
    ensures HasSymbol(length) ==> (left < 0 <==> Kraft(length) > Pow2(MAXBITS))
    ensures HasSymbol(length) && left >= 0 ==> left == Pow2(MAXBITS) - Kraft(length)
    ensures left >= 0 ==> IsTable(length, count[..], symbol[..])
  {
    CountLengths(count, length);
    CountAll(length, 0);
    if count[0] == |length| {
      NoSymbols(length);
      return 0;
    }
    left := CodesLeft(count, length);
    if left < 0 {
      return left;
    }
    SortSymbols(count, symbol, length);
  }
}
