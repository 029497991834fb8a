/**
  In which order the arrangement puts the files, and where it puts padding, told from the list that
  comes out of it: at each place, which of the files that come later could have stood there.
 */
module FileOrder {
  import opened FileLayout

  // ---------------------------------------------------------------------------------------
  // An order, and the list that it makes
  // ---------------------------------------------------------------------------------------

  predicate NoneTwice(order: seq<nat>) {
    forall j, k :: 0 <= j < k < |order| ==> order[j] != order[k]
  }

  predicate Covers(order: seq<nat>, n: nat) {
    forall x :: 0 <= x < n ==> x in order
  }

  /** Every file once, by where it stood. */
  predicate IsOrder(order: seq<nat>, n: nat) {
    |order| == n && (forall k :: 0 <= k < n ==> order[k] < n) && Covers(order, n) && NoneTwice(order)
  }

  function Taken(rs: seq<Record>, order: seq<nat>): (items: seq<Record>)
    requires forall k :: 0 <= k < |order| ==> order[k] < |rs|
    ensures |items| == |order| && forall k :: 0 <= k < |order| ==> items[k] == rs[order[k]]
  {
    seq(|order|, k requires 0 <= k < |order| => rs[order[k]])
  }

  /** A file at an offset, or padding there up to the next aligned offset and then the file. */
  function Group(r: Record, padded: bool, off: nat, number: nat): (g: seq<Record>)
    ensures |g| == if padded then 2 else 1
  {
    if padded then [Padding(number, Gap(off), off), Put(r, off + Gap(off))] else [Put(r, off)]
  }

  function Width(r: Record, padded: bool, off: nat): nat {
    (if padded then Gap(off) else 0) + r.entry.size
  }

  /** The files one after the other from an offset on, some after padding. */
  function Lay(items: seq<Record>, pads: seq<bool>, off: nat, number: nat): seq<Record>
    requires |items| == |pads|
  {
    if items == [] then []
    else
      Group(items[0], pads[0], off, number) +
      Lay(items[1..], pads[1..], off + Width(items[0], pads[0], off), if pads[0] then number + 1 else number)
  }

  /** The offset that is reached before file `k` or its padding. */
  function Reached(items: seq<Record>, pads: seq<bool>, off: nat, k: nat): nat
    requires k <= |items| == |pads|
  {
    if k == 0 then off
    else
      var at := Reached(items, pads, off, k - 1);
      at + Width(items[k - 1], pads[k - 1], at)
  }

  // ---------------------------------------------------------------------------------------
  // The rules
  // ---------------------------------------------------------------------------------------

  /** File `k` is larger than file `m`, or as large and stood before it. */
  predicate Beats(rs: seq<Record>, order: seq<nat>, k: nat, m: nat)
    requires k < |order| && m < |order| && order[k] < |rs| && order[m] < |rs|
  {
    var a, b := rs[order[k]].entry.size, rs[order[m]].entry.size;
    a > b || (a == b && order[k] < order[m])
  }

  /** Of the files from `k` on, file `f` stood first. */
  predicate IsFirst(order: seq<nat>, k: nat, f: nat) {
    k <= f < |order| && forall m :: k <= m < |order| ==> order[f] <= order[m]
  }

  /** On an aligned offset: the largest file that is left, the first of these. */
  ghost predicate LargestHere(rs: seq<Record>, order: seq<nat>, k: nat)
    requires k < |order| && forall m :: 0 <= m < |order| ==> order[m] < |rs|
  {
    forall m :: k < m < |order| ==> Beats(rs, order, k, m)
  }

  /** In a gap before the first file that is left, which is large: the largest of the others that fit. */
  ghost predicate FillsGap(rs: seq<Record>, order: seq<nat>, gap: nat, limit: int, k: nat, f: nat)
    requires k < |order| && forall m :: 0 <= m < |order| ==> order[m] < |rs|
  {
    && k < f && IsFirst(order, k, f) && rs[order[k]].entry.size <= gap
    && 0 <= limit < rs[order[f]].entry.size && !rs[order[f]].entry.padFile
    && forall m :: k < m < |order| && m != f && rs[order[m]].entry.size <= gap ==> Beats(rs, order, k, m)
  }

  /** The rule for the place of file `k`, when the offset `at` was reached. */
  ghost predicate Rule(rs: seq<Record>, order: seq<nat>, padded: bool, at: nat, limit: int, k: nat)
    requires k < |order| && forall m :: 0 <= m < |order| ==> order[m] < |rs|
  {
    if at % ALIGNMENT == 0 then !padded && LargestHere(rs, order, k)
    else if padded then
      && IsFirst(order, k, k) && 0 <= limit < rs[order[k]].entry.size && !rs[order[k]].entry.padFile
      && forall m :: k < m < |order| ==> rs[order[m]].entry.size > Gap(at)
    else
      || (IsFirst(order, k, k) && !(0 <= limit < rs[order[k]].entry.size && !rs[order[k]].entry.padFile))
      || exists f :: FillsGap(rs, order, Gap(at), limit, k, f)
  }

  // ---------------------------------------------------------------------------------------
  // One file more
  // ---------------------------------------------------------------------------------------

  /** Where a file stood before one was taken out at `i`. */
  function Lift(j: nat, i: nat): nat {
    if j < i then j else j + 1
  }

  function Lifted(order: seq<nat>, i: nat): (r: seq<nat>)
    ensures |r| == |order| + 1 && r[0] == i && forall k :: 0 <= k < |order| ==> r[k + 1] == Lift(order[k], i)
  {
    [i] + seq(|order|, k requires 0 <= k < |order| => Lift(order[k], i))
  }

  lemma LiftedOrder(order: seq<nat>, i: nat, n: nat)
    requires i <= n && IsOrder(order, n)
    ensures IsOrder(Lifted(order, i), n + 1)
  {
    hide Covers, NoneTwice;
    LiftedOnce(order, i);
    LiftedCovers(order, i, n);
    var more := Lifted(order, i);
    forall k | 0 <= k < |more|
      ensures more[k] < n + 1
    {
      if k > 0 {
        assert order[k - 1] < n;
      }
    }
  }

  lemma LiftedOnce(order: seq<nat>, i: nat)
    requires NoneTwice(order)
    ensures NoneTwice(Lifted(order, i))
  {
    var more := Lifted(order, i);
    forall j, k | 0 <= j < k < |more|
      ensures more[j] != more[k]
    {
      if j > 0 {
        assert order[j - 1] != order[k - 1];
      }
    }
  }

  lemma LiftedCovers(order: seq<nat>, i: nat, n: nat)
    requires Covers(order, n) && i <= n
    ensures Covers(Lifted(order, i), n + 1)
  {
    hide Lifted;
    forall x | 0 <= x < n + 1
      ensures x in Lifted(order, i)
    {
      LiftedHas(order, i, x);
    }
  }

  lemma LiftedHas(order: seq<nat>, i: nat, x: nat)
    requires x < i ==> x in order
    requires x > i ==> x - 1 in order
    ensures x in Lifted(order, i)
  {
    var more := Lifted(order, i);
    if x == i {
      assert more[0] == x;
    } else {
      var k :| 0 <= k < |order| && order[k] == if x < i then x else x - 1;
      assert more[k + 1] == x;
    }
  }

  lemma OrderRange(order: seq<nat>, n: nat)
    requires IsOrder(order, n)
    ensures |order| == n && forall k :: 0 <= k < n ==> order[k] < n
  {
  }

  lemma LiftedTaken(rs: seq<Record>, order: seq<nat>, i: nat)
    requires i < |rs| && IsOrder(order, |rs| - 1)
    ensures IsOrder(Lifted(order, i), |rs|) && Taken(rs, Lifted(order, i)) == [rs[i]] + Taken(Remove(rs, i), order)
  {
    hide Remove, Lifted, Taken;
    LiftedOrder(order, i, |rs| - 1);
    var more := Lifted(order, i);
    var a, b := Taken(rs, more), [rs[i]] + Taken(Remove(rs, i), order);
    forall k | 0 <= k < |a|
      ensures a[k] == b[k]
    {
      if k > 0 {
        LiftedAt(rs, i, order, k - 1);
        assert b[k] == Taken(Remove(rs, i), order)[k - 1];
      }
    }
  }

  lemma {:induction false} ReachedNext(items: seq<Record>, pads: seq<bool>, off: nat, k: nat)
    requires 0 < k <= |items| == |pads|
    ensures Reached(items, pads, off, k) == Reached(items[1..], pads[1..], Reached(items, pads, off, 1), k - 1)
  {
    hide Width;
    if k > 1 {
      ReachedNext(items, pads, off, k - 1);
    }
  }

  lemma LiftedAt(rs: seq<Record>, i: nat, order: seq<nat>, k: nat)
    requires i < |rs| && IsOrder(order, |rs| - 1) && k < |order|
    ensures
      var more := Lifted(order, i);
      && order[k] < |rs| - 1 && more[k + 1] == Lift(order[k], i) < |rs|
      && rs[more[k + 1]] == Remove(rs, i)[order[k]]
  {
  }

  lemma BeatsMore(rs: seq<Record>, i: nat, order: seq<nat>, k: nat, m: nat)
    requires i < |rs| && IsOrder(order, |rs| - 1) && k < |order| && m < |order|
    requires Beats(Remove(rs, i), order, k, m)
    ensures IsOrder(Lifted(order, i), |rs|) && Beats(rs, Lifted(order, i), k + 1, m + 1)
  {
    hide Remove, Lifted, IsOrder;
    LiftedOrder(order, i, |rs| - 1);
    LiftedAt(rs, i, order, k);
    LiftedAt(rs, i, order, m);
  }

  lemma FirstMore(order: seq<nat>, i: nat, k: nat, f: nat)
    requires IsFirst(order, k, f)
    ensures IsFirst(Lifted(order, i), k + 1, f + 1)
  {
    var more := Lifted(order, i);
    forall m | k + 1 <= m < |more|
      ensures more[f + 1] <= more[m]
    {
      assert order[f] <= order[m - 1];
    }
  }

  lemma FillsMore(rs: seq<Record>, i: nat, order: seq<nat>, gap: nat, limit: int, k: nat, f: nat)
    requires i < |rs| && IsOrder(order, |rs| - 1) && k < |order|
    requires FillsGap(Remove(rs, i), order, gap, limit, k, f)
    ensures IsOrder(Lifted(order, i), |rs|) && FillsGap(rs, Lifted(order, i), gap, limit, k + 1, f + 1)
  {
    hide Beats, IsFirst, Remove, Lifted, IsOrder;
    InRange(order, k, f);
    LiftedOrder(order, i, |rs| - 1);
    OrderRange(order, |rs| - 1);
    OrderRange(Lifted(order, i), |rs|);
    LiftedAt(rs, i, order, k);
    LiftedAt(rs, i, order, f);
    FirstMore(order, i, k, f);
    var more := Lifted(order, i);
    var j := k + 1;
    forall m | j < m < |more| && m != f + 1 && rs[more[m]].entry.size <= gap
      ensures Beats(rs, more, j, m)
    {
      LiftedAt(rs, i, order, m - 1);
      BeatsMore(rs, i, order, k, m - 1);
    }
  }

  lemma InRange(order: seq<nat>, k: nat, f: nat)
    requires IsFirst(order, k, f)
    ensures f < |order|
  {
  }

  /** A rule that holds without the file that comes first holds with it. */
  lemma RuleMore(rs: seq<Record>, i: nat, order: seq<nat>, padded: bool, at: nat, limit: int, k: nat)
    requires i < |rs| && IsOrder(order, |rs| - 1) && k < |order| && Rule(Remove(rs, i), order, padded, at, limit, k)
    ensures IsOrder(Lifted(order, i), |rs|) && Rule(rs, Lifted(order, i), padded, at, limit, k + 1)
  {
    hide Gap, Beats, IsFirst, Remove, Lifted, FillsGap, IsOrder;
    LiftedOrder(order, i, |rs| - 1);
    OrderRange(order, |rs| - 1);
    OrderRange(Lifted(order, i), |rs|);
    LiftedAt(rs, i, order, k);
    var less, more := Remove(rs, i), Lifted(order, i);
    if at % ALIGNMENT == 0 {
      var j := k + 1;
      forall m | j < m < |more|
        ensures Beats(rs, more, j, m)
      {
        BeatsMore(rs, i, order, k, m - 1);
      }
    } else if IsFirst(order, k, k)
      && (padded || !(0 <= limit < less[order[k]].entry.size && !less[order[k]].entry.padFile)) {
      FirstMore(order, i, k, k);
      if padded {
        forall m | k + 1 < m < |more|
          ensures rs[more[m]].entry.size > Gap(at)
        {
          LiftedAt(rs, i, order, m - 1);
        }
      }
    } else {
      var f :| FillsGap(less, order, Gap(at), limit, k, f);
      FillsMore(rs, i, order, Gap(at), limit, k, f);
    }
  }

  // ---------------------------------------------------------------------------------------
  // The arrangement follows the rules
  // ---------------------------------------------------------------------------------------

  /** The file that is chosen first is the one that the rules want, whatever the order of the others. */
  lemma FirstRule(rs: seq<Record>, order: seq<nat>, off: nat, limit: int)
    requires rs != [] && IsOrder(order, |rs| - 1)
    ensures
      var c := Choose(rs, off, limit);
      IsOrder(Lifted(order, c.index), |rs|) && Rule(rs, Lifted(order, c.index), c.padded, off, limit, 0)
  {
    hide Gap, FirstLargest, BestFit, Lifted;
    var c := Choose(rs, off, limit);
    LiftedOrder(order, c.index, |rs| - 1);
    var more := Lifted(order, c.index);
    Heads(order, c.index);
    if off % ALIGNMENT == 0 {
      AlignedRule(rs, more);
    } else if Large(rs[0], limit) && !c.padded {
      GapRule(rs, more, Gap(off), limit);
    }
  }

  lemma Heads(order: seq<nat>, i: nat)
    ensures |Lifted(order, i)| == |order| + 1 && Lifted(order, i)[0] == i
  {
  }

  lemma AlignedRule(rs: seq<Record>, order: seq<nat>)
    requires rs != [] && IsOrder(order, |rs|) && order[0] == FirstLargest(rs)
    ensures LargestHere(rs, order, 0)
  {
    hide FirstLargest, Covers;
    forall m | 0 < m < |order|
      ensures Beats(rs, order, 0, m)
    {
      assert order[0] != order[m];
    }
  }

  lemma GapRule(rs: seq<Record>, order: seq<nat>, gap: nat, limit: int)
    requires rs != [] && IsOrder(order, |rs|) && order[0] == BestFit(rs, gap) < |rs| && Large(rs[0], limit)
    ensures exists f :: FillsGap(rs, order, gap, limit, 0, f)
  {
    hide BestFit;
    assert 0 in order;
    var f :| 0 <= f < |order| && order[f] == 0;
    forall m | 0 < m < |order| && m != f && rs[order[m]].entry.size <= gap
      ensures Beats(rs, order, 0, m)
    {
      assert order[0] != order[m] && order[f] != order[m];
    }
    assert FillsGap(rs, order, gap, limit, 0, f);
  }

  /**
    The arranged files, for any files, offset and limit: an order of all files and a choice of padding
    that make the list, and at each place the rule is followed.
   */
  lemma {:induction false} ArrangeOrder(rs: seq<Record>, off: nat, limit: int, number: nat)
    returns (order: seq<nat>, pads: seq<bool>)
    ensures IsOrder(order, |rs|) && |pads| == |rs|
    ensures Arrange(rs, off, limit, number) == Lay(Taken(rs, order), pads, off, number)
    ensures forall k :: 0 <= k < |rs| ==>
      Rule(rs, order, pads[k], Reached(Taken(rs, order), pads, off, k), limit, k)
    decreases |rs|
  {
    hide Choose, Next, Size, Gap, Remove, Rule, Reached, Lay, Lifted, IsOrder;
    if rs == [] {
      order, pads := [], [];
      NothingLaid(off, number);
    } else {
      var c := Choose(rs, off, limit);
      var next := Next(rs, c, off, number);
      var rest, at := Remove(rs, c.index), off + Size(next);
      var o, p := ArrangeOrder(rest, at, limit, number + |next| - 1);
      order, pads := Lifted(o, c.index), [c.padded] + p;
      OrderRange(o, |rest|);
      LiftedTaken(rs, o, c.index);
      OneLaid(rs, c, Taken(rest, o), p, off, number);
      FirstRule(rs, o, off, limit);
      RulesMore(rs, c, o, p, off, limit, number);
    }
  }

  lemma NothingLaid(off: nat, number: nat)
    ensures IsOrder([], 0) && Arrange([], off, 0, number) == [] == Lay([], [], off, number)
  {
  }

  lemma OneLaid(rs: seq<Record>, c: Choice, items: seq<Record>, pads: seq<bool>, off: nat, number: nat)
    requires c.index < |rs| && |items| == |pads|
    ensures
      var next := Next(rs, c, off, number);
      var at := off + Size(next);
      && Lay([rs[c.index]] + items, [c.padded] + pads, off, number) == next + Lay(items, pads, at, number + |next| - 1)
      && Reached([rs[c.index]] + items, [c.padded] + pads, off, 1) == at
      && Reached([rs[c.index]] + items, [c.padded] + pads, off, 0) == off
  {
    hide *;
    NextIs(rs, c, off, number);
    var next, r := Next(rs, c, off, number), rs[c.index];
    var at, n := off + Size(next), number + |next| - 1;
    LayCons(r, items, c.padded, pads, off, number, at, n);
    SameFront(Lay([r] + items, [c.padded] + pads, off, number), Group(r, c.padded, off, number), next,
              Lay(items, pads, at, n));
  }

  lemma SameFront(whole: seq<Record>, a: seq<Record>, b: seq<Record>, rest: seq<Record>)
    requires whole == a + rest && a == b
    ensures whole == b + rest
  {
  }

  lemma LayCons(r: Record, items: seq<Record>, padded: bool, pads: seq<bool>, off: nat, number: nat, at: nat,
                n: nat)
    requires |items| == |pads| && at == off + Width(r, padded, off) && n == number + |Group(r, padded, off, number)| - 1
    ensures
      var more, flags := [r] + items, [padded] + pads;
      && Lay(more, flags, off, number) == Group(r, padded, off, number) + Lay(items, pads, at, n)
      && Reached(more, flags, off, 1) == at && Reached(more, flags, off, 0) == off
  {
    hide *;
    var more, flags := [r] + items, [padded] + pads;
    HeadTail(r, items);
    HeadTail(padded, pads);
    LayStep(more, flags, off, number, at, n);
    ReachedStep(more, flags, off);
  }

  lemma NextIs(rs: seq<Record>, c: Choice, off: nat, number: nat)
    requires c.index < |rs|
    ensures
      var next := Next(rs, c, off, number);
      next == Group(rs[c.index], c.padded, off, number) && Size(next) == Width(rs[c.index], c.padded, off)
  {
    hide Gap, Size;
    NextLaid(rs, c, off, number);
  }

  lemma HeadTail<T>(x: T, s: seq<T>)
    ensures ([x] + s)[0] == x && ([x] + s)[1..] == s
  {
  }

  lemma LayStep(items: seq<Record>, pads: seq<bool>, off: nat, number: nat, at: nat, n: nat)
    requires |items| == |pads| > 0 && at == off + Width(items[0], pads[0], off)
    requires n == number + |Group(items[0], pads[0], off, number)| - 1
    ensures Lay(items, pads, off, number) ==
      Group(items[0], pads[0], off, number) + Lay(items[1..], pads[1..], at, n)
  {
    hide Group, Width;
  }

  lemma ReachedStep(items: seq<Record>, pads: seq<bool>, off: nat)
    requires |items| == |pads| > 0
    ensures Reached(items, pads, off, 0) == off
    ensures Reached(items, pads, off, 1) == off + Width(items[0], pads[0], off)
  {
    hide Width;
  }

  lemma RulesMore(rs: seq<Record>, c: Choice, o: seq<nat>, p: seq<bool>, off: nat, limit: int, number: nat)
    requires c.index < |rs| && IsOrder(o, |rs| - 1) && |p| == |rs| - 1 && IsOrder(Lifted(o, c.index), |rs|)
    requires
      var rest, at := Remove(rs, c.index), off + Size(Next(rs, c, off, number));
      forall k :: 0 <= k < |rest| ==> Rule(rest, o, p[k], Reached(Taken(rest, o), p, at, k), limit, k)
    requires Rule(rs, Lifted(o, c.index), c.padded, off, limit, 0)
    ensures
      var order, pads := Lifted(o, c.index), [c.padded] + p;
      forall k :: 0 <= k < |rs| ==> Rule(rs, order, pads[k], Reached(Taken(rs, order), pads, off, k), limit, k)
  {
    hide Next, Size, Gap, Remove, Rule, Reached, Lay, Lifted, IsOrder;
    var order, pads := Lifted(o, c.index), [c.padded] + p;
    var rest, at := Remove(rs, c.index), off + Size(Next(rs, c, off, number));
    OrderRange(o, |rest|);
    OrderRange(order, |rs|);
    LiftedTaken(rs, o, c.index);
    OneLaid(rs, c, Taken(rest, o), p, off, number);
    var items := Taken(rs, order);
    forall k | 0 <= k < |rs|
      ensures Rule(rs, order, pads[k], Reached(items, pads, off, k), limit, k)
    {
      if k > 0 {
        HeadTail(rs[c.index], Taken(rest, o));
        HeadTail(c.padded, p);
        ReachedNext(items, pads, off, k);
        RuleMore(rs, c.index, o, p[k - 1], Reached(Taken(rest, o), p, at, k - 1), limit, k - 1);
      }
    }
  }
}
