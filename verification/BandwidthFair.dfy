/**
  What a round gives to whom, in terms of limits, priorities and time alone: channels are refilled to
  the nearest byte, and every request gets the greatest amount that its channels allow. Over a run,
  no request waits for more than twenty rounds once it has got something.
 */
module BandwidthFair {
  import opened Basics
  import opened BandwidthChannel
  import opened BandwidthManager
  import opened BandwidthRun

  // ---------------------------------------------------------------------------------------
  // A round
  // ---------------------------------------------------------------------------------------

  /** A request has all it asked for, or has got something and waited for twenty rounds. */
  predicate IsDone(r: Request) {
    r.given == r.requestSize || (r.ttl <= 0 && r.given > 0)
  }

  /** What the channels of the requests that stay have to give: all that they have when they are refilled. */
  ghost predicate Gives(w: World, dt: nat, gone: set<nat>, stay: seq<Request>, shares: Shares)
    requires Sound(w)
  {
    && shares.Keys == Channels(stay) && shares.Keys <= w.quota.Keys
    && forall c :: c in shares ==>
      && shares[c].limit == w.limit[c] && shares[c].tmp == Weight(stay, c)
      && (w.limit[c] != 0 ==> exists q ::
          && IsRefill(w.quota[c] + Returned(w.queue, gone, c), w.limit[c], Min(dt, 3000), q)
          && shares[c].quota == Max(0, q))
  }

  /** Those whose peers have not gone, each as often as before. */
  ghost predicate Stay(q: seq<Request>, gone: set<nat>, stay: seq<Request>) {
    && (forall r :: r in stay ==> r in q)
    && forall r :: r in q ==> multiset(stay)[r] == if r.peer in gone then 0 else multiset(q)[r]
  }

  lemma {:induction false} StayCount(q: seq<Request>, gone: set<nat>, r: Request)
    ensures multiset(Kept(q, gone))[r] == if r.peer in gone then 0 else multiset(q)[r]
  {
    if q != [] {
      hide Kept;
      var rest, last := q[..|q| - 1], q[|q| - 1];
      StayCount(rest, gone, r);
      assert q == rest + [last];
      CountOneMore(rest, last, r);
      CountOneMore(Kept(rest, gone), last, r);
      KeptStep(q, gone);
    }
  }

  lemma KeptStep(q: seq<Request>, gone: set<nat>)
    requires q != []
    ensures
      var rest, last := Kept(q[..|q| - 1], gone), q[|q| - 1];
      Kept(q, gone) == if last.peer in gone then rest else rest + [last]
  {
  }

  lemma CountOneMore(q: seq<Request>, e: Request, r: Request)
    ensures multiset(q + [e])[r] == multiset(q)[r] + if e == r then 1 else 0
  {
  }

  lemma KeptStay(q: seq<Request>, gone: set<nat>)
    ensures Stay(q, gone, Kept(q, gone))
  {
    hide Kept;
    forall r | r in q
      ensures multiset(Kept(q, gone))[r] == if r.peer in gone then 0 else multiset(q)[r]
    {
      StayCount(q, gone, r);
    }
  }

  ghost function AllServed(q: seq<Request>, shares: Shares): (s: seq<Request>)
    requires AllWaiting(q) && AllShared(q, shares)
    ensures |s| == |q| && forall i :: 0 <= i < |q| ==> s[i] == Served(q[i], shares)
  {
    seq(|q|, i requires 0 <= i < |q| => Served(q[i], shares))
  }

  lemma AfterStep(q: seq<Request>, shares: Shares, f: bool)
    requires AllWaiting(q) && AllShared(q, shares) && q != []
    ensures
      var rest, last := q[..|q| - 1], Served(q[|q| - 1], shares);
      After(q, shares, f) == After(rest, shares, f) + if Finished(last) == f then [last] else []
  {
    hide Served, Finished;
  }

  lemma ServedStep(q: seq<Request>, shares: Shares)
    requires AllWaiting(q) && AllShared(q, shares) && q != []
    ensures AllServed(q, shares) == AllServed(q[..|q| - 1], shares) + [Served(q[|q| - 1], shares)]
  {
    hide Served;
  }

  lemma FinishedIsDone(r: Request)
    ensures Finished(r) <==> IsDone(r)
  {
  }

  lemma {:induction false} AfterAll(q: seq<Request>, shares: Shares)
    requires AllWaiting(q) && AllShared(q, shares)
    ensures multiset(After(q, shares, false)) + multiset(After(q, shares, true)) == multiset(AllServed(q, shares))
  {
    if q != [] {
      hide After, Served, AllServed, Finished, Waiting, Shared;
      AfterAll(q[..|q| - 1], shares);
      AfterStep(q, shares, true);
      AfterStep(q, shares, false);
      ServedStep(q, shares);
    }
  }

  lemma {:induction false} AfterDone(q: seq<Request>, shares: Shares, f: bool, r: Request)
    requires AllWaiting(q) && AllShared(q, shares) && r in After(q, shares, f)
    ensures IsDone(r) <==> f
  {
    hide Served, Finished, IsDone, Waiting, Shared;
    if q != [] {
      AfterStep(q, shares, f);
      if r in After(q[..|q| - 1], shares, f) {
        AfterDone(q[..|q| - 1], shares, f, r);
      } else {
        FinishedIsDone(r);
      }
    }
  }

  lemma SharesGive(w: World, dt: nat, gone: set<nat>)
    requires Sound(w)
    ensures Gives(w, dt, gone, Kept(w.queue, gone), SharesOf(w, dt, gone))
  {
    hide Kept, Weight, Returned, Refilled, IsRefill;
    KeptWaits(w.queue, gone);
    var shares := SharesOf(w, dt, gone);
    forall c | c in shares && w.limit[c] != 0
      ensures exists q ::
        IsRefill(w.quota[c] + Returned(w.queue, gone, c), w.limit[c], Min(dt, 3000), q) && shares[c].quota == Max(0, q)
    {
      RefillNearest(Left(w, gone, c), w.limit[c], Min(dt, 3000));
    }
  }

  lemma RoundedIs(w: World, dt: nat, gone: set<nat>)
    requires Sound(w)
    ensures AllWaiting(Kept(w.queue, gone)) && AllShared(Kept(w.queue, gone), SharesOf(w, dt, gone))
    ensures
      var r, kept, shares := Rounded(w, dt, gone), Kept(w.queue, gone), SharesOf(w, dt, gone);
      r.world.queue == After(kept, shares, false) && r.done == After(kept, shares, true)
  {
    hide Kept, After, Weight, Spent, Returned, Refilled;
    KeptWaits(w.queue, gone);
    SharesServe(w, dt, gone);
  }

  /**
    A round: the requests of peers that have gone are dropped, and no others; every other one gets the
    greatest amount that its channels allow by its priority, out of all they have when they are
    refilled; and it leaves the queue if and only if it is done then.
   */
  lemma RoundFates(w: World, dt: nat, gone: set<nat>)
    returns (stay: seq<Request>, shares: Shares, served: seq<Request>)
    requires Sound(w)
    ensures Stay(w.queue, gone, stay) && AllShared(stay, shares) && Gives(w, dt, gone, stay, shares)
    ensures |served| == |stay| && forall i :: 0 <= i < |stay| ==> Fate(stay[i], shares, served[i])
    ensures
      var r := Rounded(w, dt, gone);
      && multiset(r.world.queue) + multiset(r.done) == multiset(served)
      && (forall a :: a in r.done ==> IsDone(a)) && (forall a :: a in r.world.queue ==> !IsDone(a))
  {
    hide Sound, Rounded, SharesOf, Kept, After, Fate, Stay, Gives, IsDone, Served, Waiting, Shared;
    stay, shares := Kept(w.queue, gone), SharesOf(w, dt, gone);
    RoundedIs(w, dt, gone);
    KeptStay(w.queue, gone);
    SharesGive(w, dt, gone);
    served := AllServed(stay, shares);
    AfterAll(stay, shares);
    var r := Rounded(w, dt, gone);
    forall a | a in r.done
      ensures IsDone(a)
    {
      AfterDone(stay, shares, true, a);
    }
    forall a | a in r.world.queue
      ensures !IsDone(a)
    {
      AfterDone(stay, shares, false, a);
    }
    forall i | 0 <= i < |stay|
      ensures Fate(stay[i], shares, served[i])
    {
      ServedFate(stay[i], shares);
    }
  }

  // ---------------------------------------------------------------------------------------
  // Runs
  // ---------------------------------------------------------------------------------------

  function Rounds(ops: seq<Op>): nat {
    if ops == [] then 0 else Rounds(ops[..|ops| - 1]) + if ops[|ops| - 1].Round? then 1 else 0
  }

  /** The request was made in this step, with the channels that had a limit then. */
  predicate AskedAt(ops: seq<Op>, k: nat, limit: map<Channel, int>, r: Request)
    requires k < |ops|
  {
    ops[k].Ask? && IdOf(r) == Id(ops[k].peer, ops[k].priority, ops[k].blk,
      LimitingIn(ops[k].channels, LimitsAfter(ops[..k], limit)))
  }

  /** A request that still waits: it has used up a round of its patience in every round since it was made. */
  ghost predicate Patient(ops: seq<Op>, limit: map<Channel, int>, r: Request) {
    exists k :: 0 <= k < |ops| && AskedAt(ops, k, limit, r) && r.ttl == 20 - Rounds(ops[k + 1..])
  }

  lemma {:induction false} RoundsMore(ops: seq<Op>, op: Op)
    ensures Rounds(ops + [op]) == Rounds(ops) + if op.Round? then 1 else 0
  {
    assert (ops + [op])[..|ops|] == ops;
  }

  lemma PatientMore(ops: seq<Op>, op: Op, limit: map<Channel, int>, r: Request, a: Request)
    requires Patient(ops, limit, r) && IdOf(a) == IdOf(r) && a.ttl == r.ttl - if op.Round? then 1 else 0
    ensures Patient(ops + [op], limit, a)
  {
    hide LimitsAfter, LimitingIn, Rounds;
    var k :| 0 <= k < |ops| && AskedAt(ops, k, limit, r) && r.ttl == 20 - Rounds(ops[k + 1..]);
    var more := ops + [op];
    assert more[..k] == ops[..k] && more[k] == ops[k] && more[k + 1..] == ops[k + 1..] + [op];
    RoundsMore(ops[k + 1..], op);
    assert AskedAt(more, k, limit, a);
  }

  lemma PatientNow(ops: seq<Op>, op: Op, limit: map<Channel, int>, a: Request)
    requires op.Ask? && IdOf(a) == Id(op.peer, op.priority, op.blk, LimitingIn(op.channels, LimitsAfter(ops, limit)))
    requires a.ttl == 20
    ensures Patient(ops + [op], limit, a)
  {
    hide LimitsAfter, LimitingIn;
    var more := ops + [op];
    assert more[..|ops|] == ops && more[|ops|] == op && more[|ops| + 1..] == [];
    assert AskedAt(more, |ops|, limit, a);
  }

  /** A request and what a step makes of it. */
  predicate Becomes(op: Op, r: Request, a: Request) {
    IdOf(a) == IdOf(r) && if op.Round? then a.ttl == r.ttl - 1 && r.given <= a.given else a == r
  }

  /** Where the requests after a step come from, those that wait and those that are done. */
  lemma StepOrigin(w: World, op: Op, a: Request)
    requires Sound(w) && OpOk(op, w.quota.Keys)
    requires a in Stepped(w, op).world.queue || a in Stepped(w, op).done
    ensures
      || (exists r :: r in w.queue && Becomes(op, r, a))
      || (op.Ask? && a == Request(op.peer, op.priority, 0, op.blk, 20, LimitingIn(op.channels, w.limit)))
  {
    hide Rounded, LimitingIn;
    if op.Round? {
      RoundOrigin(w, op.dt, op.gone, a);
      var r :| r in w.queue && IdOf(a) == IdOf(r) && a.ttl == r.ttl - 1 && r.given <= a.given;
      assert Becomes(op, r, a);
    } else if a in w.queue {
      assert Becomes(op, a, a);
    }
  }

  lemma RoundOrigin(w: World, dt: nat, gone: set<nat>, a: Request)
    requires Sound(w) && (a in Rounded(w, dt, gone).world.queue || a in Rounded(w, dt, gone).done)
    ensures exists r :: r in w.queue && IdOf(a) == IdOf(r) && a.ttl == r.ttl - 1 && r.given <= a.given
  {
    hide Sound, Rounded, Gives, Greatest, Shared;
    var r := Rounded(w, dt, gone);
    var stay, shares, served := RoundFates(w, dt, gone);
    assert a in multiset(r.world.queue) + multiset(r.done);
    assert a in served;
    var i :| 0 <= i < |served| && served[i] == a;
    assert Fate(stay[i], shares, served[i]) && stay[i] in w.queue;
    GreatestMore(stay[i], shares, served[i]);
  }

  lemma GreatestMore(r: Request, shares: Shares, served: Request)
    requires Shared(r.channels, shares) && Fate(r, shares, served)
    ensures r.given <= served.given
  {
    hide Shared;
  }

  /**
    Over any run from an empty queue: a request that waits was made in some step, with the channels
    that had a limit then, and has waited for the rounds since; if it has got something already, that
    are fewer than twenty.
   */
  lemma {:induction false} RanPatient(w: World, ops: seq<Op>, a: Request)
    requires Sound(w) && w.queue == [] && forall i :: 0 <= i < |ops| ==> OpOk(ops[i], w.quota.Keys)
    requires a in Ran(w, ops).world.queue
    ensures Patient(ops, w.limit, a) && !IsDone(a)
    decreases |ops|
  {
    hide Sound, Stepped, Patient, IsDone, LimitingIn, LimitsAfter;
    var before, op := ops[..|ops| - 1], ops[|ops| - 1];
    assert ops == before + [op];
    var v := Ran(w, before).world;
    StepOrigin(v, op, a);
    RanLimits(w, before);
    StillWaits(v, op, a);
    if exists r :: r in v.queue && Becomes(op, r, a) {
      var r :| r in v.queue && Becomes(op, r, a);
      RanPatient(w, before, r);
      PatientMore(before, op, w.limit, r, a);
    } else {
      PatientNow(before, op, w.limit, a);
    }
  }

  /** After a round nobody waits who is done; other steps do not change what a request has. */
  lemma StillWaits(w: World, op: Op, a: Request)
    requires Sound(w) && OpOk(op, w.quota.Keys) && a in Stepped(w, op).world.queue
    ensures (op.Round? || op.Ask?) && a !in w.queue ==> !IsDone(a)
    ensures op.Round? ==> !IsDone(a)
  {
    hide Rounded, LimitingIn;
    if op.Round? {
      var stay, shares, served := RoundFates(w, op.dt, op.gone);
    }
  }

  /** The request was made before step `j`, and has all it asked for or has waited for twenty rounds. */
  ghost predicate EndsWell(ops: seq<Op>, j: nat, limit: map<Channel, int>, a: Request)
    requires j < |ops|
  {
    exists k ::
      0 <= k < j && AskedAt(ops, k, limit, a) && (a.given == a.requestSize || Rounds(ops[k + 1..j + 1]) >= 20)
  }

  /**
    Over any run from an empty queue: a request that is done in a round was made in some step; it has
    got something, and all it asked for or else it has waited for twenty rounds.
   */
  lemma RanDone(w: World, ops: seq<Op>, j: nat, a: Request)
    requires Sound(w) && w.queue == [] && forall i :: 0 <= i < |ops| ==> OpOk(ops[i], w.quota.Keys)
    requires j < |ops| && a in Stepped(Ran(w, ops[..j]).world, ops[j]).done
    ensures ops[j].Round? && 0 < a.given <= a.requestSize
    ensures EndsWell(ops, j, w.limit, a)
  {
    hide Sound, Stepped, Ran, IsDone, Patient, EndsWell, LimitingIn, LimitsAfter, Rounds;
    var before, op := ops[..j], ops[j];
    var v := Ran(w, before).world;
    DoneInRound(v, op, a);
    StepOrigin(v, op, a);
    var r :| r in v.queue && Becomes(op, r, a);
    RanPatient(w, before, r);
    PatientMore(before, op, w.limit, r, a);
    assert before + [op] == ops[..j + 1];
    DoneLong(ops, j, w.limit, a);
  }

  lemma DoneInRound(w: World, op: Op, a: Request)
    requires Sound(w) && OpOk(op, w.quota.Keys) && a in Stepped(w, op).done
    ensures op.Round? && IsDone(a) && 0 < a.given <= a.requestSize
  {
    hide Rounded, Sound, LimitingIn;
    var stay, shares, served := RoundFates(w, op.dt, op.gone);
    SteppedIds(w, op);
    var i :| 0 <= i < |Stepped(w, op).done| && Stepped(w, op).done[i] == a;
  }

  lemma DoneLong(ops: seq<Op>, j: nat, limit: map<Channel, int>, a: Request)
    requires j < |ops| && ops[j].Round? && Patient(ops[..j + 1], limit, a) && IsDone(a)
    ensures EndsWell(ops, j, limit, a)
  {
    hide LimitingIn, LimitsAfter, Rounds;
    var part := ops[..j + 1];
    var k :| 0 <= k < |part| && AskedAt(part, k, limit, a) && a.ttl == 20 - Rounds(part[k + 1..]);
    assert part[..k] == ops[..k] && part[k] == ops[k] && part[k + 1..] == ops[k + 1..j + 1];
    assert AskedAt(ops, k, limit, a);
  }

  /** The requests that the steps put into the queue: those with a channel that has a limit then. */
  function Queued(ops: seq<Op>, limit: map<Channel, int>): multiset<Id> {
    if ops == [] then multiset{}
    else
      var before, op := ops[..|ops| - 1], ops[|ops| - 1];
      Queued(before, limit) +
      if op.Ask? && LimitingIn(op.channels, LimitsAfter(before, limit)) != [] then
        multiset{Id(op.peer, op.priority, op.blk, LimitingIn(op.channels, LimitsAfter(before, limit)))}
      else multiset{}
  }

  /** While the manager is not closed and no peer goes, no request is lost: each waits or is done. */
  lemma {:induction false} RanAll(w: World, ops: seq<Op>)
    requires Sound(w) && !w.aborted && forall i :: 0 <= i < |ops| ==> OpOk(ops[i], w.quota.Keys)
    requires forall i :: 0 <= i < |ops| ==> !ops[i].Close? && (ops[i].Round? ==> ops[i].gone == {})
    ensures
      var r := Ran(w, ops);
      !r.world.aborted && Ids(r.world.queue) + Ids(r.done) == Ids(w.queue) + Queued(ops, w.limit)
  {
    hide Ids, Stepped, Sound, LimitsAfter, LimitingIn;
    NoIds();
    if ops != [] {
      var before, op := ops[..|ops| - 1], ops[|ops| - 1];
      RanAll(w, before);
      RanLimits(w, before);
      var v := Ran(w, before);
      var r := Stepped(v.world, op);
      StepAll(v.world, op);
      IdsConcat(r.done, v.done);
      Together(Ids(r.world.queue), Ids(r.done), Ids(v.world.queue), Ids(v.done), Ids(w.queue) + Queued(before, w.limit),
        Ids(w.queue) + Queued(ops, w.limit));
    }
  }

  lemma Together(a: multiset<Id>, b: multiset<Id>, v: multiset<Id>, c: multiset<Id>, t: multiset<Id>, u: multiset<Id>)
    requires v + c == t && t <= u && a + b == v + (u - t)
    ensures a + (b + c) == u
  {
    assert a + (b + c) == v + (u - t) + c == t + (u - t);
  }

  lemma StepAll(w: World, op: Op)
    requires Sound(w) && !w.aborted && OpOk(op, w.quota.Keys) && !op.Close? && (op.Round? ==> op.gone == {})
    ensures
      var r, cs := Stepped(w, op), if op.Ask? then LimitingIn(op.channels, w.limit) else [];
      && !r.world.aborted
      && Ids(r.world.queue) + Ids(r.done) ==
         Ids(w.queue) + if cs != [] then multiset{Id(op.peer, op.priority, op.blk, cs)} else multiset{}
  {
    hide Ids, Kept, After, Spent, Refilled, Weight, LimitingIn;
    NoIds();
    match op
    case Round(dt, gone) =>
      RoundedIs(w, dt, gone);
      IdsServed(Kept(w.queue, gone), SharesOf(w, dt, gone));
      AllKept(w.queue);
    case Ask(peer, blk, priority, channels) =>
      IdsOneMore(w.queue, Request(peer, priority, 0, blk, 20, LimitingIn(channels, w.limit)));
    case Throttle(_, _) =>
    case Return(_, _) =>
  }

  lemma {:induction false} AllKept(q: seq<Request>)
    ensures Kept(q, {}) == q
  {
    if q != [] {
      AllKept(q[..|q| - 1]);
    }
  }
}
