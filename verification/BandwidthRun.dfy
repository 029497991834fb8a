/**
  Any run of the bandwidth manager and its channels: requests, rounds, changed limits and
  returned quota, in any order, against a reference on values. No channel gets into debt; what is
  given out through a channel is covered by what it had and what its limit allowed for the time of
  the rounds; and whoever is given something has asked for it, once.
 */
module BandwidthRun {
  import opened Basics
  import opened BandwidthChannel
  import opened BandwidthManager

  datatype Op =
    | Ask(peer: nat, blk: int, priority: int, channels: seq<Channel?>)
    | Round(dt: nat, gone: set<nat>)
    | Throttle(channel: Channel, limit: nat)
    | Return(channel: Channel, amount: nat)
    | Close

  predicate OpOk(op: Op, world: set<Channel>) {
    match op
    case Ask(_, blk, priority, channels) =>
      blk > 0 && priority > 0 && |channels| == 5 && forall c :: c in channels ==> c == null || c in world
    case Throttle(c, _) => c in world
    case Return(c, _) => c in world
    case Round(_, _) => true
    case Close => true
  }

  // ---------------------------------------------------------------------------------------
  // The reference
  // ---------------------------------------------------------------------------------------

  /** The queue, and of every channel what is left and its limit. */
  datatype World = World(queue: seq<Request>, aborted: bool, quota: map<Channel, int>, limit: map<Channel, int>)

  /** The world after a step, and the requests that were finished in it. */
  datatype Outcome = Outcome(world: World, done: seq<Request>)

  /** No channel is in debt, and every channel in use is known. */
  ghost predicate Sound(w: World) {
    && AllWaiting(w.queue) && Channels(w.queue) <= w.quota.Keys == w.limit.Keys && (w.aborted ==> w.queue == [])
    && forall c :: c in w.quota ==> w.limit[c] >= 0 && w.quota[c] >= 0
  }

  /** The channels that have a limit, in their order. */
  function LimitingIn(channels: seq<Channel?>, limit: map<Channel, int>): (cs: seq<Channel>)
    ensures |cs| <= |channels|
    ensures forall c :: c in cs ==> c in limit
  {
    if channels == [] then []
    else
      var c := channels[|channels| - 1];
      LimitingIn(channels[..|channels| - 1], limit) + if c != null && c in limit && limit[c] > 0 then [c] else []
  }

  /** They are exactly the ones with a limit, those of the first channels before those of the others. */
  lemma {:induction false} LimitingIs(a: seq<Channel?>, b: seq<Channel?>, limit: map<Channel, int>)
    ensures LimitingIn(a + b, limit) == LimitingIn(a, limit) + LimitingIn(b, limit)
    ensures forall c: Channel :: c in limit ==> (c in LimitingIn(b, limit) <==> c in b && limit[c] > 0)
  {
    hide LimitingIn;
    LimitingStep(b, limit);
    if b == [] {
      assert a + b == a;
    } else {
      var n := |b| - 1;
      LimitingIs(a, b[..n], limit);
      assert (a + b)[..|a| + n] == a + b[..n] && (a + b)[|a| + n] == b[n];
      LimitingStep(a + b, limit);
      forall c: Channel
        ensures c in b <==> c in b[..n] || c == b[n]
      {
        InFront(b, c);
      }
    }
  }

  lemma LimitingStep(channels: seq<Channel?>, limit: map<Channel, int>)
    ensures channels == [] ==> LimitingIn(channels, limit) == []
    ensures channels != [] ==>
      var c := channels[|channels| - 1];
      LimitingIn(channels, limit) ==
        LimitingIn(channels[..|channels| - 1], limit) + if c != null && c in limit && limit[c] > 0 then [c] else []
  {
  }

  lemma InFront(b: seq<Channel?>, c: Channel?)
    requires b != []
    ensures c in b <==> c in b[..|b| - 1] || c == b[|b| - 1]
  {
    assert b == b[..|b| - 1] + [b[|b| - 1]];
  }

  /** What a channel has when those that have gone have given back what they had. */
  function Left(w: World, gone: set<nat>, c: Channel): int
    requires c in w.quota && c in w.limit
  {
    w.quota[c] + if w.limit[c] == 0 then 0 else Returned(w.queue, gone, c)
  }

  /** What the channels have to give to the requests that are kept. */
  ghost function SharesOf(w: World, dt: nat, gone: set<nat>): (shares: Shares)
    requires Sound(w)
  {
    var kept := Kept(w.queue, gone);
    KeptWaits(w.queue, gone);
    map c | c in Channels(kept) ::
      Share(w.limit[c], if w.limit[c] == 0 then 0 else Max(0, Refilled(Left(w, gone, c), w.limit[c], Min(dt, 3000))),
            Weight(kept, c))
  }

  /** A round: requests are dropped, channels refilled, and what they have is shared out. */
  ghost function Rounded(w: World, dt: nat, gone: set<nat>): (r: Outcome)
    requires Sound(w)
  {
    var kept, shares := Kept(w.queue, gone), SharesOf(w, dt, gone);
    KeptWaits(w.queue, gone);
    SharesServe(w, dt, gone);
    var quota := map c | c in w.quota ::
      if c in shares && w.limit[c] != 0 then
        Refilled(Left(w, gone, c), w.limit[c], Min(dt, 3000)) - Spent(kept, shares, c)
      else Left(w, gone, c);
    Outcome(w.(queue := After(kept, shares, false), quota := quota), After(kept, shares, true))
  }

  ghost function Stepped(w: World, op: Op): (r: Outcome)
    requires Sound(w) && OpOk(op, w.quota.Keys)
  {
    match op
    case Ask(peer, blk, priority, channels) =>
      var cs := LimitingIn(channels, w.limit);
      if w.aborted || cs == [] then Outcome(w, [])
      else Outcome(w.(queue := w.queue + [Request(peer, priority, 0, blk, 20, cs)]), [])
    case Round(dt, gone) => Rounded(w, dt, gone)
    case Throttle(c, limit) => Outcome(w.(limit := w.limit[c := limit]), [])
    case Return(c, amount) =>
      Outcome(if w.limit[c] == 0 then w else w.(quota := w.quota[c := w.quota[c] + amount]), [])
    case Close => Outcome(w.(queue := [], aborted := true), [])
  }

  /** All steps one after the other; the requests that were finished last come first. */
  ghost function Ran(w: World, ops: seq<Op>): (r: Outcome)
    requires Sound(w) && forall i :: 0 <= i < |ops| ==> OpOk(ops[i], w.quota.Keys)
    ensures Sound(r.world) && r.world.quota.Keys == w.quota.Keys
  {
    if ops == [] then Outcome(w, [])
    else
      var before := Ran(w, ops[..|ops| - 1]);
      var r := Stepped(before.world, ops[|ops| - 1]);
      SteppedSound(before.world, ops[|ops| - 1]);
      Outcome(r.world, r.done + before.done)
  }

  // ---------------------------------------------------------------------------------------
  // No debts
  // ---------------------------------------------------------------------------------------

  lemma SharesServe(w: World, dt: nat, gone: set<nat>)
    requires Sound(w)
    ensures AllShared(Kept(w.queue, gone), SharesOf(w, dt, gone))
  {
    hide Weight, Refilled, Returned, Kept;
    var kept, shares := Kept(w.queue, gone), SharesOf(w, dt, gone);
    KeptWaits(w.queue, gone);
    forall i, c | 0 <= i < |kept| && c in kept[i].channels
      ensures c in shares && shares[c].quota >= 0 && shares[c].tmp >= 0
    {
      assert c in Channels(kept);
      WeightPositive(kept, c);
    }
  }

  lemma {:induction false} WeightPositive(q: seq<Request>, c: Channel)
    requires AllWaiting(q)
    ensures Weight(q, c) >= 0 && (c in Channels(q) ==> Weight(q, c) > 0)
  {
    hide Portion;
    if q != [] {
      var last, rest := q[|q| - 1], q[..|q| - 1];
      WeightPositive(rest, c);
      PortionIs(last.channels, c, last.priority);
      TimesNone(last.channels, c);
      ManyTimes(Times(last.channels, c), last.priority);
      assert q == rest + [last];
      assert c in Channels(q) ==> c in Channels(rest) || c in last.channels;
    }
  }

  lemma ManyTimes(n: nat, k: int)
    requires k > 0
    ensures n * k >= 0 && (n > 0 ==> n * k > 0)
  {
  }

  /** No more is taken from a channel in a round than it has to give. */
  lemma RoundWithin(w: World, dt: nat, gone: set<nat>, c: Channel)
    requires Sound(w) && c in SharesOf(w, dt, gone) && w.limit[c] != 0
    ensures AllWaiting(Kept(w.queue, gone)) && AllShared(Kept(w.queue, gone), SharesOf(w, dt, gone))
    ensures 0 <= Spent(Kept(w.queue, gone), SharesOf(w, dt, gone), c) <= SharesOf(w, dt, gone)[c].quota
  {
    hide Spent, Refilled, Returned, Kept, Weight;
    var kept, shares := Kept(w.queue, gone), SharesOf(w, dt, gone);
    KeptWaits(w.queue, gone);
    SharesServe(w, dt, gone);
    WeightPositive(kept, c);
    SpentWithin(kept, shares, c);
  }

  lemma RoundedSound(w: World, dt: nat, gone: set<nat>)
    requires Sound(w)
    ensures Sound(Rounded(w, dt, gone).world)
  {
    hide Spent, Refilled, Returned, Kept, Weight, After;
    var kept, shares, r := Kept(w.queue, gone), SharesOf(w, dt, gone), Rounded(w, dt, gone).world;
    KeptWaits(w.queue, gone);
    SharesServe(w, dt, gone);
    AfterChannels(kept, shares, false);
    AfterWaits(kept, shares);
    NothingAfter(w.queue, gone, shares);
    forall c | c in w.quota
      ensures r.quota[c] >= 0
    {
      ReturnedPositive(w.queue, gone, c);
      if c in shares && w.limit[c] != 0 {
        RoundWithin(w, dt, gone, c);
      }
    }
  }

  lemma NothingAfter(q: seq<Request>, gone: set<nat>, shares: Shares)
    requires AllWaiting(Kept(q, gone)) && AllShared(Kept(q, gone), shares)
    ensures q == [] ==> After(Kept(q, gone), shares, false) == []
  {
  }

  lemma {:induction false} AfterWaits(q: seq<Request>, shares: Shares)
    requires AllWaiting(q) && AllShared(q, shares)
    ensures AllWaiting(After(q, shares, false))
  {
    hide GrantOf;
    if q != [] {
      AfterWaits(q[..|q| - 1], shares);
    }
  }

  lemma SteppedSound(w: World, op: Op)
    requires Sound(w) && OpOk(op, w.quota.Keys)
    ensures Sound(Stepped(w, op).world) && Stepped(w, op).world.quota.Keys == w.quota.Keys
  {
    hide Rounded;
    match op
    case Round(dt, gone) =>
      RoundedSound(w, dt, gone);
      RoundedKeys(w, dt, gone);
    case Ask(_, _, _, _) =>
    case Throttle(c, _) => assert w.limit.Keys + {c} == w.limit.Keys;
    case Return(c, _) => assert w.quota.Keys + {c} == w.quota.Keys;
    case Close =>
  }

  lemma RoundedKeys(w: World, dt: nat, gone: set<nat>)
    requires Sound(w)
    ensures Rounded(w, dt, gone).world.quota.Keys == w.quota.Keys && Rounded(w, dt, gone).world.limit == w.limit
  {
    hide Kept, After, Spent, Refilled;
  }

  // ---------------------------------------------------------------------------------------
  // Accounts
  // ---------------------------------------------------------------------------------------

  /** What the requests have got from a channel. */
  function Held(q: seq<Request>, c: Channel): int {
    if q == [] then 0 else Held(q[..|q| - 1], c) + Portion(q[|q| - 1].channels, c, q[|q| - 1].given)
  }

  /** What a limit adds to a channel in so many milliseconds, of which a round counts three seconds at most. */
  function Allowance(limit: nat, dt: nat): nat {
    (limit * Min(dt, 3000) + 500) / 1000
  }

  /** The limits after the steps, of which only throttling changes any. */
  function LimitsAfter(ops: seq<Op>, limit: map<Channel, int>): map<Channel, int> {
    if ops == [] then limit
    else
      var before, op := LimitsAfter(ops[..|ops| - 1], limit), ops[|ops| - 1];
      if op.Throttle? then before[op.channel := op.limit] else before
  }

  /** What a step adds to a channel that has this limit. */
  function AllowedBy(op: Op, c: Channel, limit: int): nat
    requires limit >= 0
  {
    match op
    case Round(dt, _) => Allowance(limit, dt)
    case Return(d, amount) => if c == d then amount else 0
    case Ask(_, _, _, _) => 0
    case Throttle(_, _) => 0
    case Close => 0
  }

  /** What the steps add to a channel, with the limits it has in the course of them. */
  function Allowed(ops: seq<Op>, c: Channel, limit: map<Channel, int>): nat {
    if ops == [] then 0
    else
      var now := LimitsAfter(ops[..|ops| - 1], limit);
      Allowed(ops[..|ops| - 1], c, limit) + AllowedBy(ops[|ops| - 1], c, if c in now then Max(now[c], 0) else 0)
  }

  /** The channel is limited all the time. */
  predicate AlwaysLimited(ops: seq<Op>, c: Channel, limit: map<Channel, int>) {
    forall k :: 0 <= k <= |ops| ==> var now := LimitsAfter(ops[..k], limit); c in now && now[c] > 0
  }

  lemma PortionAdds(cs: seq<Channel>, c: Channel, a: int, b: int)
    ensures Portion(cs, c, a + b) == Portion(cs, c, a) + Portion(cs, c, b)
  {
    PortionIs(cs, c, a + b);
    PortionIs(cs, c, a);
    PortionIs(cs, c, b);
    Distribute(a, b, Times(cs, c));
  }

  lemma HeldOneMore(q: seq<Request>, r: Request, c: Channel)
    ensures Held(q + [r], c) == Held(q, c) + Portion(r.channels, c, r.given)
  {
    assert (q + [r])[..|q|] == q;
  }

  lemma {:induction false} HeldConcat(a: seq<Request>, b: seq<Request>, c: Channel)
    ensures Held(a + b, c) == Held(a, c) + Held(b, c)
  {
    if b == [] {
      assert a + b == a;
    } else {
      assert (a + b)[..|a + b| - 1] == a + b[..|b| - 1];
      HeldConcat(a, b[..|b| - 1], c);
    }
  }

  /** A round moves what is spent to the requests, those that still wait and those that have finished. */
  lemma {:induction false} HeldServed(q: seq<Request>, shares: Shares, c: Channel)
    requires AllWaiting(q) && AllShared(q, shares)
    ensures Held(After(q, shares, false), c) + Held(After(q, shares, true), c) == Held(q, c) + Spent(q, shares, c)
  {
    hide Portion, GrantOf;
    if q != [] {
      var last, rest := q[|q| - 1], q[..|q| - 1];
      HeldServed(rest, shares, c);
      var served := Served(last, shares);
      PortionAdds(last.channels, c, last.given, GrantOf(last, shares));
      HeldOneMore(After(rest, shares, Finished(served)), served, c);
      assert After(rest, shares, !Finished(served)) + [] == After(rest, shares, !Finished(served));
    }
  }

  /** Dropping requests moves what they had back. */
  lemma {:induction false} HeldReturned(q: seq<Request>, gone: set<nat>, c: Channel)
    ensures Held(Kept(q, gone), c) + Returned(q, gone, c) == Held(q, c)
  {
    hide Portion;
    if q != [] {
      var last, rest := q[|q| - 1], q[..|q| - 1];
      HeldReturned(rest, gone, c);
      HeldOneMore(Kept(rest, gone), last, c);
      assert Kept(rest, gone) + [] == Kept(rest, gone);
    }
  }

  lemma {:induction false} ReturnedPositive(q: seq<Request>, gone: set<nat>, c: Channel)
    requires AllWaiting(q)
    ensures Returned(q, gone, c) >= 0
  {
    hide Portion;
    if q != [] {
      var last := q[|q| - 1];
      ReturnedPositive(q[..|q| - 1], gone, c);
      PortionIs(last.channels, c, last.given);
    }
  }

  lemma {:induction false} SpentNone(q: seq<Request>, shares: Shares, c: Channel)
    requires AllWaiting(q) && AllShared(q, shares) && c !in Channels(q)
    ensures Spent(q, shares, c) == 0
  {
    hide Portion, GrantOf;
    if q != [] {
      var last, rest := q[|q| - 1], q[..|q| - 1];
      assert forall r :: r in rest ==> r in q;
      SpentNone(rest, shares, c);
      PortionNone(last.channels, c, GrantOf(last, shares));
    }
  }

  lemma {:induction false} HeldPositive(q: seq<Request>, c: Channel)
    requires AllWaiting(q)
    ensures Held(q, c) >= 0
  {
    hide Portion;
    if q != [] {
      var last := q[|q| - 1];
      HeldPositive(q[..|q| - 1], c);
      PortionIs(last.channels, c, last.given);
    }
  }

  lemma {:induction false} AfterChannels(q: seq<Request>, shares: Shares, finished: bool)
    requires AllWaiting(q) && AllShared(q, shares)
    ensures Channels(After(q, shares, finished)) <= Channels(q)
  {
    hide GrantOf, Finished;
    if q != [] {
      var last, rest := q[|q| - 1], q[..|q| - 1];
      AfterChannels(rest, shares, finished);
      assert forall r :: r in rest ==> r in q;
      assert last in q && Served(last, shares).channels == last.channels;
      forall c | c in Channels(After(q, shares, finished))
        ensures c in Channels(q)
      {
        var r :| r in After(q, shares, finished) && c in r.channels;
        if r in After(rest, shares, finished) {
          assert c in Channels(rest);
        }
      }
    }
  }

  lemma {:induction false} CallsConcat(a: seq<Request>, b: seq<Request>)
    ensures Calls(a + b) == Calls(b) + Calls(a)
  {
    if b == [] {
      assert a + b == a;
    } else {
      var first := [(b[|b| - 1].peer, b[|b| - 1].given)];
      assert (a + b)[..|a + b| - 1] == a + b[..|b| - 1];
      CallsConcat(a, b[..|b| - 1]);
      assert first + (Calls(b[..|b| - 1]) + Calls(a)) == (first + Calls(b[..|b| - 1])) + Calls(a);
    }
  }

  /** What is left of a channel and what the requests have got through it. */
  function Account(w: World, c: Channel): int
    requires c in w.quota
  {
    w.quota[c] + Held(w.queue, c)
  }

  /** A round gives out no more than there was and what the limit allows for the time. */
  lemma RoundedAccount(w: World, dt: nat, gone: set<nat>, c: Channel)
    requires Sound(w) && c in w.quota && w.limit[c] > 0
    ensures
      var r := Rounded(w, dt, gone);
      c in r.world.quota && Account(r.world, c) + Held(r.done, c) <= Account(w, c) + Allowance(w.limit[c], dt)
  {
    hide Held, Returned, Kept, After, Spent, Weight, Refilled;
    var kept, shares := Kept(w.queue, gone), SharesOf(w, dt, gone);
    KeptWaits(w.queue, gone);
    SharesServe(w, dt, gone);
    HeldServed(kept, shares, c);
    HeldReturned(w.queue, gone, c);
    if c in shares {
      RefilledAdds(Left(w, gone, c), w.limit[c], dt);
    } else {
      SpentNone(kept, shares, c);
    }
  }

  lemma RefilledAdds(left: int, limit: nat, dt: nat)
    ensures Refilled(left, limit, Min(dt, 3000)) <= left + Allowance(limit, dt)
  {
  }

  lemma SteppedAccount(w: World, op: Op, c: Channel)
    requires Sound(w) && OpOk(op, w.quota.Keys) && c in w.quota && w.limit[c] > 0
    ensures
      var r := Stepped(w, op);
      c in r.world.quota && Account(r.world, c) + Held(r.done, c) <= Account(w, c) + AllowedBy(op, c, w.limit[c])
  {
    hide Held, Rounded, Allowance;
    SteppedSound(w, op);
    NothingHeld(c);
    match op
    case Round(dt, gone) => RoundedAccount(w, dt, gone, c);
    case Ask(peer, blk, priority, channels) =>
      var cs := LimitingIn(channels, w.limit);
      HeldOneMore(w.queue, Request(peer, priority, 0, blk, 20, cs), c);
      PortionIs(cs, c, 0);
    case Close => HeldPositive(w.queue, c);
    case Throttle(_, _) =>
    case Return(_, _) =>
  }

  lemma NothingHeld(c: Channel)
    ensures Held([], c) == 0
  {
  }

  lemma {:induction false} RanLimits(w: World, ops: seq<Op>)
    requires Sound(w) && forall i :: 0 <= i < |ops| ==> OpOk(ops[i], w.quota.Keys)
    ensures Ran(w, ops).world.limit == LimitsAfter(ops, w.limit)
  {
    hide Rounded, Sound;
    if ops != [] {
      var before, op := ops[..|ops| - 1], ops[|ops| - 1];
      RanLimits(w, before);
      if op.Round? {
        RoundedKeys(Ran(w, before).world, op.dt, op.gone);
      }
    }
  }

  /**
    Over any run: what the peers are told they have got through a channel that is limited all the
    time, what the waiting requests have got through it and what is left is covered by what there
    was before and what was allowed.
   */
  lemma {:induction false} RanAccount(w: World, ops: seq<Op>, c: Channel)
    requires Sound(w) && c in w.quota && forall i :: 0 <= i < |ops| ==> OpOk(ops[i], w.quota.Keys)
    requires AlwaysLimited(ops, c, w.limit)
    ensures
      var r := Ran(w, ops);
      c in r.world.quota && Account(r.world, c) + Held(r.done, c) <= Account(w, c) + Allowed(ops, c, w.limit)
  {
    hide Held, Stepped, Sound, AllowedBy, LimitsAfter;
    NothingHeld(c);
    if ops != [] {
      var before, op := ops[..|ops| - 1], ops[|ops| - 1];
      LimitedBefore(ops, c, w.limit);
      RanAccount(w, before, c);
      RanLimits(w, before);
      var v := Ran(w, before);
      SteppedAccount(v.world, op, c);
      HeldConcat(Stepped(v.world, op).done, v.done, c);
    }
  }

  lemma LimitedBefore(ops: seq<Op>, c: Channel, limit: map<Channel, int>)
    requires ops != [] && AlwaysLimited(ops, c, limit)
    ensures
      var before := ops[..|ops| - 1];
      var now := LimitsAfter(before, limit);
      AlwaysLimited(before, c, limit) && c in now && now[c] > 0
  {
    hide LimitsAfter;
    var before := ops[..|ops| - 1];
    assert forall k :: 0 <= k <= |before| ==> ops[..k] == before[..k];
    assert ops[..|before|] == before;
  }

  // ---------------------------------------------------------------------------------------
  // Who is told what
  // ---------------------------------------------------------------------------------------

  /** What a request keeps from when it is asked until it is finished. */
  datatype Id = Id(peer: nat, priority: int, requestSize: int, channels: seq<Channel>)

  function IdOf(r: Request): Id {
    Id(r.peer, r.priority, r.requestSize, r.channels)
  }

  function Ids(q: seq<Request>): multiset<Id> {
    if q == [] then multiset{} else Ids(q[..|q| - 1]) + multiset{IdOf(q[|q| - 1])}
  }

  /** The requests that the steps ask for, with the channels that have a limit when they do. */
  function Asked(ops: seq<Op>, limit: map<Channel, int>): multiset<Id> {
    if ops == [] then multiset{}
    else
      var before, op := ops[..|ops| - 1], ops[|ops| - 1];
      Asked(before, limit) +
      if op.Ask? then multiset{Id(op.peer, op.priority, op.blk, LimitingIn(op.channels, LimitsAfter(before, limit)))}
      else multiset{}
  }

  /** A request is told it has got something, and no more than it asked for. */
  predicate AllGiven(q: seq<Request>) {
    forall i :: 0 <= i < |q| ==> 0 < q[i].given <= q[i].requestSize
  }

  lemma IdsOneMore(q: seq<Request>, r: Request)
    ensures Ids(q + [r]) == Ids(q) + multiset{IdOf(r)}
  {
    assert (q + [r])[..|q|] == q;
  }

  lemma {:induction false} IdsConcat(a: seq<Request>, b: seq<Request>)
    ensures Ids(a + b) == Ids(a) + Ids(b)
  {
    if b == [] {
      assert a + b == a;
    } else {
      assert (a + b)[..|a + b| - 1] == a + b[..|b| - 1];
      IdsConcat(a, b[..|b| - 1]);
    }
  }

  /** A round finishes requests or leaves them waiting, each once. */
  lemma {:induction false} IdsServed(q: seq<Request>, shares: Shares)
    requires AllWaiting(q) && AllShared(q, shares)
    ensures Ids(After(q, shares, false)) + Ids(After(q, shares, true)) == Ids(q)
  {
    hide GrantOf, Finished, Waiting, Shared, Ids;
    if q == [] {
      NoIds();
    } else {
      var last, rest := q[|q| - 1], q[..|q| - 1];
      IdsServed(rest, shares);
      var served := Served(last, shares);
      IdsOneMore(rest, last);
      assert rest + [last] == q;
      IdsOneMore(After(rest, shares, Finished(served)), served);
      assert After(rest, shares, !Finished(served)) + [] == After(rest, shares, !Finished(served));
    }
  }

  lemma {:induction false} AfterGiven(q: seq<Request>, shares: Shares)
    requires AllWaiting(q) && AllShared(q, shares)
    ensures AllGiven(After(q, shares, true))
  {
    hide GrantOf;
    if q != [] {
      AfterGiven(q[..|q| - 1], shares);
    }
  }

  lemma {:induction false} IdsKept(q: seq<Request>, gone: set<nat>)
    ensures Ids(Kept(q, gone)) <= Ids(q)
  {
    hide Ids;
    if q != [] {
      var last, rest := q[|q| - 1], q[..|q| - 1];
      IdsKept(rest, gone);
      IdsOneMore(rest, last);
      assert rest + [last] == q;
      IdsOneMore(Kept(rest, gone), last);
      assert Kept(rest, gone) + [] == Kept(rest, gone);
    }
  }

  lemma SteppedIds(w: World, op: Op)
    requires Sound(w) && OpOk(op, w.quota.Keys)
    ensures
      var r := Stepped(w, op);
      && AllGiven(r.done)
      && Ids(r.world.queue) + Ids(r.done) <= Ids(w.queue) +
         if op.Ask? then multiset{Id(op.peer, op.priority, op.blk, LimitingIn(op.channels, w.limit))} else multiset{}
  {
    hide Ids, Kept, After, Spent, Refilled, Weight;
    NoIds();
    match op
    case Round(dt, gone) =>
      KeptWaits(w.queue, gone);
      SharesServe(w, dt, gone);
      IdsServed(Kept(w.queue, gone), SharesOf(w, dt, gone));
      AfterGiven(Kept(w.queue, gone), SharesOf(w, dt, gone));
      IdsKept(w.queue, gone);
    case Ask(peer, blk, priority, channels) =>
      IdsOneMore(w.queue, Request(peer, priority, 0, blk, 20, LimitingIn(channels, w.limit)));
    case Close =>
    case Throttle(_, _) =>
    case Return(_, _) =>
  }

  lemma Joined<T>(x: multiset<T>, a: multiset<T>, y: multiset<T>, b: multiset<T>, z: multiset<T>, all: multiset<T>)
    requires x + a <= y + b && y + z <= all
    ensures x + (a + z) <= all + b
  {
    forall t: T
      ensures (x + (a + z))[t] <= (all + b)[t]
    {
      assert (x + a)[t] <= (y + b)[t] && (y + z)[t] <= all[t];
    }
  }

  lemma NoIds()
    ensures Ids([]) == multiset{}
  {
  }

  /**
    Over any run: every request that still waits or was finished is one that was asked for, once,
    with the channels that had a limit then; and who is told gets something, no more than it asked.
   */
  lemma {:induction false} RanIds(w: World, ops: seq<Op>)
    requires Sound(w) && forall i :: 0 <= i < |ops| ==> OpOk(ops[i], w.quota.Keys)
    ensures
      var r := Ran(w, ops);
      Ids(r.world.queue) + Ids(r.done) <= Ids(w.queue) + Asked(ops, w.limit) && AllGiven(r.done)
  {
    hide Ids, Stepped, Sound, LimitsAfter, LimitingIn;
    NoIds();
    if ops != [] {
      var before, op := ops[..|ops| - 1], ops[|ops| - 1];
      RanIds(w, before);
      RanLimits(w, before);
      var v := Ran(w, before);
      var r := Stepped(v.world, op);
      SteppedIds(v.world, op);
      IdsConcat(r.done, v.done);
      var asked := if op.Ask? then multiset{Id(op.peer, op.priority, op.blk, LimitingIn(op.channels, v.world.limit))}
        else multiset{};
      Joined(Ids(r.world.queue), Ids(r.done), Ids(v.world.queue), asked, Ids(v.done),
             Ids(w.queue) + Asked(before, w.limit));
    }
  }

  // ---------------------------------------------------------------------------------------
  // The run
  // ---------------------------------------------------------------------------------------

  /** The manager and its channels as a world. */
  ghost function Now(m: Manager, channels: set<Channel>): (w: World)
    reads m, channels
    ensures w.quota.Keys == w.limit.Keys == channels
  {
    World(m.queue, m.aborted, map c | c in channels :: c.quotaLeft, map c | c in channels :: c.limit)
  }

  method RunRound(m: Manager, dt: nat, gone: set<nat>, ghost channels: set<Channel>)
    returns (calls: seq<(nat, int)>)
    requires m.Valid() && Sound(Now(m, channels))
    modifies m, channels
    ensures m.Valid()
    ensures var r := Rounded(old(Now(m, channels)), dt, gone); Now(m, channels) == r.world && calls == Calls(r.done)
  {
    hide Returned, Kept, After, Spent, Calls, Weight, Refilled, Owed, AllWaiting, AllShared, Fair, SharesOf, Channels,
      Rounded;
    ghost var w := Now(m, channels);
    ghost var shares;
    KeptWaits(w.queue, gone);
    calls, shares := m.UpdateQuotas(dt, gone, Channels(m.queue));
    RoundIs(w, dt, gone, shares, Now(m, channels).quota);
  }

  /** A round is what it does to the channels of the requests that are kept and of those that are dropped. */
  lemma RoundIs(w: World, dt: nat, gone: set<nat>, shares: Shares, quota: map<Channel, int>)
    requires Sound(w) && quota.Keys == w.quota.Keys
    requires
      var kept := Kept(w.queue, gone);
      && AllWaiting(kept) && AllShared(kept, shares) && shares.Keys == Channels(kept) <= quota.Keys
      && forall c :: c in shares ==>
        && shares[c].limit == w.limit[c] && shares[c].tmp == Weight(kept, c)
        && Fair(shares[c], Left(w, gone, c), Min(dt, 3000), Spent(kept, shares, c), quota[c])
    requires forall c :: c in quota && c !in shares ==>
      quota[c] == if c in Channels(w.queue) then Left(w, gone, c) else w.quota[c]
    ensures
      var kept := Kept(w.queue, gone);
      Rounded(w, dt, gone) ==
      Outcome(w.(queue := After(kept, shares, false), quota := quota), After(kept, shares, true))
  {
    hide Returned, Kept, After, Spent, Weight, Refilled, AllWaiting, AllShared, Fair, SharesOf, Channels;
    var kept := Kept(w.queue, gone);
    forall c | c in shares
      ensures c in SharesOf(w, dt, gone) && SharesOf(w, dt, gone)[c] == shares[c]
      ensures quota[c] == if w.limit[c] == 0 then Left(w, gone, c)
        else Refilled(Left(w, gone, c), w.limit[c], Min(dt, 3000)) - Spent(kept, shares, c)
    {
      FairShare(w, dt, gone, c, shares[c], Spent(kept, shares, c), quota[c]);
    }
    SharesKeys(w, dt, gone);
    assert shares == SharesOf(w, dt, gone);
    forall c | c in quota && c !in Channels(w.queue)
      ensures Returned(w.queue, gone, c) == 0
    {
      ReturnedNone(w.queue, gone, c);
    }
    assert quota == Rounded(w, dt, gone).world.quota;
  }

  lemma {:induction false} ReturnedNone(q: seq<Request>, gone: set<nat>, c: Channel)
    requires c !in Channels(q)
    ensures Returned(q, gone, c) == 0
  {
    hide Portion;
    if q != [] {
      var last, rest := q[|q| - 1], q[..|q| - 1];
      assert forall r :: r in rest ==> r in q;
      ReturnedNone(rest, gone, c);
      PortionNone(last.channels, c, last.given);
    }
  }

  lemma SharesKeys(w: World, dt: nat, gone: set<nat>)
    requires Sound(w)
    ensures SharesOf(w, dt, gone).Keys == Channels(Kept(w.queue, gone))
  {
    hide Weight, Refilled, Returned, Kept;
  }

  /** What is fair is what the reference gives. */
  lemma FairShare(w: World, dt: nat, gone: set<nat>, c: Channel, s: Share, spent: int, now: int)
    requires Sound(w) && c in Channels(Kept(w.queue, gone)) && c in w.quota && c in w.limit
    requires s.limit == w.limit[c] && s.tmp == Weight(Kept(w.queue, gone), c)
    requires Fair(s, Left(w, gone, c), Min(dt, 3000), spent, now)
    ensures c in SharesOf(w, dt, gone) && SharesOf(w, dt, gone)[c] == s
    ensures now == if s.limit == 0 then Left(w, gone, c)
      else Refilled(Left(w, gone, c), s.limit, Min(dt, 3000)) - spent
  {
    hide Weight, Refilled, Returned, Kept;
  }

  lemma {:induction false} LimitingSame(channels: seq<Channel?>, all: set<Channel>)
    requires forall c :: c in channels ==> c == null || c in all
    ensures Limiting(channels) == LimitingIn(channels, map c | c in all :: c.limit)
  {
    if channels != [] {
      LimitingSame(channels[..|channels| - 1], all);
    }
  }

  method Step(m: Manager, op: Op, ghost channels: set<Channel>) returns (calls: seq<(nat, int)>)
    requires m.Valid() && Sound(Now(m, channels)) && OpOk(op, channels)
    modifies m, channels
    ensures m.Valid()
    ensures var r := Stepped(old(Now(m, channels)), op); Now(m, channels) == r.world && calls == Calls(r.done)
  {
    hide Rounded, Owed, Limiting, LimitingIn;
    ghost var w := Now(m, channels);
    calls := [];
    match op {
      case Ask(peer, blk, priority, cs) =>
        LimitingSame(cs, channels);
        var n := m.RequestBandwidth(peer, blk, priority, cs);
      case Round(dt, gone) => calls := RunRound(m, dt, gone, channels);
      case Throttle(c, limit) =>
        c.Throttle(limit);
        assert Now(m, channels).limit == w.limit[c := limit];
      case Return(c, amount) => GiveBack(m, c, amount, channels);
      case Close => m.Close();
    }
  }

  method GiveBack(m: Manager, c: Channel, amount: nat, ghost channels: set<Channel>)
    requires c in channels
    modifies c`quotaLeft
    ensures
      var w := old(Now(m, channels));
      Now(m, channels) == if c.limit == 0 then w else w.(quota := w.quota[c := w.quota[c] + amount])
  {
    ghost var w := Now(m, channels);
    c.ReturnQuota(amount);
    assert c.limit == 0 ==> Now(m, channels).quota == w.quota;
    assert c.limit != 0 ==> Now(m, channels).quota == w.quota[c := w.quota[c] + amount];
  }

  /**
    Any steps in any order leave the manager, its channels and the calls made as the reference says;
    the queued bytes are those the queue owes, and no channel is in debt.
   */
  method Run(m: Manager, ops: seq<Op>, ghost channels: set<Channel>) returns (calls: seq<(nat, int)>)
    requires m.Valid() && Sound(Now(m, channels)) && forall i :: 0 <= i < |ops| ==> OpOk(ops[i], channels)
    modifies m, channels
    ensures var r := Ran(old(Now(m, channels)), ops); Now(m, channels) == r.world && calls == Calls(r.done)
    ensures m.queuedBytes == Owed(m.queue) && forall c :: c in channels ==> c.quotaLeft >= 0
  {
    hide Stepped, Calls, Owed;
    ghost var w := Now(m, channels);
    calls := [];
    NoCalls();
    for i := 0 to |ops|
      invariant m.Valid() && Now(m, channels) == Ran(w, ops[..i]).world && calls == Calls(Ran(w, ops[..i]).done)
    {
      ghost var before := Ran(w, ops[..i]);
      assert ops[..i + 1][..i] == ops[..i];
      var more := Step(m, ops[i], channels);
      CallsConcat(Stepped(before.world, ops[i]).done, before.done);
      calls := calls + more;
    }
    assert ops[..|ops|] == ops;
  }

  lemma NoCalls()
    ensures Calls([]) == []
  {
  }
}
