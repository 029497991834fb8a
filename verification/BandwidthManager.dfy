/**
  Sharing out bandwidth: the queue of requests and the rounds in which its channels are refilled
  and given to the requests in proportion to their priorities.
 */
module BandwidthManager {
  import opened Basics
  import opened BandwidthChannel

  // ---------------------------------------------------------------------------------------
  // A round
  // ---------------------------------------------------------------------------------------

  /** The requests of peers that have not gone. */
  function Kept(q: seq<Request>, gone: set<nat>): (k: seq<Request>)
    ensures |k| <= |q| && forall r :: r in k ==> r in q
  {
    if q == [] then []
    else
      var last := q[|q| - 1];
      Kept(q[..|q| - 1], gone) + if last.peer in gone then [] else [last]
  }

  /** What goes back to a channel from those that have. */
  function Returned(q: seq<Request>, gone: set<nat>, c: Channel): int {
    if q == [] then 0
    else
      var last := q[|q| - 1];
      Returned(q[..|q| - 1], gone, c) + if last.peer in gone then Portion(last.channels, c, last.given) else 0
  }

  function Served(r: Request, shares: Shares): Request
    requires Waiting(r) && Shared(r.channels, shares)
  {
    r.(given := r.given + GrantOf(r, shares), ttl := r.ttl - 1)
  }

  /** What becomes of a request in a round. */
  ghost predicate Fate(r: Request, shares: Shares, served: Request)
    requires Shared(r.channels, shares)
  {
    && served == r.(given := served.given, ttl := r.ttl - 1)
    && Greatest(r.channels, r.priority, shares, r.requestSize - r.given, served.given - r.given)
  }

  lemma ServedFate(r: Request, shares: Shares)
    requires Waiting(r) && Shared(r.channels, shares)
    ensures Fate(r, shares, Served(r, shares))
  {
    hide Grant, Greatest, Shared;
    GrantGreatest(r.channels, r.priority, shares, r.requestSize - r.given);
  }

  lemma AllFates(q: seq<Request>, shares: Shares)
    requires AllWaiting(q) && AllShared(q, shares)
    ensures forall r :: r in q ==> Waiting(r) && Shared(r.channels, shares) && Fate(r, shares, Served(r, shares))
  {
    hide Fate, Served, Waiting, Shared;
    forall r | r in q
      ensures Waiting(r) && Shared(r.channels, shares) && Fate(r, shares, Served(r, shares))
    {
      ServedFate(r, shares);
    }
  }

  /** A request that has all it asked for, or something after waiting long enough. */
  predicate Finished(r: Request) {
    r.given == r.requestSize || (r.ttl <= 0 && r.given > 0)
  }

  /** The requests after a round, those that still wait or those that have finished. */
  function After(q: seq<Request>, shares: Shares, finished: bool): (a: seq<Request>)
    requires AllWaiting(q) && AllShared(q, shares)
  {
    if q == [] then []
    else
      var last := Served(q[|q| - 1], shares);
      After(q[..|q| - 1], shares, finished) + if Finished(last) == finished then [last] else []
  }

  /** The peers that are told what they got, the one that finished last first. */
  function Calls(done: seq<Request>): seq<(nat, int)> {
    if done == [] then [] else [(done[|done| - 1].peer, done[|done| - 1].given)] + Calls(done[..|done| - 1])
  }

  /**
    A channel had `left` and has `now` after a round: it was refilled, had all there was then to
    give, and gave what was spent, no more than that. Without a limit nothing is counted.
   */
  predicate Fair(s: Share, left: int, ms: int, spent: int, now: int) {
    s.limit >= 0 && ms >= 0 &&
    if s.limit == 0 then now == left && s.quota == 0
    else
      var refilled := Refilled(left, s.limit, ms);
      && s.quota == (if refilled > 0 then refilled else 0)
      && now == refilled - spent && 0 <= spent <= s.quota
  }

  // ---------------------------------------------------------------------------------------
  // Channels of a request
  // ---------------------------------------------------------------------------------------

  method ReturnAll(cs: seq<Channel>, amount: nat)
    modifies cs`quotaLeft
    ensures forall c :: c in cs ==> c.quotaLeft == old(c.quotaLeft) + if c.limit == 0 then 0 else Portion(cs, c, amount)
  {
    for j := 0 to |cs|
      invariant forall c :: c in cs ==>
        c.quotaLeft == old(c.quotaLeft) + if c.limit == 0 then 0 else Portion(cs[..j], c, amount)
    {
      assert cs[..j + 1][..j] == cs[..j];
      cs[j].ReturnQuota(amount);
    }
    assert cs[..|cs|] == cs;
  }

  method ClearAll(cs: seq<Channel>)
    modifies cs`tmp
    ensures forall c :: c in cs ==> c.tmp == 0
  {
    for j := 0 to |cs|
      invariant forall c :: c in cs[..j] ==> c.tmp == 0
    {
      assert cs[..j + 1] == cs[..j] + [cs[j]];
      cs[j].tmp := 0;
    }
    assert cs[..|cs|] == cs;
  }

  /** Adds a priority to the channels of a request; those that had none are added to the list. */
  method AddWeights(cs: seq<Channel>, priority: nat, channels: seq<Channel>) returns (more: seq<Channel>)
    requires priority > 0 && Distinct(channels)
    requires forall c :: c in cs ==> c.tmp >= 0 && (c.tmp > 0 <==> c in channels)
    modifies cs`tmp
    ensures forall c :: c in cs ==> c.tmp == old(c.tmp) + Portion(cs, c, priority) > 0
    ensures Distinct(more) && forall c :: c in more <==> c in channels || c in cs
  {
    more := channels;
    for j := 0 to |cs|
      invariant forall c :: c in cs ==> c.tmp == old(c.tmp) + Portion(cs[..j], c, priority) >= 0
      invariant forall c :: c in cs ==> (c.tmp > 0 <==> c in more)
      invariant Distinct(more) && forall c :: c in more <==> c in channels || c in cs[..j]
    {
      assert cs[..j + 1] == cs[..j] + [cs[j]];
      assert cs[..j + 1][..j] == cs[..j];
      if cs[j].tmp == 0 {
        more := more + [cs[j]];
      }
      cs[j].tmp := cs[j].tmp + priority;
    }
    assert cs[..|cs|] == cs;
  }

  predicate Distinct(cs: seq<Channel>) {
    forall i, j :: 0 <= i < j < |cs| ==> cs[i] != cs[j]
  }

  method RefillAll(cs: seq<Channel>, dt: nat)
    requires Distinct(cs) && forall c :: c in cs ==> c.limit >= 0
    modifies cs`quotaLeft, cs`distributeQuota
    ensures forall c :: c in cs && c.limit == 0 ==> c.quotaLeft == old(c.quotaLeft)
    ensures forall c :: c in cs && c.limit != 0 ==>
      && c.quotaLeft == Refilled(old(c.quotaLeft), c.limit, dt)
      && c.distributeQuota == if c.quotaLeft > 0 then c.quotaLeft else 0
  {
    for j := 0 to |cs|
      invariant forall i :: 0 <= i < |cs| && (cs[i].limit == 0 || j <= i) ==> cs[i].quotaLeft == old(cs[i].quotaLeft)
      invariant forall i :: 0 <= i < j && cs[i].limit != 0 ==>
        && cs[i].quotaLeft == Refilled(old(cs[i].quotaLeft), cs[i].limit, dt)
        && cs[i].distributeQuota == if cs[i].quotaLeft > 0 then cs[i].quotaLeft else 0
    {
      cs[j].UpdateQuota(dt);
    }
  }

  method UseAll(cs: seq<Channel>, amount: nat)
    modifies cs`quotaLeft
    ensures forall c :: c in cs ==> c.quotaLeft == old(c.quotaLeft) - if c.limit == 0 then 0 else Portion(cs, c, amount)
  {
    for j := 0 to |cs|
      invariant forall c :: c in cs ==>
        c.quotaLeft == old(c.quotaLeft) - if c.limit == 0 then 0 else Portion(cs[..j], c, amount)
    {
      assert cs[..j + 1][..j] == cs[..j];
      cs[j].UseQuota(amount);
    }
    assert cs[..|cs|] == cs;
  }

  /** The channels are as the shares say. */
  ghost predicate AsShared(cs: seq<Channel>, shares: Shares)
    reads cs`limit, cs`distributeQuota, cs`tmp
  {
    forall c :: c in cs ==>
      c in shares && shares[c] == Share(c.limit, if c.limit == 0 then 0 else c.distributeQuota, c.tmp)
  }

  /** Gives a request what its channels allow. */
  method AssignBandwidth(r: Request, ghost shares: Shares) returns (r': Request, quota: int)
    requires Waiting(r) && Shared(r.channels, shares) && AsShared(r.channels, shares)
    modifies r.channels`quotaLeft
    ensures r' == Served(r, shares) && quota == GrantOf(r, shares) && Fate(r, shares, r')
    ensures forall c :: c in r.channels ==>
      c.quotaLeft == old(c.quotaLeft) - if c.limit == 0 then 0 else Portion(r.channels, c, quota)
  {
    hide Grant, Portion, Fate;
    ServedFate(r, shares);
    r' := r.(ttl := r.ttl - 1);
    quota := SmallestShare(r, shares);
    r' := r'.(given := r.given + quota);
    UseAll(r.channels, quota);
  }

  method SmallestShare(r: Request, ghost shares: Shares) returns (quota: int)
    requires Waiting(r) && Shared(r.channels, shares) && AsShared(r.channels, shares)
    ensures quota == GrantOf(r, shares)
  {
    hide Part;
    var cs := r.channels;
    quota := r.requestSize - r.given;
    for j := 0 to |cs|
      invariant Shared(cs[..j], shares)
      invariant quota == Grant(cs[..j], r.priority, shares, r.requestSize - r.given)
    {
      assert cs[..j + 1] == cs[..j] + [cs[j]];
      assert cs[..j + 1][..j] == cs[..j];
      quota := OneShare(cs[j], r.priority, quota, shares);
    }
    assert cs[..|cs|] == cs;
  }

  method OneShare(c: Channel, priority: int, quota: int, ghost shares: Shares) returns (q: int)
    requires c in shares && shares[c] == Share(c.limit, if c.limit == 0 then 0 else c.distributeQuota, c.tmp)
    requires shares[c].quota >= 0 && c.tmp >= 0 && priority > 0
    ensures q == if Limits(shares[c]) && Part(shares[c], priority) < quota then Part(shares[c], priority) else quota
  {
    q := quota;
    if c.limit == 0 || c.tmp == 0 {
      return;
    }
    var part := c.distributeQuota * priority / c.tmp;
    q := Min(part, quota);
  }

  /** The channels that have a limit, in their order. */
  function Limiting(channels: seq<Channel?>): (cs: seq<Channel>)
    reads channels
    ensures |cs| <= |channels|
  {
    if channels == [] then []
    else
      var c := channels[|channels| - 1];
      Limiting(channels[..|channels| - 1]) + if c != null && c.limit > 0 then [c] else []
  }

  // ---------------------------------------------------------------------------------------
  // The manager
  // ---------------------------------------------------------------------------------------

  class Manager {
    var queue: seq<Request>
    var queuedBytes: int
    var aborted: bool

    /** The count of queued bytes is that of the requests in the queue, all of which wait. */
    ghost predicate Valid()
      reads this
    {
      AllWaiting(queue) && queuedBytes == Owed(queue) && (aborted ==> queue == [])
    }

    constructor ()
      ensures Valid() && queue == [] && !aborted
    {
      queue, queuedBytes, aborted := [], 0, false;
    }

    method Close()
      modifies this
      ensures Valid() && aborted && queue == []
    {
      aborted := true;
      queue := [];
      queuedBytes := 0;
    }

    /**
      Asks for bandwidth. Without a channel that has a limit all is granted at once; otherwise the
      request waits, with the channels that do have one.
     */
    method RequestBandwidth(peer: nat, blk: int, priority: int, channels: seq<Channel?>) returns (n: int)
      requires Valid() && blk > 0 && priority > 0 && |channels| == 5
      modifies this
      ensures Valid() && aborted == old(aborted)
      ensures
        if aborted then n == 0 && queue == old(queue)
        else if Limiting(channels) == [] then n == blk && queue == old(queue)
        else n == 0 && queue == old(queue) + [Request(peer, priority, 0, blk, 20, Limiting(channels))]
    {
      n := 0;
      if aborted {
        return;
      }
      var cs: seq<Channel> := [];
      for j := 0 to 5
        invariant |cs| <= j && cs == Limiting(channels[..j])
        invariant queue == old(queue) && queuedBytes == old(queuedBytes) && aborted == old(aborted)
      {
        assert channels[..j + 1][..j] == channels[..j];
        var c := channels[j];
        if c != null && c.limit > 0 {
          cs := cs + [c];
        }
      }
      assert channels[..5] == channels;
      if |cs| == 0 {
        return blk;
      }
      ghost var was := queue;
      queuedBytes := queuedBytes + blk;
      queue := queue + [Request(peer, priority, 0, blk, 20, cs)];
      assert queue[..|queue| - 1] == was;
    }

    /** Drops the requests of peers that have gone, and gives back what they had. */
    method DropGone(gone: set<nat>, ghost all: set<Channel>)
      requires Valid() && all == Channels(queue)
      modifies `queue, `queuedBytes, all`quotaLeft, all`tmp
      ensures Valid() && queue == Kept(old(queue), gone) && Cleared(queue)
      ensures forall c :: c in all ==>
        c.quotaLeft == old(c.quotaLeft) + if c.limit == 0 then 0 else Returned(old(queue), gone, c)
    {
      hide Owed, Kept, Returned, Channels, GivenBack;
      ghost var q := queue;
      ghost var before := map c | c in all :: c.quotaLeft;
      var i := 0;
      ghost var k := 0;
      NoneVisited(q, gone, before);
      while i < |queue|
        invariant 0 <= k <= |q| && i == |Kept(q[..k], gone)| && queue == Kept(q[..k], gone) + q[k..]
        invariant AllWaiting(queue) && queuedBytes == Owed(queue) && Cleared(Kept(q[..k], gone))
        invariant GivenBack(all, before, q[..k], gone)
        decreases |q| - k
      {
        var r := queue[i];
        DropOne(queue, i, q, k, gone);
        OwedRemove(queue, i);
        if r.peer in gone {
          queuedBytes := queuedBytes - (r.requestSize - r.given);
          queue := queue[..i] + queue[i + 1..];
        } else {
          i := i + 1;
        }
        Visit(r, q, k, gone, before);
        k := k + 1;
      }
      AllVisited(queue, q, k, gone, before);
    }

    /** Sums up the priorities each channel is shared between, and lists the channels. */
    method Weigh(ghost all: set<Channel>) returns (channels: seq<Channel>)
      requires Valid() && Cleared(queue) && all == Channels(queue)
      modifies all`tmp
      ensures Weighed(all, queue, channels)
    {
      hide Channels, Weighed;
      channels := [];
      NoneWeighed(queue);
      for k := 0 to |queue|
        invariant Weighed(all, queue[..k], channels)
      {
        ChannelsNext(queue, k);
        channels := WeighOne(queue[k], queue, k, channels);
      }
      assert queue[..|queue|] == queue;
    }

    /** Gives the next request its part, and takes it from the queue if it has finished. */
    method AssignNext(i: nat, done: seq<Request>, ghost q: seq<Request>, ghost k: nat, ghost shares: Shares,
                      ghost before: map<Channel, int>)
      returns (next: nat, done': seq<Request>)
      requires AllWaiting(q) && AllShared(q, shares) && k <= |q| && Serving(queue, i, done, q, k, shares)
      requires i < |queue| && queuedBytes == Owed(queue) && (k < |q| ==> AsShared(q[k].channels, shares))
      requires TakenFrom(Channels(q), before, q[..k], shares)
      modifies `queue, `queuedBytes, Channels(q)`quotaLeft
      ensures k < |q| && Serving(queue, next, done', q, k + 1, shares) && queuedBytes == Owed(queue)
      ensures TakenFrom(Channels(q), before, q[..k + 1], shares)
    {
      hide Owed, Channels, TakenFrom, GrantOf, Waiting, Shared, Served, Finished, Serving, AsShared;
      var r := queue[i];
      ServeNext(queue, i, done, q, k, shares);
      ChannelsNext(q, k);
      var r', a := AssignOne(r, q, k, shares, before);
      next, done' := i, done;
      if Finished(r') {
        a := a + r'.requestSize - r'.given;
        done' := done + [r'];
        queue := queue[..i] + queue[i + 1..];
      } else {
        queue := queue[i := r'];
        next := i + 1;
      }
      queuedBytes := queuedBytes - a;
    }

    /** Gives the requests their parts, and takes those that have finished from the queue. */
    method AssignAll(ghost shares: Shares, ghost all: set<Channel>) returns (done: seq<Request>)
      requires Valid() && all == Channels(queue) && AllShared(queue, shares)
      requires forall i :: 0 <= i < |queue| ==> AsShared(queue[i].channels, shares)
      modifies `queue, `queuedBytes, all`quotaLeft
      ensures queue == After(old(queue), shares, false) && done == After(old(queue), shares, true) && Valid()
      ensures forall c :: c in all ==>
        c.quotaLeft == old(c.quotaLeft) - if c.limit == 0 then 0 else Spent(old(queue), shares, c)
    {
      hide Owed, After, Channels, Spent, TakenFrom, GrantOf, Waiting, Shared, Served, Finished, Serving, AsShared;
      ghost var q := queue;
      ghost var before := map c | c in all :: c.quotaLeft;
      var i: nat := 0;
      ghost var k: nat := 0;
      done := [];
      NoneServed(q, shares, before);
      while i < |queue|
        invariant 0 <= k <= |q| && Serving(queue, i, done, q, k, shares) && queuedBytes == Owed(queue)
        invariant TakenFrom(all, before, q[..k], shares)
        decreases |q| - k
      {
        i, done := AssignNext(i, done, q, k, shares, before);
        k := k + 1;
      }
      AllServed(queue, i, done, q, k, shares, before);
    }

    /**
      A round: requests of peers that have gone are dropped, every channel is refilled once, and
      the requests get their parts of what the channels have. No channel gives more than it has.
      Returns the calls by which peers are told what they got.
     */
    method UpdateQuotas(dt: nat, gone: set<nat>, ghost all: set<Channel>)
      returns (calls: seq<(nat, int)>, ghost shares: Shares)
      requires Valid() && all == Channels(queue) && forall c :: c in all ==> c.limit >= 0
      modifies `queue, `queuedBytes, all`quotaLeft, all`tmp, all`distributeQuota
      ensures Valid()
      ensures
        var kept := Kept(old(queue), gone);
        && AllWaiting(kept) && AllShared(kept, shares) && shares.Keys == Channels(kept)
        && queue == After(kept, shares, false) && calls == Calls(After(kept, shares, true))
        && (forall r :: r in kept ==> Shared(r.channels, shares) && Fate(r, shares, Served(r, shares)))
        && forall c :: c in Channels(kept) ==>
          var left := old(c.quotaLeft) + if c.limit == 0 then 0 else Returned(old(queue), gone, c);
          && c in shares && shares[c].limit == c.limit && shares[c].tmp == Weight(kept, c)
          && Fair(shares[c], left, Min(dt, 3000), Spent(kept, shares, c), c.quotaLeft)
          && (c.limit != 0 ==> c.quotaLeft <= 3 * c.limit && (left >= 0 ==> c.quotaLeft >= 0))
      ensures forall c :: c in all && c !in Channels(Kept(old(queue), gone)) ==>
        c.quotaLeft == old(c.quotaLeft) + if c.limit == 0 then 0 else Returned(old(queue), gone, c)
    {
      hide Kept, Returned, After, Spent, Weight, Calls, Owed, Shared, Channels, Refilled, Fate, Served;
      calls, shares := [], map[];
      if aborted || queue == [] {
        NoRound(gone);
        return;
      }
      KeptWaits(queue, gone);
      var ms := if dt > 3000 then 3000 else dt;
      DropGone(gone, all);
      ghost var kept := queue;
      calls, shares := ShareOut(ms, Channels(queue));
      AllFates(kept, shares);
    }

    /** Refills the channels of the queue and shares out what they have. */
    method ShareOut(ms: nat, ghost all: set<Channel>) returns (calls: seq<(nat, int)>, ghost shares: Shares)
      requires Valid() && Cleared(queue) && all == Channels(queue) && forall c :: c in all ==> c.limit >= 0
      modifies `queue, `queuedBytes, all`quotaLeft, all`tmp, all`distributeQuota
      ensures Valid() && AllWaiting(old(queue)) && AllShared(old(queue), shares) && shares.Keys == all
      ensures queue == After(old(queue), shares, false) && calls == Calls(After(old(queue), shares, true))
      ensures forall c :: c in all ==>
        && c in shares && shares[c].limit == c.limit && shares[c].tmp == Weight(old(queue), c)
        && Fair(shares[c], old(c.quotaLeft), ms, Spent(old(queue), shares, c), c.quotaLeft)
    {
      hide Channels, After, Spent, Refilled, Weight, Calls, Owed, Shared, AsShared;
      ghost var q := queue;
      shares := Refill(ms, all);
      var done := AssignAll(shares, all);
      forall c | c in all && c.limit != 0
        ensures 0 <= Spent(q, shares, c) <= shares[c].quota
      {
        SpentWithin(q, shares, c);
      }
      calls := Dispatch(done);
    }

    /** Weighs the channels of the queue and refills each once. */
    method Refill(ms: nat, ghost all: set<Channel>) returns (ghost shares: Shares)
      requires Valid() && Cleared(queue) && all == Channels(queue) && forall c :: c in all ==> c.limit >= 0
      modifies all`quotaLeft, all`tmp, all`distributeQuota
      ensures AllShared(queue, shares) && shares.Keys == all
      ensures forall i :: 0 <= i < |queue| ==> AsShared(queue[i].channels, shares)
      ensures forall c :: c in all ==>
        && shares[c].limit == c.limit && 0 < shares[c].tmp == Weight(queue, c)
        && if c.limit == 0 then c.quotaLeft == old(c.quotaLeft) && shares[c].quota == 0
           else
             && c.quotaLeft == Refilled(old(c.quotaLeft), c.limit, ms)
             && shares[c].quota == if c.quotaLeft > 0 then c.quotaLeft else 0
    {
      hide Channels, Refilled, Weight, Shared, AsShared;
      var channels := Weigh(all);
      RefillAll(channels, ms);
      shares := map c | c in channels :: Share(c.limit, if c.limit == 0 then 0 else c.distributeQuota, c.tmp);
      SharesFit(queue, channels, shares);
    }
  }

  lemma NoRound(gone: set<nat>)
    ensures Kept([], gone) == [] && Channels([]) == {}
    ensures After([], map[], true) == [] == After([], map[], false) && Calls([]) == []
  {
  }

  /** The shares made of the channels serve the requests that have them. */
  lemma SharesFit(q: seq<Request>, channels: seq<Channel>, shares: Shares)
    requires Weighed(Channels(q), q, channels)
    requires forall c :: c in channels && c.limit != 0 ==> c.distributeQuota >= 0
    requires forall c :: c in channels ==>
      c in shares && shares[c] == Share(c.limit, if c.limit == 0 then 0 else c.distributeQuota, c.tmp)
    ensures AllShared(q, shares) && forall i :: 0 <= i < |q| ==> AsShared(q[i].channels, shares)
  {
    forall i, c | 0 <= i < |q| && c in q[i].channels
      ensures c in channels && c.tmp >= 0
    {
      assert c in Channels(q);
    }
  }

  lemma {:induction false} KeptWaits(q: seq<Request>, gone: set<nat>)
    requires AllWaiting(q)
    ensures AllWaiting(Kept(q, gone)) && Channels(Kept(q, gone)) <= Channels(q)
  {
    var kept := Kept(q, gone);
    assert forall i :: 0 <= i < |kept| ==> kept[i] in q;
  }

  /** The channels have the weight of these requests; those that have any are listed. */
  ghost predicate Weighed(all: set<Channel>, q: seq<Request>, channels: seq<Channel>)
    reads all
  {
    && Distinct(channels) && (forall c :: c in channels ==> c in Channels(q))
    && (forall c :: c in Channels(q) ==> c in channels)
    && forall c :: c in all ==> c.tmp == Weight(q, c) >= 0 && (c.tmp > 0 <==> c in channels)
  }

  /** Adds the weight of one more request. */
  method WeighOne(r: Request, ghost q: seq<Request>, ghost k: nat, channels: seq<Channel>) returns (more: seq<Channel>)
    requires k < |q| && r == q[k] && Waiting(r) && Weighed(Channels(q), q[..k], channels)
    modifies r.channels`tmp
    ensures Weighed(Channels(q), q[..k + 1], more)
  {
    hide Weight, Portion;
    ChannelsNext(q, k);
    forall c | c in Channels(q)
      ensures Weight(q[..k + 1], c) == Weight(q[..k], c) + Portion(r.channels, c, r.priority)
      ensures c !in r.channels ==> Portion(r.channels, c, r.priority) == 0
    {
      WeightNext(q, k, c);
      if c !in r.channels {
        PortionNone(r.channels, c, r.priority);
      }
    }
    more := AddWeights(r.channels, r.priority, channels);
  }

  lemma WeightNext(q: seq<Request>, k: nat, c: Channel)
    requires k < |q|
    ensures Weight(q[..k + 1], c) == Weight(q[..k], c) + Portion(q[k].channels, c, q[k].priority)
  {
    assert q[..k + 1][..k] == q[..k];
  }

  lemma ChannelsNext(q: seq<Request>, k: nat)
    requires k < |q|
    ensures forall c :: c in Channels(q[..k + 1]) <==> c in Channels(q[..k]) || c in q[k].channels
    ensures forall c :: c in q[k].channels ==> c in Channels(q)
  {
    assert q[..k + 1] == q[..k] + [q[k]];
  }

  lemma NoneWeighed(q: seq<Request>)
    requires Cleared(q)
    ensures Weighed(Channels(q), q[..0], [])
  {
  }

  /** The channels have what they had, less what the requests took. */
  ghost predicate TakenFrom(all: set<Channel>, before: map<Channel, int>, q: seq<Request>, shares: Shares)
    requires AllWaiting(q) && AllShared(q, shares)
    reads all
  {
    forall c :: c in all ==>
      c in before && c.quotaLeft == before[c] - if c.limit == 0 then 0 else Spent(q, shares, c)
  }

  /** Gives one more request its part. */
  method AssignOne(r: Request, ghost q: seq<Request>, ghost k: nat, ghost shares: Shares,
                   ghost before: map<Channel, int>)
    returns (r': Request, quota: int)
    requires k < |q| && r == q[k] && AllWaiting(q) && AllShared(q, shares)
    requires AsShared(r.channels, shares) && TakenFrom(Channels(q), before, q[..k], shares)
    modifies r.channels`quotaLeft
    ensures r' == Served(r, shares) && quota == GrantOf(r, shares)
    ensures TakenFrom(Channels(q), before, q[..k + 1], shares)
  {
    hide Grant;
    assert q[..k + 1][..k] == q[..k];
    r', quota := AssignBandwidth(r, shares);
    forall c | c !in r.channels
      ensures Portion(r.channels, c, quota) == 0
    {
      PortionNone(r.channels, c, quota);
    }
    ChannelsNext(q, k);
  }

  /** One more request of the queue served. */
  lemma ServeOne(queue: seq<Request>, i: nat, q: seq<Request>, k: nat, shares: Shares)
    requires AllWaiting(q) && AllShared(q, shares)
    requires k <= |q| && i == |After(q[..k], shares, false)| < |queue| && queue == After(q[..k], shares, false) + q[k..]
    ensures k < |q| && queue[i] == q[k]
    ensures
      var r, rest := Served(q[k], shares), q[k + 1..];
      var waiting, finished := After(q[..k + 1], shares, false), After(q[..k + 1], shares, true);
      if Finished(r) then |waiting| == i && queue[..i] + queue[i + 1..] == waiting + rest
        && finished == After(q[..k], shares, true) + [r]
      else |waiting| == i + 1 && queue[i := r] == waiting + rest && finished == After(q[..k], shares, true)
  {
    assert q[..k + 1][..k] == q[..k];
    assert q[k..] == [q[k]] + q[k + 1..];
  }

  /** The first `k` requests of `q` were served: those that still wait are the first `i` of the queue. */
  ghost predicate Serving(queue: seq<Request>, i: nat, done: seq<Request>, q: seq<Request>, k: nat, shares: Shares)
    requires AllWaiting(q) && AllShared(q, shares) && k <= |q|
  {
    && i == |After(q[..k], shares, false)| && queue == After(q[..k], shares, false) + q[k..]
    && done == After(q[..k], shares, true) && AllWaiting(queue)
  }

  lemma ServeNext(queue: seq<Request>, i: nat, done: seq<Request>, q: seq<Request>, k: nat, shares: Shares)
    requires AllWaiting(q) && AllShared(q, shares) && k <= |q| && Serving(queue, i, done, q, k, shares) && i < |queue|
    ensures k < |q| && queue[i] == q[k]
    ensures
      var r, got := Served(q[k], shares), GrantOf(q[k], shares);
      if Finished(r) then
        && Serving(queue[..i] + queue[i + 1..], i, done + [r], q, k + 1, shares)
        && Owed(queue[..i] + queue[i + 1..]) == Owed(queue) - (got + r.requestSize - r.given)
      else
        && Serving(queue[i := r], i + 1, done, q, k + 1, shares)
        && Owed(queue[i := r]) == Owed(queue) - got
  {
    hide After, Owed, GrantOf, Served, Finished, Waiting, Shared;
    ServeOne(queue, i, q, k, shares);
    ServeOwed(queue, i, shares);
  }

  lemma NoneServed(q: seq<Request>, shares: Shares, before: map<Channel, int>)
    requires AllWaiting(q) && AllShared(q, shares)
    requires forall c :: c in Channels(q) ==> c in before && c.quotaLeft == before[c]
    ensures Serving(q, 0, [], q, 0, shares) && TakenFrom(Channels(q), before, q[..0], shares)
  {
    assert q == [] + q[0..];
  }

  lemma AllServed(queue: seq<Request>, i: nat, done: seq<Request>, q: seq<Request>, k: nat, shares: Shares,
                  before: map<Channel, int>)
    requires AllWaiting(q) && AllShared(q, shares) && k <= |q| && Serving(queue, i, done, q, k, shares) && |queue| <= i
    requires TakenFrom(Channels(q), before, q[..k], shares)
    ensures queue == After(q, shares, false) && done == After(q, shares, true) && AllWaiting(queue)
    ensures forall c :: c in Channels(q) ==>
      c in before && c.quotaLeft == before[c] - if c.limit == 0 then 0 else Spent(q, shares, c)
  {
    assert q[..k] == q;
  }

  /** Tells the peers, from the back of the list. */
  method Dispatch(done: seq<Request>) returns (calls: seq<(nat, int)>)
    ensures calls == Calls(done)
  {
    calls := [];
    var tm := done;
    while tm != []
      invariant tm <= done && calls + Calls(tm) == Calls(done)
    {
      var bwr := tm[|tm| - 1];
      assert calls + ([(bwr.peer, bwr.given)] + Calls(tm[..|tm| - 1])) ==
        calls + [(bwr.peer, bwr.given)] + Calls(tm[..|tm| - 1]);
      calls := calls + [(bwr.peer, bwr.given)];
      tm := tm[..|tm| - 1];
    }
  }

  /** A request that finishes takes what it was owed out of the count; one that does not, what it got. */
  lemma ServeOwed(queue: seq<Request>, i: nat, shares: Shares)
    requires AllWaiting(queue) && i < |queue| && Shared(queue[i].channels, shares)
    ensures
      var r := Served(queue[i], shares);
      var got := GrantOf(queue[i], shares);
      if Finished(r) then
        AllWaiting(queue[..i] + queue[i + 1..])
          && Owed(queue[..i] + queue[i + 1..]) == Owed(queue) - (got + r.requestSize - r.given)
      else AllWaiting(queue[i := r]) && Owed(queue[i := r]) == Owed(queue) - got
  {
    hide Owed;
    OwedRemove(queue, i);
    OwedUpdate(queue, i, Served(queue[i], shares));
  }

  lemma OwedUpdate(q: seq<Request>, i: nat, r: Request)
    requires i < |q|
    ensures Owed(q[i := r]) == Owed(q) - (q[i].requestSize - q[i].given) + (r.requestSize - r.given)
  {
    hide Owed;
    OwedRemove(q, i);
    OwedRemove(q[i := r], i);
    assert q[i := r][..i] + q[i := r][i + 1..] == q[..i] + q[i + 1..];
  }

  /** The channels of these requests have no weight yet. */
  ghost predicate Cleared(q: seq<Request>)
    reads Channels(q)
  {
    forall c :: c in Channels(q) ==> c.tmp == 0
  }

  /** The channels have what they had and what went back to them. */
  ghost predicate GivenBack(all: set<Channel>, before: map<Channel, int>, q: seq<Request>, gone: set<nat>)
    reads all
  {
    forall c :: c in all ==>
      c in before && c.quotaLeft == before[c] + if c.limit == 0 then 0 else Returned(q, gone, c)
  }

  /** Gives back what a request had if its peer has gone, and clears its channels if not. */
  method Visit(r: Request, ghost q: seq<Request>, ghost k: nat, gone: set<nat>, ghost before: map<Channel, int>)
    requires k < |q| && r == q[k] && Waiting(r) && Cleared(Kept(q[..k], gone))
      && GivenBack(Channels(q), before, q[..k], gone)
    modifies r.channels`quotaLeft, r.channels`tmp
    ensures Cleared(Kept(q[..k + 1], gone)) && GivenBack(Channels(q), before, q[..k + 1], gone)
  {
    assert q[..k + 1][..k] == q[..k];
    forall c | c !in r.channels
      ensures Portion(r.channels, c, r.given) == 0
    {
      PortionNone(r.channels, c, r.given);
    }
    if r.peer in gone {
      ReturnAll(r.channels, r.given);
    } else {
      ClearAll(r.channels);
    }
  }

  lemma {:induction false} PortionNone(cs: seq<Channel>, c: Channel, amount: int)
    requires c !in cs
    ensures Portion(cs, c, amount) == 0
  {
    TimesNone(cs, c);
    PortionIs(cs, c, amount);
  }

  lemma NoneVisited(q: seq<Request>, gone: set<nat>, before: map<Channel, int>)
    requires forall c :: c in Channels(q) ==> c in before && c.quotaLeft == before[c]
    ensures Kept(q[..0], gone) == [] && q == q[0..] && Cleared([]) && GivenBack(Channels(q), before, q[..0], gone)
  {
  }

  lemma AllVisited(queue: seq<Request>, q: seq<Request>, k: nat, gone: set<nat>, before: map<Channel, int>)
    requires k <= |q| && queue == Kept(q[..k], gone) + q[k..] && |queue| <= |Kept(q[..k], gone)|
    requires GivenBack(Channels(q), before, q[..k], gone)
    ensures queue == Kept(q[..k], gone) == Kept(q, gone)
    ensures forall c :: c in Channels(q) ==>
      c in before && c.quotaLeft == before[c] + if c.limit == 0 then 0 else Returned(q, gone, c)
  {
    assert q[..k] == q;
  }

  lemma DropOne(queue: seq<Request>, i: nat, q: seq<Request>, k: nat, gone: set<nat>)
    requires k <= |q| && i == |Kept(q[..k], gone)| < |queue| && queue == Kept(q[..k], gone) + q[k..]
    ensures k < |q| && queue[i] == q[k] && forall c :: c in q[k].channels ==> c in Channels(q)
    ensures
      var kept, rest := Kept(q[..k + 1], gone), q[k + 1..];
      if q[k].peer in gone then |kept| == i && queue[..i] + queue[i + 1..] == kept + rest
      else |kept| == i + 1 && queue == kept + rest
  {
    hide Kept;
    KeptNext(q, k, gone);
    var kept, rest := Kept(q[..k], gone), q[k + 1..];
    assert q[k..] == [q[k]] + rest;
    assert queue[..i] == kept && queue[i + 1..] == rest;
  }

  lemma KeptNext(q: seq<Request>, k: nat, gone: set<nat>)
    requires k < |q|
    ensures Kept(q[..k + 1], gone) == Kept(q[..k], gone) + if q[k].peer in gone then [] else [q[k]]
  {
    assert q[..k + 1][..k] == q[..k];
  }

  lemma {:induction false} OwedConcat(a: seq<Request>, b: seq<Request>)
    ensures Owed(a + b) == Owed(a) + Owed(b)
  {
    if b == [] {
      assert a + b == a;
    } else {
      assert (a + b)[..|a + b| - 1] == a + b[..|b| - 1];
      OwedConcat(a, b[..|b| - 1]);
    }
  }

  lemma OwedRemove(q: seq<Request>, i: nat)
    requires i < |q|
    ensures Owed(q) == Owed(q[..i] + q[i + 1..]) + q[i].requestSize - q[i].given
  {
    hide Owed;
    var a, x, b := q[..i], [q[i]], q[i + 1..];
    assert q == a + x + b;
    OwedOne(q[i]);
    OwedConcat(a + x, b);
    OwedConcat(a, x);
    OwedConcat(a, b);
  }

  lemma OwedOne(r: Request)
    ensures Owed([r]) == r.requestSize - r.given
  {
    assert [r][..0] == [];
  }
}
