/**
  A rate limit, and the requests for bandwidth that are subject to it.
 */
module BandwidthChannel {

  /** The quota after `dt` milliseconds, never more than three seconds' worth. */
  function Refilled(quotaLeft: int, limit: nat, dt: nat): (q: int)
    ensures q <= 3 * limit
    ensures quotaLeft <= 3 * limit ==> q >= quotaLeft
    ensures quotaLeft >= 0 ==> q >= 0
  {
    var q := quotaLeft + (limit * dt + 500) / 1000;
    if q > limit * 3 then limit * 3 else q
  }

  /**
    A channel that had `left` has `q` after so many milliseconds: the limit times the time is added, to
    the nearest byte, unless that would be more than the limit of three seconds.
   */
  predicate IsRefill(left: int, limit: nat, ms: nat, q: int) {
    if q < 3 * limit then 1000 * (q - left) - 500 <= limit * ms < 1000 * (q - left) + 500
    else q == 3 * limit && limit * ms + 500 >= 1000 * (3 * limit - left)
  }

  lemma RefillNearest(left: int, limit: nat, ms: nat)
    ensures IsRefill(left, limit, ms, Refilled(left, limit, ms))
  {
    var n := limit * ms;
    assert 1000 * ((n + 500) / 1000) <= n + 500 < 1000 * ((n + 500) / 1000) + 1000;
  }

  lemma RefillUnique(left: int, limit: nat, ms: nat, p: int, q: int)
    requires IsRefill(left, limit, ms, p) && IsRefill(left, limit, ms, q)
    ensures p == q
  {
  }

  /** A limit of zero means there is none. What is left may be less than nothing, when others use the channel too. */
  class Channel {
    var tmp: int
    var distributeQuota: int
    var quotaLeft: int
    var limit: int

    constructor ()
      ensures quotaLeft == 0 && limit == 0
    {
      tmp, distributeQuota, quotaLeft, limit := 0, 0, 0, 0;
    }

    method Throttle(newLimit: nat)
      modifies `limit
      ensures limit == newLimit
    {
      limit := newLimit;
    }

    method UpdateQuota(dt: nat)
      requires limit >= 0
      modifies `quotaLeft, `distributeQuota
      ensures limit == 0 ==> quotaLeft == old(quotaLeft) && distributeQuota == old(distributeQuota)
      ensures limit != 0 ==>
        && quotaLeft == Refilled(old(quotaLeft), limit, dt) && IsRefill(old(quotaLeft), limit, dt, quotaLeft)
        && distributeQuota == if quotaLeft > 0 then quotaLeft else 0
    {
      if limit == 0 {
        return;
      }
      RefillNearest(quotaLeft, limit, dt);
      quotaLeft := quotaLeft + (limit * dt + 500) / 1000;
      if quotaLeft > limit * 3 {
        quotaLeft := limit * 3;
      }
      distributeQuota := if quotaLeft > 0 then quotaLeft else 0;
    }

    method ReturnQuota(amount: nat)
      modifies `quotaLeft
      ensures quotaLeft == old(quotaLeft) + if limit == 0 then 0 else amount
    {
      if limit == 0 {
        return;
      }
      quotaLeft := quotaLeft + amount;
    }

    method UseQuota(amount: nat)
      modifies `quotaLeft
      ensures quotaLeft == old(quotaLeft) - if limit == 0 then 0 else amount
    {
      if limit == 0 {
        return;
      }
      quotaLeft := quotaLeft - amount;
    }
  }

  // ---------------------------------------------------------------------------------------
  // Requests
  // ---------------------------------------------------------------------------------------

  datatype Request = Request(
    peer: nat, priority: int, given: int, requestSize: int, ttl: int, channels: seq<Channel>)

  /** A request that waits: it has not got all it asked for. */
  predicate Waiting(r: Request) {
    r.priority > 0 && 0 <= r.given < r.requestSize && 1 <= |r.channels| <= 5
  }

  predicate AllWaiting(q: seq<Request>) {
    forall i :: 0 <= i < |q| ==> Waiting(q[i])
  }

  /** The channels of all requests. */
  function Channels(q: seq<Request>): set<Channel> {
    set r, c | r in q && c in r.channels :: c
  }

  /** How much the requests have not got yet. */
  function Owed(q: seq<Request>): int {
    if q == [] then 0 else Owed(q[..|q| - 1]) + q[|q| - 1].requestSize - q[|q| - 1].given
  }

  function Times(cs: seq<Channel>, c: Channel): nat {
    if cs == [] then 0 else Times(cs[..|cs| - 1], c) + if cs[|cs| - 1] == c then 1 else 0
  }

  /** So much for each time a channel is in a list. */
  function Portion(cs: seq<Channel>, c: Channel, amount: int): int {
    if cs == [] then 0 else Portion(cs[..|cs| - 1], c, amount) + if cs[|cs| - 1] == c then amount else 0
  }

  lemma {:induction false} PortionIs(cs: seq<Channel>, c: Channel, amount: int)
    ensures Portion(cs, c, amount) == Times(cs, c) * amount
  {
    if cs != [] {
      PortionIs(cs[..|cs| - 1], c, amount);
      Distribute(Times(cs[..|cs| - 1], c), if cs[|cs| - 1] == c then 1 else 0, amount);
    }
  }

  /** The priorities of the requests that a channel is shared between. */
  function Weight(q: seq<Request>, c: Channel): int {
    if q == [] then 0 else Weight(q[..|q| - 1], c) + Portion(q[|q| - 1].channels, c, q[|q| - 1].priority)
  }

  // ---------------------------------------------------------------------------------------
  // Sharing
  // ---------------------------------------------------------------------------------------

  /** A channel's part in a round: its limit, what it has to give, and between how many. */
  datatype Share = Share(limit: int, quota: int, tmp: int)

  type Shares = map<Channel, Share>

  predicate Shared(cs: seq<Channel>, shares: Shares) {
    forall c :: c in cs ==> c in shares && shares[c].quota >= 0 && shares[c].tmp >= 0
  }

  /** A channel limits a request if it has a limit and is shared out this round. */
  predicate Limits(s: Share) {
    s.limit != 0 && s.tmp != 0
  }

  /** A channel's part for a priority, rounded down. */
  function Part(s: Share, priority: int): (n: int)
    requires Limits(s) && s.quota >= 0 && s.tmp >= 0 && priority > 0
    ensures n >= 0
  {
    PartBound(s.quota, priority, s.tmp);
    s.quota * priority / s.tmp
  }

  lemma PartBound(quota: nat, priority: nat, tmp: nat)
    requires tmp > 0
    ensures 0 <= quota * priority / tmp && quota * priority / tmp * tmp <= quota * priority
  {
  }

  /** What a request gets: what it still wants, or the smallest of its parts of its channels. */
  function Grant(cs: seq<Channel>, priority: int, shares: Shares, wanted: int): (g: int)
    requires Shared(cs, shares) && priority > 0 && wanted >= 0
    ensures 0 <= g <= wanted
  {
    hide Part;
    if cs == [] then wanted
    else
      var last, rest := cs[|cs| - 1], cs[..|cs| - 1];
      var g := Grant(rest, priority, shares, wanted);
      var s := shares[last];
      if Limits(s) && Part(s, priority) < g then Part(s, priority) else g
  }

  lemma {:induction false} GrantPart(cs: seq<Channel>, priority: int, shares: Shares, wanted: int, c: Channel)
    requires Shared(cs, shares) && priority > 0 && wanted >= 0 && c in cs && Limits(shares[c])
    ensures Grant(cs, priority, shares, wanted) <= Part(shares[c], priority)
  {
    hide Part;
    var last, rest := cs[|cs| - 1], cs[..|cs| - 1];
    if c != last {
      GrantPart(rest, priority, shares, wanted, c);
    }
  }

  predicate AllShared(q: seq<Request>, shares: Shares) {
    forall i :: 0 <= i < |q| ==> Shared(q[i].channels, shares)
  }

  function GrantOf(r: Request, shares: Shares): (g: int)
    requires Waiting(r) && Shared(r.channels, shares)
    ensures 0 <= g <= r.requestSize - r.given
  {
    Grant(r.channels, r.priority, shares, r.requestSize - r.given)
  }

  /** What the requests take from a channel in a round. */
  function Spent(q: seq<Request>, shares: Shares, c: Channel): int
    requires AllWaiting(q) && AllShared(q, shares)
  {
    if q == [] then 0
    else
      var last := q[|q| - 1];
      Spent(q[..|q| - 1], shares, c) + Portion(last.channels, c, GrantOf(last, shares))
  }

  lemma {:induction false} TimesNone(cs: seq<Channel>, c: Channel)
    ensures Times(cs, c) == 0 <==> c !in cs
  {
    if cs != [] {
      TimesNone(cs[..|cs| - 1], c);
    }
  }

  /** All that is taken is in proportion to the priorities of those that took it. */
  lemma {:induction false} SpentInProportion(q: seq<Request>, shares: Shares, c: Channel)
    requires AllWaiting(q) && AllShared(q, shares) && c in shares && Limits(shares[c]) && shares[c].quota >= 0
      && shares[c].tmp >= 0
    ensures 0 <= Spent(q, shares, c) && Spent(q, shares, c) * shares[c].tmp <= shares[c].quota * Weight(q, c)
  {
    if q != [] {
      var last, rest := q[|q| - 1], q[..|q| - 1];
      SpentInProportion(rest, shares, c);
      var s, g, n := shares[c], GrantOf(last, shares), Times(last.channels, c);
      TimesNone(last.channels, c);
      PortionIs(last.channels, c, g);
      PortionIs(last.channels, c, last.priority);
      if n > 0 {
        GrantPart(last.channels, last.priority, shares, last.requestSize - last.given, c);
        PartBound(s.quota, last.priority, s.tmp);
        ManyParts(n, g, s.quota, last.priority, s.tmp);
      }
      Distribute(Spent(rest, shares, c), n * g, s.tmp);
      Distribute(Weight(rest, c), n * last.priority, s.quota);
    }
  }

  lemma Distribute(a: int, b: int, k: int)
    ensures (a + b) * k == a * k + b * k && k * (a + b) == k * a + k * b
  {
  }

  lemma ManyParts(n: nat, g: nat, quota: nat, priority: nat, tmp: nat)
    requires tmp > 0 && g <= quota * priority / tmp && quota * priority / tmp * tmp <= quota * priority
    ensures 0 <= n * g && n * g * tmp <= quota * (n * priority)
  {
    assert g * tmp <= quota * priority / tmp * tmp;
    assert n * (g * tmp) <= n * (quota * priority);
    assert n * g * tmp == n * (g * tmp);
    assert quota * (n * priority) == n * (quota * priority);
  }

  /** When the shares add up, no more is taken from a channel than it had to give. */
  lemma SpentWithin(q: seq<Request>, shares: Shares, c: Channel)
    requires AllWaiting(q) && AllShared(q, shares) && c in shares && Limits(shares[c]) && shares[c].quota >= 0
    requires 0 <= Weight(q, c) == shares[c].tmp
    ensures 0 <= Spent(q, shares, c) <= shares[c].quota
  {
    hide Spent, Weight;
    SpentInProportion(q, shares, c);
    CancelFactor(Spent(q, shares, c), shares[c].quota, shares[c].tmp);
  }

  lemma CancelFactor(n: int, m: int, k: int)
    requires k > 0 && n * k <= m * k
    ensures n <= m
  {
  }

  // ---------------------------------------------------------------------------------------
  // The greatest amount
  // ---------------------------------------------------------------------------------------

  /** So much is no more than a channel's part for the priority. */
  predicate Allows(quota: int, weight: int, priority: int, g: int) {
    g * weight <= quota * priority
  }

  lemma PartGreatest(s: Share, priority: int)
    requires Limits(s) && s.quota >= 0 && s.tmp >= 0 && priority > 0
    ensures Allows(s.quota, s.tmp, priority, Part(s, priority))
    ensures !Allows(s.quota, s.tmp, priority, Part(s, priority) + 1)
  {
    var n, t := s.quota * priority, s.tmp;
    Quotient1(n, t);
  }

  lemma Quotient1(n: int, t: int)
    requires t > 0
    ensures n / t * t <= n < (n / t + 1) * t
  {
    assert n == n / t * t + n % t;
    Distribute(n / t, 1, t);
  }

  lemma LessAllowed(quota: int, weight: int, priority: int, g: int, h: int)
    requires Allows(quota, weight, priority, h) && g <= h && weight >= 0
    ensures Allows(quota, weight, priority, g)
  {
    Distribute(g, h - g, weight);
    MulPositive(h - g, weight);
  }

  lemma MulPositive(a: int, b: int)
    requires a >= 0 && b >= 0
    ensures a * b >= 0
  {
  }

  /** The amount is allowed by all channels of a request, and it is all that is wanted or one more is not allowed. */
  ghost predicate Greatest(cs: seq<Channel>, priority: int, shares: Shares, wanted: int, g: int)
    requires Shared(cs, shares)
  {
    && 0 <= g <= wanted
    && (forall c :: c in cs && Limits(shares[c]) ==> Allows(shares[c].quota, shares[c].tmp, priority, g))
    && (g == wanted ||
        exists c :: c in cs && Limits(shares[c]) && !Allows(shares[c].quota, shares[c].tmp, priority, g + 1))
  }

  lemma {:induction false} GrantGreatest(cs: seq<Channel>, priority: int, shares: Shares, wanted: int)
    requires Shared(cs, shares) && priority > 0 && wanted >= 0
    ensures Greatest(cs, priority, shares, wanted, Grant(cs, priority, shares, wanted))
  {
    hide Part, Allows;
    if cs != [] {
      var last, rest := cs[|cs| - 1], cs[..|cs| - 1];
      assert cs == rest + [last];
      GrantGreatest(rest, priority, shares, wanted);
      var g, h := Grant(rest, priority, shares, wanted), Grant(cs, priority, shares, wanted);
      if Limits(shares[last]) {
        PartGreatest(shares[last], priority);
        LessAllowed(shares[last].quota, shares[last].tmp, priority, h, Part(shares[last], priority));
      }
      forall c | c in rest && Limits(shares[c])
        ensures Allows(shares[c].quota, shares[c].tmp, priority, h)
      {
        LessAllowed(shares[c].quota, shares[c].tmp, priority, h, g);
      }
    }
  }
}
