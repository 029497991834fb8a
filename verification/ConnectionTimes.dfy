/**
  Which connection is started, times out or is refused over a run, and when: in terms of what was
  asked for and of the times at which the steps ran.
 */
module ConnectionTimes {
  import opened ConnectionQueue
  import opened ConnectionRun

  // ---------------------------------------------------------------------------------------
  // The history of a ticket
  // ---------------------------------------------------------------------------------------

  /** How many connections were asked for; tickets are given out in that order. */
  function Enqueues(steps: seq<Step>): nat {
    if steps == [] then 0 else Enqueues(steps[..|steps| - 1]) + if steps[|steps| - 1].DoEnqueue? then 1 else 0
  }

  /** The ticket belongs to a connection that was asked for with this timeout and priority. */
  ghost predicate Asked(steps: seq<Step>, ticket: nat, timeout: nat, priority: int) {
    exists k :: 0 <= k < |steps| && steps[k] == DoEnqueue(timeout, priority) && Enqueues(steps[..k]) == ticket
  }

  /** Whom was called in one step of a run. */
  function CalledIn(limit: nat, steps: seq<Step>, k: nat): Log
    requires k < |steps|
  {
    Stepped(limit, Ran(limit, steps[..k]).snap, steps[k]).log
  }

  /** The step looks for connections to start, at the time `now`. */
  predicate LooksAt(step: Step, now: int) {
    step == DoTryConnect(now) || (step.HandlerEnds? && step.now == now)
  }

  /** The connection of the ticket was started at the time `now`. */
  ghost predicate StartedAt(limit: nat, steps: seq<Step>, ticket: nat, now: int) {
    exists k :: 0 <= k < |steps| && LooksAt(steps[k], now) && ticket in CalledIn(limit, steps, k).connected
  }

  lemma AskedMore(steps: seq<Step>, step: Step, ticket: nat, timeout: nat, priority: int)
    requires Asked(steps, ticket, timeout, priority)
    ensures Asked(steps + [step], ticket, timeout, priority)
  {
    hide Enqueues;
    var k :| 0 <= k < |steps| && steps[k] == DoEnqueue(timeout, priority) && Enqueues(steps[..k]) == ticket;
    assert (steps + [step])[..k] == steps[..k] && (steps + [step])[k] == steps[k];
  }

  lemma AskedNow(steps: seq<Step>, timeout: nat, priority: int)
    ensures Asked(steps + [DoEnqueue(timeout, priority)], Enqueues(steps), timeout, priority)
  {
    hide Enqueues;
    var more := steps + [DoEnqueue(timeout, priority)];
    assert more[..|steps|] == steps && more[|steps|] == DoEnqueue(timeout, priority);
  }

  lemma StartedMore(limit: nat, steps: seq<Step>, step: Step, ticket: nat, now: int)
    requires StartedAt(limit, steps, ticket, now)
    ensures StartedAt(limit, steps + [step], ticket, now)
  {
    hide Ran, Stepped;
    var k :| 0 <= k < |steps| && LooksAt(steps[k], now) && ticket in CalledIn(limit, steps, k).connected;
    assert (steps + [step])[..k] == steps[..k] && (steps + [step])[k] == steps[k];
  }

  lemma StartedNow(limit: nat, steps: seq<Step>, step: Step, ticket: nat, now: int)
    requires LooksAt(step, now) && ticket in Stepped(limit, Ran(limit, steps).snap, step).log.connected
    ensures StartedAt(limit, steps + [step], ticket, now)
  {
    hide Ran, Stepped;
    var more := steps + [step];
    assert more[..|steps|] == steps && more[|steps|] == step;
    assert LooksAt(more[|steps|], now) && ticket in CalledIn(limit, more, |steps|).connected;
  }

  // ---------------------------------------------------------------------------------------
  // Where the entries of a step come from
  // ---------------------------------------------------------------------------------------

  /** An entry was there, or is new, or was just started. */
  ghost predicate ComesFrom(limit: nat, s: Snap, step: Step, e: Entry) {
    || e in Everyone(s)
    || (step == DoEnqueue(e.timeout, e.priority) && e == Entry(s.nextTicket, false, Never, e.timeout, e.priority))
    || exists now, d ::
         && LooksAt(step, now) && d in Everyone(s) && e == d.(connecting := true, expires := At(now + d.timeout))
         && e.ticket in Stepped(limit, s, step).log.connected
  }

  lemma StepEntries(limit: nat, s: Snap, step: Step, e: Entry)
    requires Distinct(s.queue) && e in Everyone(Stepped(limit, s, step).snap)
    ensures ComesFrom(limit, s, step, e)
  {
    hide Tried, TimedOut, ClosedOne, Connecting, Place, Flat, HasSlot;
    if Enabled(s, step) {
      match step
      case DoEnqueue(_, _) =>
      case DoDone(ticket) => DoneEntries(s, ticket, e);
      case DoTryConnect(now) => LookEntries(s.(posted := s.posted - 1), limit, s, step, now, e);
      case Fires(_) =>
      case HandlerRuns(error, time) => TimeoutEntries(s, error, time, e);
      case HandlerEnds(w, now) => LookEntries(WaitAgain(s, w), limit, s, step, now, e);
      case DoClose => CloseEntries(s, e);
      case CloseGoesOn(i) => ClosedEntries(s, i, e);
    }
  }

  lemma DoneEntries(s: Snap, ticket: nat, e: Entry)
    requires e in Without(s.queue, ticket) + Flat(s.closing)
    ensures e in Everyone(s)
  {
    hide Place, Flat;
  }

  lemma TimeoutEntries(s: Snap, error: bool, time: int, e: Entry)
    requires e in Everyone(TimedOut(s, error, time).snap)
    ensures e in Everyone(s)
  {
    hide Flat, Connecting;
  }

  lemma CloseEntries(s: Snap, e: Entry)
    requires e in [] + Flat(s.closing + if s.queue == [] then [] else [s.queue])
    ensures e in Everyone(s)
  {
    hide Flat;
    if s.queue == [] {
      assert s.closing + [] == s.closing;
    } else {
      FlatConcat(s.closing, [s.queue]);
      FlatOne(s.queue);
    }
  }

  lemma ClosedEntries(s: Snap, i: nat, e: Entry)
    requires i < |s.closing| && s.closing[i] != [] && e in Everyone(ClosedOne(s, i).snap)
    ensures e in Everyone(s)
  {
    hide Flat, Shorter;
    var a, b := FlatShorter(s.closing, i);
  }

  lemma LookEntries(t: Snap, limit: nat, s: Snap, step: Step, now: int, e: Entry)
    requires Distinct(t.queue) && t.queue == s.queue && t.closing == s.closing && LooksAt(step, now)
    requires Stepped(limit, s, step) == Tried(t, limit, now) && e in Everyone(Tried(t, limit, now).snap)
    ensures ComesFrom(limit, s, step, e)
  {
    hide Flat, Tried, Stepped;
    TriedEntries(t, limit, now, e);
    if e !in Everyone(s) {
      var d :| d in Everyone(t) && e == d.(connecting := true, expires := At(now + d.timeout));
      assert LooksAt(step, now) && d in Everyone(s);
    }
  }

  lemma TriedEntries(s: Snap, limit: nat, now: int, e: Entry)
    requires Distinct(s.queue) && e in Everyone(Tried(s, limit, now).snap)
    ensures e in Everyone(s) || exists d ::
      && d in Everyone(s) && e == d.(connecting := true, expires := At(now + d.timeout))
      && e.ticket in Tried(s, limit, now).log.connected
  {
    hide Flat, Started, StartedTickets, Connecting;
    var n := Connecting(s.queue);
    StartedEntries(s.queue, n, limit, now);
    if e in Started(s.queue, n, limit, now) {
      var i :| 0 <= i < |s.queue| && Started(s.queue, n, limit, now)[i] == e;
      assert s.queue[i] in Everyone(s);
    }
  }

  lemma OneTicket(limit: nat, s: Snap, step: Step)
    ensures Stepped(limit, s, step).snap.nextTicket == s.nextTicket + if step.DoEnqueue? then 1 else 0
  {
    hide Connecting, Place, Started, StartedTickets, Filter;
  }

  lemma {:induction false} NextTicket(limit: nat, steps: seq<Step>)
    ensures Ran(limit, steps).snap.nextTicket == Enqueues(steps)
  {
    hide Stepped;
    if steps != [] {
      NextTicket(limit, steps[..|steps| - 1]);
      OneTicket(limit, Ran(limit, steps[..|steps| - 1]).snap, steps[|steps| - 1]);
    }
  }

  // ---------------------------------------------------------------------------------------
  // Times
  // ---------------------------------------------------------------------------------------

  /** The entry is as it was asked for; if it is connecting, its time is up one timeout after its start. */
  ghost predicate Timely(limit: nat, steps: seq<Step>, e: Entry) {
    && Asked(steps, e.ticket, e.timeout, e.priority)
    && if e.connecting then exists now :: StartedAt(limit, steps, e.ticket, now) && e.expires == At(now + e.timeout)
       else e.expires == Never
  }

  /** Over any run, of every entry, wherever it is. */
  lemma {:induction false} RanTimely(limit: nat, steps: seq<Step>, e: Entry)
    requires e in Everyone(Ran(limit, steps).snap)
    ensures Timely(limit, steps, e)
    decreases |steps|, 0
  {
    hide Stepped, Ran, Everyone, Timely, ComesFrom;
    if steps == [] {
      NoOne(limit, e);
    } else {
      var before, step := steps[..|steps| - 1], steps[|steps| - 1];
      assert steps == before + [step];
      LastResult(limit, steps);
      RanOk(limit, before);
      var s := Ran(limit, before).snap;
      DistinctQueue(s, Ran(limit, before).log);
      StepEntries(limit, s, step, e);
      NextTicket(limit, before);
      Origin(limit, before, step, e);
    }
  }

  lemma NoOne(limit: nat, e: Entry)
    ensures e !in Everyone(Ran(limit, []).snap)
  {
  }

  lemma LastResult(limit: nat, steps: seq<Step>)
    requires steps != []
    ensures
      var before, step := steps[..|steps| - 1], steps[|steps| - 1];
      Ran(limit, steps).snap == Stepped(limit, Ran(limit, before).snap, step).snap
  {
    hide Stepped;
  }

  lemma DistinctQueue(s: Snap, log: Log)
    requires Ok(s, log)
    ensures Distinct(s.queue)
  {
    assert forall i :: 0 <= i < |s.queue| ==> Everyone(s)[i] == s.queue[i];
  }

  /** What is known of where an entry comes from makes it timely. */
  lemma {:induction false} Origin(limit: nat, before: seq<Step>, step: Step, e: Entry)
    requires ComesFrom(limit, Ran(limit, before).snap, step, e)
    requires Ran(limit, before).snap.nextTicket == Enqueues(before)
    ensures Timely(limit, before + [step], e)
    decreases |before|, 1
  {
    hide Stepped, Ran, Everyone, Asked, StartedAt;
    var s := Ran(limit, before).snap;
    if e in Everyone(s) {
      RanTimely(limit, before, e);
      TimelyMore(limit, before, step, e);
    } else if && step == DoEnqueue(e.timeout, e.priority)
              && e == Entry(s.nextTicket, false, Never, e.timeout, e.priority) {
      AskedNow(before, e.timeout, e.priority);
    } else {
      var now, d :|
        LooksAt(step, now) && d in Everyone(s) && e == d.(connecting := true, expires := At(now + d.timeout))
        && e.ticket in Stepped(limit, s, step).log.connected;
      RanTimely(limit, before, d);
      AskedMore(before, step, d.ticket, d.timeout, d.priority);
      StartedNow(limit, before, step, e.ticket, now);
    }
  }

  lemma TimelyMore(limit: nat, before: seq<Step>, step: Step, e: Entry)
    requires Timely(limit, before, e)
    ensures Timely(limit, before + [step], e)
  {
    hide Asked, StartedAt;
    AskedMore(before, step, e.ticket, e.timeout, e.priority);
    if e.connecting {
      var now :| StartedAt(limit, before, e.ticket, now) && e.expires == At(now + e.timeout);
      StartedMore(limit, before, step, e.ticket, now);
    }
  }

  /** The time of the entry is up, with a tenth of a second to spare. */
  predicate IsLate(e: Entry, time: int) {
    e.connecting && e.expires.At? && e.expires.ms < time + 100
  }

  ghost predicate Precedes(q: seq<Entry>, d: Entry, e: Entry) {
    exists a, b :: 0 <= a < b < |q| && q[a] == d && q[b] == e
  }

  /** What is left of a queue is in the order in which it was. */
  ghost predicate InOrder(left: seq<Entry>, q: seq<Entry>) {
    forall i, j :: 0 <= i < j < |left| ==> Precedes(q, left[i], left[j])
  }

  ghost predicate IsEarliest(t: Time, q: seq<Entry>) {
    && (forall e :: e in q && e.connecting && e.expires.At? ==> t.At? && t.ms <= e.expires.ms)
    && (t.At? ==> exists e :: e in q && e.connecting && e.expires == t)
  }

  lemma {:induction false} FilterInOrder(q: seq<Entry>, f: Entry -> bool)
    ensures InOrder(Filter(q, f), q)
  {
    if q != [] {
      var rest, last := q[..|q| - 1], q[|q| - 1];
      var before, left := Filter(rest, f), Filter(q, f);
      FilterInOrder(rest, f);
      assert left == before + if f(last) then [last] else [];
      MoreInOrder(before, rest, last);
      assert q == rest + [last];
      assert before == before + [];
    } else {
      assert Filter(q, f) == [];
    }
  }

  lemma MoreInOrder(before: seq<Entry>, rest: seq<Entry>, last: Entry)
    requires InOrder(before, rest) && forall e :: e in before ==> e in rest
    ensures InOrder(before, rest + [last]) && InOrder(before + [last], rest + [last])
  {
    var q, left := rest + [last], before + [last];
    forall i, j | 0 <= i < j < |left|
      ensures Precedes(q, left[i], left[j])
    {
      if j < |before| {
        assert Precedes(rest, before[i], before[j]);
        var a, b :| 0 <= a < b < |rest| && rest[a] == before[i] && rest[b] == before[j];
        assert q[a] == left[i] && q[b] == left[j];
      } else {
        assert before[i] in rest;
        var a :| 0 <= a < |rest| && rest[a] == before[i];
        assert q[a] == left[i] && q[|rest|] == left[j];
      }
    }
    forall i, j | 0 <= i < j < |before|
      ensures Precedes(q, before[i], before[j])
    {
      assert left[i] == before[i] && left[j] == before[j];
    }
  }

  lemma {:induction false} NoneConnects(q: seq<Entry>)
    ensures Connecting(q) == 0 <==> forall e :: e in q ==> !e.connecting
  {
    if q != [] {
      NoneConnects(q[..|q| - 1]);
      assert q == q[..|q| - 1] + [q[|q| - 1]];
    }
  }

  /**
    The handler of the timer, running at `time`, takes exactly the entries whose time is up from
    the queue and times them out; the others keep their order, and it will wait for the earliest
    of them. When it is told that the timer was cancelled it does nothing, if there is another
    timer or nothing connects.
   */
  lemma HandlerTakes(limit: nat, s: Snap, error: bool, time: int)
    requires Enabled(s, HandlerRuns(error, time))
    ensures
      var r := Stepped(limit, s, HandlerRuns(error, time));
      if error && (s.numTimers > 1 || forall e :: e in s.queue ==> !e.connecting) then
        r.snap.queue == s.queue && r.snap.windows == s.windows && r.log == Log([], [])
      else
        && (forall e :: e in r.snap.queue <==> e in s.queue && !IsLate(e, time))
        && (forall t :: t in r.log.timedOut <==> exists e :: e in s.queue && IsLate(e, time) && e.ticket == t)
        && r.log.connected == [] && InOrder(r.snap.queue, s.queue)
        && |r.snap.windows| == |s.windows| + 1 && r.snap.windows[..|s.windows|] == s.windows
        && IsEarliest(r.snap.windows[|s.windows|], r.snap.queue)
  {
    hide Filter, NextExpire, Connecting;
    NoneConnects(s.queue);
    FilterInOrder(s.queue, IsUnexpired(time + 100));
    var gone := Filter(s.queue, IsExpired(time + 100));
    forall t
      ensures t in Tickets(gone) <==> exists e :: e in s.queue && IsLate(e, time) && e.ticket == t
    {
      if t in Tickets(gone) {
        TicketsOf(gone, t);
      } else if exists e :: e in s.queue && IsLate(e, time) && e.ticket == t {
        var e :| e in s.queue && IsLate(e, time) && e.ticket == t;
        TicketIn(gone, e);
      }
    }
  }

  lemma TicketIn(q: seq<Entry>, e: Entry)
    requires e in q
    ensures e.ticket in Tickets(q)
  {
    var i :| 0 <= i < |q| && q[i] == e;
    assert Tickets(q)[i] == e.ticket;
  }

  /**
    Over any run: a ticket that a handler running at `time` times out was asked for with some timeout
    and started at some time, so that the timeout had passed, or would have within a tenth of a second.
   */
  lemma TimedOutLate(limit: nat, steps: seq<Step>, k: nat, ticket: nat)
    requires k < |steps| && steps[k].HandlerRuns? && ticket in CalledIn(limit, steps, k).timedOut
    ensures exists timeout: nat, priority, now ::
      && Asked(steps[..k], ticket, timeout, priority) && StartedAt(limit, steps[..k], ticket, now)
      && now + timeout < steps[k].time + 100
  {
    hide Stepped, Ran, Asked, StartedAt, Everyone;
    var before := steps[..k];
    var s, error, time := Ran(limit, before).snap, steps[k].error, steps[k].time;
    OnlyEnabled(limit, s, steps[k]);
    HandlerTakes(limit, s, error, time);
    var e :| e in s.queue && IsLate(e, time) && e.ticket == ticket;
    InEveryone(s, e);
    RanTimely(limit, before, e);
    var now :| StartedAt(limit, before, e.ticket, now) && e.expires == At(now + e.timeout);
    assert Asked(before, ticket, e.timeout, e.priority) && StartedAt(limit, before, ticket, now);
  }

  lemma OnlyEnabled(limit: nat, s: Snap, step: Step)
    ensures !Enabled(s, step) ==> Stepped(limit, s, step).log == Log([], [])
  {
  }

  lemma InEveryone(s: Snap, e: Entry)
    requires e in s.queue
    ensures e in Everyone(s)
  {
  }

  /**
    Over any run: a ticket that is called when the queue is closed was asked for without urgency; it
    is timed out if its connection had been started and refused if not.
   */
  lemma ClosedCalls(limit: nat, steps: seq<Step>, k: nat, ticket: nat)
    requires k < |steps| && steps[k].CloseGoesOn?
    requires ticket in CalledIn(limit, steps, k).connected || ticket in CalledIn(limit, steps, k).timedOut
    ensures exists timeout: nat, priority :: Asked(steps[..k], ticket, timeout, priority) && priority <= 1
    ensures ticket in CalledIn(limit, steps, k).timedOut <==> exists now :: StartedAt(limit, steps[..k], ticket, now)
  {
    hide Ran, Asked, StartedAt, Everyone, Ok;
    var before, i := steps[..k], steps[k].i;
    var s := Ran(limit, before).snap;
    assert Enabled(s, steps[k]);
    var e := s.closing[i][0];
    ClosingEntry(s, i);
    RanTimely(limit, before, e);
    assert Asked(before, ticket, e.timeout, e.priority) && e.priority <= 1;
    RanOk(limit, before);
    if !e.connecting && exists now :: StartedAt(limit, before, ticket, now) {
      var now :| StartedAt(limit, before, ticket, now);
      StartedLogged(limit, before, ticket, now);
      WaitsUnlogged(s, Ran(limit, before).log, e);
    }
  }

  lemma ClosingEntry(s: Snap, i: nat)
    requires i < |s.closing| && s.closing[i] != []
    ensures s.closing[i][0] in Everyone(s)
  {
    hide Flat;
    var a, b := FlatShorter(s.closing, i);
  }

  lemma WaitsUnlogged(s: Snap, log: Log, e: Entry)
    requires Ok(s, log) && e in Everyone(s) && !e.connecting
    ensures e.ticket !in log.connected
  {
  }

  lemma {:induction false} StartedLogged(limit: nat, steps: seq<Step>, ticket: nat, now: int)
    requires StartedAt(limit, steps, ticket, now)
    ensures ticket in Ran(limit, steps).log.connected
  {
    hide Stepped;
    var k :| 0 <= k < |steps| && LooksAt(steps[k], now) && ticket in CalledIn(limit, steps, k).connected;
    Logged(limit, steps, k, ticket);
  }

  lemma {:induction false} Logged(limit: nat, steps: seq<Step>, k: nat, ticket: nat)
    requires k < |steps| && ticket in CalledIn(limit, steps, k).connected
    ensures ticket in Ran(limit, steps).log.connected
    decreases |steps|
  {
    hide Stepped;
    var before := steps[..|steps| - 1];
    if k < |before| {
      assert before[..k] == steps[..k];
      Logged(limit, before, k, ticket);
    }
  }

  // ---------------------------------------------------------------------------------------
  // Who is started, and how many
  // ---------------------------------------------------------------------------------------

  /** Looking for connections to start fills the slots: all if there is no limit, or as many as the limit allows. */
  lemma LookFills(limit: nat, s: Snap, step: Step, now: int)
    requires LooksAt(step, now) && Enabled(s, step)
    ensures
      var q, n, m := s.queue, Connecting(s.queue), Connecting(Stepped(limit, s, step).snap.queue);
      && |Stepped(limit, s, step).snap.queue| == |q| && |Stepped(limit, s, step).log.connected| == m - n
      && (limit == 0 ==> m == |q|) && (limit > 0 && n >= limit ==> m == n)
      && (limit > 0 && n <= limit ==> m == if |q| < limit then |q| else limit)
  {
    hide Started, StartedTickets, Connecting;
    StartedCount(s.queue, Connecting(s.queue), limit, now);
    FullNone(s.queue, Connecting(s.queue), limit);
  }

  lemma {:induction false} FullNone(q: seq<Entry>, n: nat, limit: nat)
    ensures limit > 0 && n >= limit ==> StartedTickets(q, n, limit) == []
  {
    if q != [] {
      FullNone(q[..|q| - 1], n, limit);
    }
  }

  /**
    The timer is set for the entry that is started first, if nothing was connecting; it is cancelled
    if there are no entries.
   */
  lemma LookWaits(limit: nat, s: Snap, now: int)
    requires s.posted > 0
    ensures
      var t, none := Stepped(limit, s, DoTryConnect(now)).snap, forall e :: e in s.queue ==> !e.connecting;
      t.wait == if s.queue == [] then Never else if none then At(now + s.queue[0].timeout) else s.wait
  {
    hide Started, StartedTickets, Connecting;
    NoneConnects(s.queue);
  }

  /** The same after the timeout handler, which has set the timer for the earliest of the entries that were left. */
  lemma EndsWaits(limit: nat, s: Snap, w: nat, now: int)
    requires w < |s.windows|
    ensures
      var t, none := Stepped(limit, s, HandlerEnds(w, now)).snap, forall e :: e in s.queue ==> !e.connecting;
      t.wait ==
        if s.queue == [] then Never else if none then At(now + s.queue[0].timeout)
        else if s.windows[w].At? then s.windows[w] else s.wait
  {
    hide Started, StartedTickets, Connecting;
    NoneConnects(s.queue);
  }

  /** A connection that is done is taken from the queue, and no other. */
  lemma DoneTakes(limit: nat, s: Snap, ticket: nat)
    requires Distinct(s.queue)
    ensures
      var q := Stepped(limit, s, DoDone(ticket)).snap.queue;
      (forall e :: e in q <==> e in s.queue && e.ticket != ticket) && InOrder(q, s.queue)
  {
    hide Place, Connecting, Without;
    WithoutOrder(s.queue, ticket);
    WithoutHas(s.queue, ticket);
  }

  lemma WithoutOrder(all: seq<Entry>, ticket: nat)
    ensures InOrder(Without(all, ticket), all)
  {
    hide Place;
    var i, q := Place(all, ticket), Without(all, ticket);
    forall a, b | 0 <= a < b < |q|
      ensures Precedes(all, q[a], q[b])
    {
      var x, y := if a < i then a else a + 1, if b < i then b else b + 1;
      if i < |all| {
        assert all[x] == q[a] && all[y] == q[b];
      } else {
        assert all[a] == q[a] && all[b] == q[b];
      }
    }
  }

  lemma WithoutHas(all: seq<Entry>, ticket: nat)
    requires Distinct(all)
    ensures forall e :: e in Without(all, ticket) <==> e in all && e.ticket != ticket
  {
    hide Place;
    var i, q := Place(all, ticket), Without(all, ticket);
    forall e | e in all && e.ticket != ticket
      ensures e in q
    {
      var j :| 0 <= j < |all| && all[j] == e;
      if i < |all| {
        assert q[if j < i then j else j - 1] == e;
      }
    }
    forall e | e in q
      ensures e in all && e.ticket != ticket
    {
      var j :| 0 <= j < |q| && q[j] == e;
      assert e == all[if j < i then j else j + 1];
    }
  }

  /** Entries with priority stand before the others, the latest first; the others as they were asked for. */
  predicate ByPriority(q: seq<Entry>) {
    forall i, j :: 0 <= i < j < |q| ==>
      && (q[i].priority <= 0 ==> q[j].priority <= 0 && q[i].ticket < q[j].ticket)
      && (q[j].priority > 0 ==> q[i].priority > 0 && q[i].ticket > q[j].ticket)
  }

  predicate Lined(s: Snap) {
    s.closing == [] && ByPriority(s.queue) && forall i :: 0 <= i < |s.queue| ==> s.queue[i].ticket < s.nextTicket
  }

  /** Over any run without a close: the order in which connections stand, and so are started (`FrontFirst`). */
  lemma {:induction false} RanLined(limit: nat, steps: seq<Step>)
    requires Closes(steps) == 0
    ensures Lined(Ran(limit, steps).snap)
  {
    hide Stepped, Lined;
    if steps == [] {
      NewLined();
    } else {
      var before, step := steps[..|steps| - 1], steps[|steps| - 1];
      RanLined(limit, before);
      StepLined(limit, Ran(limit, before).snap, step);
    }
  }

  lemma NewLined()
    ensures Lined(NEW)
  {
  }

  lemma StepLined(limit: nat, s: Snap, step: Step)
    requires Lined(s) && !step.DoClose?
    ensures Lined(Stepped(limit, s, step).snap)
  {
    hide Tried, TimedOut, Connecting, Place, Without, HasSlot, ByPriority;
    if Enabled(s, step) {
      match step
      case DoEnqueue(timeout, priority) => MoreLined(s.queue, Entry(s.nextTicket, false, Never, timeout, priority));
      case DoDone(ticket) => LessLined(s.queue, ticket, s.nextTicket);
      case DoTryConnect(now) => TriedLined(s.(posted := s.posted - 1), limit, now);
      case Fires(_) =>
      case HandlerRuns(error, time) => TimeoutLined(s, error, time);
      case HandlerEnds(w, now) => TriedLined(WaitAgain(s, w), limit, now);
    }
  }

  lemma MoreLined(q: seq<Entry>, e: Entry)
    requires ByPriority(q) && forall i :: 0 <= i < |q| ==> q[i].ticket < e.ticket
    ensures ByPriority(if e.priority <= 0 then q + [e] else [e] + q)
  {
  }

  lemma LessLined(q: seq<Entry>, ticket: nat, n: nat)
    requires ByPriority(q) && forall i :: 0 <= i < |q| ==> q[i].ticket < n
    ensures ByPriority(Without(q, ticket))
    ensures forall i :: 0 <= i < |Without(q, ticket)| ==> Without(q, ticket)[i].ticket < n
  {
  }

  lemma TriedLined(s: Snap, limit: nat, now: int)
    requires Lined(s)
    ensures Lined(Tried(s, limit, now).snap)
  {
    hide Started, StartedTickets, Connecting;
    SameTickets(s.queue, Connecting(s.queue), limit, now);
  }

  lemma {:induction false} SameTickets(q: seq<Entry>, n: nat, limit: nat, now: int)
    ensures forall i :: 0 <= i < |q| ==>
      Started(q, n, limit, now)[i].ticket == q[i].ticket && Started(q, n, limit, now)[i].priority == q[i].priority
  {
    if q != [] {
      SameTickets(q[..|q| - 1], n, limit, now);
    }
  }

  lemma TimeoutLined(s: Snap, error: bool, time: int)
    requires Lined(s)
    ensures Lined(TimedOut(s, error, time).snap)
  {
    hide Filter, Connecting, NextExpire;
    var left := Filter(s.queue, IsUnexpired(time + 100));
    FilterInOrder(s.queue, IsUnexpired(time + 100));
    forall i, j | 0 <= i < j < |left|
      ensures left[i].priority <= 0 ==> left[j].priority <= 0 && left[i].ticket < left[j].ticket
      ensures left[j].priority > 0 ==> left[i].priority > 0 && left[i].ticket > left[j].ticket
    {
      assert Precedes(s.queue, left[i], left[j]);
      var a, b :| 0 <= a < b < |s.queue| && s.queue[a] == left[i] && s.queue[b] == left[j];
    }
    forall i | 0 <= i < |left|
      ensures left[i].ticket < s.nextTicket
    {
      assert left[i] in s.queue;
    }
  }
}
