/**
  Any run of the connection queue, by any number of threads: a reference on values, what every step
  keeps, and what the steps keep that do not come between the parts of a close.
 */
module ConnectionRun {
  import opened ConnectionQueue

  // ---------------------------------------------------------------------------------------
  // Invariants
  // ---------------------------------------------------------------------------------------

  /** Whom was called: tickets whose connection was started, or refused, and tickets that timed out. */
  datatype Log = Log(connected: seq<nat>, timedOut: seq<nat>)

  /** No one was called twice for the same thing, and none timed out that was not started. */
  predicate LogOk(log: Log, nextTicket: nat) {
    && NoneTwice(log.connected) && NoneTwice(log.timedOut)
    && (forall t :: t in log.connected ==> t < nextTicket)
    && (forall t :: t in log.timedOut ==> t in log.connected)
  }

  predicate EntryOk(e: Entry, log: Log, nextTicket: nat) {
    && e.ticket < nextTicket && e.ticket !in log.timedOut
    && (e.connecting <==> e.expires.At?) && (e.connecting <==> e.ticket in log.connected)
  }

  predicate QueueOk(q: seq<Entry>, log: Log, nextTicket: nat) {
    Distinct(q) && LogOk(log, nextTicket) && forall e :: e in q ==> EntryOk(e, log, nextTicket)
  }

  lemma NoneTwiceConcat(a: seq<nat>, b: seq<nat>)
    requires NoneTwice(a) && NoneTwice(b) && forall t :: t in b ==> t !in a
    ensures NoneTwice(a + b)
  {
    forall i, j | 0 <= i < j < |a + b|
      ensures (a + b)[i] != (a + b)[j]
    {
      if i < |a| && j >= |a| {
        assert b[j - |a|] in b && a[i] in a;
      }
    }
  }

  /** Starting entries keeps all in order, also those that are not in the queue. */
  lemma StartKeeps(q: seq<Entry>, rest: seq<Entry>, log: Log, nextTicket: nat, n: nat, limit: nat, now: int)
    requires QueueOk(q + rest, log, nextTicket)
    ensures
      var connected := log.connected + StartedTickets(q, n, limit);
      QueueOk(Started(q, n, limit, now) + rest, log.(connected := connected), nextTicket)
  {
    hide Started, StartedTickets;
    var all, t, s := q + rest, StartedTickets(q, n, limit), Started(q, n, limit, now);
    assert forall i :: 0 <= i < |q| ==> all[i] == q[i];
    StartedEntries(q, n, limit, now);
    StartedWho(q, n, limit);
    forall x | x in t
      ensures x !in log.connected && x < nextTicket && x !in log.timedOut
      ensures exists i :: 0 <= i < |q| && all[i].ticket == x
    {
      var i :| 0 <= i < |q| && q[i].ticket == x && !q[i].connecting;
      assert all[i] in all;
    }
    NoneTwiceConcat(log.connected, t);
    forall i | 0 <= i < |all|
      ensures (s + rest)[i].ticket == all[i].ticket
      ensures EntryOk((s + rest)[i], log.(connected := log.connected + t), nextTicket)
    {
      assert all[i] in all;
    }
  }

  lemma SameTicket(q: seq<Entry>, d: Entry, e: Entry)
    requires Distinct(q) && d in q && e in q && d.ticket == e.ticket
    ensures d == e
  {
    var i :| 0 <= i < |q| && q[i] == d;
    var j :| 0 <= j < |q| && q[j] == e;
  }

  lemma TicketsOf(q: seq<Entry>, t: nat)
    requires t in Tickets(q)
    ensures exists e :: e in q && e.ticket == t
  {
    var i :| 0 <= i < |q| && Tickets(q)[i] == t;
    assert q[i] in q;
  }

  /** Dropping entries keeps all in order: those that waited are refused, those that were connecting time out. */
  lemma DropKeeps(q: seq<Entry>, log: Log, nextTicket: nat, kept: seq<Entry>, refused: seq<Entry>, expired: seq<Entry>)
    requires QueueOk(q, log, nextTicket) && Distinct(kept) && Distinct(refused) && Distinct(expired)
    requires forall e :: e in kept ==> e in q && e !in refused && e !in expired
    requires forall e :: e in refused ==> e in q && !e.connecting
    requires forall e :: e in expired ==> e in q && e.connecting
    ensures QueueOk(kept, Log(log.connected + Tickets(refused), log.timedOut + Tickets(expired)), nextTicket)
  {
    var a, b := Tickets(refused), Tickets(expired);
    forall t | t in a
      ensures t !in log.connected && t < nextTicket
    {
      TicketsOf(refused, t);
    }
    forall t | t in b
      ensures t !in log.timedOut && t in log.connected
    {
      TicketsOf(expired, t);
    }
    NoneTwiceConcat(log.connected, a);
    NoneTwiceConcat(log.timedOut, b);
    forall e | e in kept
      ensures e.ticket !in a && e.ticket !in b
    {
      NotTicketOf(q, refused, e);
      NotTicketOf(q, expired, e);
    }
  }

  lemma NotTicketOf(q: seq<Entry>, gone: seq<Entry>, e: Entry)
    requires Distinct(q) && e in q && e !in gone && forall d :: d in gone ==> d in q
    ensures e.ticket !in Tickets(gone)
  {
    if e.ticket in Tickets(gone) {
      TicketsOf(gone, e.ticket);
      var d :| d in gone && d.ticket == e.ticket;
      SameTicket(q, d, e);
    }
  }

  lemma EntryNew(q: seq<Entry>, log: Log, nextTicket: nat, e: Entry)
    requires QueueOk(q, log, nextTicket) && e.ticket == nextTicket && !e.connecting && e.expires == Never
    ensures QueueOk(q + [e], log, nextTicket + 1) && QueueOk([e] + q, log, nextTicket + 1)
  {
    forall i | 0 <= i < |q|
      ensures q[i].ticket != e.ticket
    {
      assert q[i] in q;
    }
  }

  lemma EntryGone(q: seq<Entry>, log: Log, nextTicket: nat, i: nat)
    requires QueueOk(q, log, nextTicket) && i < |q|
    ensures QueueOk(q[..i] + q[i + 1..], log, nextTicket)
  {
    var less := q[..i] + q[i + 1..];
    assert forall k :: 0 <= k < |less| ==> less[k] == q[if k < i then k else k + 1];
  }

  lemma {:induction false} FilterConnecting(q: seq<Entry>, f: Entry -> bool)
    ensures Connecting(Filter(q, f)) <= Connecting(q)
  {
    if q != [] {
      var rest, last := q[..|q| - 1], q[|q| - 1];
      FilterConnecting(rest, f);
      assert Filter(rest, f) + [] == Filter(rest, f);
      ConnectingConcat(Filter(rest, f), [last]);
      ConnectingOne(last);
    }
  }

  lemma {:induction false} NoneConnecting(q: seq<Entry>)
    ensures Connecting(q) > 0 ==> exists e :: e in q && e.connecting
  {
    if q != [] {
      NoneConnecting(q[..|q| - 1]);
    }
  }

  /** Entries that are among others, each at most as often, are as distinct. */
  lemma SomeDistinct(a: seq<Entry>, b: seq<Entry>)
    requires Distinct(b) && multiset(a) <= multiset(b)
    ensures Distinct(a) && forall e :: e in a ==> e in b
  {
    forall e | e in a
      ensures e in b
    {
      assert multiset(a)[e] > 0;
      assert multiset(b)[e] > 0;
    }
    forall i, j | 0 <= i < j < |a|
      ensures a[i].ticket != a[j].ticket
    {
      if a[i].ticket == a[j].ticket {
        SameTicket(b, a[i], a[j]);
        Twice(a, i, j);
        OnlyOnce(b, a[i]);
      }
    }
  }

  lemma Twice(a: seq<Entry>, i: nat, j: nat)
    requires i < j < |a| && a[i] == a[j]
    ensures multiset(a)[a[i]] >= 2
  {
    assert a == a[..j] + a[j..];
    assert a[i] == a[..j][i] && a[i] == a[j..][0];
    assert a[i] in multiset(a[..j]) && a[i] in multiset(a[j..]);
  }

  lemma {:induction false} OnlyOnce(b: seq<Entry>, e: Entry)
    requires Distinct(b)
    ensures multiset(b)[e] <= 1
  {
    if b != [] {
      var rest, last := b[..|b| - 1], b[|b| - 1];
      OnlyOnce(rest, e);
      assert b == rest + [last];
      if e == last {
        assert forall i :: 0 <= i < |rest| ==> rest[i] == b[i];
        assert e !in rest;
        assert multiset(rest)[e] == 0;
      }
    }
  }

  lemma {:induction false} FilterSome(q: seq<Entry>, f: Entry -> bool)
    ensures multiset(Filter(q, f)) <= multiset(q)
  {
    if q != [] {
      FilterSome(q[..|q| - 1], f);
      assert q == q[..|q| - 1] + [q[|q| - 1]];
    }
  }

  lemma {:induction false} FilterConcat(a: seq<Entry>, b: seq<Entry>, f: Entry -> bool)
    ensures Filter(a + b, f) == Filter(a, f) + Filter(b, f)
  {
    if b == [] {
      assert a + b == a && Filter(a, f) + [] == Filter(a, f);
    } else {
      var rest, last := b[..|b| - 1], b[|b| - 1];
      assert (a + b)[..|a + b| - 1] == a + rest;
      FilterConcat(a, rest, f);
      var x, y, z := Filter(a, f), Filter(rest, f), if f(last) then [last] else [];
      assert (x + y) + z == x + (y + z);
    }
  }

  // ---------------------------------------------------------------------------------------
  // The reference
  // ---------------------------------------------------------------------------------------

  /** The queue, the timer, and what is outstanding. */
  datatype Snap = Snap(
    queue: seq<Entry>, nextTicket: nat, aborted: bool, numTimers: nat, wait: Time, due: nat, posted: nat,
    windows: seq<Time>, closing: seq<seq<Entry>>)

  const NEW := Snap([], 0, false, 0, Never, 0, 0, [], [])

  datatype Result = Result(snap: Snap, log: Log)

  datatype Step =
    | DoEnqueue(timeout: nat, priority: int)
    | DoDone(ticket: nat)
    | DoTryConnect(now: int)
    | Fires(now: int)
    | HandlerRuns(error: bool, time: int)
    | HandlerEnds(w: nat, now: int)
    | DoClose
    | CloseGoesOn(i: nat)

  /** There is a handler, or a thread, to take the step. */
  predicate Enabled(s: Snap, step: Step) {
    match step
    case DoEnqueue(_, _) => true
    case DoDone(_) => true
    case DoTryConnect(_) => s.posted > 0
    case Fires(now) => s.wait.At? && s.wait.ms <= now
    case HandlerRuns(error, _) => if error then s.numTimers > s.due + (if s.wait.At? then 1 else 0) else s.due > 0
    case HandlerEnds(w, _) => w < |s.windows|
    case DoClose => true
    case CloseGoesOn(i) => i < |s.closing| && s.closing[i] != []
  }

  function Tried(s: Snap, limit: nat, now: int): Result {
    var n := Connecting(s.queue);
    var tickets := StartedTickets(s.queue, n, limit);
    Result(s.(queue := Started(s.queue, n, limit, now), wait := AfterTry(s.queue, n, limit, now, s.wait),
              numTimers := s.numTimers + if n == 0 && tickets != [] then 1 else 0),
           Log(tickets, []))
  }

  function TimedOut(s: Snap, error: bool, time: int): Result {
    var left := if s.numTimers > 0 then s.numTimers - 1 else 0;
    var t := s.(numTimers := left, due := if error || s.due == 0 then s.due else s.due - 1);
    if error && (Connecting(s.queue) == 0 || left > 0) then Result(t, Log([], []))
    else
      var kept := Filter(s.queue, IsUnexpired(time + 100));
      Result(t.(queue := kept, windows := s.windows + [NextExpire(kept)]),
             Log([], Tickets(Filter(s.queue, IsExpired(time + 100)))))
  }

  /** The timer is set if there is something to wait for. */
  function WaitAgain(s: Snap, w: nat): Snap
    requires w < |s.windows|
  {
    var next, rest := s.windows[w], s.windows[..w] + s.windows[w + 1..];
    if next.At? then s.(windows := rest, wait := next, numTimers := s.numTimers + 1) else s.(windows := rest)
  }

  function ClosedOne(s: Snap, i: nat): Result
    requires i < |s.closing| && s.closing[i] != []
  {
    var e := s.closing[i][0];
    var t := s.(closing := Shorter(s.closing, i));
    if e.priority > 1 then Result(t.(queue := s.queue + [e]), Log([], []))
    else if e.connecting then Result(t, Log([], [e.ticket]))
    else Result(t, Log([e.ticket], []))
  }

  function Stepped(limit: nat, s: Snap, step: Step): Result {
    if !Enabled(s, step) then Result(s, Log([], []))
    else
      match step
      case DoEnqueue(timeout, priority) =>
        var e := Entry(s.nextTicket, false, Never, timeout, priority);
        var posted := s.posted + if HasSlot(Connecting(s.queue), limit) then 1 else 0;
        Result(s.(queue := if priority <= 0 then s.queue + [e] else [e] + s.queue, nextTicket := s.nextTicket + 1,
                  posted := posted), Log([], []))
      case DoDone(ticket) =>
        var q := Without(s.queue, ticket);
        var found := Place(s.queue, ticket) < |s.queue|;
        var posted := s.posted + if found && HasSlot(Connecting(q), limit) then 1 else 0;
        Result(s.(queue := q, posted := posted), Log([], []))
      case DoTryConnect(now) => Tried(s.(posted := s.posted - 1), limit, now)
      case Fires(_) => Result(s.(wait := Never, due := s.due + 1), Log([], []))
      case HandlerRuns(error, time) => TimedOut(s, error, time)
      case HandlerEnds(w, now) => Tried(WaitAgain(s, w), limit, now)
      case DoClose =>
        Result(s.(queue := [], aborted := true, wait := if Connecting(s.queue) == 0 then Never else s.wait,
                  closing := s.closing + if s.queue == [] then [] else [s.queue]), Log([], []))
      case CloseGoesOn(i) => ClosedOne(s, i)
  }

  function Joined(a: Log, b: Log): Log {
    Log(a.connected + b.connected, a.timedOut + b.timedOut)
  }

  /** All steps one after the other, and whom was called in them. */
  function Ran(limit: nat, steps: seq<Step>): Result {
    if steps == [] then Result(NEW, Log([], []))
    else
      var before := Ran(limit, steps[..|steps| - 1]);
      var r := Stepped(limit, before.snap, steps[|steps| - 1]);
      Result(r.snap, Joined(before.log, r.log))
  }

  // ---------------------------------------------------------------------------------------
  // What every step keeps
  // ---------------------------------------------------------------------------------------

  /** What the threads in Close have yet to do, all together. */
  function Flat(closing: seq<seq<Entry>>): seq<Entry> {
    if closing == [] then [] else Flat(closing[..|closing| - 1]) + closing[|closing| - 1]
  }

  function Everyone(s: Snap): seq<Entry> {
    s.queue + Flat(s.closing)
  }

  predicate Ok(s: Snap, log: Log) {
    && QueueOk(Everyone(s), log, s.nextTicket) && s.numTimers >= s.due + (if s.wait.At? then 1 else 0)
  }

  lemma {:induction false} FlatConcat(a: seq<seq<Entry>>, b: seq<seq<Entry>>)
    ensures Flat(a + b) == Flat(a) + Flat(b)
  {
    if b == [] {
      assert a + b == a && Flat(a) + [] == Flat(a);
    } else {
      assert (a + b)[..|a + b| - 1] == a + b[..|b| - 1];
      FlatConcat(a, b[..|b| - 1]);
      var x, y, z := Flat(a), Flat(b[..|b| - 1]), b[|b| - 1];
      assert x + y + z == x + (y + z);
    }
  }

  lemma FlatOne(x: seq<Entry>)
    ensures Flat([x]) == x
  {
    assert [x][..0] == [] && Flat([]) + x == x;
  }

  /** What comes before the entry that is next in one of the threads, and what comes after it. */
  lemma FlatShorter(closing: seq<seq<Entry>>, i: nat) returns (a: seq<Entry>, b: seq<Entry>)
    requires i < |closing| && closing[i] != []
    ensures Flat(closing) == a + [closing[i][0]] + b && Flat(Shorter(closing, i)) == a + b
  {
    hide Flat;
    var x, front, back := closing[i], closing[..i], closing[i + 1..];
    var more := Flat(back);
    a, b := Flat(front), x[1..] + more;
    assert closing == front + [x] + back && x == [x[0]] + x[1..];
    FlatConcat(front + [x], back);
    FlatConcat(front, [x]);
    FlatOne(x);
    assert Flat(closing) == a + x + more == a + ([x[0]] + x[1..]) + more == a + [x[0]] + b;
    if |x| == 1 {
      FlatConcat(front, back);
      assert x[1..] + more == more;
    } else {
      assert Shorter(closing, i) == front + [x[1..]] + back;
      FlatConcat(front + [x[1..]], back);
      FlatConcat(front, [x[1..]]);
      FlatOne(x[1..]);
      assert a + x[1..] + more == a + b;
    }
  }

  lemma SameOk(a: seq<Entry>, b: seq<Entry>, log: Log, nextTicket: nat)
    requires QueueOk(a, log, nextTicket) && multiset(b) <= multiset(a)
    ensures QueueOk(b, log, nextTicket)
  {
    SomeDistinct(b, a);
  }

  /** Timing out keeps all in order. */
  lemma ExpireKeeps(q: seq<Entry>, rest: seq<Entry>, log: Log, nextTicket: nat, now: int)
    requires QueueOk(q + rest, log, nextTicket)
    ensures
      var kept, gone := Filter(q, IsUnexpired(now)), Filter(q, IsExpired(now));
      QueueOk(kept + rest, log.(timedOut := log.timedOut + Tickets(gone)), nextTicket)
  {
    hide Filter;
    var kept, gone, all := Filter(q, IsUnexpired(now)), Filter(q, IsExpired(now)), q + rest;
    FilterSome(q, IsUnexpired(now));
    FilterSome(q, IsExpired(now));
    SomeDistinct(kept + rest, all);
    SomeDistinct(gone, all);
    forall e | e in kept + rest
      ensures e !in gone
    {
      if e in gone {
        InBoth(q, rest, e);
      }
    }
    DropKeeps(all, log, nextTicket, kept + rest, [], gone);
    assert log.connected + Tickets([]) == log.connected;
  }

  lemma InBoth(q: seq<Entry>, rest: seq<Entry>, e: Entry)
    requires Distinct(q + rest) && e in q
    ensures e !in rest
  {
    var i :| 0 <= i < |q| && q[i] == e;
    forall j | 0 <= j < |rest|
      ensures rest[j] != e
    {
      assert (q + rest)[i] == q[i] && (q + rest)[|q| + j] == rest[j];
    }
  }

  lemma CloseKeeps(s: Snap, log: Log, i: nat)
    requires Ok(s, log) && i < |s.closing| && s.closing[i] != []
    ensures Ok(ClosedOne(s, i).snap, Joined(log, ClosedOne(s, i).log))
  {
    hide QueueOk, Flat;
    var e, r := s.closing[i][0], ClosedOne(s, i);
    var a, b := FlatShorter(s.closing, i);
    var all, less := Everyone(s), s.queue + (a + b);
    assert all == s.queue + (a + [e] + b);
    assert multiset(all) == multiset(less) + multiset{e};
    if e.priority > 1 {
      assert multiset(Everyone(r.snap)) == multiset(all);
      SameOk(all, Everyone(r.snap), log, s.nextTicket);
    } else {
      OneDropped(all, less, e, log, s.nextTicket);
    }
    assert log.connected + [] == log.connected && log.timedOut + [] == log.timedOut;
  }

  lemma OneDropped(all: seq<Entry>, less: seq<Entry>, e: Entry, log: Log, nextTicket: nat)
    requires QueueOk(all, log, nextTicket) && multiset(all) == multiset(less) + multiset{e}
    ensures e.connecting ==> QueueOk(less, Log(log.connected, log.timedOut + [e.ticket]), nextTicket)
    ensures !e.connecting ==> QueueOk(less, Log(log.connected + [e.ticket], log.timedOut), nextTicket)
  {
    SomeDistinct(less, all);
    OnlyOnce(all, e);
    assert multiset(less)[e] == 0;
    assert e in multiset(all);
    assert Tickets([e]) == [e.ticket] && Tickets([]) == [];
    if e.connecting {
      DropKeeps(all, log, nextTicket, less, [], [e]);
      assert log.connected + [] == log.connected;
    } else {
      DropKeeps(all, log, nextTicket, less, [e], []);
      assert log.timedOut + [] == log.timedOut;
    }
  }

  lemma TriedKeeps(s: Snap, log: Log, limit: nat, now: int)
    requires Ok(s, log)
    ensures Ok(Tried(s, limit, now).snap, Joined(log, Tried(s, limit, now).log))
  {
    hide QueueOk, Flat, Started, StartedTickets, Connecting;
    var n := Connecting(s.queue);
    StartKeeps(s.queue, Flat(s.closing), log, s.nextTicket, n, limit, now);
    StartsFirst(s.queue, n, limit);
    assert log.timedOut + [] == log.timedOut;
  }

  /** When nothing is connecting and there is something to start, something is started. */
  lemma StartsFirst(q: seq<Entry>, n: nat, limit: nat)
    requires n == Connecting(q)
    ensures n == 0 && q != [] && HasSlot(0, limit) <==> n == 0 && StartedTickets(q, n, limit) != []
    ensures HasSlot(0, limit)
  {
    hide Started, StartedTickets, Connecting;
    StartedCount(q, n, limit, 0);
    assert q == [] ==> StartedTickets(q, n, limit) == [];
  }

  lemma StepKeeps(limit: nat, s: Snap, log: Log, step: Step)
    requires Ok(s, log)
    ensures Ok(Stepped(limit, s, step).snap, Joined(log, Stepped(limit, s, step).log))
  {
    hide QueueOk, Flat, Tried, TimedOut, ClosedOne, Filter, Connecting, Place, Without;
    assert log.connected + [] == log.connected && log.timedOut + [] == log.timedOut;
    if Enabled(s, step) {
      match step
      case DoEnqueue(timeout, priority) => EnqueueKeeps(s, log, Entry(s.nextTicket, false, Never, timeout, priority));
      case DoDone(ticket) => DoneKeeps(s, log, ticket);
      case DoTryConnect(now) => TriedKeeps(s.(posted := s.posted - 1), log, limit, now);
      case Fires(_) =>
      case HandlerRuns(error, time) => TimeoutKeeps(s, log, error, time);
      case HandlerEnds(w, now) => TriedKeeps(WaitAgain(s, w), log, limit, now);
      case DoClose => TakenKeeps(s, log);
      case CloseGoesOn(i) => CloseKeeps(s, log, i);
    }
  }

  lemma EnqueueKeeps(s: Snap, log: Log, e: Entry)
    requires Ok(s, log) && e.ticket == s.nextTicket && !e.connecting && e.expires == Never
    ensures QueueOk(s.queue + [e] + Flat(s.closing), log, s.nextTicket + 1)
    ensures QueueOk([e] + s.queue + Flat(s.closing), log, s.nextTicket + 1)
  {
    hide QueueOk, Flat;
    var all, rest := Everyone(s), Flat(s.closing);
    EntryNew(all, log, s.nextTicket, e);
    assert [e] + s.queue + rest == [e] + all;
    assert multiset(s.queue + [e] + rest) == multiset([e] + all);
    SameOk([e] + all, s.queue + [e] + rest, log, s.nextTicket + 1);
  }

  lemma DoneKeeps(s: Snap, log: Log, ticket: nat)
    requires Ok(s, log)
    ensures QueueOk(Without(s.queue, ticket) + Flat(s.closing), log, s.nextTicket)
  {
    hide QueueOk, Flat, Place;
    var i, all, rest := Place(s.queue, ticket), Everyone(s), Flat(s.closing);
    if i < |s.queue| {
      EntryGone(all, log, s.nextTicket, i);
      assert all[..i] + all[i + 1..] == s.queue[..i] + s.queue[i + 1..] + rest;
    }
  }

  lemma TimeoutKeeps(s: Snap, log: Log, error: bool, time: int)
    requires Ok(s, log) && Enabled(s, HandlerRuns(error, time))
    ensures Ok(TimedOut(s, error, time).snap, Joined(log, TimedOut(s, error, time).log))
  {
    hide QueueOk, Flat, Filter, Connecting;
    ExpireKeeps(s.queue, Flat(s.closing), log, s.nextTicket, time + 100);
    assert log.connected + [] == log.connected && log.timedOut + [] == log.timedOut;
  }

  lemma TakenKeeps(s: Snap, log: Log)
    requires Ok(s, log)
    ensures
      var closing := s.closing + if s.queue == [] then [] else [s.queue];
      QueueOk([] + Flat(closing), log, s.nextTicket) && Flat(closing) == Flat(s.closing) + s.queue
  {
    hide QueueOk, Flat;
    var all, rest := Everyone(s), Flat(s.closing);
    if s.queue == [] {
      assert s.closing + [] == s.closing && rest + [] == rest && all == [] + rest;
    } else {
      FlatConcat(s.closing, [s.queue]);
      FlatOne(s.queue);
      assert [] + (rest + s.queue) == rest + s.queue;
      assert multiset(rest + s.queue) == multiset(all);
      SameOk(all, rest + s.queue, log, s.nextTicket);
    }
  }

  /**
    Over any run, whatever the threads do: no ticket is connected twice, none times out twice or
    without having been connected, and every entry is in one place.
   */
  lemma {:induction false} RanOk(limit: nat, steps: seq<Step>)
    ensures
      var r := Ran(limit, steps);
      && Ok(r.snap, r.log) && NoneTwice(r.log.connected) && NoneTwice(r.log.timedOut)
      && forall t :: t in r.log.timedOut ==> t in r.log.connected
  {
    hide Stepped;
    if steps != [] {
      var before := Ran(limit, steps[..|steps| - 1]);
      RanOk(limit, steps[..|steps| - 1]);
      StepKeeps(limit, before.snap, before.log, steps[|steps| - 1]);
    }
  }

  // ---------------------------------------------------------------------------------------
  // What the steps keep that do not come between the parts of a close
  // ---------------------------------------------------------------------------------------

  /** The urgent entries that threads in Close have yet to put back. */
  function Held(s: Snap): seq<Entry> {
    Filter(Flat(s.closing), IsUrgent())
  }

  /** How many entries are connecting, and how many there are, when the urgent ones are back. */
  function Busy(s: Snap): nat {
    Connecting(s.queue) + Connecting(Held(s))
  }

  function Size(s: Snap): nat {
    |s.queue| + |Held(s)|
  }

  /** A handler is outstanding that will not be told of a cancelled timer. */
  predicate Live(s: Snap) {
    s.wait.At? || s.due > 0
  }

  ghost predicate Watched(windows: seq<Time>) {
    exists t :: t in windows && t.At?
  }

  /**
    The limit is kept; a timer is live, or about to be set, while anything connects; and until the
    queue is closed, a look is on its way when an entry waits beside a slot.
   */
  ghost predicate Calm(limit: nat, s: Snap) {
    && (limit > 0 ==> Busy(s) <= limit)
    && (Busy(s) > 0 ==> Live(s) || Watched(s.windows))
    && (!s.aborted && Busy(s) < Size(s) && HasSlot(Busy(s), limit) ==> s.posted > 0 || s.windows != [])
    && (s.closing != [] ==> s.aborted)
  }

  /** Someone will look when an entry waits beside a slot, at the latest when the timer runs out. */
  predicate Awake(limit: nat, s: Snap) {
    Busy(s) < Size(s) && HasSlot(Busy(s), limit) ==> s.posted > 0 || s.windows != [] || Live(s)
  }

  /** A handler or another close comes between the parts of a close that has urgent entries to put back. */
  predicate Races(s: Snap, step: Step) {
    && Enabled(s, step) && Held(s) != []
    && (step.DoTryConnect? || step.HandlerRuns? || step.HandlerEnds? || step.DoClose?)
  }

  /** Closing now cancels the only thing that makes an urgent entry start. */
  predicate Forgets(s: Snap) {
    && Connecting(s.queue) == 0 && s.posted == 0 && s.windows == [] && s.due == 0
    && Filter(s.queue, IsUrgent()) != []
  }

  lemma NothingHeld(s: Snap)
    requires Held(s) == []
    ensures Busy(s) == Connecting(s.queue) && Size(s) == |s.queue|
  {
  }

  lemma EnqueueCalm(limit: nat, s: Snap, timeout: nat, priority: int)
    requires Calm(limit, s)
    ensures
      var t := Stepped(limit, s, DoEnqueue(timeout, priority)).snap;
      Calm(limit, t) && (Awake(limit, s) ==> Awake(limit, t))
  {
    hide Connecting, Filter, Flat;
    var e := Entry(s.nextTicket, false, Never, timeout, priority);
    ConnectingOne(e);
    ConnectingConcat(s.queue, [e]);
    ConnectingConcat([e], s.queue);
  }

  lemma DoneCalm(limit: nat, s: Snap, ticket: nat)
    requires Calm(limit, s)
    ensures
      var t := Stepped(limit, s, DoDone(ticket)).snap;
      Calm(limit, t) && (Awake(limit, s) ==> Awake(limit, t))
  {
    hide Connecting, Filter, Flat, Place;
    var i := Place(s.queue, ticket);
    if i < |s.queue| {
      ConnectingRemove(s.queue, i);
    }
  }

  lemma TriedCalm(limit: nat, s: Snap, now: int)
    requires Held(s) == [] && (limit > 0 ==> Busy(s) <= limit) && (s.closing != [] ==> s.aborted)
    requires Busy(s) > 0 ==> Live(s) || Watched(s.windows)
    ensures
      var t := Tried(s, limit, now).snap;
      && Held(t) == [] && Calm(limit, t)
      && !(Busy(t) < Size(t) && HasSlot(Busy(t), limit))
  {
    hide Connecting, Filter, Flat, Started, StartedTickets;
    var n := Connecting(s.queue);
    NothingHeld(s);
    NothingHeld(Tried(s, limit, now).snap);
    StartedCount(s.queue, n, limit, now);
    StartsFirst(s.queue, n, limit);
    EmptyCount();
  }

  lemma EmptyCount()
    ensures Connecting([]) == 0
  {
  }

  lemma TimeoutCalm(limit: nat, s: Snap, error: bool, time: int)
    requires Calm(limit, s) && Held(s) == [] && Enabled(s, HandlerRuns(error, time)) && TimesKnown(s.queue)
    ensures
      var t := TimedOut(s, error, time).snap;
      Calm(limit, t) && (Awake(limit, s) ==> Awake(limit, t))
  {
    hide Connecting, Filter, Flat, NextExpire;
    var t := TimedOut(s, error, time).snap;
    NothingHeld(s);
    NothingHeld(t);
    var kept := Filter(s.queue, IsUnexpired(time + 100));
    FilterConnecting(s.queue, IsUnexpired(time + 100));
    NextKnown(kept);
    assert Watched(s.windows) ==> Watched(s.windows + [NextExpire(kept)]);
    assert NextExpire(kept) in s.windows + [NextExpire(kept)];
  }

  /** An entry that is connecting has a time at which it expires. */
  predicate TimesKnown(q: seq<Entry>) {
    forall e :: e in q && e.connecting ==> e.expires.At?
  }

  lemma NextKnown(q: seq<Entry>)
    requires TimesKnown(q)
    ensures Connecting(q) > 0 ==> NextExpire(q).At?
  {
    hide Connecting, NextExpire;
    NoneConnecting(q);
  }

  lemma WaitAgainCalm(limit: nat, s: Snap, w: nat)
    requires Calm(limit, s) && Held(s) == [] && w < |s.windows|
    ensures
      var t := WaitAgain(s, w);
      && Held(t) == [] && (limit > 0 ==> Busy(t) <= limit) && (t.closing != [] ==> t.aborted)
      && (Busy(t) > 0 ==> Live(t) || Watched(t.windows))
  {
    hide Connecting, Filter, Flat;
    if !s.windows[w].At? {
      StillWatched(s.windows, w);
    }
  }

  lemma StillWatched(windows: seq<Time>, w: nat)
    requires w < |windows| && windows[w] == Never
    ensures Watched(windows) ==> Watched(windows[..w] + windows[w + 1..])
  {
    if t :| t in windows && t.At? {
      var i :| 0 <= i < |windows| && windows[i] == t;
      assert t in if i < w then windows[..w] else windows[w + 1..];
    }
  }

  /** Closing: the urgent entries are held, and whether they are forgotten. */
  lemma CloseCalm(limit: nat, s: Snap)
    requires Calm(limit, s) && Held(s) == []
    ensures
      var t := Stepped(limit, s, DoClose).snap;
      && Calm(limit, t)
      && (Awake(limit, s) ==> (Awake(limit, t) <==> !Forgets(s)))
      && (Awake(limit, s) && Forgets(s) ==> s.aborted)
  {
    hide Connecting, Filter, Flat;
    var t := Stepped(limit, s, DoClose).snap;
    var urgent := Filter(s.queue, IsUrgent());
    HeldAfterClose(s);
    NothingHeld(s);
    EmptyCount();
    FilterConnecting(s.queue, IsUrgent());
    StartsFirst(s.queue, Connecting(s.queue), limit);
    assert Busy(t) == Connecting(urgent) && Size(t) == |urgent|;
    assert |urgent| <= |s.queue|;
  }

  lemma HeldAfterClose(s: Snap)
    requires Held(s) == []
    ensures Held(Stepped(0, s, DoClose).snap) == Filter(s.queue, IsUrgent())
    ensures forall limit :: Stepped(limit, s, DoClose) == Stepped(0, s, DoClose)
  {
    hide Connecting, Filter, Flat;
    var q := s.queue;
    if q == [] {
      assert s.closing + [] == s.closing;
      assert Filter(q, IsUrgent()) == [] by { FilterNothing(); }
    } else {
      FlatConcat(s.closing, [q]);
      FlatOne(q);
      FilterConcat(Flat(s.closing), q, IsUrgent());
      assert [] + Filter(q, IsUrgent()) == Filter(q, IsUrgent());
    }
  }

  lemma FilterNothing()
    ensures Filter([], IsUrgent()) == []
  {
  }

  /** Putting back what is held changes nothing in all. */
  lemma ClosedOneCalm(limit: nat, s: Snap, i: nat)
    requires Calm(limit, s) && Enabled(s, CloseGoesOn(i))
    ensures
      var t := ClosedOne(s, i).snap;
      Calm(limit, t) && (Awake(limit, s) ==> Awake(limit, t))
  {
    hide Connecting, Filter, Flat, Shorter;
    PutBack(s, i);
  }

  lemma PutBack(s: Snap, i: nat)
    requires i < |s.closing| && s.closing[i] != []
    ensures Busy(ClosedOne(s, i).snap) == Busy(s) && Size(ClosedOne(s, i).snap) == Size(s)
  {
    hide Connecting, Filter, Flat, Shorter;
    var e, u := s.closing[i][0], IsUrgent();
    var a, b := FlatShorter(s.closing, i);
    FilterConcat(a + [e], b, u);
    FilterConcat(a, [e], u);
    FilterConcat(a, b, u);
    FilterOne(e);
    ConnectingOne(e);
    ConnectingConcat(s.queue, [e]);
    ConnectingConcat(Filter(a, u), Filter(b, u));
    ConnectingConcat(Filter(a, u) + Filter([e], u), Filter(b, u));
    ConnectingConcat(Filter(a, u), Filter([e], u));
    EmptyCount();
  }

  lemma FilterOne(e: Entry)
    ensures Filter([e], IsUrgent()) == if e.priority > 1 then [e] else []
  {
    assert [e][..0] == [];
  }

  /** What a step keeps, unless it races. */
  lemma StepCalm(limit: nat, s: Snap, step: Step)
    requires Calm(limit, s) && TimesKnown(s.queue) && !Races(s, step)
    ensures
      var t := Stepped(limit, s, step).snap;
      && Calm(limit, t)
      && (Awake(limit, s) ==> (Awake(limit, t) <==> !(step.DoClose? && Forgets(s))))
      && (Awake(limit, s) && step.DoClose? && Forgets(s) ==> s.aborted)
  {
    hide Calm, Awake, Tried, TimedOut, ClosedOne, Forgets, Held;
    if Enabled(s, step) {
      match step
      case DoEnqueue(timeout, priority) => EnqueueCalm(limit, s, timeout, priority);
      case DoDone(ticket) => DoneCalm(limit, s, ticket);
      case DoTryConnect(now) => TryCalm(limit, s, now);
      case Fires(now) => FiresCalm(limit, s, now);
      case HandlerRuns(error, time) => TimeoutCalm(limit, s, error, time);
      case HandlerEnds(w, now) => EndsCalm(limit, s, w, now);
      case DoClose => CloseCalm(limit, s);
      case CloseGoesOn(i) => ClosedOneCalm(limit, s, i);
    }
  }

  lemma TryCalm(limit: nat, s: Snap, now: int)
    requires Calm(limit, s) && Held(s) == [] && s.posted > 0
    ensures
      var t := Tried(s.(posted := s.posted - 1), limit, now).snap;
      Calm(limit, t) && Awake(limit, t)
  {
    hide Connecting, Filter, Flat, Tried;
    TriedCalm(limit, s.(posted := s.posted - 1), now);
  }

  lemma FiresCalm(limit: nat, s: Snap, now: int)
    requires Calm(limit, s) && Enabled(s, Fires(now))
    ensures
      var t := s.(wait := Never, due := s.due + 1);
      Calm(limit, t) && (Awake(limit, s) ==> Awake(limit, t))
  {
    hide Connecting, Filter, Flat;
  }

  lemma EndsCalm(limit: nat, s: Snap, w: nat, now: int)
    requires Calm(limit, s) && Held(s) == [] && w < |s.windows|
    ensures
      var t := Tried(WaitAgain(s, w), limit, now).snap;
      Calm(limit, t) && Awake(limit, t)
  {
    hide Connecting, Filter, Flat, Tried, WaitAgain;
    WaitAgainCalm(limit, s, w);
    TriedCalm(limit, WaitAgain(s, w), now);
  }

  // ---------------------------------------------------------------------------------------
  // Runs
  // ---------------------------------------------------------------------------------------

  /** Some step of the run races. */
  ghost predicate Raced(limit: nat, steps: seq<Step>) {
    exists k :: 0 <= k < |steps| && Races(Ran(limit, steps[..k]).snap, steps[k])
  }

  /** Some close of the run forgets an urgent entry. */
  ghost predicate Forgot(limit: nat, steps: seq<Step>) {
    exists k :: 0 <= k < |steps| && steps[k].DoClose? && Forgets(Ran(limit, steps[..k]).snap)
  }

  function Closes(steps: seq<Step>): nat {
    if steps == [] then 0 else Closes(steps[..|steps| - 1]) + if steps[|steps| - 1].DoClose? then 1 else 0
  }

  lemma LastStep(limit: nat, steps: seq<Step>)
    requires steps != []
    ensures
      var before := steps[..|steps| - 1];
      && (Raced(limit, before) || Races(Ran(limit, before).snap, steps[|steps| - 1]) <==> Raced(limit, steps))
      && (Forgot(limit, before) || (steps[|steps| - 1].DoClose? && Forgets(Ran(limit, before).snap)) <==>
          Forgot(limit, steps))
  {
    hide Ran, Races, Forgets;
    var before := steps[..|steps| - 1];
    assert forall k :: 0 <= k < |before| ==> before[..k] == steps[..k] && before[k] == steps[k];
  }

  /**
    Over any run in which no step races: the limit is kept, a timer is live while anything connects,
    and an entry that waits beside a slot has someone coming, unless a close forgot it, for which the
    queue has to be closed twice.
   */
  lemma {:induction false} RanCalm(limit: nat, steps: seq<Step>)
    requires !Raced(limit, steps)
    ensures
      var s := Ran(limit, steps).snap;
      && Calm(limit, s) && (s.aborted ==> Closes(steps) >= 1)
      && (!Forgot(limit, steps) ==> Awake(limit, s)) && (Forgot(limit, steps) ==> Closes(steps) >= 2)
  {
    hide Calm, Awake, Stepped, Raced, Forgot, Races, Forgets;
    if steps == [] {
      NewCalm(limit);
    } else {
      var before, step := steps[..|steps| - 1], steps[|steps| - 1];
      LastStep(limit, steps);
      RanCalm(limit, before);
      RanOk(limit, before);
      var s := Ran(limit, before).snap;
      TimesOk(s, Ran(limit, before).log);
      StepCalm(limit, s, step);
      OnlyCloseAborts(limit, s, step);
    }
  }

  lemma NewCalm(limit: nat)
    ensures Calm(limit, NEW) && Awake(limit, NEW) && !Forgot(limit, [])
  {
    hide *;
    NewCounts();
    CalmAlone(limit, NEW);
    NoneForgot(limit);
  }

  lemma NewCounts()
    ensures Busy(NEW) == 0 == Size(NEW) && NEW.closing == []
  {
    assert Held(NEW) == [] by { FilterNothing(); }
    NothingHeld(NEW);
  }

  lemma CalmAlone(limit: nat, s: Snap)
    requires Busy(s) == 0 == Size(s) && s.closing == []
    ensures Calm(limit, s) && Awake(limit, s)
  {
    hide Busy, Size;
  }

  lemma NoneForgot(limit: nat)
    ensures !Forgot(limit, [])
  {
    hide Ran, Forgets;
  }

  lemma TimesOk(s: Snap, log: Log)
    requires Ok(s, log)
    ensures TimesKnown(s.queue)
  {
    forall e | e in s.queue
      ensures e in Everyone(s)
    {
    }
  }

  lemma OnlyCloseAborts(limit: nat, s: Snap, step: Step)
    ensures Stepped(limit, s, step).snap.aborted ==> s.aborted || step.DoClose?
  {
  }

  /** With no close under way this is about the queue itself. */
  lemma CalmQueue(limit: nat, s: Snap)
    requires Calm(limit, s) && s.closing == []
    ensures limit > 0 ==> Connecting(s.queue) <= limit
    ensures Connecting(s.queue) > 0 ==> Live(s) || Watched(s.windows)
    ensures Busy(s) == Connecting(s.queue) && Size(s) == |s.queue|
    ensures !s.aborted && Connecting(s.queue) < |s.queue| && HasSlot(Connecting(s.queue), limit) ==>
      s.posted > 0 || s.windows != []
  {
    assert Held(s) == [] by { FilterNothing(); }
    NothingHeld(s);
  }

  // ---------------------------------------------------------------------------------------
  // The queue takes the steps
  // ---------------------------------------------------------------------------------------

  ghost function Now(c: Queue): Snap
    reads c
  {
    Snap(c.queue, c.nextTicket, c.aborted, c.numTimers, c.wait, c.due, c.posted, c.windows, c.closing)
  }

  /** One step of the queue, if there is a handler or a thread to take it. */
  method TakeStep(c: Queue, step: Step) returns (connected: seq<nat>, timedOut: seq<nat>)
    requires c.Valid()
    modifies c
    ensures c.Valid()
    ensures
      var r := Stepped(c.halfOpenLimit, old(Now(c)), step);
      Now(c) == r.snap && Log(connected, timedOut) == r.log
  {
    hide Connecting, Without, Place, Tried, TimedOut, ClosedOne, WaitAgain;
    connected, timedOut := [], [];
    match step
    case DoEnqueue(timeout, priority) =>
      var _ := c.Enqueue(timeout, priority);
    case DoDone(ticket) =>
      c.Done(ticket);
    case Fires(now) =>
      if c.wait.At? && c.wait.ms <= now {
        c.TimerFires(now);
      }
    case DoClose =>
      c.CloseBegins();
    case DoTryConnect(_) =>
      connected := TakeLook(c, step);
    case HandlerEnds(_, _) =>
      connected := TakeLook(c, step);
    case HandlerRuns(_, _) =>
      connected, timedOut := TakeHandler(c, step);
    case CloseGoesOn(_) =>
      connected, timedOut := TakeClose(c, step);
  }

  /** The steps that look for connections to start. */
  method TakeLook(c: Queue, step: Step) returns (connected: seq<nat>)
    requires c.Valid() && (step.DoTryConnect? || step.HandlerEnds?)
    modifies c
    ensures c.Valid()
    ensures
      var r := Stepped(c.halfOpenLimit, old(Now(c)), step);
      Now(c) == r.snap && Log(connected, []) == r.log
  {
    hide Connecting, Started, StartedTickets, AfterTry;
    connected := [];
    match step {
      case DoTryConnect(now) =>
        if c.posted > 0 {
          connected := c.OnTryConnect(now);
        }
      case HandlerEnds(w, now) =>
        if w < |c.windows| {
          connected := c.OnTimeoutEnds(w, now);
        }
    }
  }

  /** The steps in which someone is told that it is over. */
  method TakeHandler(c: Queue, step: Step) returns (connected: seq<nat>, timedOut: seq<nat>)
    requires c.Valid() && step.HandlerRuns?
    modifies c
    ensures c.Valid()
    ensures
      var r := Stepped(c.halfOpenLimit, old(Now(c)), step);
      Now(c) == r.snap && Log(connected, timedOut) == r.log
  {
    hide Connecting, Filter, NextExpire, Shorter, Tickets, ClosedOne, Tried, Without, Place;
    connected, timedOut := [], [];
    if if step.error then c.numTimers > c.due + (if c.wait.At? then 1 else 0) else c.due > 0 {
      var quit;
      quit, timedOut := c.OnTimeoutBegins(step.error, step.time);
    }
  }

  method TakeClose(c: Queue, step: Step) returns (connected: seq<nat>, timedOut: seq<nat>)
    requires c.Valid() && step.CloseGoesOn?
    modifies c
    ensures c.Valid()
    ensures
      var r := Stepped(c.halfOpenLimit, old(Now(c)), step);
      Now(c) == r.snap && Log(connected, timedOut) == r.log
  {
    hide Connecting, Filter, Tickets, TimedOut, Tried, Without, Place, WaitAgain;
    connected, timedOut := [], [];
    if step.i < |c.closing| && c.closing[step.i] != [] {
      connected, timedOut := c.CloseNext(step.i);
    }
  }

  /**
    Any steps by any threads in any order, and the tickets that are called in them. They are those of
    the reference, so none is called twice for the same thing.
   */
  method Run(limit: nat, steps: seq<Step>) returns (c: Queue, connected: seq<nat>, timedOut: seq<nat>)
    ensures fresh(c) && c.halfOpenLimit == limit && c.numConnecting == Connecting(c.queue)
    ensures Now(c) == Ran(limit, steps).snap && Log(connected, timedOut) == Ran(limit, steps).log
    ensures NoneTwice(connected) && NoneTwice(timedOut) && forall t :: t in timedOut ==> t in connected
    ensures !Raced(limit, steps) && c.closing == [] ==>
      && (limit > 0 ==> c.numConnecting <= limit)
      && (c.numConnecting > 0 ==> c.wait.At? || c.due > 0 || Watched(c.windows))
      && (!c.aborted && c.CanStart() ==> c.posted > 0 || c.windows != [])
      && (!Forgot(limit, steps) && c.CanStart() ==> c.posted > 0 || c.windows != [] || c.wait.At? || c.due > 0)
  {
    hide Connecting, Stepped, Raced, Forgot, Calm, Busy, Size;
    c := new Queue(limit);
    connected, timedOut := [], [];
    for k := 0 to |steps|
      invariant fresh(c) && c.halfOpenLimit == limit && c.Valid()
      invariant Now(c) == Ran(limit, steps[..k]).snap && Log(connected, timedOut) == Ran(limit, steps[..k]).log
    {
      assert steps[..k + 1][..k] == steps[..k];
      var more, out := TakeStep(c, steps[k]);
      connected, timedOut := connected + more, timedOut + out;
    }
    assert steps[..|steps|] == steps;
    RanOk(limit, steps);
    if !Raced(limit, steps) && c.closing == [] {
      RanCalm(limit, steps);
      CalmQueue(limit, Now(c));
    }
  }

  // ---------------------------------------------------------------------------------------
  // Steps between the parts of a close, and closing twice
  // ---------------------------------------------------------------------------------------

  lemma OneMore(limit: nat, steps: seq<Step>, step: Step)
    ensures
      var s := Ran(limit, steps).snap;
      Ran(limit, steps + [step]).snap == Stepped(limit, s, step).snap
  {
    assert (steps + [step])[..|steps|] == steps;
  }

  /** An entry that is alone and waits is started, and the timer is set for it. */
  lemma StartsAlone(s: Snap, limit: nat, now: int)
    requires |s.queue| == 1 && !s.queue[0].connecting
    ensures
      var e := Start(s.queue[0], now);
      && Tried(s, limit, now).snap == s.(queue := [e], wait := e.expires, numTimers := s.numTimers + 1)
      && Connecting(s.queue) == 0 && Connecting([e]) == 1
  {
    var e := s.queue[0];
    assert s.queue == [e] && [e][..0] == [];
    ConnectingOne(e);
    ConnectingOne(Start(e, now));
  }

  lemma NoneTried(s: Snap, limit: nat, now: int)
    requires s.queue == []
    ensures Tried(s, limit, now).snap == s.(wait := Never) && Connecting(s.queue) == 0
  {
  }

  const URGENT := Entry(0, false, Never, 1000, 2)
  const LATER := Entry(1, false, Never, 1000, 0)

  /** An urgent entry is connecting while its queue is closed. */
  lemma Closing(limit: nat)
    ensures
      var e := Start(URGENT, 0);
      Ran(limit, [DoEnqueue(1000, 2), DoTryConnect(0), DoClose]).snap ==
      Snap([], 1, true, 1, At(1000), 0, 0, [], [[e]])
  {
    hide Ran, Tried, Connecting;
    var a := [DoEnqueue(1000, 2)];
    var b := a + [DoTryConnect(0)];
    assert Ran(limit, []).snap == NEW by { NothingRan(limit); }
    OneMore(limit, [], DoEnqueue(1000, 2));
    assert [] + a == a && [URGENT] + [] == [URGENT];
    EmptyCount();
    StartsFirst([], 0, limit);
    OneMore(limit, a, DoTryConnect(0));
    StartsAlone(NEW.(queue := [URGENT], nextTicket := 1), limit, 0);
    OneMore(limit, b, DoClose);
    assert b + [DoClose] == [DoEnqueue(1000, 2), DoTryConnect(0), DoClose];
  }

  lemma NothingRan(limit: nat)
    ensures Ran(limit, []).snap == NEW
  {
  }

  /**
    A connection that is started while an urgent entry is held: when that is put back, two are
    connecting, though only one may be.
   */
  lemma LimitExceeded()
    ensures
      var steps := [DoEnqueue(1000, 2), DoTryConnect(0), DoClose, DoEnqueue(1000, 0), DoTryConnect(0), CloseGoesOn(0)];
      var s := Ran(1, steps).snap;
      s.closing == [] && Connecting(s.queue) == 2
  {
    hide Ran, Tried, Connecting;
    var a := [DoEnqueue(1000, 2), DoTryConnect(0), DoClose];
    var b, e, f := a + [DoEnqueue(1000, 0)], Start(URGENT, 0), Start(LATER, 0);
    Closing(1);
    EmptyCount();
    OneMore(1, a, DoEnqueue(1000, 0));
    assert [] + [LATER] == [LATER];
    OneMore(1, b, DoTryConnect(0));
    StartsAlone(Snap([LATER], 2, true, 1, At(1000), 0, 0, [], [[e]]), 1, 0);
    OneMore(1, b + [DoTryConnect(0)], CloseGoesOn(0));
    assert b + [DoTryConnect(0)] + [CloseGoesOn(0)] ==
      [DoEnqueue(1000, 2), DoTryConnect(0), DoClose, DoEnqueue(1000, 0), DoTryConnect(0), CloseGoesOn(0)];
    ConnectingConcat([f], [e]);
    ConnectingOne(e);
    ConnectingOne(f);
  }

  /**
    A second close while an urgent entry is held cancels its timer, and the handler that is told so
    finds nothing connecting: when the entry is put back, nothing will ever make it time out.
   */
  lemma NeverTimesOut(limit: nat)
    ensures
      var steps := [DoEnqueue(1000, 2), DoTryConnect(0), DoClose, DoClose, HandlerRuns(true, 0), CloseGoesOn(0)];
      var s := Ran(limit, steps).snap;
      && s.closing == [] && Connecting(s.queue) == 1
      && s.numTimers == 0 && !Live(s) && s.windows == [] && s.posted == 0
  {
    hide Ran, Connecting, Filter;
    var a := [DoEnqueue(1000, 2), DoTryConnect(0), DoClose];
    var b, e := a + [DoClose], Start(URGENT, 0);
    Closing(limit);
    EmptyCount();
    OneMore(limit, a, DoClose);
    OneMore(limit, b, HandlerRuns(true, 0));
    OneMore(limit, b + [HandlerRuns(true, 0)], CloseGoesOn(0));
    assert b + [HandlerRuns(true, 0)] + [CloseGoesOn(0)] ==
      [DoEnqueue(1000, 2), DoTryConnect(0), DoClose, DoClose, HandlerRuns(true, 0), CloseGoesOn(0)];
    assert [] + [e] == [e] && [[e]] + [] == [[e]];
    ConnectingOne(e);
  }

  const FIRST := Entry(0, false, Never, 1000, 0)
  const WAITING := Entry(1, false, Never, 1000, 2)
  const ONCE := [DoEnqueue(1000, 0), DoTryConnect(0), DoEnqueue(1000, 2), DoClose, CloseGoesOn(0), CloseGoesOn(0)]

  /** Closing while a connection is being made: an urgent entry then waits beside a free slot, for the timer. */
  lemma CloseOnce()
    ensures
      var s := Ran(1, ONCE).snap;
      s == Snap([WAITING], 2, true, 1, At(1000), 0, 0, [], []) && Busy(s) == 0 < Size(s) == 1 && Awake(1, s)
  {
    hide Ran, Tried, Connecting, Filter;
    var a := [DoEnqueue(1000, 0), DoTryConnect(0)];
    var b, e := a + [DoEnqueue(1000, 2)], Start(FIRST, 0);
    FirstStarted();
    ConnectingOne(e);
    OneMore(1, a, DoEnqueue(1000, 2));
    ConnectingConcat([WAITING], [e]);
    ConnectingOne(WAITING);
    OneMore(1, b, DoClose);
    var c := b + [DoClose];
    OneMore(1, c, CloseGoesOn(0));
    OneMore(1, c + [CloseGoesOn(0)], CloseGoesOn(0));
    assert c + [CloseGoesOn(0)] + [CloseGoesOn(0)] == ONCE;
    assert [] + [WAITING] == [WAITING] && ([WAITING] + [e])[1..] == [e];
    assert Held(Ran(1, ONCE).snap) == [] by { FilterNothing(); }
    NothingHeld(Ran(1, ONCE).snap);
  }

  lemma FirstStarted()
    ensures Ran(1, [DoEnqueue(1000, 0), DoTryConnect(0)]).snap ==
      Snap([Start(FIRST, 0)], 1, false, 1, At(1000), 0, 0, [], [])
  {
    hide Ran, Tried, Connecting;
    var a := [DoEnqueue(1000, 0)];
    NothingRan(1);
    OneMore(1, [], DoEnqueue(1000, 0));
    assert [] + a == a && [] + [FIRST] == [FIRST];
    EmptyCount();
    OneMore(1, a, DoTryConnect(0));
    StartsAlone(NEW.(queue := [FIRST], nextTicket := 1), 1, 0);
    assert a + [DoTryConnect(0)] == [DoEnqueue(1000, 0), DoTryConnect(0)];
  }

  /** When the timer runs out, its handler starts the entry. */
  lemma TimerStartsUrgent(time: int, now: int)
    ensures
      var s := Ran(1, ONCE + [Fires(1000)] + [HandlerRuns(false, time)] + [HandlerEnds(0, now)]).snap;
      s.queue == [Start(WAITING, now)] && s.wait == At(now + 1000)
  {
    hide Ran, Tried, Connecting, Filter, NextExpire;
    var a := ONCE + [Fires(1000)];
    var b := a + [HandlerRuns(false, time)];
    CloseOnce();
    OneMore(1, ONCE, Fires(1000));
    OneMore(1, a, HandlerRuns(false, time));
    StillWaits(WAITING, time + 100);
    assert [] + [Never] == [Never];
    OneMore(1, b, HandlerEnds(0, now));
    StartsAlone(Snap([WAITING], 2, true, 0, Never, 0, 0, [], []), 1, now);
    assert [Never][..0] + [Never][1..] == [];
  }

  lemma StillWaits(e: Entry, now: int)
    requires !e.connecting
    ensures Filter([e], IsUnexpired(now)) == [e] && NextExpire([e]) == Never
  {
    assert [e][..0] == [];
  }

  /** Closing again cancels the timer, and nothing is left that would start the entry. */
  lemma SecondCloseForgets()
    ensures
      var s := Ran(1, ONCE + [DoClose] + [CloseGoesOn(0)]).snap;
      s.queue == [WAITING] && s.closing == [] && Busy(s) == 0 < Size(s) == 1 && !Awake(1, s)
  {
    hide Ran, Connecting, Filter;
    var a := ONCE + [DoClose];
    CloseOnce();
    ConnectingOne(WAITING);
    OneMore(1, ONCE, DoClose);
    OneMore(1, a, CloseGoesOn(0));
    assert [] + [WAITING] == [WAITING] && [] + [[WAITING]] == [[WAITING]];
    var s := Ran(1, a + [CloseGoesOn(0)]).snap;
    assert Held(s) == [] by { FilterNothing(); }
    NothingHeld(s);
  }
}
