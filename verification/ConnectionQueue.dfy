/**
  The queue of outgoing connections: how many may be half-open at a time, when they time out, and
  who is called. Every method is one step under the lock, so any order of calls is an interleaving.
  Callbacks are made without the lock; a method returns the tickets of those that are called.
 */
module ConnectionQueue {

  datatype Time = At(ms: int) | Never

  predicate Earlier(a: Time, b: Time) {
    a.At? && (b.Never? || a.ms < b.ms)
  }

  datatype Entry = Entry(ticket: nat, connecting: bool, expires: Time, timeout: nat, priority: int)

  // ---------------------------------------------------------------------------------------
  // Parts of a queue
  // ---------------------------------------------------------------------------------------

  /** How many entries are connecting. */
  function Connecting(q: seq<Entry>): (n: nat)
    ensures n <= |q|
  {
    if q == [] then 0 else Connecting(q[..|q| - 1]) + if q[|q| - 1].connecting then 1 else 0
  }

  function Tickets(q: seq<Entry>): (t: seq<nat>)
    ensures |t| == |q| && forall i :: 0 <= i < |q| ==> t[i] == q[i].ticket
  {
    seq(|q|, i requires 0 <= i < |q| => q[i].ticket)
  }

  predicate Distinct(q: seq<Entry>) {
    forall i, j :: 0 <= i < j < |q| ==> q[i].ticket != q[j].ticket
  }

  predicate NoneTwice(t: seq<nat>) {
    forall i, j :: 0 <= i < j < |t| ==> t[i] != t[j]
  }

  /** The entries with a property, in their order. */
  function Filter(q: seq<Entry>, f: Entry -> bool): (r: seq<Entry>)
    ensures |r| <= |q| && forall e :: e in r <==> e in q && f(e)
  {
    if q == [] then []
    else
      var rest, last := q[..|q| - 1], q[|q| - 1];
      assert q == rest + [last];
      Filter(rest, f) + if f(last) then [last] else []
  }

  lemma {:induction false} FilterDistinct(q: seq<Entry>, f: Entry -> bool)
    requires Distinct(q)
    ensures Distinct(Filter(q, f))
  {
    if q != [] {
      var rest, last := q[..|q| - 1], q[|q| - 1];
      FilterDistinct(rest, f);
      var r := Filter(rest, f);
      forall k | 0 <= k < |r|
        ensures r[k].ticket != last.ticket
      {
        assert r[k] in r && r[k] in rest;
        var i :| 0 <= i < |rest| && rest[i] == r[k];
      }
    }
  }

  lemma {:induction false} ConnectingConcat(a: seq<Entry>, b: seq<Entry>)
    ensures Connecting(a + b) == Connecting(a) + Connecting(b)
  {
    if b == [] {
      assert a + b == a;
    } else {
      assert (a + b)[..|a + b| - 1] == a + b[..|b| - 1];
      ConnectingConcat(a, b[..|b| - 1]);
    }
  }

  lemma ConnectingOne(e: Entry)
    ensures Connecting([e]) == if e.connecting then 1 else 0
  {
    assert [e][..0] == [];
  }

  lemma {:induction false} AllConnecting(q: seq<Entry>)
    ensures Connecting(q) == |q| <==> forall e :: e in q ==> e.connecting
  {
    if q != [] {
      AllConnecting(q[..|q| - 1]);
      assert q == q[..|q| - 1] + [q[|q| - 1]];
    }
  }

  // ---------------------------------------------------------------------------------------
  // Starting connections
  // ---------------------------------------------------------------------------------------

  predicate HasSlot(n: int, limit: nat) {
    limit == 0 || n < limit
  }

  function Start(e: Entry, now: int): Entry {
    e.(connecting := true, expires := At(now + e.timeout))
  }

  /** The tickets of the waiting entries that are started, from the front, when `n` are connecting already. */
  function StartedTickets(q: seq<Entry>, n: nat, limit: nat): (t: seq<nat>)
    ensures |t| <= |q|
  {
    if q == [] then []
    else
      var before, e := StartedTickets(q[..|q| - 1], n, limit), q[|q| - 1];
      before + if !e.connecting && HasSlot(n + |before|, limit) then [e.ticket] else []
  }

  /** The queue after that. */
  function Started(q: seq<Entry>, n: nat, limit: nat, now: int): (r: seq<Entry>)
    ensures |r| == |q|
  {
    if q == [] then []
    else
      var before, e := StartedTickets(q[..|q| - 1], n, limit), q[|q| - 1];
      Started(q[..|q| - 1], n, limit, now) +
      if !e.connecting && HasSlot(n + |before|, limit) then [Start(e, now)] else [e]
  }

  lemma StartedUnfold(q: seq<Entry>, n: nat, limit: nat, now: int)
    requires q != []
    ensures
      var rest, e := q[..|q| - 1], q[|q| - 1];
      var before := StartedTickets(rest, n, limit);
      var starts := !e.connecting && HasSlot(n + |before|, limit);
      && StartedTickets(q, n, limit) == before + (if starts then [e.ticket] else [])
      && Started(q, n, limit, now) == Started(rest, n, limit, now) + [if starts then Start(e, now) else e]
  {
  }

  /** Started are waiting entries, each once. */
  lemma {:induction false} StartedWho(q: seq<Entry>, n: nat, limit: nat)
    requires Distinct(q)
    ensures NoneTwice(StartedTickets(q, n, limit))
    ensures forall t :: t in StartedTickets(q, n, limit) ==>
      exists i :: 0 <= i < |q| && q[i].ticket == t && !q[i].connecting
  {
    if q != [] {
      hide StartedTickets;
      var rest, last := q[..|q| - 1], q[|q| - 1];
      StartedUnfold(q, n, limit, 0);
      StartedWho(rest, n, limit);
      assert forall i :: 0 <= i < |rest| ==> rest[i] == q[i];
      NotStarted(rest, n, limit, last.ticket);
    }
  }

  lemma NotStarted(q: seq<Entry>, n: nat, limit: nat, ticket: nat)
    requires forall t :: t in StartedTickets(q, n, limit) ==>
      exists i :: 0 <= i < |q| && q[i].ticket == t && !q[i].connecting
    requires forall i :: 0 <= i < |q| ==> q[i].ticket != ticket
    ensures ticket !in StartedTickets(q, n, limit)
  {
    hide StartedTickets;
  }

  lemma {:induction false} StartedEntry(q: seq<Entry>, n: nat, limit: nat, now: int, i: nat)
    requires Distinct(q) && i < |q|
    ensures Started(q, n, limit, now)[i] ==
      if q[i].ticket in StartedTickets(q, n, limit) then Start(q[i], now) else q[i]
    decreases |q|
  {
    hide StartedTickets, Started;
    var rest, last := q[..|q| - 1], q[|q| - 1];
    StartedUnfold(q, n, limit, now);
    if i < |rest| {
      StartedEntry(rest, n, limit, now, i);
    } else {
      StartedWho(rest, n, limit);
      NotStarted(rest, n, limit, last.ticket);
    }
  }

  /** The entries that are not started are as they were. */
  lemma StartedEntries(q: seq<Entry>, n: nat, limit: nat, now: int)
    requires Distinct(q)
    ensures forall i :: 0 <= i < |q| ==>
      Started(q, n, limit, now)[i] == if q[i].ticket in StartedTickets(q, n, limit) then Start(q[i], now) else q[i]
  {
    hide StartedTickets, Started;
    forall i | 0 <= i < |q|
      ensures Started(q, n, limit, now)[i] ==
        if q[i].ticket in StartedTickets(q, n, limit) then Start(q[i], now) else q[i]
    {
      StartedEntry(q, n, limit, now, i);
    }
  }

  /** All slots are used if any entry still waits, and no more than there are. */
  lemma {:induction false} StartedCount(q: seq<Entry>, n: nat, limit: nat, now: int)
    ensures Connecting(Started(q, n, limit, now)) == Connecting(q) + |StartedTickets(q, n, limit)|
    ensures limit > 0 && n <= limit ==> n + |StartedTickets(q, n, limit)| <= limit
    ensures Connecting(Started(q, n, limit, now)) < |q| ==> !HasSlot(n + |StartedTickets(q, n, limit)|, limit)
  {
    if q != [] {
      var rest, last := q[..|q| - 1], q[|q| - 1];
      StartedCount(rest, n, limit, now);
      var s := Started(q, n, limit, now);
      assert s[..|s| - 1] == Started(rest, n, limit, now);
    }
  }

  /** When there is no slot left, or no entry waits, the rest of the queue is as it was. */
  lemma {:induction false} StartedRest(q: seq<Entry>, i: nat, n: nat, limit: nat, now: int)
    requires i <= |q|
    requires !HasSlot(n + |StartedTickets(q[..i], n, limit)|, limit) || forall e :: e in q[i..] ==> e.connecting
    ensures Started(q, n, limit, now) == Started(q[..i], n, limit, now) + q[i..]
    ensures StartedTickets(q, n, limit) == StartedTickets(q[..i], n, limit)
    decreases |q|
  {
    if i < |q| {
      var rest, last := q[..|q| - 1], q[|q| - 1];
      assert rest[..i] == q[..i] && q[i..] == rest[i..] + [last];
      StartedRest(rest, i, n, limit, now);
    } else {
      assert q[..i] == q;
    }
  }

  /** An entry that still waits does not stand before one that was started. */
  lemma {:induction false} FrontFirst(q: seq<Entry>, n: nat, limit: nat, now: int, i: nat, j: nat)
    requires Distinct(q) && i < j < |q| && q[j].ticket in StartedTickets(q, n, limit)
    ensures Started(q, n, limit, now)[i].connecting
    decreases |q|
  {
    hide StartedTickets, Started, Connecting;
    var rest, last := q[..|q| - 1], q[|q| - 1];
    StartedLast(q, n, limit, now);
    if j < |rest| {
      FrontFirst(rest, n, limit, now, i, j);
    } else {
      StartedCount(rest, n, limit, now);
      var s := Started(rest, n, limit, now);
      AllConnecting(s);
      assert s[i] in s;
    }
  }

  lemma StartedLast(q: seq<Entry>, n: nat, limit: nat, now: int)
    requires Distinct(q) && q != []
    ensures
      var rest, last := q[..|q| - 1], q[|q| - 1];
      && (forall i :: 0 <= i < |rest| ==> Started(q, n, limit, now)[i] == Started(rest, n, limit, now)[i])
      && (forall i :: 0 <= i < |rest| && q[i].ticket in StartedTickets(q, n, limit) ==>
          q[i].ticket in StartedTickets(rest, n, limit))
      && (last.ticket in StartedTickets(q, n, limit) ==> HasSlot(n + |StartedTickets(rest, n, limit)|, limit))
  {
    StartedWho(q[..|q| - 1], n, limit);
  }

  // ---------------------------------------------------------------------------------------
  // Timing out and closing
  // ---------------------------------------------------------------------------------------

  predicate Expired(e: Entry, now: int) {
    e.connecting && Earlier(e.expires, At(now))
  }

  function IsExpired(now: int): Entry -> bool {
    (e: Entry) => Expired(e, now)
  }

  function IsUnexpired(now: int): Entry -> bool {
    (e: Entry) => !Expired(e, now)
  }

  /** Urgent entries stay when the queue is closed. */
  function IsUrgent(): Entry -> bool {
    (e: Entry) => e.priority > 1
  }

  /** When the next of the connecting entries times out. */
  function NextExpire(q: seq<Entry>): (t: Time)
    ensures forall e :: e in q && e.connecting ==> !Earlier(e.expires, t)
    ensures t.Never? || exists e :: e in q && e.connecting && e.expires == t
  {
    if q == [] then Never
    else
      var rest, e := q[..|q| - 1], q[|q| - 1];
      assert q == rest + [e];
      var t := NextExpire(rest);
      if e.connecting && Earlier(e.expires, t) then e.expires else t
  }

  // ---------------------------------------------------------------------------------------
  // The queue
  // ---------------------------------------------------------------------------------------

  /** The first place of a ticket, or the length of the queue. */
  function Place(q: seq<Entry>, ticket: nat): (i: nat)
    ensures i <= |q| && (i < |q| ==> q[i].ticket == ticket) && forall k :: 0 <= k < i ==> q[k].ticket != ticket
  {
    if q == [] then 0
    else
      var rest := q[..|q| - 1];
      var i := Place(rest, ticket);
      assert forall k :: 0 <= k < |rest| ==> rest[k] == q[k];
      if i < |rest| || q[|rest|].ticket == ticket then i else |q|
  }

  function Without(q: seq<Entry>, ticket: nat): seq<Entry> {
    var i := Place(q, ticket);
    if i < |q| then q[..i] + q[i + 1..] else q
  }

  class Queue {
    const halfOpenLimit: nat
    var queue: seq<Entry>
    var nextTicket: nat
    var numConnecting: nat
    var aborted: bool
    var numTimers: nat

    /**
      The timer: when the wait that is pending on it ends, and how many handlers are due whose wait
      was not cancelled. The other outstanding handlers will be told that theirs was.
     */
    var wait: Time
    var due: nat

    /**
      How many calls of OnTryConnect are posted; for each thread that has given up the lock in
      OnTimeout, when it will set the timer; and for each that has in Close, what it has yet to do.
     */
    var posted: nat
    var windows: seq<Time>
    var closing: seq<seq<Entry>>

    /** The count is right, and every handler that will not be told of a cancelled timer is counted. */
    ghost predicate Valid()
      reads this
    {
      numConnecting == Connecting(queue) && numTimers >= due + (if wait.At? then 1 else 0)
    }

    /** An entry waits and there is a slot for it. */
    ghost predicate CanStart()
      reads this
    {
      numConnecting < |queue| && HasSlot(numConnecting, halfOpenLimit)
    }

    constructor (limit: nat)
      ensures Valid() && halfOpenLimit == limit && queue == [] && nextTicket == 0 && !aborted
      ensures numTimers == 0 && wait == Never && due == 0 && posted == 0 && windows == [] && closing == []
    {
      halfOpenLimit := limit;
      queue, nextTicket, numConnecting, aborted := [], 0, 0, false;
      numTimers, wait, due, posted, windows, closing := 0, Never, 0, 0, [], [];
    }

    /** Waits for the timer anew; a wait that is pending is cancelled. */
    method SetTimer(expire: Time)
      modifies `numTimers, `wait
      ensures numTimers == old(numTimers) + 1 && wait == expire
    {
      wait := expire;
      numTimers := numTimers + 1;
    }

    /** The timer runs out: the handler of the pending wait is due. */
    method TimerFires(now: int)
      requires Valid() && wait.At? && wait.ms <= now
      modifies `wait, `due
      ensures Valid() && wait == Never && due == old(due) + 1
    {
      wait := Never;
      due := due + 1;
    }

    method Enqueue(timeout: nat, priority: int) returns (ticket: nat)
      requires Valid()
      modifies `queue, `nextTicket, `posted
      ensures Valid() && ticket == old(nextTicket) && nextTicket == ticket + 1
      ensures
        var e := Entry(ticket, false, Never, timeout, priority);
        queue == if priority <= 0 then old(queue) + [e] else [e] + old(queue)
      ensures posted == old(posted) + if HasSlot(numConnecting, halfOpenLimit) then 1 else 0
    {
      hide Connecting;
      var e := Entry(nextTicket, false, Never, timeout, priority);
      ConnectingOne(e);
      ConnectingConcat(queue, [e]);
      ConnectingConcat([e], queue);
      if priority <= 0 {
        queue := queue + [e];
      } else {
        queue := [e] + queue;
      }
      ticket := nextTicket;
      nextTicket := nextTicket + 1;
      if numConnecting < halfOpenLimit || halfOpenLimit == 0 {
        posted := posted + 1;
      }
    }

    /** A connection is done with, whether it was made or not. */
    method Done(ticket: nat)
      requires Valid()
      modifies `queue, `numConnecting, `posted
      ensures Valid() && queue == Without(old(queue), ticket)
      ensures posted == old(posted) +
        if Place(old(queue), ticket) < |old(queue)| && HasSlot(numConnecting, halfOpenLimit) then 1 else 0
    {
      hide Connecting, Place;
      var i := 0;
      while i < |queue| && queue[i].ticket != ticket
        invariant 0 <= i <= |queue| && forall k :: 0 <= k < i ==> queue[k].ticket != ticket
        invariant queue == old(queue) && numConnecting == old(numConnecting) && posted == old(posted)
      {
        i := i + 1;
      }
      if i == |queue| {
        return;
      }
      ConnectingRemove(queue, i);
      if queue[i].connecting {
        numConnecting := numConnecting - 1;
      }
      queue := queue[..i] + queue[i + 1..];
      if numConnecting < halfOpenLimit || halfOpenLimit == 0 {
        posted := posted + 1;
      }
    }

    /** Starts waiting connections while there are slots; the first sets the timer. */
    method TryConnect(now: int) returns (toConnect: seq<nat>)
      requires Valid()
      modifies `queue, `numConnecting, `numTimers, `wait
      ensures Valid() && !CanStart()
      ensures queue == Started(old(queue), old(numConnecting), halfOpenLimit, now)
      ensures toConnect == StartedTickets(old(queue), old(numConnecting), halfOpenLimit)
      ensures numTimers == old(numTimers) + if old(numConnecting) == 0 && toConnect != [] then 1 else 0
      ensures wait == AfterTry(old(queue), old(numConnecting), halfOpenLimit, now, old(wait))
    {
      hide Connecting, Started, StartedTickets;
      ghost var q, n := queue, numConnecting;
      StartedCount(q, n, halfOpenLimit, now);
      if (numConnecting >= halfOpenLimit && halfOpenLimit > 0) || queue == [] || |queue| == numConnecting {
        NoneStarted(q, n, halfOpenLimit, now);
        if HasSlot(numConnecting, halfOpenLimit) && queue == [] {
          wait := Never;
        }
        return [];
      }
      toConnect := StartAll(now);
    }

    /** The first entry that is started when none is connecting. */
    method StartAll(now: int) returns (toConnect: seq<nat>)
      requires Valid() && HasSlot(numConnecting, halfOpenLimit) && queue != []
      modifies `queue, `numConnecting, `numTimers, `wait
      ensures queue == Started(old(queue), old(numConnecting), halfOpenLimit, now)
      ensures toConnect == StartedTickets(old(queue), old(numConnecting), halfOpenLimit)
      ensures numConnecting == old(numConnecting) + |toConnect|
      ensures numTimers == old(numTimers) + if old(numConnecting) == 0 then 1 else 0
      ensures wait == if old(numConnecting) == 0 then Start(old(queue)[0], now).expires else old(wait)
    {
      hide Connecting, StartedTo, Started, StartedTickets;
      ghost var q, n := queue, numConnecting;
      toConnect := [];
      var i := 0;
      StartedNone(q, n, halfOpenLimit, now);
      NoneConnects(q);
      while i < |queue|
        invariant 0 <= i <= |q| == |queue| && numConnecting == n + |toConnect|
        invariant StartedTo(queue, toConnect, q, i, n, halfOpenLimit, now)
        invariant if i == 0 then toConnect == [] else n == 0 ==> numConnecting > 0
        invariant numTimers == old(numTimers) + if n == 0 && i > 0 then 1 else 0
        invariant wait == if n == 0 && i > 0 then Start(q[0], now).expires else old(wait)
        invariant i < |q| ==> HasSlot(numConnecting, halfOpenLimit)
      {
        StartedNext(queue, toConnect, q, i, n, halfOpenLimit, now);
        if !queue[i].connecting {
          if numConnecting == 0 {
            SetTimer(Start(queue[i], now).expires);
          }
          queue := queue[i := Start(queue[i], now)];
          numConnecting := numConnecting + 1;
          toConnect := toConnect + [queue[i].ticket];
          if (numConnecting >= halfOpenLimit && halfOpenLimit > 0) || numConnecting == |queue| {
            StartedEnd(queue, toConnect, q, i + 1, n, halfOpenLimit, now);
            return;
          }
        }
        i := i + 1;
      }
      StartedAll(queue, toConnect, q, n, halfOpenLimit, now);
    }

    method OnTryConnect(now: int) returns (connected: seq<nat>)
      requires Valid() && posted > 0
      modifies `queue, `numConnecting, `numTimers, `wait, `posted
      ensures Valid() && posted == old(posted) - 1 && !CanStart()
      ensures queue == Started(old(queue), old(numConnecting), halfOpenLimit, now)
      ensures connected == StartedTickets(old(queue), old(numConnecting), halfOpenLimit)
      ensures numTimers == old(numTimers) + if old(numConnecting) == 0 && connected != [] then 1 else 0
      ensures wait == AfterTry(old(queue), old(numConnecting), halfOpenLimit, now, old(wait))
    {
      posted := posted - 1;
      connected := TryConnect(now);
    }

    /**
      A handler runs, of a timer that has run out or was cancelled. Connections that have timed out
      are taken from the queue; the lock is then given up to call them, until OnTimeoutEnds.
     */
    method OnTimeoutBegins(error: bool, time: int) returns (quit: bool, timedOut: seq<nat>)
      requires Valid() && if error then numTimers > due + (if wait.At? then 1 else 0) else due > 0
      modifies `queue, `numConnecting, `numTimers, `due, `windows
      ensures Valid() && due == old(due) - (if error then 0 else 1) && numTimers == old(numTimers) - 1
      ensures quit <==> error && (old(numConnecting) == 0 || numTimers > 0)
      ensures quit ==> queue == old(queue) && timedOut == [] && windows == old(windows)
      ensures !quit ==>
        && queue == Filter(old(queue), IsUnexpired(time + 100))
        && timedOut == Tickets(Filter(old(queue), IsExpired(time + 100)))
        && windows == old(windows) + [NextExpire(queue)]
    {
      hide Connecting, Filter, NextExpire;
      numTimers := numTimers - 1;
      if !error {
        due := due - 1;
      }
      quit, timedOut := error && (numConnecting == 0 || numTimers > 0), [];
      if quit {
        return;
      }
      var next, expired := TakeExpired(time + 100);
      windows := windows + [next];
      timedOut := Tickets(expired);
    }

    method TakeExpired(now: int) returns (next: Time, timedOut: seq<Entry>)
      requires numConnecting == Connecting(queue)
      modifies `queue, `numConnecting
      ensures queue == Filter(old(queue), IsUnexpired(now)) && timedOut == Filter(old(queue), IsExpired(now))
      ensures next == NextExpire(queue) && numConnecting == Connecting(queue)
    {
      hide Connecting, Filter, NextExpire;
      ghost var q := queue;
      next, timedOut := Never, [];
      var i := 0;
      ghost var k := 0;
      NoneExpired(q, now);
      while i < |queue|
        invariant 0 <= k <= |q| && i == |Filter(q[..k], IsUnexpired(now))|
          && queue == Filter(q[..k], IsUnexpired(now)) + q[k..]
        invariant timedOut == Filter(q[..k], IsExpired(now)) && next == NextExpire(Filter(q[..k], IsUnexpired(now)))
        invariant numConnecting == Connecting(queue)
        decreases |q| - k
      {
        ExpireOne(queue, i, q, k, now);
        ConnectingRemove(queue, i);
        var e := queue[i];
        if e.connecting && Earlier(e.expires, At(now)) {
          timedOut := timedOut + [e];
          queue := queue[..i] + queue[i + 1..];
          numConnecting := numConnecting - 1;
        } else {
          if e.connecting && Earlier(e.expires, next) {
            next := e.expires;
          }
          i := i + 1;
        }
        k := k + 1;
      }
      assert q[..k] == q;
    }

    /** The thread that gave up the lock has it again: it sets the timer and looks for connections to start. */
    method OnTimeoutEnds(w: nat, now: int) returns (connected: seq<nat>)
      requires Valid() && w < |windows|
      modifies `queue, `numConnecting, `numTimers, `wait, `windows
      ensures Valid() && !CanStart() && windows == old(windows)[..w] + old(windows)[w + 1..]
      ensures queue == Started(old(queue), old(numConnecting), halfOpenLimit, now)
      ensures connected == StartedTickets(old(queue), old(numConnecting), halfOpenLimit)
      ensures numTimers == old(numTimers) + (if old(windows)[w].At? then 1 else 0)
        + (if old(numConnecting) == 0 && connected != [] then 1 else 0)
      ensures
        var next := old(windows)[w];
        wait == AfterTry(old(queue), old(numConnecting), halfOpenLimit, now, if next.At? then next else old(wait))
    {
      var next := windows[w];
      windows := windows[..w] + windows[w + 1..];
      if next.At? {
        SetTimer(next);
      }
      connected := TryConnect(now);
    }

    /** Takes all entries from the queue. The timer is cancelled if nothing was connecting. */
    method CloseBegins()
      requires Valid()
      modifies `queue, `numConnecting, `wait, `aborted, `closing
      ensures Valid() && aborted && queue == []
      ensures wait == if old(numConnecting) == 0 then Never else old(wait)
      ensures closing == old(closing) + if old(queue) == [] then [] else [old(queue)]
    {
      if numConnecting == 0 {
        wait := Never;
      }
      aborted := true;
      if queue != [] {
        closing := closing + [queue];
      }
      queue, numConnecting := [], 0;
    }

    /**
      The next of the entries that were taken: an urgent one is put back, one that waited is refused,
      and one that was connecting times out.
     */
    method CloseNext(i: nat) returns (refused: seq<nat>, expired: seq<nat>)
      requires Valid() && i < |closing| && closing[i] != []
      modifies `queue, `numConnecting, `closing
      ensures Valid() && closing == Shorter(old(closing), i)
      ensures
        var e := old(closing)[i][0];
        && queue == (if e.priority > 1 then old(queue) + [e] else old(queue))
        && refused == (if e.priority <= 1 && !e.connecting then [e.ticket] else [])
        && expired == (if e.priority <= 1 && e.connecting then [e.ticket] else [])
    {
      hide Connecting;
      var e := closing[i][0];
      ConnectingConcat(queue, [e]);
      ConnectingOne(e);
      closing := Shorter(closing, i);
      refused, expired := [], [];
      if e.priority > 1 {
        if e.connecting {
          numConnecting := numConnecting + 1;
        }
        queue := queue + [e];
      } else if e.connecting {
        expired := [e.ticket];
      } else {
        refused := [e.ticket];
      }
    }
  }

  /** When the timer will run out after waiting entries were started: it is set anew if none was connecting. */
  function AfterTry(q: seq<Entry>, n: nat, limit: nat, now: int, wait: Time): Time {
    if q == [] then Never
    else if n == 0 && HasSlot(0, limit) then Start(q[0], now).expires
    else wait
  }

  /** What the threads in Close have yet to do, after the next entry of one of them. */
  function Shorter(closing: seq<seq<Entry>>, i: nat): seq<seq<Entry>>
    requires i < |closing| && closing[i] != []
  {
    if |closing[i]| == 1 then closing[..i] + closing[i + 1..] else closing[i := closing[i][1..]]
  }

  /** The first `i` entries were looked at. */
  ghost predicate StartedTo(queue: seq<Entry>, tickets: seq<nat>, q: seq<Entry>, i: int, n: nat, limit: nat, now: int) {
    && 0 <= i <= |q| && |queue| == |q| && queue == Started(q[..i], n, limit, now) + q[i..]
    && tickets == StartedTickets(q[..i], n, limit)
  }

  lemma NoneConnects(q: seq<Entry>)
    requires q != []
    ensures Connecting(q) == 0 ==> !q[0].connecting
  {
    hide Connecting;
    assert q == q[..0] + ([q[0]] + q[1..]);
    ConnectingOne(q[0]);
    ConnectingConcat([q[0]], q[1..]);
    assert q == [q[0]] + q[1..];
  }

  lemma ConnectingRemove(q: seq<Entry>, i: nat)
    requires i < |q|
    ensures Connecting(q) == Connecting(q[..i] + q[i + 1..]) + if q[i].connecting then 1 else 0
  {
    hide Connecting;
    var a, x, b := q[..i], [q[i]], q[i + 1..];
    SplitAt(q, i);
    ConnectingOne(q[i]);
    ConnectingConcat(a, x + b);
    ConnectingConcat(x, b);
    ConnectingConcat(a, b);
  }

  lemma SplitAt(q: seq<Entry>, i: nat)
    requires i < |q|
    ensures q == q[..i] + ([q[i]] + q[i + 1..])
  {
  }

  lemma NoneStarted(q: seq<Entry>, n: nat, limit: nat, now: int)
    requires !HasSlot(n, limit) || Connecting(q) == |q|
    ensures Started(q, n, limit, now) == q && StartedTickets(q, n, limit) == []
  {
    AllConnecting(q);
    assert q[..0] == [] && q[0..] == q && [] + q == q;
    StartedRest(q, 0, n, limit, now);
  }

  lemma StartedNone(q: seq<Entry>, n: nat, limit: nat, now: int)
    ensures StartedTo(q, [], q, 0, n, limit, now)
  {
    assert q[..0] == [] && q[0..] == q;
  }

  lemma StartedNext(queue: seq<Entry>, tickets: seq<nat>, q: seq<Entry>, i: nat, n: nat, limit: nat, now: int)
    requires StartedTo(queue, tickets, q, i, n, limit, now) && i < |q| && HasSlot(n + |tickets|, limit)
    ensures queue[i] == q[i]
    ensures
      if q[i].connecting then StartedTo(queue, tickets, q, i + 1, n, limit, now)
      else StartedTo(queue[i := Start(q[i], now)], tickets + [q[i].ticket], q, i + 1, n, limit, now)
  {
    hide Started, StartedTickets;
    assert q[..i + 1][..i] == q[..i];
    StartedUnfold(q[..i + 1], n, limit, now);
    assert q[i..] == [q[i]] + q[i + 1..];
  }

  lemma StartedAll(queue: seq<Entry>, tickets: seq<nat>, q: seq<Entry>, n: nat, limit: nat, now: int)
    requires StartedTo(queue, tickets, q, |q|, n, limit, now)
    ensures queue == Started(q, n, limit, now) && tickets == StartedTickets(q, n, limit)
  {
    hide Started, StartedTickets;
    assert q[..|q|] == q && q[|q|..] == [];
  }

  lemma StartedEnd(queue: seq<Entry>, tickets: seq<nat>, q: seq<Entry>, i: nat, n: nat, limit: nat, now: int)
    requires StartedTo(queue, tickets, q, i, n, limit, now) && n == Connecting(q)
    requires !HasSlot(n + |tickets|, limit) || n + |tickets| == |q|
    ensures queue == Started(q, n, limit, now) && tickets == StartedTickets(q, n, limit)
  {
    hide Started, StartedTickets, Connecting;
    if HasSlot(n + |tickets|, limit) {
      StartedCount(q[..i], n, limit, now);
      assert q == q[..i] + q[i..];
      ConnectingConcat(q[..i], q[i..]);
      AllConnecting(q[i..]);
    }
    StartedRest(q, i, n, limit, now);
  }

  lemma NoneExpired(q: seq<Entry>, now: int)
    ensures Filter(q[..0], IsUnexpired(now)) == [] == Filter(q[..0], IsExpired(now)) && q == q[0..]
      && NextExpire([]) == Never
  {
  }

  lemma FilterNext(q: seq<Entry>, k: nat, f: Entry -> bool)
    requires k < |q|
    ensures Filter(q[..k + 1], f) == Filter(q[..k], f) + if f(q[k]) then [q[k]] else []
  {
    assert q[..k + 1][..k] == q[..k];
  }

  lemma NextExpireMore(q: seq<Entry>, e: Entry)
    ensures NextExpire(q + [e]) ==
      if e.connecting && Earlier(e.expires, NextExpire(q)) then e.expires else NextExpire(q)
  {
    assert (q + [e])[..|q|] == q;
  }

  lemma ExpireAt(queue: seq<Entry>, kept: seq<Entry>, q: seq<Entry>, k: nat)
    requires k < |q| && queue == kept + q[k..]
    ensures
      var i := |kept|;
      && i < |queue| && queue[i] == q[k] && queue[..i] + queue[i + 1..] == kept + q[k + 1..]
      && queue == kept + [q[k]] + q[k + 1..]
  {
    assert q[k..] == [q[k]] + q[k + 1..];
  }

  lemma ExpireOne(queue: seq<Entry>, i: nat, q: seq<Entry>, k: nat, now: int)
    requires k <= |q| && i == |Filter(q[..k], IsUnexpired(now))| < |queue|
      && queue == Filter(q[..k], IsUnexpired(now)) + q[k..]
    ensures k < |q| && queue[i] == q[k]
    ensures
      var kept := Filter(q[..k + 1], IsUnexpired(now));
      if Expired(q[k], now) then
        && |kept| == i && queue[..i] + queue[i + 1..] == kept + q[k + 1..] && kept == Filter(q[..k], IsUnexpired(now))
        && Filter(q[..k + 1], IsExpired(now)) == Filter(q[..k], IsExpired(now)) + [q[k]]
      else
        && |kept| == i + 1 && queue == kept + q[k + 1..] && kept == Filter(q[..k], IsUnexpired(now)) + [q[k]]
        && Filter(q[..k + 1], IsExpired(now)) == Filter(q[..k], IsExpired(now))
        && var next := NextExpire(Filter(q[..k], IsUnexpired(now)));
        && NextExpire(kept) == if q[k].connecting && Earlier(q[k].expires, next) then q[k].expires else next
  {
    hide Filter, NextExpire;
    FilterNext(q, k, IsUnexpired(now));
    FilterNext(q, k, IsExpired(now));
    NextExpireMore(Filter(q[..k], IsUnexpired(now)), q[k]);
    ExpireAt(queue, Filter(q[..k], IsUnexpired(now)), q, k);
  }
}
