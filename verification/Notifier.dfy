/**
 The browser notifier (pkg/proxy/socket): an action queue of 64 and a wake-up queue of 8 per client,
 both written without blocking where losing an entry is meant to be harmless.
 */
module Notifier {
  import opened Basics

  const QUEUE := 64
  const WAKEUPS := 8

  // ---------------------------------------------------------------- steps on values

  datatype Action<+C> = Register(c: C) | Deregister(c: C) | Broadcast

  /** Everything that happens to a notifier: the three senders, the poll loop, a client's write pump. */
  datatype Event<+C> = Send(a: Action<C>) | Poll | Consume(c: C)

  /**
   Wake-ups pending per client, and the clients whose connection the notifier has closed.  `met` are the clients
   registered by Handle, `left` those deregistered by their read pump.
   */
  datatype State<C> = State(clients: set<C>, queue: seq<Action<C>>, pending: map<C, nat>, closed: set<C>,
                            met: set<C>, left: set<C>)

  function PendingOf<C(==)>(s: State<C>, c: C): nat {
    if c in s.pending then s.pending[c] else 0
  }

  /** Registering and deregistering wait for room in the queue and happen once per client; broadcasting does neither. */
  predicate Enabled<C(==)>(s: State<C>, e: Event<C>) {
    match e
    case Send(Broadcast) => true
    case Send(Register(c)) => |s.queue| < QUEUE && c !in s.met
    case Send(Deregister(c)) => |s.queue| < QUEUE && c in s.met && c !in s.left
    case Poll => s.queue != []
    case Consume(c) => PendingOf(s, c) > 0
  }

  function Woken(pending: nat): nat {
    if pending < WAKEUPS then pending + 1 else pending
  }

  function WakeAll<C(==)>(s: State<C>): map<C, nat> {
    s.pending + map c | c in s.clients :: Woken(PendingOf(s, c))
  }

  function Apply<C(==)>(s: State<C>, e: Event<C>): State<C>
    requires Enabled(s, e)
  {
    match e
    case Send(a) =>
      if |s.queue| < QUEUE then
        s.(queue := s.queue + [a],
           met := if a.Register? then s.met + {a.c} else s.met,
           left := if a.Deregister? then s.left + {a.c} else s.left)
      else s
    case Poll =>
      (var rest := s.(queue := s.queue[1..]);
       match s.queue[0]
       case Register(c) => rest.(clients := s.clients + {c})
       case Deregister(c) => rest.(clients := s.clients - {c}, closed := s.closed + {c})
       case Broadcast => rest.(pending := WakeAll(s)))
    case Consume(c) => s.(pending := s.pending[c := PendingOf(s, c) - 1])
  }

  // ---------------------------------------------------------------- the objects

  class Client {
    var wakeup: nat // entries in the wake-up channel
    var open: bool  // the connection

    constructor ()
      ensures wakeup == 0 && open
    {
      wakeup, open := 0, true;
    }

    /** A send that gives up when the channel is full. */
    method Wakeup()
      modifies this`wakeup
      ensures wakeup == Woken(old(wakeup))
      ensures wakeup == if old(wakeup) < 8 then old(wakeup) + 1 else old(wakeup)
    {
      if wakeup < WAKEUPS {
        wakeup := wakeup + 1;
      }
    }
  }

  class Hub {
    var clients: set<Client>
    var action: seq<Action<Client>>

    constructor ()
      ensures clients == {} && action == []
    {
      clients, action := {}, [];
    }

    /** The notifier and all its clients, past and present, are in state `s`. */
    ghost predicate Means(s: State<Client>, all: set<Client>)
      reads this, all
    {
      && clients == s.clients && action == s.queue && clients <= all
      && (forall i :: 0 <= i < |action| && !action[i].Broadcast? ==> action[i].c in all)
      && (forall c :: c in all ==> c.wakeup == PendingOf(s, c) && (c.open <==> c !in s.closed))
    }

    /** Broadcast gives up when the queue is full. */
    method Broadcast(ghost s: State<Client>, ghost all: set<Client>) returns (queued: bool)
      requires Means(s, all)
      modifies this`action
      ensures queued == (|old(action)| < 64)
      ensures action == if queued then old(action) + [Action<Client>.Broadcast] else old(action)
      ensures Means(Apply(s, Send(Action<Client>.Broadcast)), all)
    {
      queued := |action| < QUEUE;
      if queued {
        action := action + [Action<Client>.Broadcast];
      }
    }

    /** One round of Poll: a broadcast leaves every registered client with a wake-up pending, full channel or not. */
    method PollOne(ghost s: State<Client>, ghost all: set<Client>)
      requires Means(s, all) && action != []
      modifies this, all
      ensures Means(Apply(s, Event<Client>.Poll), all)
      ensures action == old(action)[1..]
      ensures old(action)[0].Register? ==> clients == old(clients) + {old(action)[0].c}
      ensures old(action)[0].Deregister? ==> clients == old(clients) - {old(action)[0].c} && !old(action)[0].c.open
      ensures old(action)[0].Broadcast? ==> clients == old(clients)
      ensures old(action)[0].Broadcast? ==> forall c :: c in clients ==> c.wakeup > 0
    {
      var next := action[0];
      action := action[1..];
      match next
      case Register(c) =>
        clients := clients + {c};
      case Deregister(c) =>
        clients := clients - {c};
        c.open := false;
      case Broadcast =>
        var todo := clients;
        while todo != {}
          invariant todo <= clients && clients == s.clients && action == s.queue[1..]
          invariant forall c :: c in all ==>
                      && c.wakeup == (if c in clients && c !in todo then Woken(PendingOf(s, c)) else PendingOf(s, c))
                      && (c.open <==> c !in s.closed)
        {
          var c :| c in todo;
          c.Wakeup();
          todo := todo - {c};
        }
    }
  }

  // ---------------------------------------------------------------- runs

  predicate Valid<C(==)>(s0: State<C>, run: seq<Event<C>>)
    decreases |run|, 0
  {
    run == [] || (Valid(s0, Front(run)) && Enabled(After(s0, Front(run)), Last(run)))
  }

  function After<C(==)>(s0: State<C>, run: seq<Event<C>>): State<C>
    requires Valid(s0, run)
    decreases |run|, 1
  {
    if run == [] then s0 else Apply(After(s0, Front(run)), Last(run))
  }

  function Polls<C>(run: seq<Event<C>>): nat {
    if run == [] then 0 else Polls(Front(run)) + if Last(run).Poll? then 1 else 0
  }

  /** First in, first out: after `n` polls an action has moved up `n` places, as long as it has that many to move. */
  lemma {:induction false} Fifo<C>(s: State<C>, run: seq<Event<C>>, b: nat)
    requires Valid(s, run) && b < |s.queue| && Polls(run) <= b
    ensures b - Polls(run) < |After(s, run).queue| && After(s, run).queue[b - Polls(run)] == s.queue[b]
  {
    if run != [] {
      Fifo(s, Front(run), b);
    }
  }

  /** Step `k` processes a broadcast, after which every client then registered has a wake-up pending. */
  ghost predicate ServesEveryone<C>(s: State<C>, run: seq<Event<C>>, k: nat) {
    && k < |run| && Valid(s, run[..k]) && Valid(s, run[..k + 1]) && run[k].Poll?
    && After(s, run[..k]).queue != [] && After(s, run[..k]).queue[0].Broadcast?
    && EveryonePending(After(s, run[..k + 1]))
  }

  predicate EveryonePending<C(==)>(s: State<C>) {
    forall c :: c in s.clients ==> PendingOf(s, c) > 0
  }

  lemma {:induction false} ServedByThen<C>(s: State<C>, run: seq<Event<C>>, b: nat)
    requires Valid(s, run) && b < |s.queue| && s.queue[b].Broadcast? && Polls(run) > b
    ensures exists k: nat :: ServesEveryone(s, run, k)
  {
    var p := Front(run);
    if Polls(p) > b {
      ServedByThen(s, p, b);
      var k: nat :| ServesEveryone(s, p, k);
      assert p[..k] == run[..k] && p[..k + 1] == run[..k + 1];
      assert ServesEveryone(s, run, k);
    } else {
      var k := |run| - 1;
      Fifo(s, p, b);
      assert run[..k] == p && run[..k + 1] == run;
      assert ServesEveryone(s, run, k);
    }
  }

  /**
   No lost wake-up: a broadcast that finds the queue full changes nothing, and if any of the queued actions
   is a broadcast, then by the time that one has been polled, everybody registered has been served.
   */
  lemma DroppedBroadcastIsServed<C>(s: State<C>, run: seq<Event<C>>, b: nat)
    requires |s.queue| == QUEUE && b < QUEUE && s.queue[b].Broadcast?
    requires Valid(s, [Send(Broadcast)] + run) && Polls([Send(Broadcast)] + run) > b
    ensures Apply(s, Send(Broadcast)) == s
    ensures exists k: nat :: ServesEveryone(s, [Send(Broadcast)] + run, k)
  {
    ServedByThen(s, [Send(Broadcast)] + run, b);
  }

  function Consumed<C(==)>(run: seq<Event<C>>, c: C): nat {
    if run == [] then 0 else Consumed(Front(run), c) + if Last(run) == Consume(c) then 1 else 0
  }

  ghost predicate NoBroadcast<C>(s: State<C>) {
    forall i :: 0 <= i < |s.queue| ==> !s.queue[i].Broadcast?
  }

  /** Every broadcast of the run found the queue full. */
  ghost predicate AllDropped<C>(s: State<C>, run: seq<Event<C>>)
    requires Valid(s, run)
  {
    run == [] || (AllDropped(s, Front(run)) && (Last(run) == Send(Broadcast) ==> |After(s, Front(run)).queue| == QUEUE))
  }

  /**
   Otherwise it is lost: from a queue without broadcasts on, while every broadcast finds the queue full, no wake-up
   is ever added.  What is pending for a client, together with what it consumed, is what it had.
   */
  lemma {:induction false} LostAmongRegistrations<C>(s: State<C>, run: seq<Event<C>>, c: C)
    requires Valid(s, run) && NoBroadcast(s) && AllDropped(s, run)
    ensures NoBroadcast(After(s, run))
    ensures PendingOf(After(s, run), c) + Consumed(run, c) == PendingOf(s, c)
  {
    if run != [] {
      LostAmongRegistrations(s, Front(run), c);
    }
  }

  /** Polling works off the queue. */
  lemma {:induction false} PollsDrain<C>(s: State<C>, n: nat)
    requires n <= |s.queue| && forall i :: 0 <= i < |s.queue| ==> s.queue[i].Register?
    ensures Valid(s, Repeated(Poll, n)) && AllDropped(s, Repeated(Poll, n))
    ensures After(s, Repeated(Poll, n)).queue == s.queue[n..]
    ensures forall i :: 0 <= i < n ==> s.queue[i].c in After(s, Repeated(Poll, n)).clients
  {
    if n > 0 {
      var p := Repeated(Event<C>.Poll, n - 1);
      PollsDrain(s, n - 1);
      RepeatedEnd<Event<C>>(Poll, n);
      PollsOneMore(s, p, n - 1);
      assert p + [Poll] == Repeated(Event<C>.Poll, n);
    }
  }

  lemma PollsOneMore<C>(s: State<C>, p: seq<Event<C>>, n: nat)
    requires n < |s.queue| && forall i :: 0 <= i <= n ==> s.queue[i].Register?
    requires Valid(s, p) && AllDropped(s, p) && After(s, p).queue == s.queue[n..]
    requires forall i :: 0 <= i < n ==> s.queue[i].c in After(s, p).clients
    ensures Valid(s, p + [Poll]) && AllDropped(s, p + [Poll]) && After(s, p + [Poll]).queue == s.queue[n + 1..]
    ensures forall i :: 0 <= i <= n ==> s.queue[i].c in After(s, p + [Poll]).clients
  {
    var t := After(s, p);
    assert Front(p + [Poll]) == p && t.queue[0] == s.queue[n] && t.queue[1..] == s.queue[n + 1..];
    PolledIn(t);
  }

  lemma {:induction false} PollsConsumeNothing<C>(n: nat, c: C)
    ensures Consumed(Repeated(Event<C>.Poll, n), c) == 0
  {
    if n > 0 {
      PollsConsumeNothing(n - 1, c);
      RepeatedEnd<Event<C>>(Poll, n);
    }
  }

  lemma PolledIn<C>(t: State<C>)
    requires t.queue != [] && t.queue[0].Register?
    ensures Enabled(t, Poll) && Apply(t, Poll).queue == t.queue[1..]
    ensures Apply(t, Poll).clients == t.clients + {t.queue[0].c}
  {
  }

  lemma {:induction false} Compose<C>(s0: State<C>, a: seq<Event<C>>, b: seq<Event<C>>)
    requires Valid(s0, a) && Valid(After(s0, a), b)
    ensures Valid(s0, a + b) && After(s0, a + b) == After(After(s0, a), b)
  {
    if b == [] {
      assert a + b == a;
    } else {
      Compose(s0, a, Front(b));
      assert Front(a + b) == a + Front(b);
    }
  }

  // ---------------------------------------------------------------- clients that left

  /**
   What the senders' discipline keeps: a client's registration is queued once, before its deregistration, and
   nobody who was deregistered is or will be registered.
   */
  ghost predicate Tidy<C>(s: State<C>) {
    && s.closed <= s.left && s.left <= s.met && s.clients <= s.met && s.closed !! s.clients
    && (forall i :: 0 <= i < |s.queue| && s.queue[i].Register? ==>
          s.queue[i].c in s.met && s.queue[i].c !in s.clients && s.queue[i].c !in s.closed)
    && (forall i :: 0 <= i < |s.queue| && s.queue[i].Deregister? ==> s.queue[i].c in s.left)
    && (forall i, j :: 0 <= i < j < |s.queue| && !s.queue[i].Broadcast? && s.queue[j].Register? ==>
          s.queue[i].c != s.queue[j].c)
  }

  lemma TidyStep<C>(s: State<C>, e: Event<C>)
    requires Tidy(s) && Enabled(s, e)
    ensures Tidy(Apply(s, e))
  {
    if e.Poll? {
      assert forall i :: 0 <= i < |s.queue| - 1 ==> s.queue[1..][i] == s.queue[i + 1];
    }
  }

  lemma {:induction false} AlwaysTidy<C>(s: State<C>, run: seq<Event<C>>)
    requires Tidy(s) && Valid(s, run)
    ensures Tidy(After(s, run))
  {
    if run != [] {
      AlwaysTidy(s, Front(run));
      TidyStep(After(s, Front(run)), Last(run));
    }
  }

  /** Polling a deregistration takes the client out and closes it. */
  lemma PolledOut<C>(s: State<C>, c: C)
    requires s.queue != [] && s.queue[0] == Deregister(c)
    ensures Enabled(s, Poll) && c !in Apply(s, Poll).clients && c in Apply(s, Poll).closed
  {
  }

  /** From then on it is never registered again and gains no wake-up, whatever happens. */
  lemma {:induction false} NeverWokenAgain<C>(s: State<C>, run: seq<Event<C>>, c: C)
    requires Tidy(s) && c in s.closed && Valid(s, run)
    ensures c in After(s, run).closed && c !in After(s, run).clients
    ensures PendingOf(After(s, run), c) + Consumed(run, c) == PendingOf(s, c)
  {
    if run != [] {
      NeverWokenAgain(s, Front(run), c);
      AlwaysTidy(s, run);
    }
  }

  /** The two channels never hold more than they can. */
  ghost predicate Bounded<C>(s: State<C>) {
    |s.queue| <= 64 && forall c :: c in s.pending ==> s.pending[c] <= 8
  }

  lemma {:induction false} AlwaysBounded<C>(s: State<C>, run: seq<Event<C>>)
    requires Bounded(s) && Valid(s, run)
    ensures Bounded(After(s, run))
  {
    if run != [] {
      AlwaysBounded(s, Front(run));
    }
  }

  const EMPTY: State<nat> := State({}, [], map[], {}, {}, {})

  /** The clients 0 to n - 1 register. */
  function Arrivals(n: nat): (run: seq<Event<nat>>)
    ensures |run| == n
  {
    if n == 0 then [] else Arrivals(n - 1) + [Send(Register(n - 1))]
  }

  lemma {:induction false} ManyArrive(n: nat)
    requires n <= QUEUE
    ensures Valid(EMPTY, Arrivals(n)) && AllDropped(EMPTY, Arrivals(n))
    ensures var s := After(EMPTY, Arrivals(n));
            && s.pending == map[] && |s.queue| == n && (forall i :: 0 <= i < n ==> s.queue[i] == Register(i))
            && (forall c: nat :: c in s.met ==> c < n)
  {
    if n > 0 {
      ManyArrive(n - 1);
      ArrivesOneMore(Arrivals(n - 1), n - 1);
    }
  }

  lemma ArrivesOneMore(p: seq<Event<nat>>, n: nat)
    requires n < QUEUE && Valid(EMPTY, p) && AllDropped(EMPTY, p)
    requires var s := After(EMPTY, p);
             && s.pending == map[] && |s.queue| == n && (forall i :: 0 <= i < n ==> s.queue[i] == Register(i))
             && (forall c: nat :: c in s.met ==> c < n)
    ensures Valid(EMPTY, p + [Send(Register(n))]) && AllDropped(EMPTY, p + [Send(Register(n))])
    ensures var s := After(EMPTY, p + [Send(Register(n))]);
            && s.pending == map[] && |s.queue| == n + 1 && (forall i :: 0 <= i <= n ==> s.queue[i] == Register(i))
            && (forall c: nat :: c in s.met ==> c <= n)
  {
    assert Front(p + [Send(Register(n))]) == p;
    assert n !in After(EMPTY, p).met;
  }

  /**
   From the start, the registrations of as many clients as the queue holds can swallow a broadcast: all of it is
   polled, everybody is registered, and nobody has a wake-up.
   */
  lemma BroadcastCanBeLost(n: nat) returns (run: seq<Event<nat>>)
    requires n == QUEUE
    ensures Valid(EMPTY, run) && |run| > n && run[..n] == Arrivals(n) && run[n] == Send(Broadcast)
    ensures var s := After(EMPTY, run);
            s.queue == [] && forall c :: 0 <= c < n ==> c in s.clients && PendingOf(s, c) == 0
  {
    var sends, polls := Arrivals(n), Repeated(Event<nat>.Poll, n);
    ManyArrive(n);
    var full := After(EMPTY, sends);
    var dropped := sends + [Send(Broadcast)];
    assert Front(dropped) == sends;
    assert After(EMPTY, dropped) == full;
    PollsDrain(full, n);
    Compose(EMPTY, dropped, polls);
    run := dropped + polls;
    forall c: nat | c < n
      ensures c in After(EMPTY, run).clients && PendingOf(After(EMPTY, run), c) == 0
    {
      LostAmongRegistrations(full, polls, c);
      PollsConsumeNothing(n, c);
      assert full.queue[c] == Register(c);
    }
  }
}
