/** FIFO admission of heavy requests: the event-loop gate and the threaded gate. */
module Gate {

  // 0, 1, ..., n - 1
  function Tickets(lo: nat, hi: nat): (s: seq<nat>)
    requires lo <= hi
    ensures |s| == hi - lo && forall i: nat :: i < |s| ==> s[i] == lo + i
  {
    seq(hi - lo, i requires 0 <= i => lo + i)
  }

  // ---- the event-loop gate ----

  /** `admitted` lists the tickets in the order their promises resolve; `held` counts the
      permits that have not been given back. */
  class AdmissionGate {
    const maxConcurrent: nat
    var free: nat
    var head: nat
    var nextTicket: nat
    var waiters: seq<nat>
    ghost var held: nat
    ghost var admitted: seq<nat>

    ghost predicate Valid()
      reads this
    {
      && held + free == maxConcurrent >= 1
      && head <= nextTicket && waiters == Tickets(head, nextTicket)
      && admitted == Tickets(0, head)
      && (waiters != [] ==> free == 0)
    }

    ghost function Count(): Counts
      requires Valid()
      reads this
    {
      Counts(maxConcurrent, free, head, nextTicket)
    }

    constructor (limit: int)
      ensures Valid() && maxConcurrent == if limit > 1 then limit else 1
      ensures Count() == Counts(maxConcurrent, maxConcurrent, 0, 0) && held == 0
    {
      maxConcurrent := if limit > 1 then limit else 1;
      free := if limit > 1 then limit else 1;
      head, nextTicket, waiters := 0, 0, [];
      held, admitted := 0, [];
    }

    /** A free permit is granted at once; otherwise the ticket waits at the end of the line. */
    method Acquire() returns (ticket: nat, granted: bool)
      requires Valid()
      modifies this
      ensures Valid() && Count() == old(Count()).Acquire()
      ensures ticket == old(nextTicket) && (granted <==> old(free) > 0)
      ensures admitted == if granted then old(admitted) + [ticket] else old(admitted)
      ensures waiters == if granted then [] else old(waiters) + [ticket]
    {
      ticket := nextTicket;
      nextTicket := nextTicket + 1;
      if free > 0 && ticket == head {
        free := free - 1;
        head := head + 1;
        held, admitted := held + 1, admitted + [ticket];
        return ticket, true;
      }
      waiters := waiters + [ticket];
      granted := false;
    }

    /** Giving a permit back admits exactly the longest-waiting ticket, if there is one. */
    method Release()
      requires Valid() && held > 0
      modifies this
      ensures Valid() && Count() == old(Count()).Release()
      ensures old(waiters) != [] ==>
          waiters == old(waiters)[1..] && admitted == old(admitted) + [old(waiters)[0]] && free == 0
      ensures old(waiters) == [] ==> waiters == [] && admitted == old(admitted) && free == old(free) + 1
    {
      free := free + 1;
      held := held - 1;
      ghost var turns := 0;
      while free > 0 && waiters != [] && waiters[0] == head
        invariant turns == 0 || turns == 1
        invariant held + free == maxConcurrent && head <= nextTicket == old(nextTicket)
        invariant waiters == Tickets(head, nextTicket)
        invariant head == old(head) + turns && turns <= |old(waiters)| && admitted == Tickets(0, head)
        invariant free == old(free) + 1 - turns
        decreases 1 - turns
      {
        var w := waiters[0];
        waiters := waiters[1..];
        free := free - 1;
        head := head + 1;
        held, admitted := held + 1, admitted + [w];
        turns := turns + 1;
      }
    }
  }

  // The counters of the gate, and what each call does to them.
  datatype Counts = Counts(max: nat, free: nat, head: nat, next: nat) {
    ghost predicate Valid() {
      free <= max && head <= next && (head < next ==> free == 0)
    }

    ghost function Acquire(): Counts {
      if free > 0 then Counts(max, free - 1, head + 1, next + 1) else Counts(max, free, head, next + 1)
    }

    ghost function Release(): Counts {
      if head < next then Counts(max, free, head + 1, next) else Counts(max, free + 1, head, next)
    }
  }

  // Calls on the gate: true for an acquire, false for a release of a held permit.
  ghost predicate Legal(g: Counts, calls: seq<bool>)
    decreases |calls|
  {
    calls == [] || ((calls[0] || g.free < g.max) && Legal(After1(g, calls[0]), calls[1..]))
  }

  ghost function After1(g: Counts, acquire: bool): Counts {
    if acquire then g.Acquire() else g.Release()
  }

  ghost function After(g: Counts, calls: seq<bool>): Counts
    decreases |calls|
  {
    if calls == [] then g else After(After1(g, calls[0]), calls[1..])
  }

  ghost function Releases(calls: seq<bool>): nat {
    if calls == [] then 0 else (if calls[0] then 0 else 1) + Releases(calls[1..])
  }

  // Admissions never go back.
  lemma {:induction false} HeadGrows(g: Counts, calls: seq<bool>)
    requires g.Valid() && Legal(g, calls)
    ensures After(g, calls).Valid() && g.head <= After(g, calls).head && After(g, calls).max == g.max
    decreases |calls|
  {
    if calls != [] { HeadGrows(After1(g, calls[0]), calls[1..]); }
  }

  /** The ticket at position p of the line is admitted by exactly the (p+1)-th release from now on,
      whatever arrives in between. */
  lemma {:induction false} WaiterAdmitted(g: Counts, calls: seq<bool>, p: nat)
    requires g.Valid() && Legal(g, calls) && g.head + p < g.next
    ensures g.head + p < After(g, calls).head <==> Releases(calls) > p
    decreases |calls|
  {
    if calls != [] {
      var d := After1(g, calls[0]);
      if calls[0] {
        WaiterAdmitted(d, calls[1..], p);
      } else if p == 0 {
        HeadGrows(d, calls[1..]);
      } else {
        WaiterAdmitted(d, calls[1..], p - 1);
      }
    }
  }

  // ---- the threaded gate ----

  /** Threads wait on a condition variable. A waiting ticket is asleep, or awake and about to look again;
      a release wakes every sleeper. */
  datatype Threads = Threads(max: nat, free: nat, head: nat, next: nat, asleep: set<nat>, awake: set<nat>,
                             held: nat, admitted: seq<nat>)

  datatype Event = Arrive | Look(ticket: nat) | GiveBack

  ghost function Start(max: nat): Threads {
    Threads(max, max, 0, 0, {}, {}, 0, [])
  }

  ghost predicate Enabled(g: Threads, e: Event) {
    match e
    case Arrive => true
    case Look(ticket) => ticket in g.awake
    case GiveBack => g.held > 0
  }

  ghost function Admit(g: Threads, ticket: nat): Threads
    requires g.free > 0
  {
    g.(free := g.free - 1, head := g.head + 1, held := g.held + 1, admitted := g.admitted + [ticket],
       asleep := g.asleep - {ticket}, awake := g.awake - {ticket})
  }

  // A ticket looks at the gate: it goes in if it is its turn, and sleeps otherwise.
  ghost function LookAt(g: Threads, ticket: nat): Threads {
    if g.free == 0 || ticket != g.head then g.(asleep := g.asleep + {ticket}, awake := g.awake - {ticket})
    else Admit(g, ticket)
  }

  ghost function Happen(g: Threads, e: Event): Threads
    requires Enabled(g, e)
  {
    match e
    case Arrive => LookAt(g.(next := g.next + 1), g.next)
    case Look(ticket) => LookAt(g, ticket)
    case GiveBack => g.(free := g.free + 1, held := g.held - 1, awake := g.awake + g.asleep, asleep := {})
  }

  ghost predicate Fair(g: Threads) {
    && g.held + g.free == g.max && g.head <= g.next
    && g.asleep !! g.awake && (forall t: nat :: t in g.asleep + g.awake <==> g.head <= t < g.next)
    && g.admitted == Tickets(0, g.head)
  }

  ghost predicate Possible(g: Threads, events: seq<Event>)
    decreases |events|
  {
    events == [] || (Enabled(g, events[0]) && Possible(Happen(g, events[0]), events[1..]))
  }

  ghost function Outcome(g: Threads, events: seq<Event>): Threads
    requires Possible(g, events)
    decreases |events|
  {
    if events == [] then g else Outcome(Happen(g, events[0]), events[1..])
  }

  lemma {:induction false} HappenFair(g: Threads, e: Event)
    requires Fair(g) && Enabled(g, e)
    ensures Fair(Happen(g, e)) && Happen(g, e).max == g.max
  {
    match e
    case Arrive => LookFair(g.(next := g.next + 1), g.next);
    case Look(ticket) =>
      assert ticket in g.asleep + g.awake;
      LookFair(g, ticket);
    case GiveBack =>
      assert Happen(g, e).asleep + Happen(g, e).awake == g.asleep + g.awake;
  }

  // Every waiting ticket is accounted for, the looking one included.
  lemma {:induction false} LookFair(g: Threads, ticket: nat)
    requires g.held + g.free == g.max && g.head <= ticket < g.next && g.admitted == Tickets(0, g.head)
    requires g.asleep !! g.awake && forall t: nat :: t in g.asleep + g.awake || t == ticket <==> g.head <= t < g.next
    ensures Fair(LookAt(g, ticket)) && LookAt(g, ticket).max == g.max
  {
    var d := LookAt(g, ticket);
    if g.free == 0 || ticket != g.head {
      assert d.asleep + d.awake == g.asleep + g.awake + {ticket};
    } else {
      assert d.asleep + d.awake == g.asleep + g.awake - {ticket};
    }
  }

  /** Whatever the scheduler does: permits are conserved, the waiting tickets are exactly those not yet
      admitted, and admissions happen in ticket order. */
  lemma {:induction false} ThreadsFair(max: nat, g: Threads, events: seq<Event>)
    requires Fair(g) && Possible(g, events) && g.max == max
    ensures Fair(Outcome(g, events)) && Outcome(g, events).max == max
    decreases |events|
  {
    if events != [] {
      HappenFair(g, events[0]);
      ThreadsFair(max, Happen(g, events[0]), events[1..]);
    }
  }

  // A permit is free and the next ticket waits, but it sleeps: only a release will wake it.
  ghost predicate Stalled(g: Threads) {
    g.free > 0 && g.head in g.asleep
  }

  // With a single permit the next ticket is awake whenever the permit is free.
  lemma {:induction false} OnePermit(g: Threads, events: seq<Event>)
    requires Fair(g) && g.max == 1 && !Stalled(g) && Possible(g, events)
    ensures !Stalled(Outcome(g, events))
    decreases |events|
  {
    if events != [] {
      HappenFair(g, events[0]);
      OnePermit(Happen(g, events[0]), events[1..]);
    }
  }

  ghost function Arrivals(n: nat): seq<Event> {
    if n == 0 then [] else [Arrive] + Arrivals(n - 1)
  }

  lemma {:induction false} ArrivalsTake(g: Threads, n: nat)
    requires Fair(g) && g.asleep == g.awake == {} && g.next == g.head && n <= g.free
    ensures Possible(g, Arrivals(n))
    ensures var d := Outcome(g, Arrivals(n));
      && Fair(d) && d.max == g.max && d.asleep == d.awake == {} && d.next == d.head == g.head + n
      && d.free == g.free - n && d.held == g.held + n
    decreases n
  {
    if n > 0 {
      HappenFair(g, Arrive);
      ArrivalsTake(Happen(g, Arrive), n - 1);
      assert Arrivals(n)[1..] == Arrivals(n - 1);
    }
  }

  lemma {:induction false} OutcomeConcat(g: Threads, a: seq<Event>, b: seq<Event>)
    requires Possible(g, a) && Possible(Outcome(g, a), b)
    ensures Possible(g, a + b) && Outcome(g, a + b) == Outcome(Outcome(g, a), b)
    decreases |a|
  {
    if a == [] {
      assert a + b == b;
    } else {
      OutcomeConcat(Happen(g, a[0]), a[1..], b);
      assert (a + b)[0] == a[0] && (a + b)[1..] == a[1..] + b;
    }
  }

  // Two sleepers, two releases, and the second sleeper looks first.
  lemma {:induction false} SecondLooksFirst(g: Threads) returns (events: seq<Event>)
    requires Fair(g) && g.free == 0 && g.held >= 2 && g.asleep == g.awake == {} && g.next == g.head
    ensures Possible(g, events) && Stalled(Outcome(g, events))
  {
    var first, second := g.next, g.next + 1;
    var g1 := Happen(g, Arrive);
    var g2 := Happen(g1, Arrive);
    var g3 := Happen(g2, GiveBack);
    var g4 := Happen(g3, GiveBack);
    assert g4.awake == {first, second} && g4.free == 2 && g4.head == first;
    var g5 := Happen(g4, Look(second));
    var g6 := Happen(g5, Look(first));
    assert Stalled(g6);
    Chain(g5, Look(first), []);
    Chain(g4, Look(second), [Look(first)]);
    Chain(g3, GiveBack, [Look(second), Look(first)]);
    Chain(g2, GiveBack, [GiveBack, Look(second), Look(first)]);
    Chain(g1, Arrive, [GiveBack, GiveBack, Look(second), Look(first)]);
    Chain(g, Arrive, [Arrive, GiveBack, GiveBack, Look(second), Look(first)]);
    events := [Arrive] + [Arrive, GiveBack, GiveBack, Look(second), Look(first)];
  }

  lemma {:induction false} Chain(g: Threads, e: Event, rest: seq<Event>)
    requires Enabled(g, e) && Possible(Happen(g, e), rest)
    ensures Possible(g, [e] + rest) && Outcome(g, [e] + rest) == Outcome(Happen(g, e), rest)
  {
    assert ([e] + rest)[0] == e && ([e] + rest)[1..] == rest;
  }

  /** Unlike the event-loop gate, the threaded gate can leave a permit unused while the next ticket sleeps:
      this can happen exactly when it has more than one permit. */
  lemma {:induction false} StallIff(max: nat)
    requires max >= 1
    ensures (exists events :: Possible(Start(max), events) && Stalled(Outcome(Start(max), events))) <==> max > 1
  {
    hide Fair, Stalled, Happen, Enabled;
    StartFair(max);
    if max > 1 {
      var events := StallRun(max);
    } else {
      forall events | Possible(Start(max), events) ensures !Stalled(Outcome(Start(max), events)) {
        OnePermit(Start(max), events);
      }
    }
  }

  lemma {:induction false} StartFair(max: nat)
    ensures Fair(Start(max)) && !Stalled(Start(max))
  {}

  lemma {:induction false} StallRun(max: nat) returns (events: seq<Event>)
    requires max > 1
    ensures Possible(Start(max), events) && Stalled(Outcome(Start(max), events))
  {
    hide Fair, Stalled, Happen, Enabled;
    StartFair(max);
    ArrivalsTake(Start(max), max);
    var more := SecondLooksFirst(Outcome(Start(max), Arrivals(max)));
    OutcomeConcat(Start(max), Arrivals(max), more);
    events := Arrivals(max) + more;
  }
}
