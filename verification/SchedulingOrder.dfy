/** NEW, READY and EXIT are queues: first come, first served, in every run. */
module SchedulingOrder {
  import opened Options
  import opened Pids
  import opened Scheduling
  import opened SchedulingSafety
  import opened SchedulingProgress

  datatype Queue = NewQueue | ReadyQueue | ExitQueue

  function Waiting(s: State, queue: Queue): seq<Address>
  {
    match queue
    case NewQueue => s.created
    case ReadyQueue => s.ready
    case ExitQueue => s.exit
  }

  /** The step takes the head of the queue: it is admitted, put on a free EXEC slot, or deleted. */
  predicate Serves(s: State, event: Event, queue: Queue)
  {
    match queue
    case NewQueue => event.Admit?
    case ReadyQueue =>
      && event.VisitExec? && s.position.AtExec? && s.position.slot < |s.exec| && s.exec[s.position.slot] == None
      && s.ready != [] && !Flagged(s, s.ready[0])
    case ExitQueue => event.Retire?
  }

  /** Where a PCB goes from its queue. */
  predicate Moved(s: State, s': State, queue: Queue, p: Address)
  {
    match queue
    case NewQueue => s'.ready == s.ready + [p] && p in s'.pcbs && s'.pcbs[p].state == READY
    case ReadyQueue =>
      s.position.AtExec? && s.position.slot < |s'.exec| && s'.exec[s.position.slot] == Some(p) && p in s'.pcbs && s'.pcbs[p].state == EXEC
    case ExitQueue => p !in s'.pcbs
  }

  /** Taking a head or not, and at most one newcomer at the end. */
  ghost predicate Fifo(q: seq<Address>, served: bool, q': seq<Address>)
  {
    && (served ==> q != [])
    && exists more: seq<Address> :: q' == (if served then q[1..] else q) + more && |more| <= 1 && forall p :: p in more ==> p !in q
  }

  lemma Same(q: seq<Address>)
    ensures Fifo(q, false, q)
  {
    assert q == q + [];
  }

  lemma Headless(q: seq<Address>)
    requires q != []
    ensures Fifo(q, true, q[1..])
  {
    assert q[1..] == q[1..] + [];
  }

  lemma Longer(q: seq<Address>, p: Address)
    requires p !in q
    ensures Fifo(q, false, q + [p])
  {
  }

  /** PCBs outside a queue, seen from their own. */
  lemma Elsewhere(quantum: nat, s: State, p: Address)
    requires Inv(quantum, s)
    ensures p !in s.pcbs || Some(p) in s.exec ==> p !in s.created && p !in s.ready && p !in s.exit
    ensures p in s.created ==> p !in s.ready
  {
    hide Identified, Handshake, Executing, Awake;
  }

  /** Every step is first in, first out for each of the three queues. */
  lemma StepIsFifo(quantum: nat, s: State, event: Event, s': State, queue: Queue)
    requires Inv(quantum, s) && Next(quantum, s, event, s')
    ensures Fifo(Waiting(s, queue), Serves(s, event, queue), Waiting(s', queue))
    ensures Serves(s, event, queue) ==> Moved(s, s', queue, Waiting(s, queue)[0])
  {
    hide Inv, Generated, Removed, Cleared, Fifo;
    Same(Waiting(s, queue));
    match event
    case Submit(p, _) => Elsewhere(quantum, s, p); Longer(s.created, p);
    case Admit =>
      Elsewhere(quantum, s, s.created[0]);
      Headless(s.created);
      Longer(s.ready, s.created[0]);
    case Retire => Headless(s.exit);
    case VisitExec =>
      if s.ready != [] {
        Headless(s.ready);
        HeadIsLive(quantum, s);
      }
    case Turn(i) =>
      assert s.exec[i] in s.exec;
      Elsewhere(quantum, s, s.exec[i].value);
      Longer(s.ready, s.exec[i].value);
      Longer(s.exit, s.exec[i].value);
    case _ =>
  }

  lemma HeadIsLive(quantum: nat, s: State)
    requires Inv(quantum, s) && s.ready != []
    ensures s.ready[0] in s.pcbs
  {
    hide Identified, Handshake, Executing, Awake;
    assert s.ready[0] in s.ready;
  }

  /** A PCB moves up one place whenever the head is taken, and otherwise keeps its place. */
  lemma PlaceInQueue(quantum: nat, s: State, event: Event, s': State, queue: Queue, i: nat)
    requires Inv(quantum, s) && Next(quantum, s, event, s') && i < |Waiting(s, queue)|
    ensures var q, q' := Waiting(s, queue), Waiting(s', queue);
            if !Serves(s, event, queue) then i < |q'| && q'[i] == q[i]
            else if i > 0 then i - 1 < |q'| && q'[i - 1] == q[i]
            else Moved(s, s', queue, q[0])
  {
    hide Inv, Next, Serves, Moved;
    StepIsFifo(quantum, s, event, s', queue);
  }

  /** p waits, and r does not wait in front of it. */
  ghost predicate Ahead(q: seq<Address>, p: Address, r: Address)
  {
    p in q && (r in q ==> exists i, j :: 0 <= i < j < |q| && q[i] == p && q[j] == r)
  }

  /** Where the entries of the new queue come from. */
  lemma FifoPlaces(q: seq<Address>, served: bool, q': seq<Address>, k: nat)
    requires Fifo(q, served, q')
    ensures var d := if served then 1 else 0;
            && |q| <= |q'| + d
            && (k < |q'| ==> if k + d < |q| then q'[k] == q[k + d] else q'[k] !in q)
  {
    var more :| q' == (if served then q[1..] else q) + more && |more| <= 1 && forall x :: x in more ==> x !in q;
    var d := if served then 1 else 0;
    if |q| <= k + d && k < |q'| { assert q'[k] == more[k + d - |q|]; }
  }

  lemma InOrder(q: seq<Address>, p: Address, r: Address, i: nat, j: nat)
    requires i < j < |q| && q[i] == p && q[j] == r
    ensures Ahead(q, p, r)
  {
  }

  lemma Places(q: seq<Address>, p: Address, r: Address) returns (i: nat, j: nat)
    requires Ahead(q, p, r) && r in q
    ensures i < j < |q| && q[i] == p && q[j] == r
  {
    i, j :| 0 <= i < j < |q| && q[i] == p && q[j] == r;
  }

  /** As long as p waits, r stays behind it, and does not leave the queue. */
  lemma FifoKeepsOrder(q: seq<Address>, served: bool, q': seq<Address>, p: Address, r: Address)
    requires Fifo(q, served, q') && Ahead(q, p, r) && p in q'
    requires NoDup(q)
    ensures Ahead(q', p, r) && (r in q ==> r in q')
  {
    hide Fifo;
    var d: nat := if served then 1 else 0;
    var i :| 0 <= i < |q'| && q'[i] == p;
    FifoPlaces(q, served, q', i);
    if r in q {
      hide Ahead;
      var a, b := Places(q, p, r);
      assert a == i + d;
      FifoPlaces(q, served, q', b - d);
      InOrder(q', p, r, i, b - d);
    } else if r in q' {
      hide Ahead;
      var b :| 0 <= b < |q'| && q'[b] == r;
      FifoPlaces(q, served, q', b);
      InOrder(q', p, r, i, b);
    }
  }

  lemma NoDuplicates(quantum: nat, s: State, queue: Queue)
    requires Inv(quantum, s)
    ensures NoDup(Waiting(s, queue))
  {
    hide Identified, Handshake, Executing, Awake;
  }

  /** The first n + 1 states of a run in which p waits all the time: r never overtakes it. */
  lemma {:induction false} NoOvertaking(quantum: nat, states: seq<State>, events: seq<Event>, queue: Queue, p: Address, r: Address, n: nat)
    requires quantum >= 1 && IsRun(quantum, states, events) && Inv(quantum, states[0]) && n <= |events| && p != r
    requires Ahead(Waiting(states[0], queue), p, r)
    requires forall k :: 0 <= k <= n ==> p in Waiting(states[k], queue)
    ensures Ahead(Waiting(states[n], queue), p, r)
    ensures forall k :: 0 <= k < n && r in Waiting(states[k], queue) ==> r in Waiting(states[k + 1], queue)
    decreases n
  {
    hide Inv, Next, Serves, Fifo, Ahead, Moved, Waiting;
    if n > 0 {
      NoOvertaking(quantum, states, events, queue, p, r, n - 1);
      var s, s' := states[n - 1], states[n];
      RunKeeps(quantum, states, events, n - 1);
      NoDuplicates(quantum, s, queue);
      StepIsFifo(quantum, s, events[n - 1], s', queue);
      FifoKeepsOrder(Waiting(s, queue), Serves(s, events[n - 1], queue), Waiting(s', queue), p, r);
    }
  }

  /**
    First come, first served: if p waits and r, which may come later, is not in front of it, then r leaves the queue at a
    step m only if p was taken from it at an earlier step j, and went where the queue leads.
   */
  lemma FirstComeFirstServed(quantum: nat, states: seq<State>, events: seq<Event>, queue: Queue, p: Address, r: Address, m: nat) returns (j: nat)
    requires quantum >= 1 && IsRun(quantum, states, events) && Inv(quantum, states[0]) && m < |events| && p != r
    requires Ahead(Waiting(states[0], queue), p, r)
    requires r in Waiting(states[m], queue) && r !in Waiting(states[m + 1], queue)
    ensures j < m && (forall k :: 0 <= k <= j ==> p in Waiting(states[k], queue))
    ensures Serves(states[j], events[j], queue) && Waiting(states[j], queue)[..1] == [p] && Moved(states[j], states[j + 1], queue, p)
  {
    hide Inv, Next, Serves, Fifo, Moved, Waiting;
    j := FirstAbsence(states, queue, p, m + 1);
    if j == m + 1 {
      NoOvertaking(quantum, states, events, queue, p, r, m + 1);
    } else {
      RunKeeps(quantum, states, events, j);
      TakenFromHead(quantum, states[j], events[j], states[j + 1], queue, p);
      if j == m {
        NoOvertaking(quantum, states, events, queue, p, r, m);
        RunKeeps(quantum, states, events, m);
        TakenFromHead(quantum, states[m], events[m], states[m + 1], queue, r);
      }
    }
  }

  /**
    Round robin: a PCB r whose turn ends with statements left goes behind every p that is ready, and has no other turn
    before each of them had one.
   */
  lemma RoundRobin(quantum: nat, states: seq<State>, events: seq<Event>, i: nat, p: Address, m: nat) returns (j: nat)
    requires quantum >= 1 && IsRun(quantum, states, events) && Inv(quantum, states[0]) && 0 < m < |events|
    requires events[0] == Turn(i) && i < |states[0].exec| && p in states[0].ready
    requires states[0].exec[i].Some? && states[0].exec[i].value in states[1].ready
    requires states[0].exec[i].value in states[m].ready && states[0].exec[i].value !in states[m + 1].ready
    ensures 0 < j < m && events[j].VisitExec? && p in states[j].ready && Some(p) in states[j + 1].exec
  {
    hide Inv, Next, Fifo, Ahead;
    var r := states[0].exec[i].value;
    BackOfTheQueue(quantum, states[0], i, states[1], p);
    RunKeeps(quantum, states, events, 1);
    assert IsRun(quantum, states[1..], events[1..]);
    j := FirstComeFirstServed(quantum, states[1..], events[1..], ReadyQueue, p, r, m - 1);
    j := j + 1;
  }

  lemma BackOfTheQueue(quantum: nat, s: State, i: nat, s': State, p: Address)
    requires Inv(quantum, s) && Next(quantum, s, Turn(i), s') && p in s.ready && s.exec[i].value in s'.ready
    ensures Ahead(s'.ready, p, s.exec[i].value) && p != s.exec[i].value
  {
    hide Inv;
    assert s.exec[i] in s.exec;
    Elsewhere(quantum, s, s.exec[i].value);
    var k :| 0 <= k < |s.ready| && s.ready[k] == p;
    assert s'.ready[k] == p && s'.ready[|s.ready|] == s.exec[i].value;
  }

  lemma {:induction false} FirstAbsence(states: seq<State>, queue: Queue, p: Address, n: nat) returns (j: nat)
    requires n < |states| && p in Waiting(states[0], queue)
    ensures j <= n && (forall k :: 0 <= k <= j ==> p in Waiting(states[k], queue)) && (j < n ==> p !in Waiting(states[j + 1], queue))
    decreases n
  {
    hide Waiting;
    j := 0;
    if n > 0 {
      j := FirstAbsence(states, queue, p, n - 1);
      if j == n - 1 && p in Waiting(states[n], queue) { j := n; }
    }
  }

  /** Whoever leaves a queue was its head. */
  lemma TakenFromHead(quantum: nat, s: State, event: Event, s': State, queue: Queue, p: Address)
    requires Inv(quantum, s) && Next(quantum, s, event, s') && p in Waiting(s, queue) && p !in Waiting(s', queue)
    ensures Serves(s, event, queue) && Waiting(s, queue)[..1] == [p] && Moved(s, s', queue, p)
  {
    hide Inv, Next, Serves, Moved, Waiting;
    var i :| 0 <= i < |Waiting(s, queue)| && Waiting(s, queue)[i] == p;
    PlaceInQueue(quantum, s, event, s', queue, i);
  }
}
