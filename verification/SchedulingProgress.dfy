/** What follows from the scheduler's invariant: no flag is lost, turns have the right length, every script ends. */
module SchedulingProgress {
  import opened Options
  import opened Pids
  import opened Scheduling
  import opened SchedulingSafety

  // ---------- Conservation ----------

  lemma {:induction false} CountOnce<T>(q: seq<T>, x: T)
    requires forall i, j :: 0 <= i < j < |q| && q[i] == x ==> q[j] != x
    ensures multiset(q)[x] == if x in q then 1 else 0
    decreases |q|
  {
    if q != [] {
      var init, last := q[..|q| - 1], q[|q| - 1];
      assert q == init + [last];
      CountOnce(init, x);
    }
  }

  /** How often a PCB occurs in the four queues. */
  function Occurrences(s: State, p: Address): nat
  {
    multiset(s.created)[p] + multiset(s.ready)[p] + multiset(s.exec)[Some(p)] + multiset(s.exit)[p]
  }

  lemma ExactlyOneQueue(quantum: nat, s: State, p: Address)
    requires Inv(quantum, s)
    ensures Occurrences(s, p) == if p in s.pcbs then 1 else 0
  {
    hide Identified, Handshake, Executing, Awake;
    CountOnce(s.created, p);
    CountOnce(s.ready, p);
    CountOnce(s.exec, Some(p));
    CountOnce(s.exit, p);
  }

  // ---------- The handshake ----------

  predicate Flagged(s: State, p: Address) { p in s.pcbs && s.pcbs[p].recentlyReady }

  /** A flagged PCB is in no queue but READY, and in one to-ready slot. */
  lemma FlaggedFacts(quantum: nat, s: State, p: Address, i: nat)
    requires Inv(quantum, s) && i < |s.toReady| && s.toReady[i] == Some(p)
    ensures Flagged(s, p) && Some(p) !in s.exec && p !in s.created && p !in s.exit
    ensures forall k :: 0 <= k < |s.toReady| && k != i ==> s.toReady[k] != Some(p)
  {
    hide Identified, Awake, Executing;
    assert s.toReady[i] in s.toReady;
  }

  /** A worker that ends a turn finds its to-ready slot empty. */
  lemma TurnFindsEmptySlot(quantum: nat, s: State, k: nat, s': State)
    requires Inv(quantum, s) && Next(quantum, s, Turn(k), s')
    ensures s.toReady[k] == None
  {
    hide Identified, Awake, SlotOk;
    ExecutingTurn(quantum, s, k, s');
    HandshakeTurn(quantum, s, k, s');
  }

  /** Only the short-term scheduler's visit to its to-ready slot releases a flagged PCB, which keeps its slot until then. */
  lemma OnlyVisitsRelease(quantum: nat, s: State, event: Event, s': State, p: Address, i: nat)
    requires Inv(quantum, s) && Next(quantum, s, event, s') && i < |s.toReady| && s.toReady[i] == Some(p)
    ensures |s'.toReady| == |s.toReady|
    ensures if event.VisitReady? && s.position == AtReady(i) then p in s'.pcbs && !Flagged(s', p) && s'.toReady[i] == None
            else Flagged(s', p) && s'.toReady[i] == Some(p)
  {
    hide Inv, Generated, Removed, Cleared;
    FlaggedFacts(quantum, s, p, i);
    match event
    case Retire => assert s'.toReady == s.toReady by { NoClear(quantum, s, s'); }
    case Turn(k) => TurnFindsEmptySlot(quantum, s, k, s'); assert s.exec[k] in s.exec;
    case VisitReady => ReleaseOne(s, s', p, i);
    case VisitExec => VisitKeepsFlag(s, s', p);
    case Callback(k, _) => CallbackKeepsFlag(s, event, s', p);
    case _ =>
  }

  lemma NoClear(quantum: nat, s: State, s': State)
    requires Inv(quantum, s) && Retired(s, s')
    ensures s'.toReady == s.toReady
  {
    hide Identified, Awake, Executing;
    RetireClearsNothing(s, s');
  }

  lemma ReleaseOne(s: State, s': State, p: Address, i: nat)
    requires VisitedReady(s, s') && i < |s.toReady| && s.toReady[i] == Some(p) && Flagged(s, p)
    requires forall k :: 0 <= k < |s.toReady| && k != i ==> s.toReady[k] != Some(p)
    ensures |s'.toReady| == |s.toReady|
    ensures if s.position == AtReady(i) then p in s'.pcbs && !Flagged(s', p) && s'.toReady[i] == None
            else Flagged(s', p) && s'.toReady[i] == Some(p)
  {
  }

  lemma VisitKeepsFlag(s: State, s': State, p: Address)
    requires VisitedExec(s, s') && Flagged(s, p) && Some(p) !in s.exec
    ensures Flagged(s', p) && s'.toReady == s.toReady
  {
    assert s.exec[s.position.slot] in s.exec;
  }

  lemma CallbackKeepsFlag(s: State, event: Event, s': State, p: Address)
    requires event.Callback? && CalledBack(s, event.slot, event.ok, s') && Flagged(s, p)
    ensures Flagged(s', p) && s'.toReady == s.toReady
  {
  }

  /** The short-term scheduler is in a pass and has not visited to-ready slot i in it. */
  predicate Ahead(position: Position, i: nat) { position.AtExec? || (position.AtReady? && position.slot <= i) }

  predicate Visit(s: State, event: Event, i: nat) { event.VisitReady? && s.position == AtReady(i) }

  lemma AheadStays(quantum: nat, s: State, event: Event, s': State, i: nat)
    requires Next(quantum, s, event, s') && Ahead(s.position, i) && !Visit(s, event, i) && i < |s.toReady|
    ensures Ahead(s'.position, i)
  {
    hide Generated, Removed, Cleared;
  }

  /** One pass releases every PCB that was flagged before it began, whatever happens meanwhile. */
  lemma {:induction false} PassReleases(quantum: nat, states: seq<State>, events: seq<Event>, p: Address)
    requires quantum >= 1 && IsRun(quantum, states, events) && Inv(quantum, states[0]) && Flagged(states[0], p)
    requires states[0].position == AtExec(0) && states[|events|].position == Asleep
    ensures exists j :: 0 <= j < |events| && events[j].VisitReady? && Flagged(states[j], p) && p in states[j + 1].pcbs && !Flagged(states[j + 1], p)
  {
    hide Inv, Next;
    var i := SlotOf(quantum, states[0], p);
    var j := StillThere(quantum, states, events, p, i, |events|);
    RunKeeps(quantum, states, events, j);
    OnlyVisitsRelease(quantum, states[j], events[j], states[j + 1], p, i);
  }

  /** Until its slot is visited a flagged PCB stays flagged, in the same slot, and the visit lies ahead. */
  lemma {:induction false} StillThere(quantum: nat, states: seq<State>, events: seq<Event>, p: Address, i: nat, n: nat) returns (j: nat)
    requires quantum >= 1 && IsRun(quantum, states, events) && Inv(quantum, states[0]) && n <= |events|
    requires i < |states[0].toReady| && states[0].toReady[i] == Some(p) && Flagged(states[0], p) && Ahead(states[0].position, i)
    ensures j <= n && i < |states[j].toReady| && states[j].toReady[i] == Some(p) && Flagged(states[j], p)
    ensures if j < n then Visit(states[j], events[j], i) else Ahead(states[n].position, i)
    decreases n
  {
    hide Inv, Next;
    j := 0;
    if n > 0 {
      j := StillThere(quantum, states, events, p, i, n - 1);
      if j == n - 1 && !Visit(states[j], events[j], i) {
        RunKeeps(quantum, states, events, j);
        OnlyVisitsRelease(quantum, states[j], events[j], states[j + 1], p, i);
        AheadStays(quantum, states[j], events[j], states[j + 1], i);
        j := n;
      }
    }
  }

  lemma SlotOf(quantum: nat, s: State, p: Address) returns (i: nat)
    requires Inv(quantum, s) && Flagged(s, p)
    ensures i < |s.toReady| && s.toReady[i] == Some(p)
  {
    hide Conserved, Identified, Executing, Awake;
    assert Some(p) in s.toReady;
    i :| 0 <= i < |s.toReady| && s.toReady[i] == Some(p);
  }

  // ---------- Turns ----------

  function Min(a: nat, b: nat): nat { if a < b then a else b }

  /**
    A turn on an EXEC slot issues exactly as many statements as the quantum allows and the script has left,
    unless one of them fails; then it is the last one issued.
   */
  lemma TurnLength(quantum: nat, s: State, i: nat, s': State)
    requires quantum >= 1 && Inv(quantum, s) && Next(quantum, s, Turn(i), s') && s'.exec[i] == None
    ensures var pcb := s.pcbs[s.exec[i].value];
            && |pcb.ran| >= pcb.start + 1 && pcb.start < |pcb.statements| && pcb.ran <= pcb.statements
            && (!pcb.errors ==> |pcb.ran| - pcb.start == Min(quantum, |pcb.statements| - pcb.start))
            && (pcb.errors ==> |pcb.ran| - pcb.start <= Min(quantum, |pcb.statements| - pcb.start)
                               && s'.pcbs[s.exec[i].value].state == EXIT)
  {
    hide Conserved, Identified, Handshake, Awake;
    assert SlotOk(quantum, s, i);
  }

  /** What no step changes of a PCB, and how its history may grow. */
  ghost predicate Grown(pcb: Pcb, pcb': Pcb)
  {
    && pcb'.statements == pcb.statements && pcb'.pid == pcb.pid
    && (pcb'.ran == pcb.ran ||
        (pcb.state == EXEC && !pcb.errors && |pcb.ran| < |pcb.statements| && pcb'.ran == pcb.ran + [pcb.statements[|pcb.ran|]]))
    && (pcb'.start == pcb.start || (pcb'.state == EXEC && pcb'.start == |pcb'.ran|))
    && (pcb.errors ==> pcb'.errors) && Left(pcb') <= Left(pcb)
  }

  /**
    Statements are issued in order, one at a time, only during a turn and none after a failure; a turn begins
    with what has been issued so far.
   */
  lemma StatementsInOrder(quantum: nat, s: State, event: Event, s': State, p: Address)
    requires quantum >= 1 && Inv(quantum, s) && Next(quantum, s, event, s') && p in s.pcbs && p in s'.pcbs
    ensures Grown(s.pcbs[p], s'.pcbs[p])
  {
    hide Inv, Generated, Removed, Cleared;
    match event
    case VisitExec => VisitGrows(quantum, s, s', p);
    case Start(i) => StartGrows(quantum, s, i, s', p);
    case _ =>
  }

  lemma VisitGrows(quantum: nat, s: State, s': State, p: Address)
    requires Inv(quantum, s) && VisitedExec(s, s') && p in s.pcbs
    ensures p in s'.pcbs && Grown(s.pcbs[p], s'.pcbs[p])
  {
    hide Identified, Handshake, Awake, SlotOk;
    if s.ready != [] { assert s.ready[0] in s.ready; }
  }

  lemma StartGrows(quantum: nat, s: State, i: nat, s': State, p: Address)
    requires Inv(quantum, s) && Started(s, i, s') && p in s.pcbs
    ensures p in s'.pcbs && Grown(s.pcbs[p], s'.pcbs[p])
  {
    hide Identified, Handshake, Awake;
    assert SlotOk(quantum, s, i);
    assert s.exec[i] in s.exec;
  }

  /** Statements left: they never grow. A callback takes one, or all of them if the statement failed. */
  function Left(pcb: Pcb): nat { if pcb.counter <= |pcb.statements| then |pcb.statements| - pcb.counter else 0 }

  lemma CallbackTakesOne(quantum: nat, s: State, i: nat, ok: bool, s': State)
    requires Inv(quantum, s) && Next(quantum, s, Callback(i, ok), s')
    ensures var p := s.pending[i].value;
            && Left(s.pcbs[p]) >= 1 && Left(s'.pcbs[p]) == (if ok then Left(s.pcbs[p]) - 1 else 0)
            && !s.pcbs[p].errors && s'.pcbs[p].errors == !ok
  {
    hide Conserved, Identified, Handshake, Awake;
    assert SlotOk(quantum, s, i);
  }

  /** The step is the callback of a statement of p that failed. */
  predicate Fails(s: State, event: Event, p: Address)
  {
    event.Callback? && !event.ok && event.slot < |s.pending| && s.pending[event.slot] == Some(p)
  }

  /** Only a statement that fails makes its own PCB fail. */
  lemma OnlyFailuresFail(quantum: nat, s: State, event: Event, s': State, p: Address)
    requires Next(quantum, s, event, s') && p in s.pcbs && p in s'.pcbs
    ensures s'.pcbs[p].errors <==> s.pcbs[p].errors || Fails(s, event, p)
  {
    hide Generated, Removed, Cleared;
  }

  // ---------- Every script ends ----------

  /** The steps that a PCB may still need, apart from those that its worker's semaphores account for. */
  function Weight(pcb: Pcb): nat
  {
    8 * Left(pcb) + match pcb.state
                    case NEW => 5
                    case READY => if pcb.recentlyReady then 4 else 3
                    case EXEC => if pcb.recentlyExec then 2 else 0
                    case EXIT => 6
  }

  ghost function Total(pcbs: map<Address, Pcb>): nat
    decreases |pcbs|
  {
    if pcbs == map[] then 0 else
      var p :| p in pcbs;
      Weight(pcbs[p]) + Total(pcbs - {p})
  }

  lemma {:induction false} TotalSplit(pcbs: map<Address, Pcb>, p: Address)
    requires p in pcbs
    ensures Total(pcbs) == Weight(pcbs[p]) + Total(pcbs - {p})
    decreases |pcbs|
  {
    hide Weight;
    var q :| q in pcbs && Total(pcbs) == Weight(pcbs[q]) + Total(pcbs - {q});
    if q != p {
      TotalSplit(pcbs - {q}, p);
      TotalSplit(pcbs - {p}, q);
      assert pcbs - {q} - {p} == pcbs - {p} - {q};
    }
  }

  lemma TotalChanged(pcbs: map<Address, Pcb>, p: Address, pcb: Pcb)
    requires p in pcbs
    ensures Total(pcbs[p := pcb]) + Weight(pcbs[p]) == Total(pcbs) + Weight(pcb)
  {
    hide Weight;
    TotalSplit(pcbs, p);
    TotalSplit(pcbs[p := pcb], p);
    assert pcbs[p := pcb] - {p} == pcbs - {p};
  }

  function Sum(q: seq<nat>): nat { if q == [] then 0 else q[0] + Sum(q[1..]) }

  lemma {:induction false} SumChanged(q: seq<nat>, i: nat, x: nat)
    requires i < |q|
    ensures Sum(q[i := x]) + q[i] == Sum(q) + x
    decreases |q|
  {
    if i > 0 {
      SumChanged(q[1..], i - 1, x);
      assert q[i := x][1..] == q[1..][i - 1 := x];
    } else {
      assert q[i := x][1..] == q[1..];
    }
  }

  /** The steps left in a pass. */
  function StepsLeft(position: Position, n: nat): nat
  {
    match position
    case Asleep => 0
    case AtExec(i) => if i <= 2 * n then 2 * n - i else 0
    case AtReady(i) => if i <= n then n - i else 0
  }

  ghost function Work(s: State): nat { Total(s.pcbs) + Sum(s.init) + 7 * Sum(s.done) }

  /** A bound on the number of steps before the scheduler rests, if no script is submitted. */
  ghost function Measure(s: State): nat
  {
    var n := |s.exec|;
    Work(s) * (2 * n + 2) + s.sts * (2 * n + 1) + StepsLeft(s.position, n)
  }

  /** Less work outweighs a signal; with the same work, the pass advances or a signal is used up. */
  lemma Weigh(work: nat, work': nat, n: nat, sts: nat, sts': nat, ahead: nat, ahead': nat)
    requires sts' <= 1
    requires (work' < work && ahead' <= ahead) ||
             (work' == work && sts' == sts && ahead' < ahead) || (work' == work && sts' + 1 == sts && ahead' <= 2 * n)
    ensures work' * (2 * n + 2) + sts' * (2 * n + 1) + ahead' < work * (2 * n + 2) + sts * (2 * n + 1) + ahead
  {
    if work' < work {
      assert (work' + 1) * (2 * n + 2) <= work * (2 * n + 2);
    }
  }

  lemma VisitWorks(quantum: nat, s: State, s': State)
    requires Inv(quantum, s) && VisitedExec(s, s')
    ensures Work(s') < Work(s) || (Work(s') == Work(s) && s'.sts == s.sts)
    ensures StepsLeft(s'.position, |s.exec|) < StepsLeft(s.position, |s.exec|)
  {
    hide Identified, Awake, Total, Sum;
    var i := s.position.slot;
    assert SlotOk(quantum, s, i);
    if s'.exec != s.exec {
      assert s.ready[0] in s.ready;
      TotalChanged(s.pcbs, s.ready[0], s'.pcbs[s.ready[0]]);
    } else if s'.init != s.init {
      assert s.exec[i] in s.exec;
      TotalChanged(s.pcbs, s.exec[i].value, s'.pcbs[s.exec[i].value]);
      SumChanged(s.init, i, s.init[i] + 1);
    } else {
      UnchangedVisit(s, s');
    }
  }

  lemma ReadyWorks(quantum: nat, s: State, s': State)
    requires Inv(quantum, s) && VisitedReady(s, s')
    ensures Work(s') < Work(s) || (Work(s') == Work(s) && s'.sts == s.sts)
    ensures StepsLeft(s'.position, |s.exec|) < StepsLeft(s.position, |s.exec|)
  {
    hide Identified, Awake, Executing, Total, Sum;
    var slot := s.toReady[s.position.slot];
    assert slot in s.toReady;
    if slot.Some? { TotalChanged(s.pcbs, slot.value, s'.pcbs[slot.value]); }
  }

  lemma WorkerWorks(quantum: nat, s: State, event: Event, s': State)
    requires Inv(quantum, s) && Next(quantum, s, event, s') && (event.Start? || event.Callback? || event.Turn?)
    ensures Work(s') < Work(s)
  {
    hide Inv, Work;
    match event
    case Start(i) => StartWorks(quantum, s, i, s');
    case Callback(i, ok) => CallbackWorks(quantum, s, i, ok, s');
    case Turn(i) => TurnWorks(quantum, s, i, s');
  }

  /** The PCB on a slot whose worker is under way. */
  lemma OnSlot(quantum: nat, s: State, i: nat)
    requires Inv(quantum, s) && i < |s.exec| && s.exec[i].Some?
    ensures Lengths(s) && SlotOk(quantum, s, i) && s.exec[i].value in s.pcbs && s.pcbs[s.exec[i].value].state == EXEC
  {
    hide Identified, Handshake, Awake, SlotOk;
    assert s.exec[i] in s.exec;
  }

  lemma StartWorks(quantum: nat, s: State, i: nat, s': State)
    requires Inv(quantum, s) && Started(s, i, s')
    ensures Work(s') < Work(s)
  {
    hide Inv, Total, Sum;
    OnSlot(quantum, s, i);
    var p := s.exec[i].value;
    TotalChanged(s.pcbs, p, s'.pcbs[p]);
    SumChanged(s.init, i, s.init[i] - 1);
  }

  lemma CallbackWorks(quantum: nat, s: State, i: nat, ok: bool, s': State)
    requires Inv(quantum, s) && CalledBack(s, i, ok, s')
    ensures Work(s') < Work(s)
  {
    hide Inv, Total, Sum;
    PendingIsOnSlot(quantum, s, i);
    OnSlot(quantum, s, i);
    var p := s.exec[i].value;
    TotalChanged(s.pcbs, p, s'.pcbs[p]);
    SumChanged(s.done, i, s.done[i] + 1);
  }

  lemma PendingIsOnSlot(quantum: nat, s: State, i: nat)
    requires Inv(quantum, s) && i < |s.pending| && s.pending[i].Some?
    ensures i < |s.exec| && s.exec[i] == s.pending[i]
  {
    hide Identified, Handshake, Awake, Conserved;
    assert SlotOk(quantum, s, i);
  }

  lemma TurnWorks(quantum: nat, s: State, i: nat, s': State)
    requires Inv(quantum, s) && Turned(quantum, s, i, s')
    ensures Work(s') < Work(s)
  {
    hide Inv, Total, Sum;
    OnSlot(quantum, s, i);
    var p := s.exec[i].value;
    TotalChanged(s.pcbs, p, s'.pcbs[p]);
    SumChanged(s.done, i, s.done[i] - 1);
    SumChanged(s.init, i, s.init[i] + 1);
  }

  lemma LongTermWorks(quantum: nat, s: State, event: Event, s': State)
    requires Inv(quantum, s) && Next(quantum, s, event, s') && (event.Admit? || event.Retire?)
    ensures Work(s') < Work(s)
  {
    hide Identified, Awake, Executing, Total, Sum, Removed, Cleared;
    if event.Admit? {
      var p := s.created[0];
      assert p in s.created;
      TotalChanged(s.pcbs, p, s'.pcbs[p]);
    } else {
      assert s.exit[0] in s.exit;
      TotalSplit(s.pcbs, s.exit[0]);
    }
  }

  /** A step does work, or advances the pass, or uses up a signal. */
  ghost predicate Effect(s: State, s': State)
  {
    var n := |s.exec|;
    || (Work(s') < Work(s) && StepsLeft(s'.position, n) <= StepsLeft(s.position, n))
    || (Work(s') == Work(s) && s'.sts == s.sts && StepsLeft(s'.position, n) < StepsLeft(s.position, n))
    || (Work(s') == Work(s) && s'.sts + 1 == s.sts && StepsLeft(s'.position, n) <= 2 * n)
  }

  lemma StepHasEffect(quantum: nat, s: State, event: Event, s': State)
    requires Inv(quantum, s) && Next(quantum, s, event, s') && !event.Submit?
    ensures Effect(s, s')
  {
    hide Inv, Work;
    match event
    case VisitExec => VisitWorks(quantum, s, s');
    case VisitReady => ReadyWorks(quantum, s, s');
    case Wake => SameWork(s, s');
    case Admit => LongTermWorks(quantum, s, event, s');
    case Retire => LongTermWorks(quantum, s, event, s');
    case _ => WorkerWorks(quantum, s, event, s'); SamePosition(quantum, s, event, s');
  }

  lemma SamePosition(quantum: nat, s: State, event: Event, s': State)
    requires Next(quantum, s, event, s') && (event.Start? || event.Callback? || event.Turn?)
    ensures s'.position == s.position
  {
  }

  /** Every step except a submission brings the scheduler closer to rest. */
  lemma StepDescends(quantum: nat, s: State, event: Event, s': State)
    requires quantum >= 1 && Inv(quantum, s) && Next(quantum, s, event, s') && !event.Submit?
    ensures Measure(s') < Measure(s)
  {
    hide Inv, Work, Next, StepsLeft;
    StepKeeps(quantum, s, event, s');
    OneSignal(quantum, s');
    SlotsStay(quantum, s, event, s');
    StepHasEffect(quantum, s, event, s');
    Weigh(Work(s), Work(s'), |s.exec|, s.sts, s'.sts, StepsLeft(s.position, |s.exec|), StepsLeft(s'.position, |s.exec|));
  }

  lemma SameWork(s: State, s': State)
    requires s'.pcbs == s.pcbs && s'.init == s.init && s'.done == s.done
    ensures Work(s') == Work(s)
  {
  }

  lemma OneSignal(quantum: nat, s: State)
    requires Inv(quantum, s)
    ensures s.sts <= 1
  {
    hide Conserved, Identified, Handshake, Executing;
  }

  /** No run without submissions is longer than the measure of its first state. */
  lemma {:induction false} RunsEnd(quantum: nat, states: seq<State>, events: seq<Event>)
    requires quantum >= 1 && IsRun(quantum, states, events) && Inv(quantum, states[0])
    requires forall i :: 0 <= i < |events| ==> !events[i].Submit?
    ensures |events| + Measure(states[|events|]) <= Measure(states[0])
    decreases |events|
  {
    hide Inv, Next, Measure;
    if events != [] {
      var n := |events| - 1;
      assert IsRun(quantum, states[..n + 1], events[..n]);
      RunsEnd(quantum, states[..n + 1], events[..n]);
      RunKeeps(quantum, states, events, n);
      StepDescends(quantum, states[n], events[n], states[n + 1]);
    }
  }

  /** Nobody can take a step: both schedulers wait for a signal, and so does every worker, with no request pending. */
  ghost predicate AtRest(s: State)
  {
    && s.lts == 0 && s.position == Asleep && s.sts == 0
    && forall i :: 0 <= i < |s.exec| == |s.init| == |s.done| == |s.busy| == |s.pending| ==>
         s.pending[i] == None && !(s.init[i] > 0 && !s.busy[i]) && !(s.busy[i] && s.done[i] > 0)
  }

  /** Whoever is not waiting can take its step. */
  lemma RestOrStep(quantum: nat, s: State) returns (event: Event, s': State)
    requires quantum >= 1 && Inv(quantum, s) && !AtRest(s)
    ensures !event.Submit? && Next(quantum, s, event, s')
  {
    hide Identified, Removed, Generated, Cleared, Calm, SlotOk;
    if s.lts > 0 {
      event, s' := LongTermStep(quantum, s);
    } else if s.position != Asleep || s.sts > 0 {
      event, s' := ShortTermStep(quantum, s);
    } else {
      var i :| 0 <= i < |s.exec| && (s.pending[i].Some? || (s.init[i] > 0 && !s.busy[i]) || (s.busy[i] && s.done[i] > 0));
      event, s' := WorkerStep(quantum, s, i);
    }
  }

  lemma LongTermStep(quantum: nat, s: State) returns (event: Event, s': State)
    requires Inv(quantum, s) && s.lts > 0
    ensures !event.Submit? && Next(quantum, s, event, s')
  {
    hide Inv, Admitted, Retired;
    if s.created != [] {
      event := Admit;
      s' := AdmitFirst(quantum, s);
    } else {
      event := Retire;
      s' := RetireFirst(quantum, s);
    }
  }

  lemma AdmitFirst(quantum: nat, s: State) returns (s': State)
    requires Inv(quantum, s) && s.lts > 0 && s.created != []
    ensures Admitted(s, s')
  {
    hide Handshake, Executing, Awake, Identified;
    var p := s.created[0];
    assert p in s.created;
    s' := s.(pcbs := s.pcbs[p := s.pcbs[p].(state := READY)], created := s.created[1..], ready := s.ready + [p],
             sts := Signalled(s.sts), lts := s.lts - 1);
  }

  lemma RetireFirst(quantum: nat, s: State) returns (s': State)
    requires Inv(quantum, s) && s.lts > 0 && s.created == []
    ensures Retired(s, s')
  {
    hide Handshake, Executing, Calm, Cleared, Removed;
    var p := s.exit[0];
    assert p in s.exit;
    var k :| 0 <= k < |s.ids| && s.ids[k] == s.pcbs[p].pid;
    WithoutOne(s.ids, k);
    s' := s.(pcbs := s.pcbs - {p}, ids := s.ids[..k] + s.ids[k + 1..], exit := s.exit[1..], toReady := Cleared(s.toReady, p),
             lts := s.lts - 1);
  }

  lemma ShortTermStep(quantum: nat, s: State) returns (event: Event, s': State)
    requires Inv(quantum, s) && (s.position != Asleep || s.sts > 0)
    ensures !event.Submit? && Next(quantum, s, event, s')
  {
    hide Inv;
    match s.position
    case Asleep =>
      event, s' := Wake, s.(position := if |s.exec| == 0 then Asleep else AtExec(0), sts := s.sts - 1);
    case AtExec(i) =>
      event := VisitExec;
      s' := ExecVisit(quantum, s, i);
    case AtReady(i) =>
      event := VisitReady;
      s' := ReadyVisit(quantum, s, i);
  }

  lemma ExecVisit(quantum: nat, s: State, i: nat) returns (s': State)
    requires Inv(quantum, s) && s.position == AtExec(i)
    ensures VisitedExec(s, s')
  {
    hide Identified, Calm, SlotOk, Handshake;
    var next := AfterExec(i, |s.exec|);
    assert s.exec[i] in s.exec;
    if s.exec[i].Some? && s.pcbs[s.exec[i].value].recentlyExec {
      var p := s.exec[i].value;
      s' := s.(pcbs := s.pcbs[p := s.pcbs[p].(processor := i, quantum := s.pcbs[p].quantum + 1, recentlyExec := false)],
               init := s.init[i := s.init[i] + 1], position := next);
    } else if s.exec[i] == None && s.ready != [] && s.ready[0] in s.pcbs && !s.pcbs[s.ready[0]].recentlyReady {
      var p := s.ready[0];
      s' := s.(pcbs := s.pcbs[p := s.pcbs[p].(state := EXEC, quantum := 0, recentlyExec := true, start := s.pcbs[p].counter)],
               ready := s.ready[1..], exec := s.exec[i := Some(p)], sts := Signalled(s.sts), position := next);
    } else {
      s' := s.(position := next);
    }
  }

  lemma ReadyVisit(quantum: nat, s: State, i: nat) returns (s': State)
    requires Inv(quantum, s) && s.position == AtReady(i)
    ensures VisitedReady(s, s')
  {
    hide Identified, Calm, Executing, Conserved;
    assert s.toReady[i] in s.toReady;
    var next := AfterReady(i, |s.toReady|);
    if s.toReady[i].Some? {
      var p := s.toReady[i].value;
      s' := s.(pcbs := s.pcbs[p := s.pcbs[p].(recentlyReady := false)], toReady := s.toReady[i := None],
               sts := Signalled(s.sts), position := next);
    } else {
      s' := s.(position := next);
    }
  }

  lemma WorkerStep(quantum: nat, s: State, i: nat) returns (event: Event, s': State)
    requires Inv(quantum, s) && i < |s.exec|
    requires s.pending[i].Some? || (s.init[i] > 0 && !s.busy[i]) || (s.busy[i] && s.done[i] > 0)
    ensures !event.Submit? && Next(quantum, s, event, s')
  {
    hide Identified, Handshake, Awake, Conserved;
    assert SlotOk(quantum, s, i);
    var p := s.exec[i].value;
    var pcb := s.pcbs[p];
    if s.init[i] > 0 {
      event := Start(i);
      s' := s.(pcbs := s.pcbs[p := pcb.(ran := pcb.ran + [pcb.statements[pcb.counter]])],
               init := s.init[i := s.init[i] - 1], busy := s.busy[i := true], pending := s.pending[i := Some(p)]);
    } else if s.pending[i].Some? {
      event := Callback(i, true);
      s' := s.(pcbs := s.pcbs[p := AfterStatement(pcb, true)], pending := s.pending[i := None], done := s.done[i := s.done[i] + 1]);
    } else {
      event := Turn(i);
      var woken := s.(busy := s.busy[i := false], done := s.done[i := s.done[i] - 1]);
      s' := if pcb.counter >= |pcb.statements| then
              woken.(pcbs := s.pcbs[p := pcb.(state := EXIT)], exec := s.exec[i := None], exit := s.exit + [p],
                     toReady := s.toReady[i := None], sts := Signalled(s.sts), lts := s.lts + 1)
            else if pcb.quantum >= quantum then
              woken.(pcbs := s.pcbs[p := pcb.(state := READY, recentlyReady := true)], exec := s.exec[i := None],
                     ready := s.ready + [p], toReady := s.toReady[i := Some(p)], sts := Signalled(s.sts))
            else
              woken.(pcbs := s.pcbs[p := pcb.(processor := i, quantum := pcb.quantum + 1)], init := s.init[i := s.init[i] + 1]);
    }
  }

  /** No wake-up is lost: the short-term scheduler sleeps unsignalled only if there is nothing for it to do. */
  lemma NoLostWakeUp(quantum: nat, s: State, i: nat)
    requires Inv(quantum, s) && s.position == Asleep && s.sts == 0 && i < |s.exec|
    ensures forall p :: p in s.pcbs ==> !s.pcbs[p].recentlyReady && !s.pcbs[p].recentlyExec
    ensures s.exec[i] == None ==> s.ready == []
  {
    hide Identified, SlotOk;
    assert forall k :: 0 <= k < |s.exec| ==> Calm(s, k) && s.toReady[k] == None;
    forall p | p in s.pcbs ensures !s.pcbs[p].recentlyReady && !s.pcbs[p].recentlyExec {
      assert Some(p) !in s.toReady;
      if s.pcbs[p].state == EXEC {
        assert Some(p) in s.exec;
        var k :| 0 <= k < |s.exec| && s.exec[k] == Some(p);
        assert Calm(s, k);
      }
    }
    assert Calm(s, i);
  }

  /** With at least one EXEC slot, the scheduler rests only when no PCB is left. */
  lemma RestMeansDone(quantum: nat, s: State)
    requires Inv(quantum, s) && AtRest(s) && |s.exec| >= 1
    ensures s.pcbs == map[]
  {
    hide Identified;
    forall i | 0 <= i < |s.exec| ensures s.exec[i] == None {
      assert SlotOk(quantum, s, i);
      NoLostWakeUp(quantum, s, i);
    }
    NoLostWakeUp(quantum, s, 0);
    forall p ensures p !in s.pcbs {
      assert p !in s.created && p !in s.ready && p !in s.exit && Some(p) !in s.exec;
    }
  }

  /** Deleting a PCB is the only way to end it, and by then its script is done. */
  lemma RetiredIsDone(quantum: nat, s: State, event: Event, s': State, p: Address)
    requires quantum >= 1 && Inv(quantum, s) && Next(quantum, s, event, s') && p in s.pcbs && p !in s'.pcbs
    ensures event.Retire? && Done(s.pcbs[p])
  {
    hide Inv, Generated, Removed, Cleared;
    if event.Retire? { FirstOfExit(quantum, s); }
  }

  lemma FirstOfExit(quantum: nat, s: State)
    requires Inv(quantum, s) && s.exit != []
    ensures s.exit[0] in s.pcbs && Done(s.pcbs[s.exit[0]])
  {
    hide Identified, Handshake, Awake, SlotOk;
    assert s.exit[0] in s.exit;
  }

  /**
    In a run without further submissions that comes to rest, every script ends: at some step its PCB is deleted,
    having issued its statements in order, each once, all of them or up to one that failed.
   */
  lemma EveryScriptEnds(quantum: nat, states: seq<State>, events: seq<Event>, p: Address) returns (j: nat)
    requires quantum >= 1 && IsRun(quantum, states, events) && Inv(quantum, states[0]) && |states[0].exec| >= 1
    requires forall i :: 0 <= i < |events| ==> !events[i].Submit?
    requires AtRest(states[|events|]) && p in states[0].pcbs
    ensures j < |events| && events[j].Retire? && (forall k :: 0 <= k <= j ==> p in states[k].pcbs) && p !in states[j + 1].pcbs
    ensures Done(states[j].pcbs[p]) && states[j].pcbs[p].statements == states[0].pcbs[p].statements
  {
    hide Inv, Next, Done, AtRest;
    RunKeeps(quantum, states, events, |events|);
    RestMeansDone(quantum, states[|events|]);
    j := LastSeen(quantum, states, events, p, |events|);
    RunKeeps(quantum, states, events, j);
    RetiredIsDone(quantum, states[j], events[j], states[j + 1], p);
  }

  lemma {:induction false} LastSeen(quantum: nat, states: seq<State>, events: seq<Event>, p: Address, n: nat) returns (j: nat)
    requires quantum >= 1 && IsRun(quantum, states, events) && Inv(quantum, states[0]) && p in states[0].pcbs && n <= |events|
    ensures j <= n && (forall k :: 0 <= k <= j ==> p in states[k].pcbs)
    ensures states[j].pcbs[p].statements == states[0].pcbs[p].statements
    ensures j < n ==> p !in states[j + 1].pcbs
    decreases n
  {
    hide Inv, Next, Grown;
    j := 0;
    if n > 0 {
      j := LastSeen(quantum, states, events, p, n - 1);
      if j == n - 1 && p in states[n].pcbs {
        RunKeeps(quantum, states, events, j);
        StatementsInOrder(quantum, states[j], events[j], states[n], p);
        SameScript(states[j].pcbs[p], states[n].pcbs[p]);
        j := n;
      }
    }
  }

  lemma {:induction false} NoFailure(quantum: nat, states: seq<State>, events: seq<Event>, p: Address, n: nat)
    requires IsRun(quantum, states, events) && n <= |events|
    requires forall k :: 0 <= k <= n ==> p in states[k].pcbs
    requires forall k :: 0 <= k < n ==> !Fails(states[k], events[k], p)
    ensures states[n].pcbs[p].errors == states[0].pcbs[p].errors
    decreases n
  {
    hide Next, Fails;
    if n > 0 {
      NoFailure(quantum, states, events, p, n - 1);
      OnlyFailuresFail(quantum, states[n - 1], events[n - 1], states[n], p);
    }
  }

  /** If besides no statement of the script fails, it issues all of them, in order and each once, before it is deleted. */
  lemma EveryStatementIsIssued(quantum: nat, states: seq<State>, events: seq<Event>, p: Address) returns (j: nat)
    requires quantum >= 1 && IsRun(quantum, states, events) && Inv(quantum, states[0]) && |states[0].exec| >= 1
    requires forall i :: 0 <= i < |events| ==> !events[i].Submit?
    requires AtRest(states[|events|]) && p in states[0].pcbs && !states[0].pcbs[p].errors
    requires forall k :: 0 <= k < |events| ==> !Fails(states[k], events[k], p)
    ensures j < |events| && events[j].Retire? && p in states[j].pcbs && p !in states[j + 1].pcbs
    ensures states[j].pcbs[p].ran == states[0].pcbs[p].statements
  {
    hide Inv, Next, AtRest, Fails;
    j := EveryScriptEnds(quantum, states, events, p);
    NoFailure(quantum, states, events, p, j);
  }

  lemma SameScript(pcb: Pcb, pcb': Pcb)
    requires Grown(pcb, pcb')
    ensures pcb'.statements == pcb.statements
  {
  }
}
