/** Every step of the scheduler keeps its invariant. */
module SchedulingSafety {
  import opened Options
  import opened Pids
  import opened Scheduling

  // ---------- Queues ----------

  lemma Tail(q: seq<Address>)
    requires q != [] && NoDup(q)
    ensures NoDup(q[1..]) && forall p :: p in q[1..] <==> p in q && p != q[0]
  {
    forall p ensures p in q[1..] <==> p in q && p != q[0] {
      if p in q && p != q[0] {
        var i :| 0 <= i < |q| && q[i] == p;
        assert q[1..][i - 1] == p;
      }
    }
  }

  lemma Put(slots: seq<Option<Address>>, i: nat, p: Address)
    requires i < |slots| && slots[i] == None && NoDupSlots(slots) && Some(p) !in slots
    ensures NoDupSlots(slots[i := Some(p)]) && forall q :: Some(q) in slots[i := Some(p)] <==> Some(q) in slots || q == p
  {
    var slots' := slots[i := Some(p)];
    forall q ensures Some(q) in slots' <==> Some(q) in slots || q == p {
      assert slots'[i] == Some(p);
      if Some(q) in slots {
        var k :| 0 <= k < |slots| && slots[k] == Some(q);
        assert slots'[k] == Some(q);
      }
    }
  }

  lemma Take(slots: seq<Option<Address>>, i: nat)
    requires i < |slots| && NoDupSlots(slots)
    ensures NoDupSlots(slots[i := None]) && forall q :: Some(q) in slots[i := None] <==> Some(q) in slots && slots[i] != Some(q)
  {
    var slots' := slots[i := None];
    forall q ensures Some(q) in slots' <==> Some(q) in slots && slots[i] != Some(q) {
      if Some(q) in slots && slots[i] != Some(q) {
        var k :| 0 <= k < |slots| && slots[k] == Some(q);
        assert slots'[k] == Some(q);
      }
    }
  }

  lemma {:induction false} NothingToClear(slots: seq<Option<Address>>, p: Address)
    requires Some(p) !in slots
    ensures Cleared(slots, p) == slots
    decreases |slots|
  {
    if slots != [] { NothingToClear(slots[1..], p); }
  }

  /** Deleting a PCB clears no slot, since an EXIT PCB is not flagged. */
  lemma RetireClearsNothing(s: State, s': State)
    requires Conserved(s) && Handshake(s) && Retired(s, s')
    ensures s'.toReady == s.toReady
  {
    NothingToClear(s.toReady, s.exit[0]);
  }

  // ---------- Every PCB in one queue ----------

  /** Nothing moves. */
  lemma ConservedSame(s: State, s': State)
    requires Conserved(s) && s'.pcbs.Keys == s.pcbs.Keys && forall p :: p in s.pcbs ==> s'.pcbs[p].state == s.pcbs[p].state
    requires s'.created == s.created && s'.ready == s.ready && s'.exec == s.exec && s'.exit == s.exit
    ensures Conserved(s')
  {
  }

  lemma ConservedSubmit(s: State, p: Address, pcb: Pcb, s': State)
    requires Conserved(s) && p !in s.pcbs && pcb.state == NEW && s'.pcbs == s.pcbs[p := pcb]
    requires s'.created == s.created + [p] && s'.ready == s.ready && s'.exec == s.exec && s'.exit == s.exit
    ensures Conserved(s')
  {
  }

  lemma ConservedAdmit(s: State, s': State)
    requires Conserved(s) && Admitted(s, s')
    ensures Conserved(s')
  {
    Tail(s.created);
  }

  lemma ConservedRetire(s: State, s': State)
    requires Conserved(s) && Retired(s, s')
    ensures Conserved(s')
  {
    hide Removed;
    Tail(s.exit);
  }

  lemma ConservedFill(s: State, i: nat, s': State)
    requires Conserved(s) && i < |s.exec| && s.exec[i] == None && s.ready != []
    requires var p := s.ready[0];
             && p in s.pcbs && p in s'.pcbs && s'.pcbs[p].state == EXEC && s'.pcbs == s.pcbs[p := s'.pcbs[p]]
             && s'.created == s.created && s'.ready == s.ready[1..] && s'.exec == s.exec[i := Some(p)] && s'.exit == s.exit
    ensures Conserved(s')
  {
    Tail(s.ready);
    Put(s.exec, i, s.ready[0]);
  }

  lemma ConservedLeave(s: State, i: nat, p: Address, s': State)
    requires Conserved(s) && i < |s.exec| && s.exec[i] == Some(p) && p in s.pcbs && p in s'.pcbs
    requires s'.pcbs == s.pcbs[p := s'.pcbs[p]] && s'.created == s.created && s'.exec == s.exec[i := None]
    requires (s'.pcbs[p].state == EXIT && s'.exit == s.exit + [p] && s'.ready == s.ready) ||
             (s'.pcbs[p].state == READY && s'.ready == s.ready + [p] && s'.exit == s.exit)
    ensures Conserved(s')
  {
    Take(s.exec, i);
    assert Some(p) in s.exec;
  }

  lemma ConservedKept(quantum: nat, s: State, event: Event, s': State)
    requires Conserved(s) && Next(quantum, s, event, s')
    ensures Conserved(s')
  {
    hide Conserved, Generated, Removed, Cleared;
    match event
    case Submit(p, _) => ConservedSubmit(s, p, s'.pcbs[p], s');
    case Admit => ConservedAdmit(s, s');
    case Retire => ConservedRetire(s, s');
    case Wake => ConservedSame(s, s');
    case VisitExec =>
      if s'.exec != s.exec { ConservedFill(s, s.position.slot, s'); } else { assert s'.exec[s.position.slot] == s.exec[s.position.slot]; ConservedSame(s, s'); }
    case VisitReady => ConservedSame(s, s');
    case Start(_) => ConservedStart(s, event.slot, s');
    case Callback(_, _) => ConservedSame(s, s');
    case Turn(i) =>
      if s'.exec != s.exec { ConservedLeave(s, i, s.exec[i].value, s'); } else { ConservedTurn(quantum, s, i, s'); }
  }

  lemma ConservedTurn(quantum: nat, s: State, i: nat, s': State)
    requires Conserved(s) && Turned(quantum, s, i, s') && s'.exec == s.exec
    ensures Conserved(s')
  {
    assert s'.exec[i] == s.exec[i];
    ConservedSame(s, s');
  }

  lemma ConservedStart(s: State, i: nat, s': State)
    requires Conserved(s) && Started(s, i, s')
    ensures Conserved(s')
  {
    ConservedSame(s, s');
  }

  // ---------- Identifiers ----------

  lemma IdentifiedSame(s: State, s': State)
    requires Identified(s) && s'.pcbs.Keys == s.pcbs.Keys && (forall p :: p in s.pcbs ==> s'.pcbs[p].pid == s.pcbs[p].pid)
    requires s'.ids == s.ids
    ensures Identified(s')
  {
    forall id | id in s'.ids ensures exists q :: q in s'.pcbs && s'.pcbs[q].pid == id {
      var q :| q in s.pcbs && s.pcbs[q].pid == id;
      assert q in s'.pcbs;
    }
  }

  lemma IdentifiedSubmit(s: State, p: Address, pid: nat, statements: seq<Statement>, s': State)
    requires Identified(s) && p !in s.pcbs && Generated(s.ids, pid, s'.ids) && s'.pcbs == s.pcbs[p := NewPcb(pid, statements)]
    ensures Identified(s')
  {
    forall id | id in s'.ids ensures exists q :: q in s'.pcbs && s'.pcbs[q].pid == id {
      if id == pid {
        assert p in s'.pcbs;
      } else {
        var q :| q in s.pcbs && s.pcbs[q].pid == id;
        assert q in s'.pcbs;
      }
    }
  }

  lemma IdentifiedRetire(s: State, p: Address, s': State)
    requires Identified(s) && p in s.pcbs && Removed(s.ids, s.pcbs[p].pid, s'.ids) && s'.pcbs == s.pcbs - {p}
    ensures Identified(s')
  {
    forall id | id in s'.ids ensures exists q :: q in s'.pcbs && s'.pcbs[q].pid == id {
      var q :| q in s.pcbs && s.pcbs[q].pid == id;
      assert q in s'.pcbs;
    }
  }

  lemma IdentifiedKept(quantum: nat, s: State, event: Event, s': State)
    requires Identified(s) && Next(quantum, s, event, s')
    ensures Identified(s')
  {
    hide Identified, Generated, Removed, Cleared;
    match event
    case Submit(p, statements) =>
      var pid: nat :| Generated(s.ids, pid, s'.ids) && s'.pcbs == s.pcbs[p := NewPcb(pid, statements)];
      IdentifiedSubmit(s, p, pid, statements, s');
    case Retire => IdentifiedRetire(s, s.exit[0], s');
    case _ => IdentifiedSame(s, s');
  }

  // ---------- The recently-ready handshake ----------

  /** No flag and no slot changes, and the short-term scheduler does not go past a to-ready slot. */
  lemma HandshakeSame(s: State, s': State)
    requires Handshake(s) && s'.pcbs.Keys == s.pcbs.Keys && s'.exec == s.exec && s'.toReady == s.toReady
    requires forall p :: p in s.pcbs ==>
               s'.pcbs[p].recentlyReady == s.pcbs[p].recentlyReady && s'.pcbs[p].recentlyExec == s.pcbs[p].recentlyExec
               && (s'.pcbs[p].state == s.pcbs[p].state || s.pcbs[p].state == NEW)
    requires forall i: nat :: Between(s.position, i) ==> Between(s'.position, i)
    ensures Handshake(s')
  {
  }

  lemma HandshakeSubmit(s: State, p: Address, pcb: Pcb, s': State)
    requires Handshake(s) && p !in s.pcbs && !pcb.recentlyReady && !pcb.recentlyExec && s'.pcbs == s.pcbs[p := pcb]
    requires s'.exec == s.exec && s'.toReady == s.toReady && s'.position == s.position
    ensures Handshake(s')
  {
  }

  lemma HandshakeRetire(s: State, s': State)
    requires Conserved(s) && Handshake(s) && Retired(s, s')
    ensures Handshake(s')
  {
    hide Removed, Cleared;
    RetireClearsNothing(s, s');
    assert Some(s.exit[0]) !in s.exec && s.exit[0] in s.exit;
    forall i | 0 <= i < |s.exec| && s.exec[i].Some? ensures s.exec[i].value != s.exit[0] { assert s.exec[i] in s.exec; }
  }

  /** A slot is filled with a PCB that is not flagged. */
  lemma HandshakeFill(s: State, p: Address, s': State)
    requires Handshake(s) && s.position.AtExec? && s.position.slot < |s.exec| && s'.toReady == s.toReady
    requires s'.exec == s.exec[s.position.slot := Some(p)] && s'.position == AfterExec(s.position.slot, |s.exec|)
    requires p in s.pcbs && !s.pcbs[p].recentlyReady && p in s'.pcbs && s'.pcbs == s.pcbs[p := s'.pcbs[p]]
    requires !s'.pcbs[p].recentlyReady && s'.pcbs[p].recentlyExec && s'.pcbs[p].state == EXEC
    ensures Handshake(s')
  {
  }

  /** The worker of a slot is started; by then its to-ready slot is empty. */
  lemma HandshakeGo(s: State, p: Address, s': State)
    requires Conserved(s) && Handshake(s) && s.position.AtExec? && s.position.slot < |s.exec| && s'.toReady == s.toReady
    requires s.exec[s.position.slot] == Some(p) && s'.exec == s.exec && s'.position == AfterExec(s.position.slot, |s.exec|)
    requires p in s.pcbs && p in s'.pcbs && s'.pcbs == s.pcbs[p := s'.pcbs[p]] && s'.pcbs[p].state == s.pcbs[p].state
    requires s'.pcbs[p].recentlyReady == s.pcbs[p].recentlyReady && !s'.pcbs[p].recentlyExec
    ensures Handshake(s') && s.toReady[s.position.slot] == None
  {
    var i := s.position.slot;
    assert s.toReady[i] == None;
    forall k | 0 <= k < |s.exec| && k != i && s.exec[k].Some? ensures s.exec[k].value != p { assert s.exec[k] != s.exec[i]; }
  }

  lemma HandshakeVisitExec(s: State, s': State)
    requires Conserved(s) && Handshake(s) && VisitedExec(s, s')
    ensures Handshake(s')
  {
    hide Conserved, Handshake;
    var i := s.position.slot;
    if s'.exec != s.exec {
      HandshakeFill(s, s.ready[0], s');
    } else if s'.init != s.init {
      HandshakeGo(s, s.exec[i].value, s');
    } else {
      UnchangedVisit(s, s');
      HandshakeSame(s, s');
    }
  }

  /** A visit that changes neither the EXEC slots nor the semaphores changes nothing else. */
  lemma UnchangedVisit(s: State, s': State)
    requires VisitedExec(s, s') && s'.exec == s.exec && s'.init == s.init
    ensures s' == s.(position := AfterExec(s.position.slot, |s.exec|))
  {
    var i := s.position.slot;
    assert s'.exec[i] == s.exec[i];
    assert i < |s.init| ==> s'.init[i] == s.init[i];
  }

  lemma HandshakeVisitReady(s: State, s': State)
    requires Handshake(s) && VisitedReady(s, s')
    ensures Handshake(s')
  {
    hide Handshake;
    var slot := s.toReady[s.position.slot];
    if slot.Some? { HandshakeRelease(s, slot.value, s'); } else { HandshakePass(s, s'); }
  }

  /** The scheduler leaves an empty to-ready slot behind. */
  lemma HandshakePass(s: State, s': State)
    requires Handshake(s) && s.position.AtReady? && s.position.slot < |s.toReady| && s.toReady[s.position.slot] == None
    requires s' == s.(position := AfterReady(s.position.slot, |s.toReady|))
    ensures Handshake(s')
  {
  }

  /** A flagged PCB is released from the slot that it alone occupies. */
  lemma HandshakeRelease(s: State, p: Address, s': State)
    requires Handshake(s) && s.position.AtReady? && s.position.slot < |s.toReady| && s.toReady[s.position.slot] == Some(p)
    requires VisitedReady(s, s')
    ensures Handshake(s')
  {
    var i := s.position.slot;
    assert s.toReady[i] in s.toReady;
    assert s.pcbs[p].recentlyReady;
    Take(s.toReady, i);
    assert s'.toReady == s.toReady[i := None] && s'.exec == s.exec && s'.pcbs == s.pcbs[p := s.pcbs[p].(recentlyReady := false)];
  }

  lemma HandshakeTurn(quantum: nat, s: State, i: nat, s': State)
    requires Conserved(s) && Handshake(s) && Turned(quantum, s, i, s') && !s.pcbs[s.exec[i].value].recentlyExec
    ensures Handshake(s') && s.toReady[i] == None
  {
    var p := s.exec[i].value;
    assert Some(p) in s.exec;
    assert Some(p) !in s.toReady;
    Take(s.toReady, i);
    Put(s.toReady, i, p);
    assert s.toReady[i := None] == s.toReady;
  }

  lemma HandshakeKept(quantum: nat, s: State, event: Event, s': State)
    requires Conserved(s) && Handshake(s) && Next(quantum, s, event, s')
    requires event.Turn? ==> !s.pcbs[s.exec[event.slot].value].recentlyExec
    ensures Handshake(s')
  {
    hide Conserved, Handshake, Generated, Removed, Cleared;
    match event
    case Submit(p, _) => HandshakeSubmit(s, p, s'.pcbs[p], s');
    case Retire => HandshakeRetire(s, s');
    case VisitExec => HandshakeVisitExec(s, s');
    case VisitReady => HandshakeVisitReady(s, s');
    case Turn(i) => HandshakeTurn(quantum, s, i, s');
    case Admit => HandshakeAdmit(s, s');
    case _ => HandshakeSame(s, s');
  }

  lemma HandshakeAdmit(s: State, s': State)
    requires Conserved(s) && Handshake(s) && Admitted(s, s')
    ensures Handshake(s')
  {
    assert s.created[0] in s.created;
    HandshakeSame(s, s');
  }

  // ---------- Workers ----------

  /** The part of a state that belongs to slot k is the same. */
  ghost predicate SameSlot(s: State, s': State, k: nat)
    requires Lengths(s) && Lengths(s') && k < |s.exec| == |s'.exec|
  {
    && s'.exec[k] == s.exec[k] && s'.init[k] == s.init[k] && s'.done[k] == s.done[k] && s'.busy[k] == s.busy[k]
    && s'.pending[k] == s.pending[k]
    && (s.exec[k].Some? ==> s.exec[k].value in s.pcbs && s.exec[k].value in s'.pcbs
                            && s'.pcbs[s.exec[k].value] == s.pcbs[s.exec[k].value])
  }

  predicate Settled(pcb: Pcb) { (pcb.state in {NEW, READY} ==> Fresh(pcb)) && (pcb.state == EXIT ==> Done(pcb)) }

  lemma SlotSame(quantum: nat, s: State, s': State, k: nat)
    requires Lengths(s) && Lengths(s') && k < |s.exec| == |s'.exec| && SlotOk(quantum, s, k) && SameSlot(s, s', k)
    ensures SlotOk(quantum, s', k)
  {
    hide Fresh, Done;
  }

  /** Where nothing happens on the EXEC slots. */
  lemma ExecutingSame(quantum: nat, s: State, s': State)
    requires Executing(quantum, s) && Lengths(s') && |s'.exec| == |s.exec|
    requires forall k :: 0 <= k < |s.exec| ==> SameSlot(s, s', k)
    requires forall p :: p in s'.pcbs ==> Settled(s'.pcbs[p])
    ensures Executing(quantum, s')
  {
    hide SameSlot, SlotOk, Fresh, Done;
    forall k | 0 <= k < |s'.exec| ensures SlotOk(quantum, s', k) { SlotSame(quantum, s, s', k); }
  }

  /** One PCB changes that is on no slot, or appears, or disappears. */
  lemma ExecutingElsewhere(quantum: nat, s: State, p: Address, s': State)
    requires Executing(quantum, s) && Conserved(s) && Some(p) !in s.exec && (p in s'.pcbs ==> Settled(s'.pcbs[p]))
    requires s'.exec == s.exec && s'.init == s.init && s'.done == s.done && s'.busy == s.busy && s'.pending == s.pending
    requires |s'.toReady| == |s.toReady|
    requires forall q :: q != p ==> (q in s'.pcbs <==> q in s.pcbs) && (q in s.pcbs ==> s'.pcbs[q] == s.pcbs[q])
    ensures Executing(quantum, s')
  {
    hide SlotOk, Fresh, Done;
    forall k | 0 <= k < |s.exec| ensures SameSlot(s, s', k) { assert s.exec[k] in s.exec; }
    ExecutingSame(quantum, s, s');
  }

  /** One slot changes, and with it at most the PCB that is on it before or after. */
  lemma ExecutingAt(quantum: nat, s: State, i: nat, p: Address, s': State)
    requires Executing(quantum, s) && Conserved(s) && i < |s.exec| && (s.exec[i] == Some(p) || Some(p) !in s.exec)
    requires Lengths(s') && |s'.exec| == |s.exec| && p in s.pcbs && p in s'.pcbs && s'.pcbs == s.pcbs[p := s'.pcbs[p]]
    requires forall k :: 0 <= k < |s.exec| && k != i ==>
               s'.exec[k] == s.exec[k] && s'.init[k] == s.init[k] && s'.done[k] == s.done[k] && s'.busy[k] == s.busy[k]
               && s'.pending[k] == s.pending[k]
    requires SlotOk(quantum, s', i) && Settled(s'.pcbs[p])
    ensures Executing(quantum, s')
  {
    hide SlotOk, Fresh, Done;
    forall k | 0 <= k < |s.exec| ensures SlotOk(quantum, s', k) {
      if k != i {
        assert s.exec[k] in s.exec && s.exec[i] in s.exec;
        SlotSame(quantum, s, s', k);
      }
    }
  }

  lemma ExecutingVisit(quantum: nat, s: State, s': State)
    requires Executing(quantum, s) && Conserved(s) && VisitedExec(s, s') && quantum >= 1
    ensures Executing(quantum, s')
  {
    var i := s.position.slot;
    assert SlotOk(quantum, s, i);
    if s'.exec != s.exec {
      var p := s.ready[0];
      assert p in s.ready;
      ExecutingAt(quantum, s, i, p, s');
    } else if s'.init != s.init {
      ExecutingAt(quantum, s, i, s.exec[i].value, s');
    } else {
      UnchangedVisit(s, s');
      forall k | 0 <= k < |s.exec| ensures SameSlot(s, s', k) { assert SlotOk(quantum, s, k); }
      ExecutingSame(quantum, s, s');
    }
  }

  lemma ExecutingStart(quantum: nat, s: State, i: nat, s': State)
    requires Executing(quantum, s) && Conserved(s) && Started(s, i, s')
    ensures Executing(quantum, s')
  {
    assert SlotOk(quantum, s, i);
    var p := s.exec[i].value;
    assert s.exec[i] in s.exec;
    var pcb := s.pcbs[p];
    assert pcb.statements[..pcb.counter] + [pcb.statements[pcb.counter]] == pcb.statements[..pcb.counter + 1];
    ExecutingAt(quantum, s, i, p, s');
  }

  lemma ExecutingCallback(quantum: nat, s: State, i: nat, ok: bool, s': State)
    requires Executing(quantum, s) && Conserved(s) && CalledBack(s, i, ok, s')
    ensures Executing(quantum, s') && s.exec[i] == s.pending[i] && s.pcbs[s.pending[i].value].processor == i
  {
    assert SlotOk(quantum, s, i);
    var p := s.exec[i].value;
    assert s.exec[i] in s.exec;
    ExecutingAt(quantum, s, i, p, s');
  }

  lemma ExecutingTurn(quantum: nat, s: State, i: nat, s': State)
    requires Executing(quantum, s) && Conserved(s) && Turned(quantum, s, i, s')
    ensures Executing(quantum, s') && !s.pcbs[s.exec[i].value].recentlyExec
  {
    assert SlotOk(quantum, s, i);
    var p := s.exec[i].value;
    assert s.exec[i] in s.exec;
    ExecutingAt(quantum, s, i, p, s');
  }

  lemma ExecutingKept(quantum: nat, s: State, event: Event, s': State)
    requires Executing(quantum, s) && Conserved(s) && Handshake(s) && Next(quantum, s, event, s') && quantum >= 1
    ensures Executing(quantum, s')
  {
    hide SlotOk, Generated, Removed, Cleared, Handshake;
    match event
    case Submit(p, _) => ExecutingElsewhere(quantum, s, p, s');
    case Admit =>
      assert s.created[0] in s.created;
      ExecutingElsewhere(quantum, s, s.created[0], s');
    case Retire =>
      assert s.exit[0] in s.exit;
      ExecutingElsewhere(quantum, s, s.exit[0], s');
    case Wake => ExecutingIdle(quantum, s, s');
    case VisitExec => ExecutingVisit(quantum, s, s');
    case VisitReady => ExecutingRelease(quantum, s, s');
    case Start(i) => ExecutingStart(quantum, s, i, s');
    case Callback(i, ok) => ExecutingCallback(quantum, s, i, ok, s');
    case Turn(i) => ExecutingTurn(quantum, s, i, s');
  }

  lemma ExecutingIdle(quantum: nat, s: State, s': State)
    requires Executing(quantum, s) && s' == s.(position := s'.position, sts := s'.sts)
    ensures Executing(quantum, s')
  {
    hide Fresh, Done;
    forall k | 0 <= k < |s.exec| ensures SameSlot(s, s', k) { assert SlotOk(quantum, s, k); }
    ExecutingSame(quantum, s, s');
  }

  lemma ExecutingRelease(quantum: nat, s: State, s': State)
    requires Executing(quantum, s) && Conserved(s) && Handshake(s) && VisitedReady(s, s')
    ensures Executing(quantum, s')
  {
    hide SlotOk;
    var slot := s.toReady[s.position.slot];
    assert slot in s.toReady;
    if slot.Some? {
      ExecutingElsewhere(quantum, s, slot.value, s');
    } else {
      ExecutingIdle(quantum, s, s');
    }
  }

  // ---------- Signals ----------

  /** The short-term scheduler has been signalled. */
  lemma AwakeSignalled(s: State, s': State)
    requires Awake(s) && s'.sts == 1 && s'.lts == |s'.created| + |s'.exit| && |s'.toReady| == |s'.exec| == |s.exec|
    requires s'.position == s.position ||
             (s.position.AtExec? && s'.position == AfterExec(s.position.slot, |s.exec|)) ||
             (s.position.AtReady? && s'.position == AfterReady(s.position.slot, |s.exec|))
    ensures Awake(s')
  {
  }

  /** Nothing that the short-term scheduler looks at has changed. */
  lemma AwakeSame(s: State, s': State)
    requires Awake(s) && s'.sts == s.sts && s'.position == s.position && s'.lts == |s'.created| + |s'.exit|
    requires s'.exec == s.exec && s'.toReady == s.toReady && s'.ready == s.ready
    requires forall p :: p in s.pcbs && (Some(p) in s.exec || p in s.ready) ==>
               p in s'.pcbs && s'.pcbs[p].recentlyReady == s.pcbs[p].recentlyReady && s'.pcbs[p].recentlyExec == s.pcbs[p].recentlyExec
    ensures Awake(s')
  {
    forall i | 0 <= i < |s.exec| && Calm(s, i) ensures Calm(s', i) { assert s.exec[i] in s.exec; }
  }

  /** The short-term scheduler goes on from an EXEC slot that is calm by then. */
  lemma AwakePast(s: State, s': State)
    requires Awake(s) && s.position.AtExec? && s'.position == AfterExec(s.position.slot, |s.exec|) && s'.sts == s.sts
    requires s'.lts == s.lts && s'.created == s.created && s'.exit == s.exit
    requires s'.exec == s.exec && s'.toReady == s.toReady && s'.ready == s.ready && Calm(s', s.position.slot)
    requires forall i :: 0 <= i < |s.exec| && Calm(s, i) ==> Calm(s', i)
    ensures Awake(s')
  {
    hide Calm;
  }

  lemma AwakeVisitExec(quantum: nat, s: State, s': State)
    requires Awake(s) && Conserved(s) && Executing(quantum, s) && VisitedExec(s, s')
    ensures Awake(s')
  {
    hide Awake, SlotOk;
    var i := s.position.slot;
    if s'.exec != s.exec {
      AwakeSignalled(s, s') by { FillSignals(s, s'); }
    } else {
      assert s'.exec[i] == s.exec[i];
      if s.ready != [] { assert s.ready[0] in s.ready; }
      if s.exec[i].Some? { assert s.exec[i] in s.exec; }
      AwakePast(s, s');
    }
  }

  lemma FillSignals(s: State, s': State)
    requires Awake(s) && VisitedExec(s, s') && s'.exec != s.exec
    ensures s'.sts == 1 && s'.lts == |s'.created| + |s'.exit| && |s'.toReady| == |s'.exec| == |s.exec|
  {
    hide Calm;
  }

  lemma AwakeVisitReady(s: State, s': State)
    requires Awake(s) && Handshake(s) && VisitedReady(s, s')
    ensures Awake(s')
  {
    var i := s.position.slot;
    assert s.toReady[i] in s.toReady;
    if s.toReady[i].Some? {
      AwakeSignalled(s, s');
    } else {
      assert forall k :: 0 <= k < |s.exec| ==> Calm(s, k) == Calm(s', k);
    }
  }

  lemma AwakeTurn(quantum: nat, s: State, i: nat, s': State)
    requires Awake(s) && Conserved(s) && Turned(quantum, s, i, s')
    ensures Awake(s')
  {
    hide Awake;
    if s'.exec != s.exec {
      TurnSignals(quantum, s, i, s');
      AwakeSignalled(s, s');
    } else {
      assert s'.exec[i] == s.exec[i];
      AwakeSame(s, s') by { SameSignals(s); }
    }
  }

  lemma TurnSignals(quantum: nat, s: State, i: nat, s': State)
    requires Awake(s) && Turned(quantum, s, i, s') && s'.exec != s.exec
    ensures s'.sts == 1 && s'.lts == |s'.created| + |s'.exit| && |s'.toReady| == |s'.exec| == |s.exec|
  {
    hide Calm;
  }

  lemma SameSignals(s: State)
    requires Awake(s)
    ensures s.lts == |s.created| + |s.exit| && s.sts <= 1
  {
  }

  lemma AwakeKept(quantum: nat, s: State, event: Event, s': State)
    requires Awake(s) && Conserved(s) && Handshake(s) && Executing(quantum, s) && Next(quantum, s, event, s')
    ensures Awake(s')
  {
    hide Awake, SlotOk, Generated, Removed, Cleared, Handshake, Fresh, Done;
    SameSignals(s);
    match event
    case Submit(_, _) => AwakeSame(s, s');
    case Admit => AwakeSignalled(s, s') by { assert |s.toReady| == |s.exec|; }
    case Retire =>
      RetireClearsNothing(s, s');
      assert s.exit[0] in s.exit;
      AwakeSame(s, s');
    case Wake => AwakeWake(s, s');
    case VisitExec => AwakeVisitExec(quantum, s, s');
    case VisitReady => AwakeVisitReady(s, s');
    case Start(_) => AwakeSame(s, s');
    case Callback(_, _) => AwakeSame(s, s');
    case Turn(i) => AwakeTurn(quantum, s, i, s');
  }

  lemma AwakeWake(s: State, s': State)
    requires Awake(s) && Woken(s, s')
    ensures Awake(s')
  {
  }

  // ---------- Every run ----------

  /** Every step of the schedulers, the workers and the callbacks keeps the invariant. */
  lemma StepKeeps(quantum: nat, s: State, event: Event, s': State)
    requires quantum >= 1 && Inv(quantum, s) && Next(quantum, s, event, s')
    ensures Inv(quantum, s')
  {
    hide Conserved, Identified, Handshake, Executing, Awake, Next;
    ConservedKept(quantum, s, event, s');
    IdentifiedKept(quantum, s, event, s');
    if event.Turn? { TurnIsStarted(quantum, s, event.slot, s'); }
    HandshakeKept(quantum, s, event, s');
    ExecutingKept(quantum, s, event, s');
    AwakeKept(quantum, s, event, s');
  }

  lemma TurnIsStarted(quantum: nat, s: State, i: nat, s': State)
    requires Executing(quantum, s) && Conserved(s) && Next(quantum, s, Turn(i), s')
    ensures !s.pcbs[s.exec[i].value].recentlyExec
  {
    ExecutingTurn(quantum, s, i, s');
  }

  lemma InitialInv(quantum: nat, n: nat)
    ensures Inv(quantum, Initial(n))
  {
  }

  ghost predicate IsRun(quantum: nat, states: seq<State>, events: seq<Event>)
  {
    |states| == |events| + 1 && forall i :: 0 <= i < |events| ==> Next(quantum, states[i], events[i], states[i + 1])
  }

  /** The invariant holds throughout every run. */
  lemma {:induction false} RunKeeps(quantum: nat, states: seq<State>, events: seq<Event>, i: nat)
    requires quantum >= 1 && IsRun(quantum, states, events) && Inv(quantum, states[0]) && i < |states|
    ensures Inv(quantum, states[i]) && |states[i].exec| == |states[0].exec|
  {
    hide Inv, Next;
    if i > 0 {
      RunKeeps(quantum, states, events, i - 1);
      StepKeeps(quantum, states[i - 1], events[i - 1], states[i]);
      SlotsStay(quantum, states[i - 1], events[i - 1], states[i]);
    }
  }

  lemma SlotsStay(quantum: nat, s: State, event: Event, s': State)
    requires Next(quantum, s, event, s')
    ensures |s'.exec| == |s.exec|
  {
  }
}
