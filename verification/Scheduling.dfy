/**
  The kernel's scheduler as a state machine. PCBs live at addresses; NEW, READY, the EXEC slots and EXIT
  hold addresses. The short-term scheduler, the long-term scheduler, one worker per EXEC slot and the
  callbacks of requests interleave; every event is one of their steps between two waits or yields.
 */
module Scheduling {
  import opened Options
  import opened Pids

  type Address = nat
  type Statement = string

  datatype Status = NEW | READY | EXEC | EXIT

  /**
    The last two fields are histories: the statements issued so far, and how many had been issued when the
    current turn on an EXEC slot began.
   */
  datatype Pcb = Pcb(pid: nat, state: Status, counter: nat, quantum: nat, statements: seq<Statement>, errors: bool,
                     recentlyReady: bool, recentlyExec: bool, processor: nat, ran: seq<Statement>, start: nat)

  /** Where the short-term scheduler stands: asleep, about to visit an EXEC slot, or about to visit a to-ready slot. */
  datatype Position = Asleep | AtExec(slot: nat) | AtReady(slot: nat)

  /**
    exec, toReady, init, done, busy and pending have one entry per EXEC slot: init and done are the values of
    the slot's two semaphores, busy says that the worker is past the first of them, and pending is the PCB
    of a request that has not called back. sts and lts are the values of the schedulers' semaphores.
   */
  datatype State = State(
    pcbs: map<Address, Pcb>, ids: seq<nat>, created: seq<Address>, ready: seq<Address>, exec: seq<Option<Address>>,
    exit: seq<Address>, toReady: seq<Option<Address>>, init: seq<nat>, done: seq<nat>, busy: seq<bool>,
    pending: seq<Option<Address>>, position: Position, sts: nat, lts: nat)

  datatype Event =
    | Submit(address: Address, statements: seq<Statement>)
    | Admit
    | Retire
    | Wake
    | VisitExec
    | VisitReady
    | Start(slot: nat)
    | Callback(slot: nat, ok: bool)
    | Turn(slot: nat)

  // ---------- Steps ----------

  function Signalled(sts: nat): nat { if sts == 0 then 1 else sts }

  function AfterExec(i: nat, n: nat): Position { if i + 1 < n then AtExec(i + 1) else AtReady(0) }

  function AfterReady(i: nat, n: nat): Position { if i + 1 < n then AtReady(i + 1) else Asleep }

  function NewPcb(pid: nat, statements: seq<Statement>): Pcb
  {
    Pcb(pid, NEW, 0, 0, statements, false, false, false, 0, [], 0)
  }

  /** The slots without the first occurrence of p. */
  function Cleared(slots: seq<Option<Address>>, p: Address): (r: seq<Option<Address>>)
    ensures |r| == |slots|
  {
    if slots == [] then [] else if slots[0] == Some(p) then [None] + slots[1..] else [slots[0]] + Cleared(slots[1..], p)
  }

  /** A new PCB in NEW. */
  ghost predicate Submitted(s: State, p: Address, statements: seq<Statement>, s': State)
  {
    && p !in s.pcbs && statements != []
    && (exists pid: nat :: Generated(s.ids, pid, s'.ids) && s'.pcbs == s.pcbs[p := NewPcb(pid, statements)])
    && s' == s.(pcbs := s'.pcbs, ids := s'.ids, created := s.created + [p], lts := s.lts + 1)
  }

  /** The long-term scheduler moves the first of NEW to READY. */
  ghost predicate Admitted(s: State, s': State)
  {
    && s.lts > 0 && s.created != [] && s.created[0] in s.pcbs
    && var p := s.created[0];
       s' == s.(pcbs := s.pcbs[p := s.pcbs[p].(state := READY)], created := s.created[1..], ready := s.ready + [p],
                sts := Signalled(s.sts), lts := s.lts - 1)
  }

  /** With NEW empty, the long-term scheduler deletes the first of EXIT. */
  ghost predicate Retired(s: State, s': State)
  {
    && s.lts > 0 && s.created == [] && s.exit != [] && s.exit[0] in s.pcbs
    && var p := s.exit[0];
       && Removed(s.ids, s.pcbs[p].pid, s'.ids)
       && s' == s.(pcbs := s.pcbs - {p}, ids := s'.ids, exit := s.exit[1..], toReady := Cleared(s.toReady, p), lts := s.lts - 1)
  }

  ghost predicate Woken(s: State, s': State)
  {
    s.position == Asleep && s.sts > 0 && s' == s.(position := if |s.exec| == 0 then Asleep else AtExec(0), sts := s.sts - 1)
  }

  /** The short-term scheduler visits an EXEC slot: fills it, starts its worker, or leaves it. */
  ghost predicate VisitedExec(s: State, s': State)
  {
    && s.position.AtExec? && s.position.slot < |s.exec|
    && var i := s.position.slot;
       var next := AfterExec(i, |s.exec|);
       match s.exec[i]
       case None =>
         if s.ready != [] && s.ready[0] in s.pcbs && !s.pcbs[s.ready[0]].recentlyReady then
           var p := s.ready[0];
           s' == s.(pcbs := s.pcbs[p := s.pcbs[p].(state := EXEC, quantum := 0, recentlyExec := true, start := s.pcbs[p].counter)],
                    ready := s.ready[1..], exec := s.exec[i := Some(p)], sts := Signalled(s.sts), position := next)
         else s' == s.(position := next)
       case Some(p) =>
         && p in s.pcbs
         && if s.pcbs[p].recentlyExec then
              && i < |s.init|
              && s' == s.(pcbs := s.pcbs[p := s.pcbs[p].(processor := i, quantum := s.pcbs[p].quantum + 1, recentlyExec := false)],
                          init := s.init[i := s.init[i] + 1], position := next)
            else s' == s.(position := next)
  }

  /** The short-term scheduler visits a to-ready slot: a flagged PCB is released. */
  ghost predicate VisitedReady(s: State, s': State)
  {
    && s.position.AtReady? && s.position.slot < |s.toReady|
    && var i := s.position.slot;
       var next := AfterReady(i, |s.toReady|);
       match s.toReady[i]
       case None => s' == s.(position := next)
       case Some(p) =>
         && p in s.pcbs
         && if s.pcbs[p].recentlyReady then
              s' == s.(pcbs := s.pcbs[p := s.pcbs[p].(recentlyReady := false)], toReady := s.toReady[i := None],
                       sts := Signalled(s.sts), position := next)
            else s' == s.(position := next)
  }

  /** A worker passes its first semaphore and issues the next statement of its PCB. */
  ghost predicate Started(s: State, i: nat, s': State)
  {
    && i < |s.exec| == |s.init| == |s.busy| == |s.pending| && s.init[i] > 0 && !s.busy[i]
    && s.exec[i].Some? && s.exec[i].value in s.pcbs
    && var p := s.exec[i].value;
       && s.pcbs[p].counter < |s.pcbs[p].statements|
       && s' == s.(pcbs := s.pcbs[p := s.pcbs[p].(ran := s.pcbs[p].ran + [s.pcbs[p].statements[s.pcbs[p].counter]])],
                   init := s.init[i := s.init[i] - 1], busy := s.busy[i := true], pending := s.pending[i := Some(p)])
  }

  /** A PCB after a statement: post_exec_statement and the error exits of exec_remote. */
  function AfterStatement(pcb: Pcb, ok: bool): Pcb
  {
    var errors := pcb.errors || !ok;
    pcb.(errors := errors, counter := if errors then |pcb.statements| else pcb.counter + 1)
  }

  /** A statement ends: its PCB advances, or gives up, and the worker of its processor is signalled. */
  ghost predicate CalledBack(s: State, i: nat, ok: bool, s': State)
  {
    && i < |s.pending| && s.pending[i].Some? && s.pending[i].value in s.pcbs
    && var p := s.pending[i].value;
       var processor := s.pcbs[p].processor;
       && processor < |s.done|
       && s' == s.(pcbs := s.pcbs[p := AfterStatement(s.pcbs[p], ok)], pending := s.pending[i := None],
                   done := s.done[processor := s.done[processor] + 1])
  }

  /** A worker passes its second semaphore: its PCB is finished, has used up its quantum, or goes on. */
  ghost predicate Turned(quantum: nat, s: State, i: nat, s': State)
  {
    && i < |s.exec| == |s.init| == |s.busy| == |s.done| == |s.toReady| && s.busy[i] && s.done[i] > 0
    && s.exec[i].Some? && s.exec[i].value in s.pcbs
    && var p := s.exec[i].value;
       var pcb := s.pcbs[p];
       var woken := s.(busy := s.busy[i := false], done := s.done[i := s.done[i] - 1]);
       if pcb.counter >= |pcb.statements| then
         s' == woken.(pcbs := s.pcbs[p := pcb.(state := EXIT)], exec := s.exec[i := None], exit := s.exit + [p],
                      toReady := s.toReady[i := None], sts := Signalled(s.sts), lts := s.lts + 1)
       else if pcb.quantum >= quantum then
         s' == woken.(pcbs := s.pcbs[p := pcb.(state := READY, recentlyReady := true)], exec := s.exec[i := None],
                      ready := s.ready + [p], toReady := s.toReady[i := Some(p)], sts := Signalled(s.sts))
       else
         s' == woken.(pcbs := s.pcbs[p := pcb.(processor := i, quantum := pcb.quantum + 1)], init := s.init[i := s.init[i] + 1])
  }

  ghost predicate Next(quantum: nat, s: State, event: Event, s': State)
  {
    match event
    case Submit(p, statements) => Submitted(s, p, statements, s')
    case Admit => Admitted(s, s')
    case Retire => Retired(s, s')
    case Wake => Woken(s, s')
    case VisitExec => VisitedExec(s, s')
    case VisitReady => VisitedReady(s, s')
    case Start(i) => Started(s, i, s')
    case Callback(i, ok) => CalledBack(s, i, ok, s')
    case Turn(i) => Turned(quantum, s, i, s')
  }

  /** setup_scheduler_queues. */
  function Initial(n: nat): State
  {
    var none := seq(n, _ => None);
    State(map[], [], [], [], none, [], none, seq(n, _ => 0), seq(n, _ => 0), seq(n, _ => false), none, Asleep, 0, 0)
  }

  // ---------- The invariant ----------

  predicate NoDupSlots(q: seq<Option<Address>>) { forall i, j :: 0 <= i < j < |q| && q[i].Some? ==> q[i] != q[j] }

  /** Every live PCB is in exactly one queue, once, and its state names that queue. */
  ghost predicate Conserved(s: State)
  {
    && NoDup(s.created) && NoDup(s.ready) && NoDup(s.exit) && NoDupSlots(s.exec)
    && (forall p :: p in s.created <==> p in s.pcbs && s.pcbs[p].state == NEW)
    && (forall p :: p in s.ready <==> p in s.pcbs && s.pcbs[p].state == READY)
    && (forall p :: Some(p) in s.exec <==> p in s.pcbs && s.pcbs[p].state == EXEC)
    && (forall p :: p in s.exit <==> p in s.pcbs && s.pcbs[p].state == EXIT)
  }

  /** The identifiers in use are those of the live PCBs, which are distinct. */
  ghost predicate Identified(s: State)
  {
    && Increasing(s.ids) && (forall p :: p in s.pcbs ==> s.pcbs[p].pid in s.ids)
    && (forall p, q :: p in s.pcbs && q in s.pcbs && p != q ==> s.pcbs[p].pid != s.pcbs[q].pid)
    && (forall id :: id in s.ids ==> exists p :: p in s.pcbs && s.pcbs[p].pid == id)
  }

  /** The short-term scheduler has visited EXEC slot i in this pass, and not yet the to-ready slot i. */
  predicate Between(position: Position, i: nat)
  {
    (position.AtExec? && position.slot > i) || (position.AtReady? && position.slot <= i)
  }

  /** A PCB is flagged iff it sits in exactly one to-ready slot; a slot whose worker was started is empty. */
  ghost predicate Handshake(s: State)
  {
    && |s.toReady| == |s.exec| && NoDupSlots(s.toReady)
    && (forall p :: Some(p) in s.toReady <==> p in s.pcbs && s.pcbs[p].recentlyReady)
    && (forall p :: p in s.pcbs && s.pcbs[p].recentlyReady ==> s.pcbs[p].state == READY)
    && (forall p :: p in s.pcbs && s.pcbs[p].recentlyExec ==> s.pcbs[p].state == EXEC)
    && (forall i :: 0 <= i < |s.exec| && s.exec[i].Some? && s.toReady[i].Some? ==>
          s.exec[i].value in s.pcbs && s.pcbs[s.exec[i].value].recentlyExec && Between(s.position, i))
  }

  /** A worker that has not been started, and nothing under way that could start it. */
  predicate Quiet(s: State, i: nat)
    requires i < |s.init| == |s.done| == |s.busy| == |s.pending|
  {
    s.init[i] == 0 && s.done[i] == 0 && !s.busy[i] && s.pending[i] == None
  }

  /** What is under way for a PCB on slot i: its worker is signalled, has a request pending, or was called back. */
  ghost predicate Running(quantum: nat, s: State, i: nat, pcb: Pcb, p: Address)
    requires i < |s.init| == |s.done| == |s.busy| == |s.pending|
  {
    && pcb.processor == i && 1 <= pcb.quantum <= quantum
    && if s.init[i] > 0 then
         s.init[i] == 1 && s.done[i] == 0 && !s.busy[i] && s.pending[i] == None && Fresh(pcb) && |pcb.ran| + 1 == pcb.start + pcb.quantum
       else if s.pending[i].Some? then
         && s.pending[i] == Some(p) && s.done[i] == 0 && s.busy[i] && !pcb.errors && pcb.counter < |pcb.statements|
         && pcb.ran == pcb.statements[..pcb.counter + 1] && |pcb.ran| == pcb.start + pcb.quantum
       else
         s.done[i] == 1 && s.busy[i] && (Fresh(pcb) || Done(pcb)) && |pcb.ran| == pcb.start + pcb.quantum
  }

  /** A PCB with statements left, which has issued exactly those before its counter. */
  predicate Fresh(pcb: Pcb) { !pcb.errors && pcb.counter < |pcb.statements| && pcb.ran == pcb.statements[..pcb.counter] }

  /** A PCB that issued all its statements, or those up to one that failed. */
  predicate Done(pcb: Pcb)
  {
    pcb.counter == |pcb.statements| && pcb.ran <= pcb.statements && (pcb.errors || pcb.ran == pcb.statements)
  }

  ghost predicate Lengths(s: State)
  {
    |s.exec| == |s.init| == |s.done| == |s.busy| == |s.pending| == |s.toReady|
  }

  ghost predicate SlotOk(quantum: nat, s: State, i: nat)
    requires Lengths(s) && i < |s.exec|
  {
    match s.exec[i]
    case None => Quiet(s, i)
    case Some(p) =>
      && p in s.pcbs
      && if s.pcbs[p].recentlyExec then Quiet(s, i) && s.pcbs[p].quantum == 0 && Fresh(s.pcbs[p]) && s.pcbs[p].start == |s.pcbs[p].ran|
         else Running(quantum, s, i, s.pcbs[p], p)
  }

  ghost predicate Executing(quantum: nat, s: State)
  {
    && Lengths(s) && (forall i :: 0 <= i < |s.exec| ==> SlotOk(quantum, s, i))
    && (forall p :: p in s.pcbs && s.pcbs[p].state in {NEW, READY} ==> Fresh(s.pcbs[p]))
    && (forall p :: p in s.pcbs && s.pcbs[p].state == EXIT ==> Done(s.pcbs[p]))
  }

  /** A slot that asks nothing of the short-term scheduler for now. */
  ghost predicate Calm(s: State, i: nat)
    requires i < |s.exec|
  {
    match s.exec[i]
    case None => s.ready == [] || (s.ready[0] in s.pcbs && s.pcbs[s.ready[0]].recentlyReady)
    case Some(p) => p in s.pcbs && !s.pcbs[p].recentlyExec
  }

  /** The long-term scheduler has one signal per PCB to move. The short-term one has a signal unless all it has visited is calm. */
  ghost predicate Awake(s: State)
  {
    && s.lts == |s.created| + |s.exit| && s.sts <= 1 && |s.toReady| == |s.exec|
    && (s.position.AtExec? ==> s.position.slot < |s.exec|)
    && (s.position.AtReady? ==> s.position.slot < |s.exec|)
    && (s.sts == 0 ==>
          && (forall i :: 0 <= i < |s.exec| && (s.position.AtExec? ==> i < s.position.slot) ==> Calm(s, i))
          && (forall i :: 0 <= i < |s.exec| && !s.position.AtExec? && (s.position.AtReady? ==> i < s.position.slot) ==> s.toReady[i] == None))
  }

  ghost predicate Inv(quantum: nat, s: State)
  {
    Conserved(s) && Identified(s) && Handshake(s) && Executing(quantum, s) && Awake(s)
  }
}
