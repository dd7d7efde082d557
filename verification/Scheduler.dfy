/** The kernel's queues and the steps of its threads. */
module Schedulers {
  import opened Options
  import opened Pids
  import opened Scheduling
  import opened SchedulingSafety

  /** list_remove followed by list_add_in_index at the same position. */
  function Replace<T>(q: seq<T>, i: nat, x: T): (r: seq<T>)
    requires i < |q|
    ensures r == q[i := x]
  {
    var removed := q[..i] + q[i + 1..];
    removed[..i] + [x] + removed[i..]
  }

  class Scheduler {
    const quantum: nat
    const processIds: ProcessIds
    /** The PCBs, g_scheduler_queues and the other variables that the threads share. */
    var now: State

    ghost predicate Valid()
      reads this, processIds
    {
      quantum >= 1 && Inv(quantum, now) && now.ids == processIds.ids
    }

    /** setup_scheduler_queues, and the empty to-ready slots of short_term_schedule. */
    constructor (multiprocessing: nat, quantum: nat)
      requires quantum >= 1
      ensures Valid() && this.quantum == quantum && fresh(processIds) && now == Initial(multiprocessing)
    {
      hide Inv;
      this.quantum := quantum;
      processIds := new ProcessIds();
      var none: seq<Option<Address>>, zeros: seq<nat>, idle: seq<bool> := [], [], [];
      for i := 0 to multiprocessing
        invariant none == seq(i, _ => None) && zeros == seq(i, _ => 0) && idle == seq(i, _ => false)
      {
        none, zeros, idle := none + [None], zeros + [0], idle + [false];
      }
      now := State(map[], [], [], [], none, [], none, zeros, zeros, idle, none, Asleep, 0, 0);
      new;
      ghost var start := Initial(multiprocessing);
      assert none == start.exec && zeros == start.init && idle == start.busy;
      InitialInv(quantum, multiprocessing);
    }

    /** get_new_pcb with the statements of a script, at the address that the allocator returned. */
    method Submit(address: Address, statements: seq<Statement>)
      requires Valid() && address !in now.pcbs && statements != []
      modifies this, processIds
      ensures Valid() && Next(quantum, old(now), Event.Submit(address, statements), now)
      ensures now.created == old(now.created) + [address] && address in now.pcbs
      ensures now.pcbs[address].statements == statements && now.pcbs[address].state == NEW && now.pcbs[address].ran == [] && !now.pcbs[address].errors
    {
      hide Inv;
      ghost var s := now;
      IncreasingIds(quantum, now);
      var pid := processIds.Generate();
      now := now.(pcbs := now.pcbs[address := NewPcb(pid, statements)], ids := processIds.ids);
      now := now.(created := now.created + [address]);
      now := now.(lts := now.lts + 1);
      assert Next(quantum, s, Event.Submit(address, statements), now);
      StepKeeps(quantum, s, Event.Submit(address, statements), now);
    }

    /** The to-ready slots without the first occurrence of a PCB. */
    method ClearSlot(slots: seq<Option<Address>>, p: Address) returns (slots': seq<Option<Address>>)
      ensures slots' == Cleared(slots, p)
    {
      hide Cleared;
      slots' := slots;
      var i := 0;
      while i < |slots|
        invariant i <= |slots| && slots' == slots && forall k :: 0 <= k < i ==> slots[k] != Some(p)
      {
        if slots[i] == Some(p) {
          ClearedAt(slots, p, i);
          slots' := slots'[i := None];
          return;
        }
        i := i + 1;
      }
      ClearedAt(slots, p, i);
    }

    /** One round of long_term_schedule: NEW comes before EXIT. */
    method LongTermSchedule()
      requires Valid() && now.lts > 0
      modifies this, processIds
      ensures Valid() && Next(quantum, old(now), if old(now).created != [] then Admit else Retire, now)
    {
      hide Inv, Removed, Cleared;
      ghost var s := now;
      LongTermFacts(quantum, now);
      now := now.(lts := now.lts - 1);
      if |now.created| > 0 {
        var p := now.created[0];
        now := now.(pcbs := now.pcbs[p := now.pcbs[p].(state := READY)]);
        now := now.(created := now.created[1..], ready := now.ready + [p]);
        now := now.(sts := Signalled(now.sts));
        assert Next(quantum, s, Admit, now);
        StepKeeps(quantum, s, Admit, now);
      } else {
        var p := now.exit[0];
        now := now.(exit := now.exit[1..]);
        var slots := ClearSlot(now.toReady, p);
        now := now.(toReady := slots);
        processIds.Remove(now.pcbs[p].pid);
        now := now.(pcbs := now.pcbs - {p}, ids := processIds.ids);
        assert Next(quantum, s, Retire, now);
        StepKeeps(quantum, s, Retire, now);
      }
    }

    /** The short-term scheduler passes its semaphore. */
    method WakeUp()
      requires Valid() && now.position == Asleep && now.sts > 0
      modifies this
      ensures Valid() && Next(quantum, old(now), Wake, now)
    {
      hide Inv;
      ghost var s := now;
      now := now.(sts := now.sts - 1, position := if |now.exec| == 0 then Asleep else AtExec(0));
      StepKeeps(quantum, s, Wake, now);
    }

    /** The body of the first loop of short_term_schedule. */
    method VisitExecSlot()
      requires Valid() && now.position.AtExec?
      modifies this
      ensures Valid() && Next(quantum, old(now), VisitExec, now)
    {
      hide Inv;
      ghost var s := now;
      ExecFacts(quantum, now);
      var i := now.position.slot;
      if now.exec[i] == None {
        if |now.ready| > 0 && !now.pcbs[now.ready[0]].recentlyReady {
          var p := now.ready[0];
          var pcb := now.pcbs[p];
          now := now.(ready := now.ready[1..], exec := Replace(now.exec, i, Some(p)));
          now := now.(pcbs := now.pcbs[p := pcb.(state := EXEC, quantum := 0, recentlyExec := true, start := pcb.counter)]);
          now := now.(sts := Signalled(now.sts));
        }
      } else if now.pcbs[now.exec[i].value].recentlyExec {
        var p := now.exec[i].value;
        var pcb := now.pcbs[p];
        now := now.(init := now.init[i := now.init[i] + 1]);
        now := now.(pcbs := now.pcbs[p := pcb.(processor := i, quantum := pcb.quantum + 1, recentlyExec := false)]);
      }
      now := now.(position := AfterExec(i, |now.exec|));
      assert Next(quantum, s, VisitExec, now);
      StepKeeps(quantum, s, VisitExec, now);
    }

    /** The body of the second loop of short_term_schedule. */
    method VisitReadySlot()
      requires Valid() && now.position.AtReady?
      modifies this
      ensures Valid() && Next(quantum, old(now), VisitReady, now)
    {
      hide Inv;
      ghost var s := now;
      ReadyFacts(quantum, now);
      var i := now.position.slot;
      if now.toReady[i].Some? && now.pcbs[now.toReady[i].value].recentlyReady {
        var p := now.toReady[i].value;
        now := now.(pcbs := now.pcbs[p := now.pcbs[p].(recentlyReady := false)]);
        now := now.(toReady := now.toReady[i := None]);
        now := now.(sts := Signalled(now.sts));
      }
      now := now.(position := AfterReady(i, |now.toReady|));
      assert Next(quantum, s, VisitReady, now);
      StepKeeps(quantum, s, VisitReady, now);
    }

    /** A worker passes its first semaphore: exec_next_statement. The EXEC slot holds a PCB with a statement left. */
    method ExecNextStatement(i: nat)
      requires Valid() && Lengths(now) && i < |now.exec| && now.init[i] > 0 && !now.busy[i]
      modifies this
      ensures Valid() && Next(quantum, old(now), Start(i), now)
    {
      hide Inv;
      ghost var s := now;
      WorkerFacts(quantum, now, i);
      var p := now.exec[i].value;
      var pcb := now.pcbs[p];
      now := now.(init := now.init[i := now.init[i] - 1], busy := now.busy[i := true]);
      now := now.(pcbs := now.pcbs[p := pcb.(ran := pcb.ran + [pcb.statements[pcb.counter]])], pending := now.pending[i := Some(p)]);
      assert Next(quantum, s, Start(i), now);
      StepKeeps(quantum, s, Start(i), now);
    }

    /** post_exec_statement: signals the semaphore of the processor that the PCB names. */
    method PostExecStatement(i: nat, ok: bool)
      requires Valid() && i < |now.pending| && now.pending[i].Some?
      modifies this
      ensures Valid() && Next(quantum, old(now), Callback(i, ok), now)
    {
      hide Inv;
      ghost var s := now;
      PendingFacts(quantum, now, i);
      var p := now.pending[i].value;
      var pcb := now.pcbs[p];
      if !ok {
        pcb := pcb.(errors := true);
      }
      if pcb.errors {
        pcb := pcb.(counter := |pcb.statements|);
      } else {
        pcb := pcb.(counter := pcb.counter + 1);
      }
      now := now.(pcbs := now.pcbs[p := pcb], pending := now.pending[i := None]);
      now := now.(done := now.done[pcb.processor := now.done[pcb.processor] + 1]);
      assert Next(quantum, s, Callback(i, ok), now);
      StepKeeps(quantum, s, Callback(i, ok), now);
    }

    /** planifier_execute past its second semaphore. */
    method PlanifierExecute(i: nat)
      requires Valid() && Lengths(now) && i < |now.exec| && now.busy[i] && now.done[i] > 0
      modifies this
      ensures Valid() && Next(quantum, old(now), Turn(i), now)
    {
      hide Inv;
      ghost var s := now;
      WorkerFacts(quantum, now, i);
      now := now.(done := now.done[i := now.done[i] - 1], busy := now.busy[i := false]);
      var p := now.exec[i].value;
      var pcb := now.pcbs[p];
      if pcb.counter >= |pcb.statements| {
        now := now.(exec := Replace(now.exec, i, None), exit := now.exit + [p]);
        now := now.(pcbs := now.pcbs[p := pcb.(state := EXIT)]);
        now := now.(toReady := now.toReady[i := None], lts := now.lts + 1, sts := Signalled(now.sts));
      } else if pcb.quantum >= quantum {
        now := now.(exec := Replace(now.exec, i, None), ready := now.ready + [p]);
        now := now.(toReady := now.toReady[i := Some(p)]);
        now := now.(pcbs := now.pcbs[p := pcb.(state := READY, recentlyReady := true)], sts := Signalled(now.sts));
      } else {
        now := now.(init := now.init[i := now.init[i] + 1]);
        now := now.(pcbs := now.pcbs[p := pcb.(processor := i, quantum := pcb.quantum + 1)]);
      }
      assert Next(quantum, s, Turn(i), now);
      StepKeeps(quantum, s, Turn(i), now);
    }
  }

  /** The first occurrence is cleared, if there is one. */
  lemma {:induction false} ClearedAt(slots: seq<Option<Address>>, p: Address, i: nat)
    requires i <= |slots| && (forall k :: 0 <= k < i ==> slots[k] != Some(p)) && (i < |slots| ==> slots[i] == Some(p))
    ensures Cleared(slots, p) == if i < |slots| then slots[i := None] else slots
  {
    if i > 0 {
      ClearedAt(slots[1..], p, i - 1);
      if i < |slots| { assert slots[i := None] == [slots[0]] + slots[1..][i - 1 := None]; }
    } else if slots != [] {
      assert slots[0 := None] == [None] + slots[1..];
    }
  }

  // ---------- What the steps may rely on ----------

  lemma IncreasingIds(quantum: nat, s: State)
    requires Inv(quantum, s)
    ensures Increasing(s.ids)
  {
  }

  /** A signalled long-term scheduler finds a PCB. */
  lemma LongTermFacts(quantum: nat, s: State)
    requires Inv(quantum, s) && s.lts > 0
    ensures Increasing(s.ids) && (s.created == [] ==> s.exit != [])
    ensures (s.created != [] ==> s.created[0] in s.pcbs) && (s.exit != [] ==> s.exit[0] in s.pcbs)
  {
    hide Handshake, Executing, Calm;
    if s.created != [] { assert s.created[0] in s.created; }
    if s.exit != [] { assert s.exit[0] in s.exit; }
  }

  lemma ExecFacts(quantum: nat, s: State)
    requires Inv(quantum, s) && s.position.AtExec?
    ensures s.position.slot < |s.exec| == |s.init| && (s.ready != [] ==> s.ready[0] in s.pcbs)
    ensures s.exec[s.position.slot].Some? ==> s.exec[s.position.slot].value in s.pcbs
  {
    hide Handshake, Calm, SlotOk;
    assert s.exec[s.position.slot] in s.exec;
    if s.ready != [] { assert s.ready[0] in s.ready; }
  }

  lemma ReadyFacts(quantum: nat, s: State)
    requires Inv(quantum, s) && s.position.AtReady?
    ensures s.position.slot < |s.toReady| && (s.toReady[s.position.slot].Some? ==> s.toReady[s.position.slot].value in s.pcbs)
  {
    hide Calm, SlotOk, Identified;
    assert s.toReady[s.position.slot] in s.toReady;
  }

  /** A worker past a semaphore finds a live PCB on its slot. */
  lemma WorkerFacts(quantum: nat, s: State, i: nat)
    requires Inv(quantum, s) && i < |s.exec| && Lengths(s) && (s.init[i] > 0 || s.busy[i])
    ensures s.exec[i].Some? && s.exec[i].value in s.pcbs
    ensures s.init[i] > 0 ==> s.pcbs[s.exec[i].value].counter < |s.pcbs[s.exec[i].value].statements|
  {
    assert SlotOk(quantum, s, i);
  }

  /** A callback finds its PCB alive, on the slot that issued the request. */
  lemma PendingFacts(quantum: nat, s: State, i: nat)
    requires Inv(quantum, s) && i < |s.pending| && s.pending[i].Some?
    ensures s.pending[i].value in s.pcbs && s.pcbs[s.pending[i].value].processor == i && Lengths(s) && s.exec[i] == s.pending[i]
  {
    assert SlotOk(quantum, s, i);
  }
}
