/** The cache process and the storage engine together: every operation is a run of end-to-end steps. */
module Lissandra {
  import opened Options
  import opened Records
  import opened BlockCodec
  import opened Lookups
  import ArchiveSearch
  import opened Shelves
  import opened Pages
  import opened Memorias
  import opened Volumes
  import opened Store
  import opened StoreSteps
  import opened FileSystems
  import opened EndToEnd
  import opened Journals
  import Bytes

  /** What becomes of a journal request: never delivered, delivered with the reply lost, or answered. */
  datatype Network = RequestLost | ReplyLost | Delivered

  datatype Reply = Failed | Value(record: Option<Record>)

  // ---------- What the journal sends ----------

  /** Every dirty line can be journaled. */
  ghost predicate Sendable(c: Cache, maxValue: nat, size: nat)
  {
    forall n: string, k: nat :: Lookup(c, n, k).Some? && Lookup(c, n, k).value.dirty ==>
      Fine(Dirty(n, Lookup(c, n, k).value.record), maxValue, size)
  }

  /** A record that the engine takes and whose fields the packet can hold. */
  predicate Fine(d: Dirty, maxValue: nat, size: nat) { |d.record.value| <= maxValue && Stored(d.record, size) && RowOk(d) }

  lemma RowsAreTaken(s: State, dirty: seq<Dirty>, tables: Tables, maxValue: nat, size: nat)
    requires Inv(s) && s.shelves.Keys == tables.Keys && IsJournal(s.cache, dirty) && Sendable(s.cache, maxValue, size)
    ensures forall i :: 0 <= i < |dirty| ==> Takes(RowsToSend(dirty)[i], tables, maxValue) && Stored(RowsToSend(dirty)[i].record, size)
    ensures RowsOk(dirty)
  {
    hide Lookup, Pick, Settled, Stored, RowOk;
    forall i | 0 <= i < |dirty|
      ensures Takes(RowsToSend(dirty)[i], tables, maxValue) && Stored(RowsToSend(dirty)[i].record, size) && RowOk(dirty[i])
    {
      var Dirty(n, r) := dirty[i];
      assert Dirty(n, r) in dirty;
    }
  }

  lemma {:induction false} RowsForMembers(rows: seq<Row>, name: string, tables: Tables, maxValue: nat, r: Record)
    requires forall i :: 0 <= i < |rows| ==> Takes(rows[i], tables, maxValue)
    ensures r in RowsFor(rows, name, tables, maxValue) <==> Row(name, r) in rows
    decreases |rows|
  {
    if rows != [] {
      var init, last := rows[..|rows| - 1], rows[|rows| - 1];
      RowsForMembers(init, name, tables, maxValue, r);
      assert rows == init + [last];
    }
  }

  lemma {:induction false} RowsForUnique(rows: seq<Row>, name: string, tables: Tables, maxValue: nat)
    requires forall i :: 0 <= i < |rows| ==> Takes(rows[i], tables, maxValue)
    requires forall x, y :: 0 <= x < y < |rows| ==> (rows[x].table, rows[x].record.key) != (rows[y].table, rows[y].record.key)
    ensures UniqueKeys(RowsFor(rows, name, tables, maxValue))
    decreases |rows|
  {
    if rows != [] {
      var init, last := rows[..|rows| - 1], rows[|rows| - 1];
      RowsForUnique(init, name, tables, maxValue);
      var before := RowsFor(init, name, tables, maxValue);
      forall i | 0 <= i < |before| && last.table == name ensures before[i].key != last.record.key {
        assert before[i] in before;
        RowsForMembers(init, name, tables, maxValue, before[i]);
        var x :| 0 <= x < |init| && init[x] == Row(name, before[i]);
        assert rows[x] == init[x];
      }
    }
  }

  lemma RowsForDirty(c: Cache, dirty: seq<Dirty>, name: string, tables: Tables, maxValue: nat)
    requires IsJournal(c, dirty)
    requires forall i :: 0 <= i < |dirty| ==> Takes(RowsToSend(dirty)[i], tables, maxValue)
    ensures RowsOf(c, name, RowsFor(RowsToSend(dirty), name, tables, maxValue))
  {
    hide Lookup, RowsFor;
    var rows := RowsToSend(dirty);
    RowsForUnique(rows, name, tables, maxValue);
    forall r ensures r in RowsFor(rows, name, tables, maxValue) <==> Lookup(c, name, r.key) == Some(Line(r, true)) {
      RowsForMembers(rows, name, tables, maxValue, r);
      if Row(name, r) in rows {
        var i :| 0 <= i < |rows| && rows[i] == Row(name, r);
        assert dirty[i] == Dirty(name, r);
      }
      if Dirty(name, r) in dirty {
        var i :| 0 <= i < |dirty| && dirty[i] == Dirty(name, r);
        assert rows[i] == Row(name, r);
      }
    }
  }

  /** The engine after a multi-insert of the journal's rows. */
  ghost predicate Received(s: State, s': State, dirty: seq<Dirty>, tables: Tables, maxValue: nat)
  {
    && s'.last == s.last && s'.shelves.Keys == s.shelves.Keys == tables.Keys
    && forall t :: t in s.shelves ==>
         s'.shelves[t] == s.shelves[t].(mem := s.shelves[t].mem + RowsFor(RowsToSend(dirty), t, tables, maxValue))
  }

  lemma JournalStep(s: State, s': State, dirty: seq<Dirty>, tables: Tables, maxValue: nat, size: nat, acked: bool)
    returns (step: EndToEnd.Step)
    requires Inv(s) && IsJournal(s.cache, dirty) && |dirty| <= MOST && Sendable(s.cache, maxValue, size)
    requires Received(s, s', dirty, tables, maxValue)
    requires acked ==> forall n: string, k: nat :: Lookup(s'.cache, n, k) == None
    requires !acked ==> s'.cache == s.cache
    ensures Next(s, step, s') && Inv(s') && step.Journal? && step.sent == dirty && step.acked == acked
  {
    hide Lookup, RowsFor, Inv, RowsToSend;
    RowsAreTaken(s, dirty, tables, maxValue, size);
    var rows := map t | t in s.shelves :: RowsFor(RowsToSend(dirty), t, tables, maxValue);
    forall t | t in s.shelves ensures RowsOf(s.cache, t, rows[t]) { RowsForDirty(s.cache, dirty, t, tables, maxValue); }
    step := EndToEnd.Step.Journal(dirty, rows, acked);
    StepAnswers(s, step, s');
  }

  lemma OneStep(s: State, step: EndToEnd.Step, s': State)
    requires Next(s, step, s')
    ensures IsRun([s, s'], [step])
  {
    hide Next;
  }

  /** Inserting rows only extends the memtable part of each table. */
  lemma ShelfWithMore(t: Table, v: Volume, mem: seq<Record>, more: seq<Record>)
    ensures ShelfOf(t, v, mem + more) == ShelfOf(t, v, mem).(mem := mem + more) && ShelfOf(t, v, mem).mem == mem
  {
  }

  class System {
    const fs: FileSystem
    const memory: Memory
    ghost var last: int

    /** A formatted volume and an empty cache. */
    constructor (capacity: nat, blocks: nat, maxValue: nat, clock: nat, memorySize: nat)
      requires capacity >= 2 && memorySize >= TkvSize(clock, maxValue) && memorySize / TkvSize(clock, maxValue) <= MOST
      ensures Valid() && fs.tables == map[] && last == -1 && |fs.bitmap| == blocks
      ensures fs.capacity == capacity && fs.maxValue == maxValue && fs.clock == clock
      ensures memory.segments == [] && memory.main.pageCount == memorySize / TkvSize(clock, maxValue)
      ensures fresh(fs) && fresh(memory) && fresh(memory.main.buffer)
    {
      fs := new FileSystem(capacity, blocks, maxValue, clock);
      memory := new Memory(memorySize, maxValue, clock);
      last := -1;
      new;
      hide Lookup, Inv, Sendable, CacheOk, StoreOk, MemOk, ShelfOf, MemOf, Convert;
      EmptySystem(Abs(), fs.maxValue, fs.Size());
    }

    ghost function Abs(): State
      reads this, fs, memory, memory.main.buffer
    {
      State(memory.State(), map name | name in fs.tables :: fs.ShelfAt(name), last)
    }

    /**
      Both parts are in order, share their configuration, and the cache agrees with the engine. The cache has at most 31
      frames, so that the packet of every journal arrives as it was sent.
     */
    ghost predicate Valid()
      reads this, fs, memory, memory.main.buffer
    {
      && fs.Valid() && Listed(fs.mem, fs.tables)
      && memory.Valid() && memory.maxValue == fs.maxValue && memory.clock == fs.clock && memory.main.pageCount <= MOST
      && Inv(Abs()) && Sendable(memory.State(), fs.maxValue, fs.Size())
    }

    /** A CREATE: the new table is empty and no answer of another table changes. */
    method Create(name: string, partitions: nat) returns (status: int)
      requires Valid() && partitions >= 1
      modifies fs`bitmap, fs`tables
      ensures Valid() && (status == 0 <==> name !in old(fs.tables) && old(FreeCount(fs.bitmap)) >= partitions)
      ensures status != 0 ==> Abs() == old(Abs())
      ensures status == 0 ==> Abs().shelves.Keys == old(Abs()).shelves.Keys + {name}
      ensures status == 0 ==> forall t :: t in old(Abs()).shelves ==> Abs().shelves[t] == old(Abs()).shelves[t]
      ensures status == 0 ==> |Abs().shelves[name].parts| == partitions && All(Abs().shelves[name]) == []
    {
      hide Lookup, Inv, CacheOk, StoreOk, MemOk, RowOk, Storable, Readable, Stored, ShelfOf, Convert, MemOf, FreeCount, Settled, All;
      ghost var s, tables, v, mem := Abs(), fs.tables, fs.Vol(), fs.mem;
      status := fs.Create(name, partitions);
      if status == 0 {
        forall t | t in s.shelves ensures t in fs.tables && fs.ShelfAt(t) == s.shelves[t] {
          assert ShelfOf(fs.tables[t], fs.Vol(), Convert(MemOf(mem, t))) == ShelfOf(tables[t], v, Convert(MemOf(mem, t)));
        }
        NotListed(mem, tables, name);
        ShelfMem(fs.tables[name], fs.Vol(), Convert(MemOf(mem, name)));
        EmptyShelf(fs.ShelfAt(name));
        CreatedInv(s, Abs(), name);
      } else {
        assert Abs() == s;
      }
    }

    /**
      journaling and journal_callback. The dirty records travel in a packet, and the engine inserts what it reads from
      it. A successful journal empties the cache (state mid) and then caches the record that was waiting for room, if any.
     */
    method Send(register: Option<Register>, network: Network)
      returns (success: bool, ghost step: EndToEnd.Step, ghost mid: State, ghost sent: seq<Dirty>)
      requires Valid() && (register.Some? ==> memory.Fits(register.value.record))
      modifies fs`mem, memory`segments, memory.main.buffer
      ensures fs.Valid() && Listed(fs.mem, fs.tables) && memory.Valid()
      ensures IsJournal(old(memory.State()), sent) && |sent| <= memory.main.pageCount
      ensures success == (network.Delivered? && |sent| <= MOST) == network.Delivered?
      ensures Next(old(Abs()), step, mid) && !step.Insert? && !Misread(step) && Inv(mid) && mid.shelves == Abs().shelves && mid.last == last
      ensures !success ==> memory.State() == old(memory.State()) && mid == Abs()
      ensures if network.RequestLost? then step == Idle else step.Journal? && step.sent == sent && step.acked == success
      ensures success ==> mid.cache == EMPTY
      ensures success ==> forall n: string, k: nat :: Lookup(memory.State(), n, k) == Waiting(register, n, k)
    {
      hide Lookup, Inv, CacheOk, StoreOk, MemNames, MemTexts, Convert, MemOf, ShelfOf, Storable, Encode, RowsFor, Stored, RowOk, ReceivedRows,
           Grew;
      ghost var s, before := Abs(), fs.mem;
      var dirty := memory.JournalRows();
      success, step, mid, sent := false, Idle, s, dirty;
      if network.RequestLost? {
        return;
      }
      RowsAreTaken(s, dirty, fs.tables, fs.maxValue, fs.Size());
      FewRows(dirty);
      ReceivedByCount(dirty);
      var received := ReceivedRows(dirty);
      if received == None {
        return;
      }
      KeysFit(received.value, fs.Size());
      var result := fs.MultiInsert(received.value);
      success := network.Delivered? && result == 0;
      memory.JournalCallback(success, register);
      forall t | t in fs.tables
        ensures fs.ShelfAt(t) == s.shelves[t].(mem := s.shelves[t].mem + RowsFor(RowsToSend(dirty), t, fs.tables, fs.maxValue))
      {
        GrewRecords(before, fs.mem, RowsToSend(dirty), fs.tables, fs.maxValue, fs.Size(), t);
        ShelfWithMore(fs.tables[t], fs.Vol(), Convert(MemOf(before, t)), RowsFor(RowsToSend(dirty), t, fs.tables, fs.maxValue));
      }
      EmptyCache();
      mid := if success then Abs().(cache := EMPTY) else Abs();
      step := JournalStep(s, mid, dirty, fs.tables, fs.maxValue, fs.Size(), success);
    }

    /** process_journal. */
    method Journal(network: Network) returns (success: bool, ghost steps: seq<EndToEnd.Step>, ghost states: seq<State>)
      requires Valid()
      modifies fs`mem, memory`segments, memory.main.buffer
      ensures Valid() && success == network.Delivered?
      ensures IsRun(states, steps) && NothingMisread(steps) && states[0] == old(Abs()) && states[|steps|] == Abs()
      ensures |steps| == 1 && if network.RequestLost? then steps[0] == Idle else steps[0].Journal? && steps[0].acked == success
      ensures success ==> forall n: string, k: nat :: Lookup(memory.State(), n, k) == None
      ensures !success ==> memory.State() == old(memory.State())
    {
      hide Lookup, Inv, CacheOk, StoreOk, MemOk, RowOk, Storable, Readable, Encode, Next, Stored, IsRun;
      ghost var s := Abs();
      ghost var step, mid;
      ghost var sent;
      success, step, mid, sent := Send(None, network);
      steps, states := [step], [s, Abs()];
      EmptyCache();
      if success { SameLines(s, step, mid, Abs()); }
      OneStep(s, step, Abs());
    }

    /**
      An INSERT through the cache. It is refused if and only if the value is too long, and otherwise fails if and only if
      every page is dirty and the journal does not get through. A journal is sent only in that case.
     */
    method Insert(name: string, key: nat, value: string, now: nat, network: Network)
      returns (acked: bool, ghost steps: seq<EndToEnd.Step>, ghost states: seq<State>)
      requires Valid() && name in fs.tables && now > last
      requires Storable(Record(now, key, value)) && |Print(now)| <= |Print(fs.clock)| && RowOk(Dirty(name, Record(now, key, value)))
      modifies this`last, fs`mem, memory`segments, memory.main.buffer
      ensures Valid() && IsRun(states, steps) && NothingMisread(steps) && states[0] == old(Abs()) && states[|steps|] == Abs()
      ensures acked <==> steps != [] && steps[|steps| - 1].Insert?
      ensures acked ==> (steps[|steps| - 1].table, steps[|steps| - 1].record) == (name, Record(now, key, value))
      ensures forall i :: 0 <= i < |steps| - 1 ==> !steps[i].Insert?
      ensures acked <==> |value| <= fs.maxValue && (network.Delivered? || HasPlace(old(memory.State()), name, key))
      ensures acked ==> last == now && Lookup(memory.State(), name, key) == Some(Line(Record(now, key, value), true))
      ensures !acked ==> last == old(last) && memory.State() == old(memory.State())
      ensures |value| > fs.maxValue || HasPlace(old(memory.State()), name, key) ==> fs.mem == old(fs.mem)
    {
      hide Lookup, Inv, CacheOk, StoreOk, MemOk, RowOk, Storable, Readable, Encode, Next, Stored, IsRun, FairVictim, Replaced, ShelfOf, Sendable, MemOf,
           Convert, Print;
      ghost var s := Abs();
      var record := Record(now, key, value);
      ghost var victim;
      var outcome;
      StorableText(record);
      outcome, victim := memory.Insert(name, key, value, now);
      assert outcome != Cached ==> Abs() == s && Valid();
      match outcome
      case Refused =>
        acked, steps, states := false, [Idle], [s, s];
        IdleStep(s);
        OneStep(s, Idle, s);
        assert Valid();
      case Cached =>
        last := now;
        ghost var step := EndToEnd.Step.Insert(name, record, victim);
        InsertStep(s, Abs(), name, record, victim, fs.clock, fs.maxValue);
        NewLine(s.cache, memory.State(), name, Line(record, true), victim);
        OneStep(s, step, Abs());
        acked, steps, states := true, [step], [s, Abs()];
        assert Valid();
      case Journaling =>
        acked, steps, states := InsertAfterJournal(name, record, network);
    }

    /** An INSERT that finds every page dirty: a journal, and then a page for the record. */
    method InsertAfterJournal(name: string, record: Record, network: Network)
      returns (acked: bool, ghost steps: seq<EndToEnd.Step>, ghost states: seq<State>)
      requires Valid() && name in fs.tables && record.ts > last
      requires Storable(record) && |record.value| <= fs.maxValue && |Print(record.ts)| <= |Print(fs.clock)| && RowOk(Dirty(name, record))
      modifies this`last, fs`mem, memory`segments, memory.main.buffer
      ensures Valid() && IsRun(states, steps) && NothingMisread(steps) && states[0] == old(Abs()) && states[|steps|] == Abs()
      ensures acked <==> steps != [] && steps[|steps| - 1].Insert?
      ensures acked ==> (steps[|steps| - 1].table, steps[|steps| - 1].record) == (name, record)
      ensures forall i :: 0 <= i < |steps| - 1 ==> !steps[i].Insert?
      ensures acked == network.Delivered?
      ensures acked ==> last == record.ts && Lookup(memory.State(), name, record.key) == Some(Line(record, true))
      ensures !acked ==> last == old(last) && memory.State() == old(memory.State())
    {
      hide Lookup, Inv, CacheOk, StoreOk, MemOk, RowOk, Storable, Readable, Encode, Next, Stored, IsRun, FairVictim, Replaced, ShelfOf, Sendable, MemOf,
           Convert, Print;
      ghost var s := Abs();
      RecordFits(record, fs.clock, fs.maxValue);
      StoredFits(record, memory, fs);
      ghost var first, mid;
      var success;
      ghost var sent;
      success, first, mid, sent := Send(Some(Register(name, record, true)), network);
      if success {
        last := record.ts;
        ghost var second := EndToEnd.Step.Insert(name, record, None);
        EmptyIsSendable(fs.maxValue, fs.Size());
        RegisterReplaces(memory.State(), name, record, true);
        InsertStep(mid, Abs(), name, record, None, fs.clock, fs.maxValue);
        TwoSteps(s, first, mid, second, Abs());
        acked, steps, states := true, [first, second], [s, mid, Abs()];
      } else {
        OneStep(s, first, Abs());
        acked, steps, states := false, [first], [s, Abs()];
      }
    }

    /** select_callback with a record: caches it, after a journal if every page is dirty. */
    method CacheFound(name: string, record: Record, network: Network)
      returns (success: bool, ghost steps: seq<EndToEnd.Step>, ghost states: seq<State>)
      requires Valid() && name in fs.tables && Stored(record, fs.Size()) && Lookup(memory.State(), name, record.key) == None
      requires Abs().shelves[name].parts != [] && Search(Abs().shelves[name], record.key) == Some(record)
      modifies fs`mem, memory`segments, memory.main.buffer
      ensures Valid() && IsRun(states, steps) && NothingMisread(steps) && states[0] == old(Abs()) && states[|steps|] == Abs()
      ensures forall i :: 0 <= i < |steps| ==> !steps[i].Insert?
      ensures success <==> network.Delivered? || HasPlace(old(memory.State()), name, record.key)
      ensures success ==> Lookup(memory.State(), name, record.key) == Some(Line(record, false))
      ensures !success ==> memory.State() == old(memory.State())
      ensures HasPlace(old(memory.State()), name, record.key) ==> fs.mem == old(fs.mem)
    {
      hide Lookup, Inv, CacheOk, StoreOk, MemOk, RowOk, Storable, Readable, Encode, Next, Stored, IsRun, FairVictim, Replaced, Search, Answer, ShelfOf,
           Sendable, MemOf, Convert, IsJournal;
      ghost var s := Abs();
      StoredFits(record, memory, fs);
      ghost var victim;
      var outcome;
      outcome, victim := memory.Fill(name, record);
      assert outcome != Cached ==> Abs() == s && Valid();
      if outcome == Cached {
        FillStep(s, Abs(), name, record, victim, fs.maxValue, fs.Size());
        NewLine(s.cache, memory.State(), name, Line(record, false), victim);
        OneStep(s, Fill(name, record, victim), Abs());
        return true, [Fill(name, record, victim)], [s, Abs()];
      }
      ghost var first, mid;
      ghost var sent;
      success, first, mid, sent := Send(Some(Register(name, record, false)), network);
      if success {
        EmptyCache();
        EmptyIsSendable(fs.maxValue, fs.Size());
        StillFound(s, first, mid, name, record);
        RegisterReplaces(memory.State(), name, record, false);
        FillStep(mid, Abs(), name, record, None, fs.maxValue, fs.Size());
        TwoSteps(s, first, mid, Fill(name, record, None), Abs());
        return true, [first, Fill(name, record, None)], [s, mid, Abs()];
      }
      OneStep(s, first, Abs());
      assert Valid();
      return false, [first], [s, Abs()];
    }

    /**
      A SELECT through the cache: a hit, or a search in the engine whose record is then cached. It fails if and only if the
      key is not cached and either the engine cannot be reached, or making room for the record that the engine finds needs
      a journal that does not get through.
     */
    method Select(name: string, key: nat, reachable: bool, network: Network)
      returns (reply: Reply, ghost steps: seq<EndToEnd.Step>, ghost states: seq<State>)
      requires Valid() && name in fs.tables
      modifies fs`mem, memory`segments, memory.main.buffer
      ensures Valid() && IsRun(states, steps) && NothingMisread(steps) && states[0] == old(Abs()) && states[|steps|] == Abs()
      ensures forall i :: 0 <= i < |steps| ==> !steps[i].Insert?
      ensures old(Abs()).shelves[name].parts != [] && (reply.Value? ==> reply.record == Answer(old(Abs()), name, key))
      ensures reply.Value? <==>
                || Lookup(old(memory.State()), name, key).Some?
                || (reachable && (Search(old(Abs()).shelves[name], key) == None || network.Delivered? || HasPlace(old(memory.State()), name, key)))
      ensures reply.Value? && reply.record.Some? ==>
                Lookup(memory.State(), name, key).Some? && Lookup(memory.State(), name, key).value.record == reply.record.value
      ensures Lookup(old(memory.State()), name, key).Some? || !reply.Value? || reply.record == None ==> memory.State() == old(memory.State())
    {
      hide Lookup, Inv, CacheOk, StoreOk, MemOk, RowOk, Storable, Readable, Encode, Next, Stored, IsRun, Search;
      ghost var s := Abs();
      NonEmpty(s);
      IdleStep(s);
      OneStep(s, Idle, s);
      steps, states := [Idle], [s, s];
      var hit := memory.Select(name, key);
      if hit.Some? {
        return Value(hit), steps, states;
      }
      if !reachable {
        return Failed, steps, states;
      }
      var found := fs.SearchKey(name, key);
      if found == None {
        return Value(None), steps, states;
      }
      var success;
      success, steps, states := CacheFound(name, found.value, network);
      reply := if success then Value(found) else Failed;
    }

    /** A dump of the memtable while the cache goes on holding its pages. */
    method Dump() returns (ghost steps: seq<EndToEnd.Step>, ghost states: seq<State>)
      requires Valid() && FreeCount(fs.bitmap) >= DumpNeeds(fs.mem, 0, fs.capacity)
      modifies fs
      ensures Valid() && IsRun(states, steps) && NothingMisread(steps) && states[0] == old(Abs()) && states[|steps|] == Abs() && steps == [EndToEnd.Step.Dump]
      ensures fs.mem == [] && forall t :: t in old(Abs()).shelves ==>
                t in Abs().shelves && (old(Abs()).shelves[t].mem != [] ==> Dumped(old(Abs()).shelves[t], Abs().shelves[t]))
    {
      hide Lookup, Inv, CacheOk, StoreOk, MemOk, Sendable, IsRun, Dumped, DumpedAs, ShelfOf, Convert, MemOf, MemIndex, FreeCount, Next, NoLeak,
           FirstMissing;
      ghost var s, tables, v, mem := Abs(), fs.tables, fs.Vol(), fs.mem;
      MissingAt(mem, tables, |mem|);
      var alive := fs.Dump();
      steps, states := [EndToEnd.Step.Dump], [s, Abs()];
      forall t | t in s.shelves ensures Dumped(s.shelves[t], fs.ShelfAt(t)) || (s.shelves[t].mem == [] && fs.ShelfAt(t) == s.shelves[t]) {
        if MemIndex(mem, t) < |mem| {
          AsIsDumped(s.shelves[t], fs.ShelfAt(t), fs.capacity);
        } else {
          NothingToLose(mem, t, tables[t], v);
        }
      }
      DumpStepOk(s, Abs());
      OneStep(s, EndToEnd.Step.Dump, Abs());
    }

    /** A compaction, normal or recovering. */
    method Compact(name: string) returns (ghost steps: seq<EndToEnd.Step>, ghost states: seq<State>)
      requires Valid() && name in fs.tables && fs.CanCompact(name)
      modifies fs`bitmap, fs`disk, fs`tables
      ensures Valid() && IsRun(states, steps) && NothingMisread(steps) && states[0] == old(Abs()) && states[|steps|] == Abs() && steps == [EndToEnd.Step.Compact(name)]
    {
      hide Lookup, Inv, CacheOk, StoreOk, MemOk, Sendable, IsRun, CompactionOutcome, ShelfOf, Convert, MemOf, FreeCount, OthersSame, Next,
           SameLeaks;
      ghost var s, tables, v, mem := Abs(), fs.tables, fs.Vol(), fs.mem;
      fs.Compaction(name);
      steps, states := [EndToEnd.Step.Compact(name)], [s, Abs()];
      OthersKeys(tables, fs.tables, name, v, fs.Vol());
      forall t | t in s.shelves && t != name ensures t in fs.tables && fs.ShelfAt(t) == s.shelves[t] {
        OthersRead(tables, fs.tables, name, v, fs.Vol(), t, Convert(MemOf(mem, t)));
      }
      CompactStep(s, Abs(), name);
      OneStep(s, EndToEnd.Step.Compact(name), Abs());
    }

    /** A compaction that stops once A1.tmpc is written. */
    method Interrupt(name: string) returns (ghost steps: seq<EndToEnd.Step>, ghost states: seq<State>)
      requires Valid() && name in fs.tables && fs.tables[name].tmpc == None
      modifies fs`tables
      ensures Valid() && IsRun(states, steps) && NothingMisread(steps) && states[0] == old(Abs()) && states[|steps|] == Abs() && steps == [EndToEnd.Step.Interrupt(name)]
    {
      hide Lookup, Inv, CacheOk, StoreOk, MemOk, Sendable, IsRun, Interrupted, ShelfOf, Convert, MemOf, FreeCount, OthersSame, Next, SameLeaks;
      ghost var s, tables, v, mem := Abs(), fs.tables, fs.Vol(), fs.mem;
      fs.WriteTmpc(name);
      steps, states := [EndToEnd.Step.Interrupt(name)], [s, Abs()];
      OthersKeys(tables, fs.tables, name, v, fs.Vol());
      forall t | t in s.shelves && t != name ensures t in fs.tables && fs.ShelfAt(t) == s.shelves[t] {
        OthersRead(tables, fs.tables, name, v, fs.Vol(), t, Convert(MemOf(mem, t)));
      }
      InterruptStep(s, Abs(), name);
      OneStep(s, EndToEnd.Step.Interrupt(name), Abs());
    }
  }

  lemma OthersKeys(tables: Tables, tables': Tables, name: string, v: Volume, v': Volume)
    requires OthersSame(tables, tables', name, v, v') && name in tables && name in tables'
    ensures tables'.Keys == tables.Keys
  {
  }

  lemma OthersRead(tables: Tables, tables': Tables, name: string, v: Volume, v': Volume, t: string, mem: seq<Record>)
    requires OthersSame(tables, tables', name, v, v') && t in tables && t != name
    ensures t in tables' && ShelfOf(tables'[t], v', mem) == ShelfOf(tables[t], v, mem)
  {
  }

  lemma AsIsDumped(s: Shelf, s': Shelf, capacity: nat)
    requires capacity >= 2 && DumpedAs(s, s', capacity)
    ensures Dumped(s, s')
  {
  }

  lemma NothingToLose(mem: seq<MemEntry>, name: string, t: Table, v: Volume)
    requires MemIndex(mem, name) >= |mem|
    ensures var shelf := ShelfOf(t, v, Convert(MemOf(mem, name))); shelf.(mem := []) == shelf && shelf.mem == []
  {
    hide RoundsOfAll;
  }

  lemma DumpStepOk(s: State, s': State)
    requires Inv(s) && s'.cache == s.cache && s'.last == s.last && s'.shelves.Keys == s.shelves.Keys
    requires forall t :: t in s.shelves ==> Dumped(s.shelves[t], s'.shelves[t]) || (s.shelves[t].mem == [] && s'.shelves[t] == s.shelves[t])
    ensures Next(s, EndToEnd.Step.Dump, s') && Inv(s')
  {
    hide Inv, Dumped;
    StepAnswers(s, EndToEnd.Step.Dump, s');
  }

  lemma CompactStep(s: State, s': State, name: string)
    requires Inv(s) && s'.cache == s.cache && s'.last == s.last && name in s.shelves && SameElsewhere(s.shelves, s'.shelves, name)
    requires CompactionOutcome(s.shelves[name], s'.shelves[name])
    ensures Next(s, EndToEnd.Step.Compact(name), s') && Inv(s')
  {
    hide Inv, CompactionOutcome;
    StepAnswers(s, EndToEnd.Step.Compact(name), s');
  }

  lemma InterruptStep(s: State, s': State, name: string)
    requires Inv(s) && s'.cache == s.cache && s'.last == s.last && name in s.shelves && SameElsewhere(s.shelves, s'.shelves, name)
    requires Interrupted(s.shelves[name], s'.shelves[name])
    ensures Next(s, EndToEnd.Step.Interrupt(name), s') && Inv(s')
  {
    hide Inv, Interrupted;
    StepAnswers(s, EndToEnd.Step.Interrupt(name), s');
  }

  /** A journal of other keys leaves what the engine finds. */
  lemma StillFound(s: State, step: EndToEnd.Step, mid: State, name: string, record: Record)
    requires Inv(s) && Next(s, step, mid) && !step.Insert? && !Misread(step) && mid.cache == EMPTY
    requires name in s.shelves && s.shelves[name].parts != [] && Search(s.shelves[name], record.key) == Some(record)
    requires Lookup(s.cache, name, record.key) == None
    ensures name in mid.shelves && mid.shelves[name].parts != [] && Search(mid.shelves[name], record.key) == Some(record)
  {
    hide Inv, Next, Lookup, Search;
    StepAnswers(s, step, mid);
    EmptyCache();
    assert Answer(mid, name, record.key) == Answer(s, name, record.key);
  }

  lemma StoredFits(r: Record, memory: Memory, fs: FileSystem)
    requires Stored(r, fs.Size()) && memory.maxValue == fs.maxValue && memory.clock == fs.clock
    ensures memory.Fits(r)
  {
  }

  /** Caching what the engine found as an end-to-end step. */
  lemma FillStep(s: State, s': State, name: string, record: Record, victim: Option<(string, nat)>, maxValue: nat, size: nat)
    requires Inv(s) && name in s.shelves && s'.shelves == s.shelves && s'.last == s.last && s.shelves[name].parts != []
    requires Lookup(s.cache, name, record.key) == None && Search(s.shelves[name], record.key) == Some(record)
    requires FairVictim(s.cache, victim) && Replaced(s.cache, s'.cache, name, Line(record, false), victim)
    requires Sendable(s.cache, maxValue, size)
    ensures Next(s, EndToEnd.Step.Fill(name, record, victim), s') && Inv(s') && Sendable(s'.cache, maxValue, size)
  {
    hide Inv, Lookup, Stored, Search;
    StepAnswers(s, EndToEnd.Step.Fill(name, record, victim), s');
  }

  lemma {:induction false} NotListed(mem: seq<MemEntry>, tables: Tables, name: string)
    requires Listed(mem, tables) && name !in tables
    ensures Convert(MemOf(mem, name)) == []
  {
    MemIndexIs(mem, name, |mem|);
  }

  lemma ShelfMem(t: Table, v: Volume, mem: seq<Record>)
    ensures ShelfOf(t, v, mem).mem == mem
  {
  }

  lemma {:induction false} EmptyJoined(archives: seq<seq<ArchiveSearch.Round>>)
    requires forall i :: 0 <= i < |archives| ==> ArchiveSearch.AllRecords(archives[i]) == []
    ensures Joined(archives) == []
    decreases |archives|
  {
    hide ArchiveSearch.AllRecords;
    if archives != [] { EmptyJoined(archives[..|archives| - 1]); }
  }

  lemma EmptyShelf(s: Shelf)
    requires s.parts != [] && (forall p :: 0 <= p < |s.parts| ==> ArchiveSearch.AllRecords(s.parts[p]) == [])
    requires s.tmps == [] && s.tmpc == None && s.mem == []
    ensures Settled(s) && All(s) == []
  {
    hide ArchiveSearch.AllRecords, Joined;
    EmptyJoined(s.parts);
    EmptyJoined(s.tmps);
  }

  lemma CreatedInv(s: State, s': State, name: string)
    requires Inv(s) && s'.cache == s.cache && s'.last == s.last
    requires name !in s.shelves && s'.shelves.Keys == s.shelves.Keys + {name}
    requires forall t :: t in s.shelves ==> s'.shelves[t] == s.shelves[t]
    requires Settled(s'.shelves[name]) && All(s'.shelves[name]) == []
    ensures Inv(s')
  {
    hide Lookup, Pick, Settled, All;
  }

  const EMPTY := Cache([], [])

  /** No tables and no pages. */
  lemma EmptySystem(s: State, maxValue: nat, size: nat)
    requires s.shelves == map[] && s.cache.segments == [] && CacheOk(s.cache, None)
    ensures Inv(s) && Sendable(s.cache, maxValue, size)
  {
    hide Lookup, Stored, CacheOk;
    Emptied(s.cache);
  }

  lemma EmptyCache()
    ensures forall n: string, k: nat :: Lookup(EMPTY, n, k) == None
  {
  }

  /** The only line after a successful journal. */
  function Waiting(register: Option<Register>, n: string, k: nat): Option<Line>
  {
    match register
    case Some(Register(table, record, modified)) => if (n, k) == (table, record.key) then Some(Line(record, modified)) else None
    case None => None
  }

  lemma IdleStep(s: State)
    ensures Next(s, Idle, s)
  {
  }

  lemma TwoSteps(s: State, first: EndToEnd.Step, mid: State, second: EndToEnd.Step, s': State)
    requires Next(s, first, mid) && Next(mid, second, s')
    ensures IsRun([s, mid, s'], [first, second])
  {
    hide Next;
  }

  /** A journal may leave any cache without lines. */
  lemma SameLines(s: State, step: EndToEnd.Step, mid: State, s': State)
    requires Inv(s) && Next(s, step, mid) && s'.shelves == mid.shelves && s'.last == mid.last && step.Journal? && step.acked
    requires forall n: string, k: nat :: Lookup(s'.cache, n, k) == None
    ensures Next(s, step, s') && Inv(s')
  {
    hide Inv, Lookup;
    StepAnswers(s, step, s');
  }

  lemma RecordFits(r: Record, clock: nat, maxValue: nat)
    requires Storable(r) && |r.value| <= maxValue && |Print(r.ts)| <= |Print(clock)|
    ensures Stored(r, TkvSize(clock, maxValue))
  {
    EncodeFits(r, clock, maxValue);
  }

  lemma EmptyIsSendable(maxValue: nat, size: nat)
    ensures Sendable(EMPTY, maxValue, size)
  {
    hide Stored;
    EmptyCache();
  }

  lemma RegisterReplaces(c: Cache, name: string, record: Record, modified: bool)
    requires forall n: string, k: nat :: Lookup(c, n, k) == Waiting(Some(Register(name, record, modified)), n, k)
    ensures Replaced(EMPTY, c, name, Line(record, modified), None) && FairVictim(EMPTY, None)
  {
    hide Lookup;
    EmptyCache();
  }

  /** An acknowledged INSERT as an end-to-end step. */
  lemma InsertStep(s: State, s': State, name: string, record: Record, victim: Option<(string, nat)>, clock: nat, maxValue: nat)
    requires Inv(s) && name in s.shelves && s'.shelves == s.shelves && record.ts > s.last && s'.last == record.ts
    requires FairVictim(s.cache, victim) && Replaced(s.cache, s'.cache, name, Line(record, true), victim)
    requires Storable(record) && |record.value| <= maxValue && |Print(record.ts)| <= |Print(clock)| && RowOk(Dirty(name, record))
    requires Sendable(s.cache, maxValue, TkvSize(clock, maxValue))
    ensures Next(s, EndToEnd.Step.Insert(name, record, victim), s') && Inv(s') && Sendable(s'.cache, maxValue, TkvSize(clock, maxValue))
  {
    hide Inv, Lookup, Stored;
    RecordFits(record, clock, maxValue);
    StepAnswers(s, EndToEnd.Step.Insert(name, record, victim), s');
  }

  lemma NewLine(c: Cache, c': Cache, name: string, line: Line, victim: Option<(string, nat)>)
    requires Replaced(c, c', name, line, victim)
    ensures Lookup(c', name, line.record.key) == Some(line)
  {
    hide Lookup;
  }

  lemma StorableText(r: Record)
    requires Storable(r)
    ensures Readable(r) && r.key < KEYS && NUL !in r.value
  {
  }

  lemma FewRows(dirty: seq<Dirty>)
    requires |dirty| <= MOST
    ensures 8 * |dirty| < Bytes.Pow(4)
  {
    assert Bytes.Pow(4) == 0x1_0000_0000;
  }

  lemma KeysFit(rows: seq<Row>, size: nat)
    requires forall i :: 0 <= i < |rows| ==> Stored(rows[i].record, size)
    ensures forall i :: 0 <= i < |rows| ==> rows[i].record.key < KEYS
  {
  }
}
