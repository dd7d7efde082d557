/**
  One cache over one storage engine. A state holds the cache, the tables at the level of records and the
  greatest timestamp handed out so far; a step is one operation or one callback.
 */
module EndToEnd {
  import opened Options
  import opened Records
  import opened Lookups
  import opened ArchiveSearch
  import opened Shelves
  import opened Pages
  import opened Memorias

  datatype State = State(cache: Cache, shelves: map<string, Shelf>, last: int)

  // ---------- The storage engine's answer ----------

  /** Records in the order in which they reached the table: temporary archives, then the memtable. */
  function Log(s: Shelf): seq<Record> { Joined(s.tmps) + s.mem }

  function All(s: Shelf): seq<Record> { Joined(s.parts) + Log(s) }

  /** The log is in timestamp order, a timestamp settles a record, and A1.tmpc repeats a part of the log. */
  ghost predicate Settled(s: Shelf)
  {
    && ShelfOk(s) && InOrder(Log(s)) && Consistent(All(s))
    && (s.tmpc.Some? ==> AllRecords(s.tmpc.value) <= Joined(s.tmps))
  }

  /** A contiguous part of an ordered, consistent list is ordered and consistent. */
  lemma Part(a: seq<Record>, b: seq<Record>, c: seq<Record>)
    ensures InOrder(a + b + c) ==> InOrder(b)
    ensures Consistent(a + b + c) ==> Consistent(b)
  {
    var all := a + b + c;
    forall i, j | 0 <= i < |b| && 0 <= j < |b| ensures all[|a| + i] == b[i] && all[|a| + j] == b[j] {}
    if InOrder(all) {
      forall i, j | 0 <= i < j < |b| && b[i].key == b[j].key ensures b[i].ts <= b[j].ts {
        assert all[|a| + i] == b[i] && all[|a| + j] == b[j];
      }
    }
    if Consistent(all) {
      forall i, j | 0 <= i < |b| && 0 <= j < |b| && b[i].key == b[j].key && b[i].ts == b[j].ts ensures b[i] == b[j] {
        assert all[|a| + i] == b[i] && all[|a| + j] == b[j];
      }
    }
  }

  lemma {:induction false} JoinedExact(tmps: seq<seq<Round>>, key: nat)
    requires InOrder(Joined(tmps)) && Consistent(Joined(tmps))
    ensures forall i :: 0 <= i < |tmps| ==> Exact(tmps[i], key)
    decreases |tmps|
  {
    hide AllRecords, InOrder, Consistent, Pick, Found;
    if tmps != [] {
      var init, last := tmps[..|tmps| - 1], tmps[|tmps| - 1];
      var a, b := Joined(init), AllRecords(last);
      assert [] + a + b == a + b && a + b + [] == a + b;
      Part([], a, b);
      Part(a, b, []);
      JoinedExact(init, key);
      OrderedSearch(last, key);
      forall i | 0 <= i < |tmps| ensures Exact(tmps[i], key) { if i < |init| { assert init[i] == tmps[i]; } }
    }
  }

  /** Only its own partition holds a key. */
  lemma {:induction false} JoinedParts(parts: seq<seq<Round>>, n: nat, m: nat, key: nat)
    requires 0 < n && m <= |parts| == n && Tidy(PartRecords(parts))
    ensures Pick(Joined(parts[..m]), key) == if key % n < m then Pick(AllRecords(parts[key % n]), key) else None
    decreases m
  {
    hide Pick, AllRecords, Tidy;
    if m == 0 {
      PickNothing([], key);
    } else {
      var p := m - 1;
      JoinedParts(parts, n, p, key);
      assert parts[..m][..p] == parts[..p];
      PickConcat(Joined(parts[..p]), AllRecords(parts[p]), key);
      if key % n != p { ForeignPart(parts, p, key); }
    }
  }

  lemma ForeignPart(parts: seq<seq<Round>>, p: nat, key: nat)
    requires p < |parts| && Tidy(PartRecords(parts)) && key % |parts| != p
    ensures Pick(AllRecords(parts[p]), key) == None
  {
    hide AllRecords, Pick;
    assert PartRecords(parts)[p] == AllRecords(parts[p]);
    PickNothing(AllRecords(parts[p]), key);
  }

  lemma PartsPick(s: Shelf, key: nat)
    requires ShelfOk(s)
    ensures Pick(Joined(s.parts), key) == Pick(AllRecords(s.parts[key % |s.parts|]), key)
  {
    JoinedParts(s.parts, |s.parts|, |s.parts|, key);
    assert s.parts[..|s.parts|] == s.parts;
  }

  /** Answers of one consistent list that have the same timestamp are the same. */
  lemma PicksAgree(a: seq<Record>, b: seq<Record>, key: nat)
    requires Consistent(a + b)
    ensures Agree(Pick(a, key), Pick(b, key))
  {
    if Pick(a, key).Some? && Pick(b, key).Some? {
      PickMember(a, key);
      PickMember(b, key);
      var i :| 0 <= i < |a| && a[i] == Pick(a, key).value;
      var j :| 0 <= j < |b| && b[j] == Pick(b, key).value;
      assert (a + b)[i] == a[i] && (a + b)[|a| + j] == b[j];
    }
  }

  /** In a settled table search_key answers the newest record of all. */
  lemma SearchIsNewest(s: Shelf, key: nat)
    requires Settled(s)
    ensures Search(s, key) == Pick(All(s), key)
  {
    hide Pick, Found, Tidy, InOrder, Consistent, Joined, AllRecords, SearchTmps, ShelfOk;
    var parts, tmps := Joined(s.parts), Joined(s.tmps);
    LogIsOrdered(s);
    TmpsNewest(s, key);
    SettledParts(s, key);
    PickConcat(parts, Log(s), key);
    PickConcat(tmps, s.mem, key);
    PicksAgree(tmps, s.mem, key);
    PicksAgree(parts, Log(s), key);
  }

  /** The parts of a settled log are ordered and consistent. */
  lemma LogIsOrdered(s: Shelf)
    requires Settled(s)
    ensures InOrder(Joined(s.tmps)) && Consistent(Joined(s.tmps)) && Consistent(Log(s)) && Consistent(Joined(s.parts) + Log(s))
  {
    hide InOrder, Consistent, Joined, AllRecords, ShelfOk;
    var parts, tmps := Joined(s.parts), Joined(s.tmps);
    Part(parts, Log(s), []);
    assert parts + Log(s) + [] == All(s);
    Part([], tmps, s.mem);
    assert [] + tmps + s.mem == Log(s);
  }

  lemma SettledParts(s: Shelf, key: nat)
    requires Settled(s)
    ensures s.parts != [] && Found(s.parts[key % |s.parts|], key) == Pick(Joined(s.parts), key)
  {
    hide Pick, Found, InOrder, Consistent, Joined, AllRecords, Tidy;
    PartitionSearch(s, key);
    PartsPick(s, key);
  }

  /** The temporary archives and A1.tmpc answer the newest record of the temporary archives. */
  lemma TmpsNewest(s: Shelf, key: nat)
    requires Settled(s) && InOrder(Joined(s.tmps)) && Consistent(Joined(s.tmps))
    ensures Newer(SearchTmps(s.tmps, key), SearchTmpc(s.tmpc, key)) == Pick(Joined(s.tmps), key)
  {
    hide Pick, Found, InOrder, Consistent, Joined, AllRecords, SearchTmps, ShelfOk;
    var tmps := Joined(s.tmps);
    JoinedExact(s.tmps, key);
    TmpsPick(s.tmps, key);
    if s.tmpc.Some? {
      var early := AllRecords(s.tmpc.value);
      var late := tmps[|early|..];
      assert tmps == early + late;
      assert [] + early + late == tmps;
      Part([], early, late);
      OrderedSearch(s.tmpc.value, key);
      PickConcat(early, late, key);
      PicksAgree(early, tmps, key) by { RepeatedIsConsistent(early, late); }
    }
    if Pick(tmps, key) == None { PickNothing(tmps, key); }
  }

  lemma RepeatedIsConsistent(early: seq<Record>, late: seq<Record>)
    requires Consistent(early + late)
    ensures Consistent(early + (early + late))
  {
    ConsistentSubset(early + late, early + (early + late));
  }

  // ---------- What the engine's own steps keep ----------

  lemma ConsistentSubset(a: seq<Record>, b: seq<Record>)
    requires Consistent(a) && forall x :: x in b ==> x in a
    ensures Consistent(b)
  {
    forall i, j | 0 <= i < |b| && 0 <= j < |b| && b[i].key == b[j].key && b[i].ts == b[j].ts ensures b[i] == b[j] {
      assert b[i] in a && b[j] in a;
      var x :| 0 <= x < |a| && a[x] == b[i];
      var y :| 0 <= y < |a| && a[y] == b[j];
    }
  }

  lemma {:induction false} MergeMembers(parts: seq<seq<Record>>, rs: seq<Record>, p: nat, r: Record)
    requires parts != [] && p < |parts| && r in MergeAll(parts, rs)[p]
    ensures r in parts[p] || r in rs
    decreases |rs|
  {
    if rs != [] {
      var init, last := rs[..|rs| - 1], rs[|rs| - 1];
      var before := MergeAll(parts, init);
      if r in before[p] {
        MergeMembers(parts, init, p, r);
      } else {
        assert r == last;
      }
    }
  }

  lemma {:induction false} InJoined(archives: seq<seq<Round>>, r: Record)
    ensures r in Joined(archives) <==> exists i :: 0 <= i < |archives| && r in AllRecords(archives[i])
    decreases |archives|
  {
    hide AllRecords, Joined;
    if archives == [] {
      NoJoined();
    } else {
      var last := |archives| - 1;
      var init := archives[..last];
      InJoined(init, r);
      JoinedLast(archives);
      if r in Joined(init) {
        var i :| 0 <= i < last && r in AllRecords(init[i]);
        assert r in AllRecords(archives[i]);
      }
      if i :| 0 <= i < |archives| && r in AllRecords(archives[i]) {
        if i < last { assert r in AllRecords(init[i]); }
      }
    }
  }

  lemma JoinedLast(archives: seq<seq<Round>>)
    requires archives != []
    ensures Joined(archives) == Joined(archives[..|archives| - 1]) + AllRecords(archives[|archives| - 1])
  {
  }

  lemma RewrittenMembers(s: Shelf, s': Shelf, merged: seq<Record>, r: Record)
    requires s.parts != [] && Rewritten(s, s', merged) && r in Joined(s'.parts)
    ensures r in Joined(s.parts) || r in merged
  {
    hide AllRecords, MergeAll;
    InJoined(s'.parts, r);
    var p :| 0 <= p < |s'.parts| && r in AllRecords(s'.parts[p]);
    assert PartRecords(s'.parts)[p] == AllRecords(s'.parts[p]);
    MergeMembers(PartRecords(s.parts), merged, p, r);
    assert PartRecords(s.parts)[p] == AllRecords(s.parts[p]);
    InJoined(s.parts, r);
  }

  /** Moving records from the log to the partitions keeps the newest record of every key. */
  lemma RewrittenKeeps(s: Shelf, s': Shelf, merged: seq<Record>)
    requires Settled(s) && Rewritten(s, s', merged) && merged <= Joined(s.tmps)
    requires Joined(s'.tmps) == Joined(s.tmps) || (merged == Joined(s.tmps) && s'.tmps == [])
    ensures Settled(s') && forall key: nat :: Pick(All(s'), key) == Pick(All(s), key)
    ensures forall r :: r in All(s') ==> r in All(s)
  {
    hide Pick, Found, Tidy, InOrder, Consistent, AllRecords, MergeAll, Joined;
    NoJoined();
    RewrittenParts(s, s', merged, 0);
    forall r | r in All(s') ensures r in All(s) {
      if r in Joined(s'.parts) { RewrittenMembers(s, s', merged, r); }
    }
    ConsistentSubset(All(s), All(s'));
    assert InOrder(Log(s')) by {
      if s'.tmps == [] {
        Part(Joined(s.tmps), s.mem, []);
        assert Joined(s.tmps) + s.mem + [] == Log(s) && Log(s') == s.mem;
      } else {
        assert Log(s') == Log(s);
      }
    }
    forall key: nat ensures Pick(All(s'), key) == Pick(All(s), key) {
      var tail := Joined(s.tmps)[|merged|..];
      assert Joined(s.tmps) == merged + tail;
      RewrittenParts(s, s', merged, key);
      PartsPick(s, key);
      PartsPick(s', key);
      PartitionSearch(s, key);
      PartitionSearch(s', key);
      PickConcat(Joined(s.parts), Log(s), key);
      PickConcat(Joined(s'.parts), Log(s'), key);
      PickConcat(Joined(s.tmps), s.mem, key);
      PickConcat(Joined(s'.tmps), s.mem, key);
      PickConcat(merged, tail, key);
      PickNothing([], key);
    }
  }

  lemma NoJoined()
    ensures Joined([]) == []
  {
  }

  lemma CompactionKeeps(s: Shelf, s': Shelf)
    requires Settled(s) && CompactionOutcome(s, s')
    ensures Settled(s') && forall key: nat :: Pick(All(s'), key) == Pick(All(s), key)
    ensures forall r :: r in All(s') ==> r in All(s)
  {
    hide Settled, Pick, MergeAll;
    if s.tmpc.Some? {
      TmpcIsPrefix(s);
      RewrittenKeeps(s, s', AllRecords(s.tmpc.value));
    } else if s.tmps != [] {
      RewrittenKeeps(s, s', Joined(s.tmps));
    }
  }

  lemma TmpcIsPrefix(s: Shelf)
    requires Settled(s) && s.tmpc.Some?
    ensures AllRecords(s.tmpc.value) <= Joined(s.tmps)
  {
  }

  lemma InterruptionKeeps(s: Shelf, s': Shelf)
    requires Settled(s) && Interrupted(s, s')
    ensures Settled(s') && All(s') == All(s)
  {
  }

  lemma DumpKeeps(s: Shelf, s': Shelf)
    requires Settled(s) && Dumped(s, s')
    ensures Settled(s') && All(s') == All(s)
  {
    hide InOrder, Consistent, AllRecords, Tidy;
    var n := |s.tmps|;
    assert s'.tmps == s'.tmps[..n] + [s'.tmps[n]];
    assert Joined(s'.tmps) == Joined(s.tmps) + s.mem;
    assert Log(s') == Log(s);
  }

  /** Rows of a journal: at most one per key, each at least as new as what the table holds. */
  ghost predicate Fresh(s: Shelf, rows: seq<Record>)
  {
    UniqueKeys(rows) && forall r :: r in rows ==>
      Stamp(Pick(All(s), r.key)) <= r.ts && (Stamp(Pick(All(s), r.key)) == r.ts ==> Pick(All(s), r.key) == Some(r))
  }

  lemma RowsKeep(s: Shelf, rows: seq<Record>)
    requires Settled(s) && Fresh(s, rows)
    ensures var s' := s.(mem := s.mem + rows);
            Settled(s') && forall key: nat :: Pick(All(s'), key) == Keep(Pick(All(s), key), Pick(rows, key))
  {
    hide Pick, Tidy, AllRecords;
    var s' := s.(mem := s.mem + rows);
    assert Log(s') == Log(s) + rows && All(s') == All(s) + rows;
    forall i, j | 0 <= i < j < |Log(s')| && Log(s')[i].key == Log(s')[j].key ensures Log(s')[i].ts <= Log(s')[j].ts {
      if i < |Log(s)| <= j {
        var r := rows[j - |Log(s)|];
        assert r in rows && All(s)[|Joined(s.parts)| + i] == Log(s)[i];
        PickBounds(All(s), r.key, |Joined(s.parts)| + i);
      }
    }
    forall i, j | 0 <= i < j < |All(s')| && All(s')[i].key == All(s')[j].key && All(s')[i].ts == All(s')[j].ts
      ensures All(s')[i] == All(s')[j]
    {
      if i < |All(s)| <= j { RowIsKnown(s, rows, i, rows[j - |All(s)|]); }
    }
    forall key: nat ensures Pick(All(s'), key) == Keep(Pick(All(s), key), Pick(rows, key)) {
      PickConcat(All(s), rows, key);
    }
  }

  lemma RowIsKnown(s: Shelf, rows: seq<Record>, i: nat, r: Record)
    requires Settled(s) && Fresh(s, rows) && r in rows && i < |All(s)| && All(s)[i].key == r.key && All(s)[i].ts == r.ts
    ensures All(s)[i] == r
  {
    hide Pick, Tidy, AllRecords, InOrder;
    PickBounds(All(s), r.key, i);
    PickMember(All(s), r.key);
    var j :| 0 <= j < |All(s)| && All(s)[j] == r;
  }

  // ---------- The machine ----------

  /**
    One step. Insert is an acknowledged INSERT; Fill caches what a SELECT fetched; Journal sends every
    dirty record, and acked tells whether the answer arrived; EmptyJournal is an acknowledged journal of so many
    records that the engine's count of them wraps around to none; Crash is a journal of so many records that the count
    is negative, which ends the engine's process and with it the memtable; Idle stands for whatever changes nothing: hits,
    refused operations and journals that never reached the engine.
   */
  datatype Step =
    | Insert(table: string, record: Record, victim: Option<(string, nat)>)
    | Fill(table: string, record: Record, victim: Option<(string, nat)>)
    | Journal(sent: seq<Dirty>, rows: map<string, seq<Record>>, acked: bool)
    | EmptyJournal(sent: seq<Dirty>)
    | Crash(sent: seq<Dirty>)
    | Dump
    | Compact(table: string)
    | Interrupt(table: string)
    | Idle

  /** The most records of a journal whose packet arrives as it was sent. */
  const MOST := 31

  /** The numbers of records at which the engine sees an empty journal. */
  predicate Wraps(n: nat) { n >= 64 && n % 64 == 0 }

  /** The numbers of records at which the engine's count is negative. */
  predicate Overflows(n: nat) { n % 64 >= 32 }

  /** A journal that the engine did not read as it was sent. */
  predicate Misread(step: Step) { step.EmptyJournal? || step.Crash? }

  /** The rows of a table are its dirty lines, each once. */
  ghost predicate RowsOf(c: Cache, table: string, rows: seq<Record>)
  {
    UniqueKeys(rows) && forall r :: r in rows <==> Lookup(c, table, r.key) == Some(Line(r, true))
  }

  ghost predicate SameElsewhere(shelves: map<string, Shelf>, shelves': map<string, Shelf>, table: string)
  {
    shelves'.Keys == shelves.Keys && forall t :: t in shelves && t != table ==> shelves'[t] == shelves[t]
  }

  ghost predicate Next(s: State, step: Step, s': State)
  {
    match step
    case Insert(table, r, victim) =>
      && table in s.shelves && s'.shelves == s.shelves && r.ts > s.last && s'.last == r.ts
      && FairVictim(s.cache, victim) && Replaced(s.cache, s'.cache, table, Line(r, true), victim)
    case Fill(table, r, victim) =>
      && table in s.shelves && s'.shelves == s.shelves && s'.last == s.last
      && Lookup(s.cache, table, r.key) == None && s.shelves[table].parts != [] && Search(s.shelves[table], r.key) == Some(r)
      && FairVictim(s.cache, victim) && Replaced(s.cache, s'.cache, table, Line(r, false), victim)
    case Journal(sent, rows, acked) =>
      && IsJournal(s.cache, sent) && |sent| <= MOST
      && rows.Keys == s.shelves.Keys == s'.shelves.Keys && s'.last == s.last
      && (forall t :: t in s.shelves ==>
            RowsOf(s.cache, t, rows[t]) && s'.shelves[t] == s.shelves[t].(mem := s.shelves[t].mem + rows[t]))
      && (acked ==> forall n: string, k: nat :: Lookup(s'.cache, n, k) == None)
      && (!acked ==> s'.cache == s.cache)
    case EmptyJournal(sent) =>
      && IsJournal(s.cache, sent) && Wraps(|sent|) && s'.shelves == s.shelves && s'.last == s.last
      && forall n: string, k: nat :: Lookup(s'.cache, n, k) == None
    case Crash(sent) =>
      && IsJournal(s.cache, sent) && Overflows(|sent|) && s'.cache == s.cache && s'.last == s.last
      && s'.shelves.Keys == s.shelves.Keys && forall t :: t in s.shelves ==> s'.shelves[t] == s.shelves[t].(mem := [])
    case Dump =>
      && s'.cache == s.cache && s'.last == s.last && s'.shelves.Keys == s.shelves.Keys
      && forall t :: t in s.shelves ==> Dumped(s.shelves[t], s'.shelves[t]) || (s.shelves[t].mem == [] && s'.shelves[t] == s.shelves[t])
    case Compact(table) =>
      && s'.cache == s.cache && s'.last == s.last && table in s.shelves && SameElsewhere(s.shelves, s'.shelves, table)
      && CompactionOutcome(s.shelves[table], s'.shelves[table])
    case Interrupt(table) =>
      && s'.cache == s.cache && s'.last == s.last && table in s.shelves && SameElsewhere(s.shelves, s'.shelves, table)
      && Interrupted(s.shelves[table], s'.shelves[table])
    case Idle => s' == s
  }

  /** A clean line repeats what the engine holds; a dirty line is at least as new. */
  predicate Coherent(line: Option<Line>, stored: Option<Record>)
  {
    match line
    case None => true
    case Some(Line(r, false)) => stored == Some(r)
    case Some(Line(r, true)) => Stamp(stored) <= r.ts && (Stamp(stored) == r.ts ==> stored == Some(r))
  }

  ghost predicate Inv(s: State)
  {
    && (forall t :: t in s.shelves ==> Settled(s.shelves[t]) && forall r :: r in All(s.shelves[t]) ==> r.ts <= s.last)
    && (forall n: string, k: nat :: Lookup(s.cache, n, k).Some? ==> n in s.shelves && Lookup(s.cache, n, k).value.record.ts <= s.last)
    && (forall t: string, k: nat :: t in s.shelves ==> Coherent(Lookup(s.cache, t, k), Pick(All(s.shelves[t]), k)))
  }

  /** What a SELECT answers: the cached record, or else what the engine finds. */
  ghost function Answer(s: State, table: string, key: nat): Option<Record>
    requires table in s.shelves && s.shelves[table].parts != []
  {
    match Lookup(s.cache, table, key)
    case Some(line) => Some(line.record)
    case None => Search(s.shelves[table], key)
  }

  lemma AnswerIs(s: State, table: string, key: nat)
    requires Inv(s) && table in s.shelves
    ensures s.shelves[table].parts != []
    ensures Answer(s, table, key) ==
            match Lookup(s.cache, table, key) case Some(line) => Some(line.record) case None => Pick(All(s.shelves[table]), key)
  {
    hide Lookup, Pick, Search;
    assert Settled(s.shelves[table]);
    SearchIsNewest(s.shelves[table], key);
  }

  lemma LookupKey(c: Cache, name: string, key: nat)
    ensures Lookup(c, name, key).Some? ==> Lookup(c, name, key).value.record.key == key
  {
    hide RecordIn;
  }

  /** The engine's part of a state is untouched. */
  lemma CacheStep(s: State, table: string, line: Line, victim: Option<(string, nat)>, s': State)
    requires Inv(s) && table in s.shelves && s'.shelves == s.shelves && s.last <= s'.last && line.record.ts <= s'.last
    requires FairVictim(s.cache, victim) && Replaced(s.cache, s'.cache, table, line, victim)
    requires Coherent(Some(line), Pick(All(s.shelves[table]), line.record.key))
    ensures Inv(s')
    ensures forall t: string, k: nat :: t in s.shelves && (t, k) != (table, line.record.key) ==>
              (Lookup(s'.cache, t, k) == Lookup(s.cache, t, k)
               || (Lookup(s'.cache, t, k) == None && Lookup(s.cache, t, k).Some?
                   && Pick(All(s.shelves[t]), k) == Some(Lookup(s.cache, t, k).value.record)))
  {
    hide Lookup, Pick, Settled;
    forall t: string, k: nat | t in s.shelves ensures Coherent(Lookup(s'.cache, t, k), Pick(All(s.shelves[t]), k)) {
      assert Coherent(Lookup(s.cache, t, k), Pick(All(s.shelves[t]), k));
    }
    forall t: string, k: nat | t in s.shelves && victim == Some((t, k))
      ensures Pick(All(s.shelves[t]), k) == Some(Lookup(s.cache, t, k).value.record)
    {
      assert Coherent(Lookup(s.cache, t, k), Pick(All(s.shelves[t]), k));
    }
  }

  /** What a step does to answers. */
  ghost predicate Answers(s: State, step: Step, s': State)
  {
    && s'.shelves.Keys == s.shelves.Keys
    && (forall t :: t in s.shelves ==> s.shelves[t].parts != [] && s'.shelves[t].parts != [])
    && forall t: string, k: nat :: t in s.shelves ==>
         Answer(s', t, k) ==
         if step.Insert? && (t, k) == (step.table, step.record.key) then Some(step.record) else Answer(s, t, k)
  }

  lemma NonEmpty(s: State)
    requires Inv(s)
    ensures forall t :: t in s.shelves ==> s.shelves[t].parts != []
  {
    forall t | t in s.shelves ensures s.shelves[t].parts != [] { assert Settled(s.shelves[t]); }
  }

  lemma InsertAnswers(s: State, step: Step, s': State)
    requires Inv(s) && Next(s, step, s') && step.Insert?
    ensures Inv(s') && Answers(s, step, s')
  {
    hide Lookup, Pick, Settled, Search;
    var r := step.record;
    var stored := Pick(All(s.shelves[step.table]), r.key);
    if stored.Some? { PickMember(All(s.shelves[step.table]), r.key); }
    CacheStep(s, step.table, Line(r, true), step.victim, s');
    NonEmpty(s);
    NonEmpty(s');
    forall t: string, k: nat | t in s.shelves
      ensures Answer(s', t, k) == if (t, k) == (step.table, r.key) then Some(r) else Answer(s, t, k)
    {
      AnswerIs(s, t, k);
      AnswerIs(s', t, k);
    }
  }

  lemma FillAnswers(s: State, step: Step, s': State)
    requires Inv(s) && Next(s, step, s') && step.Fill?
    ensures Inv(s') && Answers(s, step, s')
  {
    hide Lookup, Pick, Settled, Search;
    var r := step.record;
    assert Settled(s.shelves[step.table]);
    SearchIsNewest(s.shelves[step.table], r.key);
    PickMember(All(s.shelves[step.table]), r.key);
    CacheStep(s, step.table, Line(r, false), step.victim, s');
    NonEmpty(s);
    NonEmpty(s');
    forall t: string, k: nat | t in s.shelves ensures Answer(s', t, k) == Answer(s, t, k) {
      AnswerIs(s, t, k);
      AnswerIs(s', t, k);
    }
  }

  /** Steps that keep the cache and the newest record of every key. */
  lemma EngineStep(s: State, s': State)
    requires Inv(s) && s'.cache == s.cache && s'.last == s.last && s'.shelves.Keys == s.shelves.Keys
    requires forall t :: t in s.shelves ==>
               && Settled(s'.shelves[t]) && (forall r :: r in All(s'.shelves[t]) ==> r in All(s.shelves[t]))
               && forall k: nat :: Pick(All(s'.shelves[t]), k) == Pick(All(s.shelves[t]), k)
    ensures Inv(s') && Answers(s, Idle, s')
  {
    hide Lookup, Pick, Settled, Search;
    forall t: string, k: nat | t in s'.shelves ensures Coherent(Lookup(s'.cache, t, k), Pick(All(s'.shelves[t]), k)) {
      assert Coherent(Lookup(s.cache, t, k), Pick(All(s.shelves[t]), k));
    }
    NonEmpty(s);
    NonEmpty(s');
    forall t: string, k: nat | t in s.shelves ensures Answer(s', t, k) == Answer(s, t, k) {
      AnswerIs(s, t, k);
      AnswerIs(s', t, k);
    }
  }

  lemma EngineStepsAnswer(s: State, step: Step, s': State)
    requires Inv(s) && Next(s, step, s') && (step.Dump? || step.Compact? || step.Interrupt?)
    ensures Inv(s') && Answers(s, Idle, s')
  {
    hide Lookup, Pick, Settled, Search, CompactionOutcome, Dumped, Interrupted, All;
    forall t | t in s.shelves
      ensures Settled(s'.shelves[t]) && (forall r :: r in All(s'.shelves[t]) ==> r in All(s.shelves[t]))
      ensures forall k: nat :: Pick(All(s'.shelves[t]), k) == Pick(All(s.shelves[t]), k)
    {
      var shelf, shelf' := s.shelves[t], s'.shelves[t];
      if shelf' != shelf {
        if step.Dump? { DumpKeeps(shelf, shelf'); }
        if step.Compact? { CompactionKeeps(shelf, shelf'); }
        if step.Interrupt? { InterruptionKeeps(shelf, shelf'); }
      }
    }
    EngineStep(s, s');
  }

  lemma RowsPick(c: Cache, table: string, rows: seq<Record>, key: nat)
    requires RowsOf(c, table, rows)
    ensures Pick(rows, key) == match Lookup(c, table, key) case Some(Line(r, true)) => Some(r) case _ => None
  {
    hide Lookup;
    LookupKey(c, table, key);
    PickNothing(rows, key);
    if Pick(rows, key).Some? {
      PickMember(rows, key);
    }
  }

  lemma RowsAreFresh(s: State, table: string, rows: seq<Record>)
    requires Inv(s) && table in s.shelves && RowsOf(s.cache, table, rows)
    ensures Fresh(s.shelves[table], rows) && forall r :: r in rows ==> r.ts <= s.last
  {
    hide Lookup, Pick, Settled;
    forall r | r in rows
      ensures Stamp(Pick(All(s.shelves[table]), r.key)) <= r.ts <= s.last
      ensures Stamp(Pick(All(s.shelves[table]), r.key)) == r.ts ==> Pick(All(s.shelves[table]), r.key) == Some(r)
    {
      assert Coherent(Lookup(s.cache, table, r.key), Pick(All(s.shelves[table]), r.key));
    }
  }

  /** After a journal the engine holds, for every key, what the cache would have answered. */
  lemma JournalTable(s: State, step: Step, s': State, t: string)
    requires Inv(s) && Next(s, step, s') && step.Journal? && t in s.shelves
    ensures Settled(s'.shelves[t]) && forall r :: r in All(s'.shelves[t]) ==> r.ts <= s'.last
    ensures forall k: nat :: Pick(All(s'.shelves[t]), k) ==
              match Lookup(s.cache, t, k) case Some(line) => Some(line.record) case None => Pick(All(s.shelves[t]), k)
  {
    hide Lookup, Pick, Settled;
    var shelf, rows := s.shelves[t], step.rows[t];
    RowsAreFresh(s, t, rows);
    RowsKeep(shelf, rows);
    assert All(s'.shelves[t]) == All(shelf) + rows;
    forall k: nat
      ensures Pick(All(s'.shelves[t]), k) ==
              match Lookup(s.cache, t, k) case Some(line) => Some(line.record) case None => Pick(All(shelf), k)
    {
      RowsPick(s.cache, t, rows, k);
      assert Coherent(Lookup(s.cache, t, k), Pick(All(shelf), k));
    }
  }

  lemma JournalAnswers(s: State, step: Step, s': State)
    requires Inv(s) && Next(s, step, s') && step.Journal?
    ensures Inv(s') && Answers(s, Idle, s')
  {
    hide Lookup, Pick, Settled, Search, All;
    JournalInv(s, step, s');
    NonEmpty(s);
    NonEmpty(s');
    forall t: string, k: nat | t in s.shelves ensures Answer(s', t, k) == Answer(s, t, k) {
      JournalTable(s, step, s', t);
      AnswerIs(s, t, k);
      AnswerIs(s', t, k);
    }
  }

  lemma JournalInv(s: State, step: Step, s': State)
    requires Inv(s) && Next(s, step, s') && step.Journal?
    ensures Inv(s')
  {
    hide Lookup, Pick, Settled, Search, All, RowsOf, IsJournal;
    forall t | t in s.shelves
      ensures Settled(s'.shelves[t]) && forall r :: r in All(s'.shelves[t]) ==> r.ts <= s'.last
    {
      JournalTable(s, step, s', t);
    }
    forall t: string, k: nat | t in s.shelves ensures Coherent(Lookup(s'.cache, t, k), Pick(All(s'.shelves[t]), k)) {
      JournalTable(s, step, s', t);
      assert Coherent(Lookup(s.cache, t, k), Pick(All(s.shelves[t]), k));
    }
  }

  /** An empty journal leaves the engine's answers, whatever the cache held. */
  lemma EmptyJournalAnswers(s: State, step: Step, s': State)
    requires Inv(s) && Next(s, step, s') && step.EmptyJournal?
    ensures Inv(s') && s'.shelves == s.shelves
    ensures forall t: string, k: nat :: t in s.shelves ==>
              s.shelves[t].parts != [] && Answer(s', t, k) == Search(s.shelves[t], k)
  {
    hide Lookup, Pick, Settled, Search;
    NonEmpty(s);
  }

  /** An acknowledged empty journal loses a dirty record exactly if the engine does not hold it yet. */
  lemma EmptyJournalLoses(s: State, step: Step, s': State, table: string, r: Record)
    requires Inv(s) && Next(s, step, s') && step.EmptyJournal? && Lookup(s.cache, table, r.key) == Some(Line(r, true))
    ensures table in s.shelves && s.shelves[table].parts != []
    ensures Answer(s, table, r.key) == Some(r)
    ensures Answer(s', table, r.key) == Some(r) <==> Search(s.shelves[table], r.key) == Some(r)
    ensures Answer(s', table, r.key) != Some(r) ==> Stamp(Answer(s', table, r.key)) < r.ts
  {
    hide Lookup, Pick, Settled, Search, All;
    EmptyJournalAnswers(s, step, s');
    assert Coherent(Lookup(s.cache, table, r.key), Pick(All(s.shelves[table]), r.key));
    SettledSearch(s, table, r.key);
  }

  lemma SettledSearch(s: State, table: string, key: nat)
    requires Inv(s) && table in s.shelves
    ensures s.shelves[table].parts != [] && Search(s.shelves[table], key) == Pick(All(s.shelves[table]), key)
  {
    hide Lookup, Pick, Search;
    assert Settled(s.shelves[table]);
    SearchIsNewest(s.shelves[table], key);
  }

  /** Without its memtable a table is still settled. */
  lemma MemtableLost(s: Shelf)
    requires Settled(s)
    ensures var s' := s.(mem := []); Settled(s') && All(s') == Joined(s.parts) + Joined(s.tmps)
  {
    hide Tidy, AllRecords;
    var s' := s.(mem := []);
    var parts, tmps := Joined(s.parts), Joined(s.tmps);
    assert Log(s') == tmps && All(s') == parts + tmps;
    assert Log(s) == [] + tmps + s.mem && All(s) == [] + (parts + tmps) + s.mem;
    Part([], tmps, s.mem);
    Part([], parts + tmps, s.mem);
  }

  /** After a crash the cache answers as before, and for other keys what partitions and temporary archives hold. */
  lemma CrashAnswers(s: State, step: Step, s': State, table: string, key: nat)
    requires Inv(s) && Next(s, step, s') && step.Crash? && table in s.shelves
    ensures table in s'.shelves && s.shelves[table].parts != [] && s'.shelves[table].parts != []
    ensures Answer(s', table, key) ==
            match Lookup(s.cache, table, key)
            case Some(line) => Some(line.record)
            case None => Pick(Joined(s.shelves[table].parts) + Joined(s.shelves[table].tmps), key)
  {
    hide Lookup, Pick, Search, Joined, ShelfOk, InOrder, Consistent;
    assert Settled(s.shelves[table]);
    NonEmpty(s);
    MemtableLost(s.shelves[table]);
    SearchIsNewest(s'.shelves[table], key);
  }

  /** A crash loses the record that a SELECT would answer exactly if it is not cached and only the memtable holds it. */
  lemma CrashLoses(s: State, step: Step, s': State, table: string, key: nat)
    requires Inv(s) && Next(s, step, s') && step.Crash? && table in s.shelves
    ensures table in s'.shelves && s.shelves[table].parts != [] && s'.shelves[table].parts != []
    ensures var shelf := s.shelves[table];
            Answer(s', table, key) != Answer(s, table, key) <==>
            Lookup(s.cache, table, key) == None && Stamp(Pick(shelf.mem, key)) > Stamp(Pick(Joined(shelf.parts) + Joined(shelf.tmps), key))
  {
    hide Lookup, Pick, Search, Joined, Settled;
    var shelf := s.shelves[table];
    CrashAnswers(s, step, s', table, key);
    AnswerIs(s, table, key);
    assert All(shelf) == Joined(shelf.parts) + Joined(shelf.tmps) + shelf.mem;
    PickConcat(Joined(shelf.parts) + Joined(shelf.tmps), shelf.mem, key);
  }

  /** Every step but a misread journal keeps the answers, except that an acknowledged INSERT changes its own. */
  lemma StepAnswers(s: State, step: Step, s': State)
    requires Inv(s) && Next(s, step, s') && !Misread(step)
    ensures Inv(s') && Answers(s, step, s')
  {
    hide Inv, Next, Answer;
    match step
    case Insert(_, _, _) => InsertAnswers(s, step, s');
    case Fill(_, _, _) => FillAnswers(s, step, s');
    case Journal(_, _, _) => JournalAnswers(s, step, s');
    case Dump => EngineStepsAnswer(s, step, s');
    case Compact(_) => EngineStepsAnswer(s, step, s');
    case Interrupt(_) => EngineStepsAnswer(s, step, s');
    case Idle => IdleAnswers(s, s');
  }

  lemma IdleAnswers(s: State, s': State)
    requires Inv(s) && Next(s, Idle, s')
    ensures Inv(s') && Answers(s, Idle, s')
  {
    NonEmpty(s);
  }

  // ---------- Runs ----------

  ghost predicate IsRun(states: seq<State>, steps: seq<Step>)
  {
    |states| == |steps| + 1 && forall i :: 0 <= i < |steps| ==> Next(states[i], steps[i], states[i + 1])
  }

  /** The record of the last acknowledged INSERT of a key, or what was there at the start. */
  function LastInsert(steps: seq<Step>, table: string, key: nat, initial: Option<Record>): Option<Record>
    decreases |steps|
  {
    if steps == [] then initial else
      var last := steps[|steps| - 1];
      if last.Insert? && (last.table, last.record.key) == (table, key) then Some(last.record)
      else LastInsert(steps[..|steps| - 1], table, key, initial)
  }

  /** Every journal that reached the engine was read as it was sent. */
  predicate NothingMisread(steps: seq<Step>) { forall i :: 0 <= i < |steps| ==> !Misread(steps[i]) }

  /** In every run in which no journal is misread, each SELECT answers the last acknowledged INSERT of its key. */
  lemma {:induction false} SelectsSeeLastInsert(states: seq<State>, steps: seq<Step>, table: string, key: nat)
    requires IsRun(states, steps) && Inv(states[0]) && table in states[0].shelves && NothingMisread(steps)
    ensures var end := states[|steps|];
            Inv(end) && table in end.shelves && states[0].shelves[table].parts != [] && end.shelves[table].parts != []
            && Answer(end, table, key) == LastInsert(steps, table, key, Answer(states[0], table, key))
    decreases |steps|
  {
    hide Inv, Next, Answer;
    if steps == [] {
      NonEmpty(states[0]);
    } else {
      var n := |steps| - 1;
      assert IsRun(states[..|states| - 1], steps[..n]);
      SelectsSeeLastInsert(states[..|states| - 1], steps[..n], table, key);
      StepAnswers(states[n], steps[n], states[n + 1]);
    }
  }

  /** Timestamps only grow along a run. */
  lemma {:induction false} AnswersGrow(states: seq<State>, steps: seq<Step>, table: string, key: nat)
    requires IsRun(states, steps) && Inv(states[0]) && table in states[0].shelves && NothingMisread(steps)
    ensures var end := states[|steps|];
            Inv(end) && table in end.shelves && states[0].shelves[table].parts != [] && end.shelves[table].parts != []
            && Stamp(Answer(states[0], table, key)) <= Stamp(Answer(end, table, key))
    decreases |steps|
  {
    hide Inv, Next, Answer;
    if steps == [] {
      NonEmpty(states[0]);
    } else {
      var n := |steps| - 1;
      assert IsRun(states[..|states| - 1], steps[..n]);
      AnswersGrow(states[..|states| - 1], steps[..n], table, key);
      StepAnswers(states[n], steps[n], states[n + 1]);
      AnswerIsOld(states[n], table, key);
      if steps[n].Insert? { InsertIsNew(states[n], steps[n], states[n + 1]); }
    }
  }

  lemma AnswerIsOld(s: State, table: string, key: nat)
    requires Inv(s) && table in s.shelves && s.shelves[table].parts != []
    ensures Answer(s, table, key).Some? ==> Answer(s, table, key).value.ts <= s.last
  {
    hide Lookup, Pick, Settled, Search;
    AnswerIs(s, table, key);
    if Pick(All(s.shelves[table]), key).Some? { PickMember(All(s.shelves[table]), key); }
  }

  lemma InsertIsNew(s: State, step: Step, s': State)
    requires Next(s, step, s') && step.Insert?
    ensures step.record.ts > s.last
  {
  }

  /**
    No dirty record is lost: as long as the engine's own answer is older than it, the cache holds a dirty
    line of the key that is no older.
   */
  lemma DirtyRecordsSurvive(states: seq<State>, steps: seq<Step>, table: string, record: Record)
    requires IsRun(states, steps) && Inv(states[0]) && NothingMisread(steps)
    requires Lookup(states[0].cache, table, record.key) == Some(Line(record, true))
    ensures table in states[0].shelves
    ensures var end := states[|steps|];
            table in end.shelves && end.shelves[table].parts != [] &&
            (Stamp(Search(end.shelves[table], record.key)) < record.ts ==>
               var line := Lookup(end.cache, table, record.key);
               line.Some? && line.value.dirty && line.value.record.ts >= record.ts)
  {
    hide Lookup, Pick, Settled, Search;
    AnswersGrow(states, steps, table, record.key);
    var end := states[|steps|];
    AnswerIs(states[0], table, record.key);
    AnswerIs(end, table, record.key);
    assert Settled(end.shelves[table]);
    SearchIsNewest(end.shelves[table], record.key);
    assert Coherent(Lookup(end.cache, table, record.key), Pick(All(end.shelves[table]), record.key));
  }

  // ---------- Dirty records ----------

  /** The record is somewhere in the table. */
  ghost predicate HeldBy(s: Shelf, r: Record)
  {
    r in Joined(s.parts) || r in Joined(s.tmps) || r in s.mem || (s.tmpc.Some? && r in AllRecords(s.tmpc.value))
  }

  /** No record is newer than the last timestamp handed out. This survives even a crash of the engine. */
  ghost predicate Dated(s: State)
  {
    && (forall n: string, k: nat :: Lookup(s.cache, n, k).Some? ==> Lookup(s.cache, n, k).value.record.ts <= s.last)
    && (forall t :: t in s.shelves ==> s.shelves[t].parts != [] && forall r :: HeldBy(s.shelves[t], r) ==> r.ts <= s.last)
  }

  lemma InvDated(s: State)
    requires Inv(s)
    ensures Dated(s)
  {
    hide Lookup, Pick, InOrder, Consistent, ShelfOk, AllRecords, Joined;
    NonEmpty(s);
    forall t, r | t in s.shelves && HeldBy(s.shelves[t], r) ensures r in All(s.shelves[t]) { assert Settled(s.shelves[t]); }
  }

  lemma {:induction false} SearchTmpsMember(tmps: seq<seq<Round>>, key: nat)
    ensures SearchTmps(tmps, key).Some? ==> SearchTmps(tmps, key).value in Joined(tmps)
    decreases |tmps|
  {
    hide Found, AllRecords;
    if tmps != [] {
      SearchTmpsMember(tmps[..|tmps| - 1], key);
      FoundMember(tmps[|tmps| - 1], key);
    }
  }

  lemma SearchHeld(s: Shelf, key: nat)
    requires s.parts != []
    ensures Search(s, key).Some? ==> HeldBy(s, Search(s, key).value)
  {
    hide Found, AllRecords, Pick, SearchTmps, Joined;
    var p := key % |s.parts|;
    SearchTmpsMember(s.tmps, key);
    FoundMember(s.parts[p], key);
    if Found(s.parts[p], key).Some? { InJoined(s.parts, Found(s.parts[p], key).value); }
    if Pick(s.mem, key).Some? { PickMember(s.mem, key); }
    if s.tmpc.Some? { FoundMember(s.tmpc.value, key); }
  }

  /** What a compaction, an interruption or a dump leaves in a table was there before. */
  lemma EngineHolds(s: Shelf, s': Shelf, r: Record)
    requires s.parts != [] && HeldBy(s', r) && (CompactionOutcome(s, s') || Interrupted(s, s') || Dumped(s, s'))
    ensures HeldBy(s, r) && s'.parts != []
  {
    hide AllRecords, MergeAll, Joined;
    NoJoined();
    if Dumped(s, s') {
      DumpJoins(s, s');
    } else if CompactionOutcome(s, s') && s'!= s {
      var merged := if s.tmpc.Some? then AllRecords(s.tmpc.value) else Joined(s.tmps);
      if r in Joined(s'.parts) { RewrittenMembers(s, s', merged, r); }
    }
  }

  lemma EngineKeepsParts(s: Shelf, s': Shelf)
    requires s.parts != [] && (CompactionOutcome(s, s') || Interrupted(s, s') || Dumped(s, s'))
    ensures s'.parts != []
  {
  }

  lemma StepDated(s: State, step: Step, s': State)
    requires Dated(s) && Next(s, step, s')
    ensures Dated(s')
  {
    hide Lookup, Search, CompactionOutcome, Interrupted, Dumped, Joined, AllRecords;
    match step
    case Insert(_, _, _) => ReplacedDated(s, s', step.table, Line(step.record, true), step.victim);
    case Fill(table, r, _) =>
      SearchHeld(s.shelves[table], r.key);
      ReplacedDated(s, s', table, Line(r, false), step.victim);
    case Journal(_, rows, _) => RowsDated(s, rows, s');
    case Dump => EngineDated(s, s');
    case Compact(_) => EngineDated(s, s');
    case Interrupt(_) => EngineDated(s, s');
    case _ =>
  }

  lemma ReplacedDated(s: State, s': State, table: string, line: Line, victim: Option<(string, nat)>)
    requires Dated(s) && s'.shelves == s.shelves && s.last <= s'.last && line.record.ts <= s'.last
    requires Replaced(s.cache, s'.cache, table, line, victim)
    ensures Dated(s')
  {
    hide Lookup, HeldBy;
  }

  lemma RowsDated(s: State, rows: map<string, seq<Record>>, s': State)
    requires Dated(s) && rows.Keys == s.shelves.Keys == s'.shelves.Keys && s'.last == s.last
    requires forall t :: t in s.shelves ==>
               RowsOf(s.cache, t, rows[t]) && s'.shelves[t] == s.shelves[t].(mem := s.shelves[t].mem + rows[t])
    requires s'.cache == s.cache || forall n: string, k: nat :: Lookup(s'.cache, n, k) == None
    ensures Dated(s')
  {
    hide Lookup, Joined, AllRecords;
    forall t, r | t in s.shelves && HeldBy(s'.shelves[t], r) ensures r.ts <= s.last {
      if !HeldBy(s.shelves[t], r) { assert Lookup(s.cache, t, r.key) == Some(Line(r, true)); }
    }
  }

  lemma EngineDated(s: State, s': State)
    requires Dated(s) && s'.cache == s.cache && s'.last == s.last && s'.shelves.Keys == s.shelves.Keys
    requires forall t :: t in s.shelves ==>
               || s'.shelves[t] == s.shelves[t] || CompactionOutcome(s.shelves[t], s'.shelves[t])
               || Interrupted(s.shelves[t], s'.shelves[t]) || Dumped(s.shelves[t], s'.shelves[t])
    ensures Dated(s')
  {
    hide Lookup, HeldBy, CompactionOutcome, Interrupted, Dumped;
    forall t | t in s.shelves ensures s'.shelves[t].parts != [] && forall r :: HeldBy(s'.shelves[t], r) ==> r.ts <= s.last {
      if s'.shelves[t] != s.shelves[t] {
        EngineKeepsParts(s.shelves[t], s'.shelves[t]);
        forall r | HeldBy(s'.shelves[t], r) ensures r.ts <= s.last { EngineHolds(s.shelves[t], s'.shelves[t], r); }
      }
    }
  }

  /** No journal of the run was acknowledged. */
  predicate NothingAcked(steps: seq<Step>)
  {
    forall i :: 0 <= i < |steps| ==> !steps[i].EmptyJournal? && (steps[i].Journal? ==> !steps[i].acked)
  }

  /**
    Until a journal is acknowledged a dirty record stays cached and dirty, or is superseded by a newer one of its key, even
    if the engine crashes meanwhile.
   */
  lemma {:induction false} DirtyUntilAcked(states: seq<State>, steps: seq<Step>, table: string, record: Record)
    requires IsRun(states, steps) && Dated(states[0]) && NothingAcked(steps)
    requires Lookup(states[0].cache, table, record.key) == Some(Line(record, true))
    ensures var line := Lookup(states[|steps|].cache, table, record.key);
            Dated(states[|steps|]) && line.Some? && line.value.dirty && line.value.record.ts >= record.ts
    decreases |steps|
  {
    hide Dated, Next, Lookup;
    if steps != [] {
      var n := |steps| - 1;
      assert IsRun(states[..|states| - 1], steps[..n]);
      DirtyUntilAcked(states[..|states| - 1], steps[..n], table, record);
      StepDated(states[n], steps[n], states[n + 1]);
      StaysDirty(states[n], steps[n], states[n + 1], table, record.key);
    }
  }

  lemma StaysDirty(s: State, step: Step, s': State, table: string, key: nat)
    requires Dated(s) && Next(s, step, s') && !step.EmptyJournal? && (step.Journal? ==> !step.acked)
    requires Lookup(s.cache, table, key).Some? && Lookup(s.cache, table, key).value.dirty
    ensures var line, line' := Lookup(s.cache, table, key), Lookup(s'.cache, table, key);
            line'.Some? && line'.value.dirty && line'.value.record.ts >= line.value.record.ts
  {
    hide Lookup, Search, HeldBy, Dumped, CompactionOutcome, Interrupted;
  }

  // ---------- How many pages are safe ----------

  /** A run of a cache with that many frames. */
  ghost predicate RunWith(states: seq<State>, steps: seq<Step>, pages: nat)
  {
    IsRun(states, steps) && Inv(states[0]) && forall i :: 0 <= i < |states| ==> CacheOk(states[i].cache, None) && |states[i].cache.frames| == pages
  }

  /** With at most 31 frames no journal can be misread. */
  lemma FewPagesAreRead(states: seq<State>, steps: seq<Step>, pages: nat)
    requires RunWith(states, steps, pages) && pages <= MOST
    ensures NothingMisread(steps)
  {
    hide Inv, CacheOk;
    forall i | 0 <= i < |steps| ensures !Misread(steps[i]) {
      if Misread(steps[i]) { ManyPages(states[i], steps[i], states[i + 1]); }
    }
  }

  lemma ManyPages(s: State, step: Step, s': State)
    requires Next(s, step, s') && Misread(step) && CacheOk(s.cache, None)
    ensures |s.cache.frames| > MOST
  {
    hide CacheOk, Lookup;
    JournalBound(s.cache, step.sent);
  }
}
