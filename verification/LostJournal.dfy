/**
  What happens beyond the limit. A cache with 32 frames or more can journal 32 records at once, which ends the engine's
  process and loses what its memtable held; one with 64 frames or more can journal 64 records at once, of which the engine
  sees none, and the acknowledged INSERTs are gone.
 */
module LostJournals {
  import opened Options
  import opened Records
  import opened Lookups
  import ArchiveSearch
  import opened Shelves
  import opened Pages
  import opened Memorias
  import opened EndToEnd

  const TABLE := "T"

  /** The record of the k-th INSERT of a run: key k at time k + 1. */
  function Nth(k: nat): (r: Record)
    ensures r.key == k && r.ts == k + 1
  {
    Record(k + 1, k, "v")
  }

  // ---------- Caches full of dirty pages ----------

  /** A cache that holds n records of one table, from number first on, all dirty. */
  function CacheOf(first: nat, n: nat, pages: nat): (c: Cache)
    requires n <= pages
    ensures |c.frames| == pages
  {
    Cache(seq(pages, f requires 0 <= f < pages => if f < n then Encode(Nth(first + f)) else NULL),
          if n == 0 then [] else [Segment(TABLE, seq(n, j requires 0 <= j < n => Page(j, true)))])
  }

  /** Its pages: one segment, page j in frame j. */
  lemma PagesOf(first: nat, n: nat, pages: nat, i: nat, j: nat)
    requires n <= pages && first + n <= KEYS
    ensures var c := CacheOf(first, n, pages);
            && (PageAt(c, i, j) <==> i == 0 && j < n)
            && (PageAt(c, i, j) ==>
                  && FrameAt(c, i, j) == j && Filled(c.frames[j]) && RecordIn(c.frames, c.segments[i].pages[j]) == Nth(first + j)
                  && c.segments[i].name == TABLE && c.segments[i].pages[j].modified)
  {
    hide Encode, ConvertRecord;
    if i == 0 && j < n { EncodeFilled(Nth(first + j)); }
  }

  lemma CacheOfIsOk(first: nat, n: nat, pages: nat)
    requires n <= pages && first + n <= KEYS
    ensures CacheOk(CacheOf(first, n, pages), None)
  {
    hide Filled, RecordIn, Encode;
    var c := CacheOf(first, n, pages);
    forall i: nat, j: nat
      ensures PageAt(c, i, j) <==> i == 0 && j < n
      ensures PageAt(c, i, j) ==> FrameAt(c, i, j) == j && Filled(c.frames[j]) && KeyAt(c, i, j) == first + j
    {
      PagesOf(first, n, pages, i, j);
    }
    forall f: nat | f < |c.frames| && c.frames[f] != NULL ensures Used(c, f) {
      assert f < n;
      assert PageAt(c, 0, f);
    }
  }

  lemma LookupOf(first: nat, n: nat, pages: nat, name: string, key: nat)
    requires n <= pages && first + n <= KEYS
    ensures Lookup(CacheOf(first, n, pages), name, key) ==
            if name == TABLE && first <= key < first + n then Some(Line(Nth(key), true)) else None
  {
    hide Lookup, CacheOk, RecordIn, CacheOf;
    var c := CacheOf(first, n, pages);
    if name == TABLE && first <= key < first + n {
      CacheOfIsOk(first, n, pages);
      PagesOf(first, n, pages, 0, key - first);
      LookupAt(c, None, 0, key - first);
    } else {
      forall i: nat, j: nat ensures !Holds(c, i, j, name, key) { PagesOf(first, n, pages, i, j); }
      NoLookup(c, name, key);
    }
  }

  /** An empty cache has no lines, whatever number it would have started from. */
  lemma NoLines(first: nat, pages: nat)
    requires first <= KEYS
    ensures forall name: string, key: nat :: Lookup(CacheOf(first, 0, pages), name, key) == None
  {
    hide Lookup, CacheOf;
    forall name: string, key: nat ensures Lookup(CacheOf(first, 0, pages), name, key) == None { LookupOf(first, 0, pages, name, key); }
  }

  function Sent(first: nat, n: nat): (sent: seq<Dirty>)
    ensures |sent| == n
  {
    seq(n, k requires 0 <= k < n => Dirty(TABLE, Nth(first + k)))
  }

  lemma SentIsJournal(first: nat, n: nat, pages: nat)
    requires n <= pages && first + n <= KEYS
    ensures IsJournal(CacheOf(first, n, pages), Sent(first, n))
  {
    hide Lookup, CacheOf;
    var c, sent := CacheOf(first, n, pages), Sent(first, n);
    forall name: string, r: Record ensures Dirty(name, r) in sent <==> Lookup(c, name, r.key) == Some(Line(r, true)) {
      LookupOf(first, n, pages, name, r.key);
      if name == TABLE && first <= r.key < first + n && r == Nth(r.key) { assert sent[r.key - first] == Dirty(name, r); }
      if Dirty(name, r) in sent {
        var k :| 0 <= k < n && sent[k] == Dirty(name, r);
        assert r == Nth(first + k);
      }
    }
    forall x, y | 0 <= x < y < n ensures sent[x].record.key != sent[y].record.key {
      assert sent[x].record == Nth(first + x) && sent[y].record == Nth(first + y);
    }
  }

  // ---------- Runs of INSERTs ----------

  /** A table with one empty partition and some records in the memtable. */
  function TableWith(mem: seq<Record>): Shelf { Shelf([[]], [], None, mem) }

  lemma NoRecords()
    ensures Joined(TableWith([]).parts) == [] && Joined([]) == []
  {
    var parts := TableWith([]).parts;
    assert parts[..0] == [] && Joined(parts) == Joined(parts[..0]) + ArchiveSearch.AllRecords(parts[0]);
    assert ArchiveSearch.AllRecords(parts[0]) == [];
  }

  lemma EmptyTable(key: nat)
    ensures Settled(TableWith([])) && All(TableWith([])) == [] && Search(TableWith([]), key) == None
  {
    NoRecords();
    assert ArchiveSearch.Found([], key) == None;
    assert key % 1 == 0;
  }

  /** After n INSERTs from number first on. */
  function After(first: nat, n: nat, pages: nat, mem: seq<Record>): State
    requires n <= pages
  {
    State(CacheOf(first, n, pages), map[TABLE := TableWith(mem)], first + n)
  }

  function Inserts(first: nat, n: nat): seq<Step> { seq(n, k requires 0 <= k < n => Insert(TABLE, Nth(first + k), None)) }

  function States(first: nat, n: nat, pages: nat, mem: seq<Record>): (states: seq<State>)
    requires n <= pages
    ensures |states| == n + 1
  {
    seq(n + 1, i requires 0 <= i < n + 1 => After(first, i, pages, mem))
  }

  lemma OneMore(first: nat, n: nat, pages: nat, mem: seq<Record>)
    requires n < pages && first + n < KEYS
    ensures Next(After(first, n, pages, mem), Insert(TABLE, Nth(first + n), None), After(first, n + 1, pages, mem))
  {
    hide Lookup, CacheOf;
    var c, c' := CacheOf(first, n, pages), CacheOf(first, n + 1, pages);
    forall name: string, key: nat | (name, key) != (TABLE, first + n) ensures Lookup(c', name, key) == Lookup(c, name, key) {
      LookupOf(first, n, pages, name, key);
      LookupOf(first, n + 1, pages, name, key);
    }
    LookupOf(first, n + 1, pages, TABLE, first + n);
  }

  lemma InsertsRun(first: nat, n: nat, pages: nat, mem: seq<Record>)
    requires n <= pages && first + n <= KEYS
    ensures IsRun(States(first, n, pages, mem), Inserts(first, n))
    ensures forall i :: 0 <= i <= n ==>
              var c := States(first, n, pages, mem)[i].cache; CacheOk(c, None) && |c.frames| == pages
  {
    hide CacheOk, CacheOf, Next;
    var states, steps := States(first, n, pages, mem), Inserts(first, n);
    forall i | 0 <= i < n ensures Next(states[i], steps[i], states[i + 1]) { OneMore(first, i, pages, mem); }
    forall i | 0 <= i <= n ensures CacheOk(states[i].cache, None) && |states[i].cache.frames| == pages { CacheOfIsOk(first, i, pages); }
  }

  lemma StartInv(pages: nat)
    ensures Inv(After(0, 0, pages, []))
  {
    hide Lookup, Settled, All, Pick, CacheOf;
    EmptyTable(0);
    NoLines(0, pages);
  }

  /** The last INSERT of a key among these, or else what came before them. */
  lemma {:induction false} LastOf(before: seq<Step>, first: nat, n: nat, key: nat, initial: Option<Record>)
    ensures LastInsert(before + Inserts(first, n), TABLE, key, initial) ==
            if first <= key < first + n then Some(Nth(key)) else LastInsert(before, TABLE, key, initial)
    decreases n
  {
    var steps := before + Inserts(first, n);
    if n == 0 {
      assert steps == before;
    } else {
      assert steps[..|steps| - 1] == before + Inserts(first, n - 1);
      assert steps[|steps| - 1] == Insert(TABLE, Nth(first + n - 1), None);
      LastOf(before, first, n - 1, key, initial);
    }
  }

  lemma LastButOne(steps: seq<Step>, step: Step, table: string, key: nat, initial: Option<Record>)
    requires !step.Insert?
    ensures LastInsert(steps + [step], table, key, initial) == LastInsert(steps, table, key, initial)
  {
    assert (steps + [step])[..|steps|] == steps;
  }

  // ---------- 64 records ----------

  /** INSERTs of 64 different keys, all acknowledged, and a journal that is acknowledged too. */
  lemma SixtyFourAreLost(pages: nat) returns (states: seq<State>, steps: seq<Step>)
    requires pages >= 64
    ensures RunWith(states, steps, pages) && TABLE in states[0].shelves && TABLE in states[|steps|].shelves
    ensures states[0].shelves[TABLE].parts != [] && states[|steps|].shelves[TABLE].parts != []
    ensures forall key: nat :: key < 64 ==>
              && LastInsert(steps, TABLE, key, Answer(states[0], TABLE, key)) == Some(Nth(key))
              && Answer(states[|steps|], TABLE, key) == None
  {
    hide Lookup, CacheOk, Inv, Search, CacheOf, Next;
    var journal, end := EmptyJournal(Sent(0, 64)), State(CacheOf(0, 0, pages), map[TABLE := TableWith([])], 64);
    var inserts := Inserts(0, 64);
    states, steps := States(0, 64, pages, []) + [end], inserts + [journal];
    StartInv(pages);
    InsertsRun(0, 64, pages, []);
    WrappedStep(pages);
    CacheOfIsOk(0, 0, pages);
    NoLines(0, pages);
    forall i | 0 <= i < |steps| ensures Next(states[i], steps[i], states[i + 1]) {
      if i < 64 { assert steps[i] == inserts[i]; }
    }
    forall key: nat | key < 64
      ensures LastInsert(steps, TABLE, key, Answer(states[0], TABLE, key)) == Some(Nth(key)) && Answer(end, TABLE, key) == None
    {
      var initial := Answer(states[0], TABLE, key);
      EmptyTable(key);
      LastButOne(inserts, journal, TABLE, key, initial);
      assert [] + inserts == inserts;
      LastOf([], 0, 64, key, initial);
    }
  }

  lemma WrappedStep(pages: nat)
    requires pages >= 64
    ensures Next(After(0, 64, pages, []), EmptyJournal(Sent(0, 64)), State(CacheOf(0, 0, pages), map[TABLE := TableWith([])], 64))
  {
    hide Lookup, CacheOf, IsJournal;
    SentIsJournal(0, 64, pages);
    NoLines(0, pages);
  }

  // ---------- 32 records ----------

  /** An acknowledged journal of one record, which is now in the memtable only. */
  lemma OneJournaled(pages: nat) returns (journal: Step)
    requires pages >= 1
    ensures journal.Journal? && Next(After(0, 1, pages, []), journal, After(1, 0, pages, [Nth(0)]))
  {
    hide Lookup, CacheOf;
    journal := Journal(Sent(0, 1), map[TABLE := [Nth(0)]], true);
    SentIsJournal(0, 1, pages);
    NoLines(1, pages);
    var c := CacheOf(0, 1, pages);
    forall r ensures r in [Nth(0)] <==> Lookup(c, TABLE, r.key) == Some(Line(r, true)) { LookupOf(0, 1, pages, TABLE, r.key); }
    assert [] + [Nth(0)] == [Nth(0)];
  }

  /** The journal of 32 records that ends the engine's process. */
  lemma CrashStep(pages: nat)
    requires pages >= 32
    ensures Next(After(1, 32, pages, [Nth(0)]), Crash(Sent(1, 32)), After(1, 32, pages, []))
  {
    hide Lookup, CacheOf, IsJournal;
    SentIsJournal(1, 32, pages);
  }

  /** An INSERT that is journaled and acknowledged, 32 INSERTs of other keys, and a journal: the first record is lost. */
  lemma OneIsLost(pages: nat) returns (states: seq<State>, steps: seq<Step>)
    requires pages >= 32
    ensures RunWith(states, steps, pages) && TABLE in states[0].shelves && TABLE in states[|steps|].shelves
    ensures states[0].shelves[TABLE].parts != [] && states[|steps|].shelves[TABLE].parts != []
    ensures LastInsert(steps, TABLE, 0, Answer(states[0], TABLE, 0)) == Some(Nth(0)) && Answer(states[|steps|], TABLE, 0) == None
  {
    hide Lookup, CacheOk, Inv, Search, CacheOf, Next;
    var journal := OneJournaled(pages);
    var early, late, end := States(0, 1, pages, []), States(1, 32, pages, [Nth(0)]), After(1, 32, pages, []);
    var before, inserts, crash := Inserts(0, 1) + [journal], Inserts(1, 32), Crash(Sent(1, 32));
    states, steps := early + late + [end], before + inserts + [crash];
    StartInv(pages);
    InsertsRun(0, 1, pages, []);
    InsertsRun(1, 32, pages, [Nth(0)]);
    CrashStep(pages);
    CacheOfIsOk(1, 32, pages);
    forall i | 0 <= i < |steps| ensures Next(states[i], steps[i], states[i + 1]) {
      if i == 0 {
        assert steps[i] == Inserts(0, 1)[0] && states[0] == early[0] && states[1] == early[1];
      } else if i == 1 {
        assert steps[1] == journal && states[1] == early[1] && states[2] == late[0];
      } else if i < 34 {
        assert steps[i] == inserts[i - 2] && states[i] == late[i - 2] && states[i + 1] == late[i - 1];
      } else {
        assert steps[i] == crash && states[i] == late[32] && states[i + 1] == end;
      }
    }
    forall i | 0 <= i < |states| ensures CacheOk(states[i].cache, None) && |states[i].cache.frames| == pages {
      if i < 2 { assert states[i] == early[i]; } else if i < 35 { assert states[i] == late[i - 2]; }
    }
    var initial := Answer(states[0], TABLE, 0);
    LastButOne(before + inserts, crash, TABLE, 0, initial);
    LastOf(before, 1, 32, 0, initial);
    LastButOne(Inserts(0, 1), journal, TABLE, 0, initial);
    assert [] + Inserts(0, 1) == Inserts(0, 1);
    LastOf([], 0, 1, 0, initial);
    LookupOf(1, 32, pages, TABLE, 0);
    EmptyTable(0);
  }

  // ---------- The limit ----------

  /** If this is a run of a cache with that many frames, a SELECT after it answers the last acknowledged INSERT. */
  ghost predicate Right(states: seq<State>, steps: seq<Step>, table: string, key: nat, pages: nat)
  {
    RunWith(states, steps, pages) && table in states[0].shelves && states[0].shelves[table].parts != [] ==>
      && table in states[|steps|].shelves && states[|steps|].shelves[table].parts != []
      && Answer(states[|steps|], table, key) == LastInsert(steps, table, key, Answer(states[0], table, key))
  }

  ghost predicate Safe(pages: nat)
  {
    forall states: seq<State>, steps: seq<Step>, table: string, key: nat :: Right(states, steps, table, key, pages)
  }

  /** The limit is exact: 31 frames. */
  lemma SafeIff(pages: nat)
    ensures Safe(pages) <==> pages <= MOST
  {
    hide Answer, Inv, CacheOk;
    if pages <= MOST {
      forall states: seq<State>, steps: seq<Step>, table: string, key: nat ensures Right(states, steps, table, key, pages) {
        if RunWith(states, steps, pages) && table in states[0].shelves {
          FewPagesAreRead(states, steps, pages);
          SelectsSeeLastInsert(states, steps, table, key);
        }
      }
    } else {
      var states, steps := OneIsLost(pages);
      assert !Right(states, steps, TABLE, 0, pages);
    }
  }
}
