/**
  One table of the storage engine at the level of records: its partition archives, its temporary
  archives, the archive under compaction and its part of the memtable. Archives are given by the rounds
  in which the search goes through them.
 */
module Shelves {
  import opened Options
  import opened Records
  import opened Lookups
  import opened BlockCodec
  import opened ArchiveSearch

  datatype Shelf = Shelf(parts: seq<seq<Round>>, tmps: seq<seq<Round>>, tmpc: Option<seq<Round>>, mem: seq<Record>)

  // ---------- Looking a key up ----------

  /** search_in_all_tmps: the first archive with the greatest timestamp wins. */
  function SearchTmps(tmps: seq<seq<Round>>, key: nat): Option<Record>
    decreases |tmps|
  {
    if tmps == [] then None else
      Keep(SearchTmps(tmps[..|tmps| - 1], key), Found(tmps[|tmps| - 1], key))
  }

  function SearchTmpc(tmpc: Option<seq<Round>>, key: nat): Option<Record>
  {
    match tmpc
    case Some(rounds) => Found(rounds, key)
    case None => None
  }

  /** search_key. */
  function Search(s: Shelf, key: nat): Option<Record>
    requires s.parts != []
  {
    var inTmps, inTmpc := SearchTmps(s.tmps, key), SearchTmpc(s.tmpc, key);
    Newer(Newer(Newer(inTmps, inTmpc), Pick(s.mem, key)), Found(s.parts[key % |s.parts|], key))
  }

  /** All records of a list of archives, one archive after the other. */
  function Joined(archives: seq<seq<Round>>): seq<Record>
    decreases |archives|
  {
    if archives == [] then [] else Joined(archives[..|archives| - 1]) + AllRecords(archives[|archives| - 1])
  }

  /** The search of an archive answers its newest record. */
  predicate Exact(rounds: seq<Round>, key: nat) { Found(rounds, key) == Pick(AllRecords(rounds), key) }

  lemma {:induction false} TmpsPick(tmps: seq<seq<Round>>, key: nat)
    requires forall i :: 0 <= i < |tmps| ==> Exact(tmps[i], key)
    ensures SearchTmps(tmps, key) == Pick(Joined(tmps), key)
    decreases |tmps|
  {
    if tmps != [] {
      var last := |tmps| - 1;
      TmpsPick(tmps[..last], key);
      assert Exact(tmps[last], key);
      PickConcat(Joined(tmps[..last]), AllRecords(tmps[last]), key);
    }
  }

  /** The search never answers a record newer than the newest. */
  lemma FoundIsOld(rounds: seq<Round>, key: nat)
    ensures Stamp(Found(rounds, key)) <= Stamp(Pick(AllRecords(rounds), key)) && Stamp(Found(rounds, key)) >= -1
  {
    FoundMember(rounds, key);
    if Found(rounds, key).Some? {
      var records := AllRecords(rounds);
      var i :| 0 <= i < |records| && records[i] == Found(rounds, key).value;
      PickBounds(records, key, i);
    }
  }

  /** The greatest timestamp that the searches of the archives answer, in closed form. */
  function TmpsExpected(tmps: seq<seq<Round>>, key: nat): int
    decreases |tmps|
  {
    if tmps == [] then -1 else
      var before, last := TmpsExpected(tmps[..|tmps| - 1], key), Expected(tmps[|tmps| - 1], key);
      if last > before then last else before
  }

  lemma {:induction false} TmpsStamp(tmps: seq<seq<Round>>, key: nat)
    ensures Stamp(SearchTmps(tmps, key)) == TmpsExpected(tmps, key) <= Stamp(Pick(Joined(tmps), key))
    decreases |tmps|
  {
    if tmps != [] {
      hide Expected, Found, Pick, AllRecords;
      var last := |tmps| - 1;
      TmpsStamp(tmps[..last], key);
      FoundIsOld(tmps[last], key);
      RunClosedForm(tmps[last], key);
      PickConcat(Joined(tmps[..last]), AllRecords(tmps[last]), key);
    }
  }

  // ---------- Merging ----------

  predicate UniqueKeys(rs: seq<Record>)
  {
    forall i, j :: 0 <= i < j < |rs| ==> rs[i].key != rs[j].key
  }

  /** Position of the first record of a key, or the length. */
  function IndexOf(rs: seq<Record>, key: nat): (i: nat)
    ensures i <= |rs|
    ensures i < |rs| ==> rs[i].key == key
    ensures forall j :: 0 <= j < i ==> rs[j].key != key
  {
    if rs == [] || rs[0].key == key then 0 else 1 + IndexOf(rs[1..], key)
  }

  /** add_record_to_partition_list: a newer record of the key is moved to the end, an older one is ignored. */
  function Merge(part: seq<Record>, r: Record): seq<Record>
  {
    var i := IndexOf(part, r.key);
    if i == |part| then part + [r]
    else if r.ts > part[i].ts then part[..i] + part[i + 1..] + [r]
    else part
  }

  /** get_tkvs_to_insert: every record goes to partition key % n. */
  function MergeAll(parts: seq<seq<Record>>, rs: seq<Record>): (merged: seq<seq<Record>>)
    requires parts != []
    ensures |merged| == |parts|
    decreases |rs|
  {
    if rs == [] then parts else
      var before := MergeAll(parts, rs[..|rs| - 1]);
      var r := rs[|rs| - 1];
      before[r.key % |before| := Merge(before[r.key % |before|], r)]
  }

  /** A partition holds one record per key, and only keys that belong there. */
  predicate Tidy(parts: seq<seq<Record>>)
  {
    forall p :: 0 <= p < |parts| ==>
      UniqueKeys(parts[p]) && forall i :: 0 <= i < |parts[p]| ==> parts[p][i].key % |parts| == p
  }

  lemma {:induction false} PickUnique(rs: seq<Record>, i: nat)
    requires UniqueKeys(rs) && i < |rs|
    ensures Pick(rs, rs[i].key) == Some(rs[i])
  {
    PickNothing(rs, rs[i].key);
    var j := PickFirstGreatest(rs, rs[i].key);
    assert i == j;
  }

  lemma PickAround(a: seq<Record>, x: Record, b: seq<Record>, key: nat)
    requires x.key != key
    ensures Pick(a + [x] + b, key) == Pick(a + b, key)
  {
    PickConcat(a + [x], b, key);
    PickConcat(a, [x], key);
    PickOne(x, key);
    PickConcat(a, b, key);
  }

  lemma MergeUnique(part: seq<Record>, r: Record)
    requires UniqueKeys(part)
    ensures UniqueKeys(Merge(part, r))
  {
  }

  /** Replacing the record of a key by a newer one at the end amounts to appending that. */
  lemma ReplacePick(part: seq<Record>, i: nat, r: Record, key: nat)
    requires UniqueKeys(part) && i < |part| && part[i].key == r.key && r.ts > part[i].ts
    ensures Pick(part[..i] + part[i + 1..] + [r], key) == Keep(Pick(part, key), Pick([r], key))
  {
    hide Pick;
    var rest := part[..i] + part[i + 1..];
    PickConcat(rest, [r], key);
    PickOne(r, key);
    if key == r.key {
      PickNothing(rest, key);
      PickUnique(part, i);
    } else {
      assert part == part[..i] + [part[i]] + part[i + 1..];
      PickAround(part[..i], part[i], part[i + 1..], key);
    }
  }

  /** Merging one record amounts to appending it. */
  lemma MergePick(part: seq<Record>, r: Record, key: nat)
    requires UniqueKeys(part)
    ensures Pick(Merge(part, r), key) == Keep(Pick(part, key), Pick([r], key))
  {
    hide Pick;
    var i := IndexOf(part, r.key);
    PickOne(r, key);
    if i == |part| {
      PickConcat(part, [r], key);
    } else if r.ts > part[i].ts {
      ReplacePick(part, i, r, key);
    } else {
      PickUnique(part, i);
    }
  }

  lemma MergeTidy(parts: seq<seq<Record>>, r: Record)
    requires parts != [] && Tidy(parts)
    ensures Tidy(parts[r.key % |parts| := Merge(parts[r.key % |parts|], r)])
  {
    MergeUnique(parts[r.key % |parts|], r);
  }

  /** Merging keeps one record per key in its own partition: the first of the greatest timestamp, partition first. */
  lemma {:induction false} MergeAllMeaning(parts: seq<seq<Record>>, rs: seq<Record>, key: nat)
    requires parts != [] && Tidy(parts)
    ensures Tidy(MergeAll(parts, rs))
    ensures var p := key % |parts|;
            Pick(MergeAll(parts, rs)[p], key) == Keep(Pick(parts[p], key), Pick(rs, key))
    decreases |rs|
  {
    hide Pick, Merge;
    if rs == [] {
      PickNothing(rs, key);
    } else {
      var init, r := rs[..|rs| - 1], rs[|rs| - 1];
      var before := MergeAll(parts, init);
      var p := r.key % |parts|;
      MergeAllMeaning(parts, init, key);
      MergeTidy(before, r);
      assert UniqueKeys(before[p]);
      MergePick(before[p], r, key);
      PickOne(r, key);
      assert rs == init + [r];
      PickConcat(init, [r], key);
    }
  }

  // ---------- Compaction ----------

  function PartRecords(parts: seq<seq<Round>>): (ps: seq<seq<Record>>)
    ensures |ps| == |parts|
  {
    seq(|parts|, i requires 0 <= i < |parts| => AllRecords(parts[i]))
  }

  predicate ShelfOk(s: Shelf) { s.parts != [] && Tidy(PartRecords(s.parts)) }

  /** In a partition every key has one record, so the search finds it. */
  lemma PartitionSearch(s: Shelf, key: nat)
    requires ShelfOk(s)
    ensures var p := key % |s.parts|; Found(s.parts[p], key) == Pick(AllRecords(s.parts[p]), key)
  {
    var p := key % |s.parts|;
    assert UniqueKeys(PartRecords(s.parts)[p]);
    OrderedSearch(s.parts[p], key);
  }

  /** start_compaction with the records of the archive under compaction: the partitions are rewritten. */
  predicate Rewritten(s: Shelf, s': Shelf, merged: seq<Record>)
    requires s.parts != []
  {
    |s'.parts| == |s.parts| && PartRecords(s'.parts) == MergeAll(PartRecords(s.parts), merged)
    && s'.tmpc == None && s'.mem == s.mem
  }

  /** An uninterrupted compaction. */
  predicate Compacted(s: Shelf, s': Shelf)
    requires s.parts != []
  {
    s.tmpc == None && Rewritten(s, s', Joined(s.tmps)) && s'.tmps == []
  }

  lemma RewrittenParts(s: Shelf, s': Shelf, merged: seq<Record>, key: nat)
    requires ShelfOk(s) && Rewritten(s, s', merged)
    ensures ShelfOk(s')
    ensures var p := key % |s.parts|;
            Found(s'.parts[p], key) == Keep(Found(s.parts[p], key), Pick(merged, key))
  {
    MergeAllMeaning(PartRecords(s.parts), merged, key);
    PartitionSearch(s, key);
    PartitionSearch(s', key);
    var p := key % |s.parts|;
    assert PartRecords(s.parts)[p] == AllRecords(s.parts[p]);
    assert PartRecords(s'.parts)[p] == AllRecords(s'.parts[p]);
  }

  /** After a compaction the search is right for every key, whatever it answered before. */
  lemma CompactionRepairsLookups(s: Shelf, s': Shelf, key: nat)
    requires ShelfOk(s) && Compacted(s, s')
    ensures ShelfOk(s')
    ensures var inTmps, inMem, inPart := Pick(Joined(s.tmps), key), Pick(s.mem, key), Found(s.parts[key % |s.parts|], key);
            Search(s', key) == Newer(inMem, Keep(inPart, inTmps))
  {
    RewrittenParts(s, s', Joined(s.tmps), key);
  }

  /**
    Compaction keeps the timestamp of every lookup, and keeps its value unless the greatest timestamp is
    shared by a memtable record and a different temporary record and exceeds the partition's.
   */
  lemma CompactionKeepsLookups(s: Shelf, s': Shelf, key: nat)
    requires ShelfOk(s) && Compacted(s, s')
    requires forall i :: 0 <= i < |s.tmps| ==> Exact(s.tmps[i], key)
    ensures Stamp(Search(s', key)) == Stamp(Search(s, key))
    ensures var inTmps, inMem, inPart := Pick(Joined(s.tmps), key), Pick(s.mem, key), Found(s.parts[key % |s.parts|], key);
            Search(s', key) == Search(s, key) <==>
            !(Stamp(inTmps) == Stamp(inMem) > Stamp(inPart) && inTmps != inMem)
  {
    CompactionRepairsLookups(s, s', key);
    TmpsPick(s.tmps, key);
  }

  /**
    Whatever the archives hold, a compaction never makes a lookup older. It changes the timestamp exactly if
    the temporary archives hold the greatest one and their searches miss it, which the order of their
    records decides.
   */
  lemma CompactionNeverAges(s: Shelf, s': Shelf, key: nat)
    requires ShelfOk(s) && Compacted(s, s')
    ensures Stamp(Search(s', key)) >= Stamp(Search(s, key))
    ensures var inTmps, inMem, inPart := Pick(Joined(s.tmps), key), Pick(s.mem, key), Found(s.parts[key % |s.parts|], key);
            Stamp(Search(s', key)) == Stamp(Search(s, key)) <==>
            !(Stamp(inTmps) > Stamp(inMem) && Stamp(inTmps) > Stamp(inPart) && TmpsExpected(s.tmps, key) < Stamp(inTmps))
  {
    hide Found, Pick, Joined, TmpsExpected, SearchTmps;
    CompactionRepairsLookups(s, s', key);
    TmpsStamp(s.tmps, key);
  }

  // ---------- Interrupted compaction ----------

  /** A compaction that stopped after writing A1.tmpc and before freeing any block. */
  predicate Interrupted(s: Shelf, s': Shelf)
  {
    && s.tmpc == None && s'.tmpc.Some?
    && s'.parts == s.parts && s'.tmps == s.tmps && s'.mem == s.mem
    && AllRecords(s'.tmpc.value) == Joined(s.tmps)
  }

  /** The compaction that finds A1.tmpc: it merges that archive and leaves the temporary ones alone. */
  predicate Recovered(s: Shelf, s': Shelf)
    requires s.parts != []
  {
    s.tmpc.Some? && Rewritten(s, s', AllRecords(s.tmpc.value)) && s'.tmps == s.tmps
  }

  /** What a run of compaction does to its table, depending on what it finds in the directory. */
  predicate CompactionOutcome(s: Shelf, s': Shelf)
  {
    s.parts != [] &&
    if s.tmpc.Some? then Recovered(s, s') else if s.tmps != [] then Compacted(s, s') else s' == s
  }

  /** Recovery followed by a compaction leaves the same record for every key as a compaction that was not interrupted. */
  lemma RecoveryIsIdempotent(s: Shelf, stopped: Shelf, recovered: Shelf, twice: Shelf, once: Shelf, key: nat)
    requires ShelfOk(s) && Interrupted(s, stopped) && Recovered(stopped, recovered)
    requires Compacted(recovered, twice) && Compacted(s, once)
    ensures var p := key % |s.parts|;
            Pick(AllRecords(twice.parts[p]), key) == Pick(AllRecords(once.parts[p]), key)
    ensures Search(twice, key) == Search(once, key)
  {
    var all := Joined(s.tmps);
    RewrittenParts(stopped, recovered, all, key);
    RewrittenParts(recovered, twice, all, key);
    RewrittenParts(s, once, all, key);
    PartitionSearch(twice, key);
    PartitionSearch(once, key);
  }

  /**
    The same with a dump between the interruption and the recovery, as an orderly shutdown does it: the outcome is
    that of the dump followed by an uninterrupted compaction.
   */
  lemma RecoveryAfterDump(s: Shelf, stopped: Shelf, dumped: Shelf, recovered: Shelf, twice: Shelf, s1: Shelf, once: Shelf, key: nat)
    requires ShelfOk(s) && Interrupted(s, stopped) && Dumped(stopped, dumped) && Recovered(dumped, recovered)
    requires Compacted(recovered, twice) && Dumped(s, s1) && Compacted(s1, once)
    ensures var p := key % |s.parts|;
            Pick(AllRecords(twice.parts[p]), key) == Pick(AllRecords(once.parts[p]), key)
    ensures Search(twice, key) == Search(once, key)
  {
    hide Pick, Found, AllRecords, MergeAll, Tidy;
    var all := Joined(s.tmps);
    DumpJoins(s, s1);
    DumpJoins(stopped, dumped);
    RewrittenParts(dumped, recovered, all, key);
    RewrittenParts(recovered, twice, all + s.mem, key);
    RewrittenParts(s1, once, all + s.mem, key);
    PartitionSearch(twice, key);
    PartitionSearch(once, key);
    PickConcat(all, s.mem, key);
  }

  lemma DumpJoins(s: Shelf, s': Shelf)
    requires Dumped(s, s')
    ensures Joined(s'.tmps) == Joined(s.tmps) + s.mem
  {
    hide AllRecords;
    assert s'.tmps == s'.tmps[..|s.tmps|] + [s'.tmps[|s.tmps|]];
  }

  /** While A1.tmpc duplicates the temporary archives, lookups do not change. */
  lemma InterruptionKeepsLookups(s: Shelf, s': Shelf, key: nat)
    requires ShelfOk(s) && Interrupted(s, s')
    requires forall i :: 0 <= i < |s.tmps| ==> Exact(s.tmps[i], key)
    requires Exact(s'.tmpc.value, key)
    ensures Search(s', key) == Search(s, key)
  {
    TmpsPick(s.tmps, key);
  }

  // ---------- Dumping the memtable ----------

  /** dump_table: the memtable becomes one more temporary archive. */
  predicate Dumped(s: Shelf, s': Shelf)
  {
    && s'.parts == s.parts && s'.tmpc == s.tmpc && s'.mem == []
    && |s'.tmps| == |s.tmps| + 1 && s'.tmps[..|s.tmps|] == s.tmps
    && AllRecords(s'.tmps[|s.tmps|]) == s.mem
  }

  /** The new archive is the layout of the memtable's records in blocks of the given capacity. */
  predicate DumpedAs(s: Shelf, s': Shelf, capacity: nat)
    requires capacity >= 2
  {
    Dumped(s, s') && s'.tmps[|s.tmps|] == LaidOut(s.mem, capacity)
  }

  /** How the searches will go through an archive of these records. */
  function LaidOut(records: seq<Record>, capacity: nat): seq<Round>
    requires capacity >= 2
  {
    Rounds(Layout(EncodeAll(records), capacity))
  }

  /** Answers with the same timestamp are the same answer. */
  predicate Agree(a: Option<Record>, b: Option<Record>) { Stamp(a) == Stamp(b) ==> a == b }

  /** A dump keeps the timestamp of every lookup, and the record when equal timestamps mean equal records. */
  lemma DumpKeepsLookups(s: Shelf, s': Shelf, key: nat)
    requires s.parts != [] && Dumped(s, s')
    requires InOrder(s.mem) && Consistent(s.mem)
    ensures Stamp(Search(s', key)) == Stamp(Search(s, key))
    ensures var inTmps, inTmpc, inMem := SearchTmps(s.tmps, key), SearchTmpc(s.tmpc, key), Pick(s.mem, key);
            Agree(inTmps, inMem) && Agree(inTmpc, inMem) && Agree(inTmps, inTmpc) ==> Search(s', key) == Search(s, key)
  {
    OrderedSearch(s'.tmps[|s.tmps|], key);
  }

  /**
    Whatever the memtable holds, a dump never makes a lookup newer. It changes the timestamp exactly if the
    memtable holds the greatest one and the search misses it in the layout of the memtable, all of which is known
    before the dump.
   */
  lemma DumpTimestamps(s: Shelf, s': Shelf, capacity: nat, key: nat)
    requires s.parts != [] && capacity >= 2 && DumpedAs(s, s', capacity)
    ensures Stamp(Search(s', key)) <= Stamp(Search(s, key))
    ensures var inTmps, inTmpc, inMem, inPart :=
              SearchTmps(s.tmps, key), SearchTmpc(s.tmpc, key), Pick(s.mem, key), Found(s.parts[key % |s.parts|], key);
            Stamp(Search(s', key)) == Stamp(Search(s, key)) <==>
            !(Stamp(inMem) > Stamp(inTmps) && Stamp(inMem) > Stamp(inTmpc) && Stamp(inMem) > Stamp(inPart)
              && Expected(LaidOut(s.mem, capacity), key) < Stamp(inMem))
  {
    hide Found, Expected, LaidOut, Pick, SearchTmps, AllRecords;
    FoundIsOld(s'.tmps[|s.tmps|], key);
    RunClosedForm(s'.tmps[|s.tmps|], key);
    DumpedTmps(s, s', key);
    PickNothing([], key);
  }

  lemma DumpedTmps(s: Shelf, s': Shelf, key: nat)
    requires Dumped(s, s')
    ensures SearchTmps(s'.tmps, key) == Keep(SearchTmps(s.tmps, key), Found(s'.tmps[|s.tmps|], key))
  {
    hide Found, AllRecords;
  }

  /** The condition is met by memtables whose timestamps go back: the search answers the older record after the dump. */
  lemma DumpCanHideTheNewest(parts: seq<seq<Round>>, newest: Record, older: Record, other: Record, capacity: nat)
    requires |parts| == 1 && AllRecords(parts[0]) == [] && HidesTheNewest(newest, older, other, capacity)
    ensures var mem := [newest, older, other];
            var s, s' := Shelf(parts, [], None, mem), Shelf(parts, [LaidOut(mem, capacity)], None, []);
            DumpedAs(s, s', capacity) && Search(s, newest.key) == Some(newest) && Search(s', newest.key) == Some(older)
  {
    hide Encode, Layout, Rounds, Found, AllRecords;
    var tmp, key := Rounds(Layout([Encode(newest), Encode(older), Encode(other)], capacity)), newest.key;
    assert EncodeAll([newest, older, other]) == [Encode(newest), Encode(older), Encode(other)];
    LayoutCanHideTheNewest(newest, older, other, capacity);
    FoundIsOld(parts[0], key);
    PickNothing([], key);
    assert SearchTmps([tmp], key) == Keep(SearchTmps([], key), Found(tmp, key));
  }
}
