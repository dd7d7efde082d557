/** The storage engine: memtable, temporary archives, partitions, block files and bitmap. */
module FileSystems {
  import opened Options
  import opened Records
  import opened BlockCodec
  import opened ArchiveSearch
  import opened Lookups
  import opened Shelves
  import opened Volumes
  import opened Store
  import opened StoreSteps

  /** A table of the memtable with the texts inserted since the last dump. */
  datatype MemEntry = MemEntry(name: string, tkvs: seq<string>)

  /** One insert of a multi-insert. */
  datatype Row = Row(table: string, record: Record)

  function MemIndex(mem: seq<MemEntry>, name: string): (i: nat)
    ensures i <= |mem|
    ensures i < |mem| ==> mem[i].name == name
    ensures forall j :: 0 <= j < i ==> mem[j].name != name
  {
    if mem == [] || mem[0].name == name then 0 else 1 + MemIndex(mem[1..], name)
  }

  function MemOf(mem: seq<MemEntry>, name: string): seq<string>
  {
    var i := MemIndex(mem, name);
    if i < |mem| then mem[i].tkvs else []
  }

  /** A table occurs once. */
  predicate MemNames(mem: seq<MemEntry>) { forall i, j :: 0 <= i < j < |mem| ==> mem[i].name != mem[j].name }

  /** Every text is that of a storable record and fits the readers' buffer. */
  predicate MemTexts(mem: seq<MemEntry>, size: nat)
  {
    forall i :: 0 <= i < |mem| ==> AllEncoded(mem[i].tkvs) && AllFit(mem[i].tkvs, size)
  }

  predicate MemOk(mem: seq<MemEntry>, size: nat) { MemNames(mem) && MemTexts(mem, size) }

  /** The memtable with one more text for a table. */
  function Appended(mem: seq<MemEntry>, name: string, tkv: string): seq<MemEntry>
  {
    var i := MemIndex(mem, name);
    if i < |mem| then mem[i := MemEntry(name, mem[i].tkvs + [tkv])] else mem + [MemEntry(name, [tkv])]
  }

  /** An insert that process_insert carries out. */
  predicate Takes(row: Row, tables: Tables, maxValue: nat) { row.table in tables && |row.record.value| <= maxValue }

  /** The records that a multi-insert adds to one table, in order. */
  function RowsFor(rows: seq<Row>, name: string, tables: Tables, maxValue: nat): seq<Record>
    decreases |rows|
  {
    if rows == [] then [] else
      var row := rows[|rows| - 1];
      RowsFor(rows[..|rows| - 1], name, tables, maxValue)
      + if row.table == name && Takes(row, tables, maxValue) then [row.record] else []
  }

  /** add_record_to_partition_list. */
  method AddRecordToPartitionList(record: Record, part: seq<Record>) returns (part': seq<Record>)
    ensures part' == Merge(part, record)
  {
    for i := 0 to |part|
      invariant forall j :: 0 <= j < i ==> part[j].key != record.key
    {
      if record.key == part[i].key {
        assert IndexOf(part, record.key) == i;
        if record.ts > part[i].ts {
          return part[..i] + part[i + 1..] + [record];
        }
        return part;
      }
    }
    return part + [record];
  }

  /** get_tkvs_to_insert. */
  method GetTkvsToInsert(tmpcTkvs: seq<Record>, parts: seq<seq<Record>>) returns (parts': seq<seq<Record>>)
    requires parts != []
    ensures parts' == MergeAll(parts, tmpcTkvs)
  {
    parts' := parts;
    assert tmpcTkvs[..0] == [];
    for i := 0 to |tmpcTkvs|
      invariant parts' == MergeAll(parts, tmpcTkvs[..i])
    {
      var record := tmpcTkvs[i];
      var p := record.key % |parts'|;
      var part := AddRecordToPartitionList(record, parts'[p]);
      assert tmpcTkvs[..i + 1][..i] == tmpcTkvs[..i];
      parts' := parts'[p := part];
    }
    assert tmpcTkvs[..|tmpcTkvs|] == tmpcTkvs;
  }

  /** Every table of the memtable exists. A DROP can end this, since it leaves the memtable alone. */
  predicate Listed(mem: seq<MemEntry>, tables: Tables) { forall i :: 0 <= i < |mem| ==> mem[i].name in tables }

  /** The first table of the memtable that does not exist, or the number of its tables. */
  function FirstMissing(mem: seq<MemEntry>, tables: Tables): (i: nat)
    ensures i <= |mem| && (i < |mem| ==> mem[i].name !in tables) && forall j :: 0 <= j < i ==> mem[j].name in tables
  {
    if mem == [] || mem[0].name !in tables then 0 else 1 + FirstMissing(mem[1..], tables)
  }

  class FileSystem {
    const capacity: nat
    const maxValue: nat
    const clock: nat
    var bitmap: seq<bool>
    var disk: seq<string>
    var tables: Tables
    var mem: seq<MemEntry>

    ghost function Vol(): Volume
      reads this`bitmap, this`disk
    {
      Volume(bitmap, disk)
    }

    /** tkv_size: the buffer of the readers. */
    function Size(): nat { TkvSize(clock, maxValue) }

    ghost predicate Valid()
      reads this
    {
      capacity >= 2 && StoreOk(tables, Vol(), Size()) && MemOk(mem, Size())
    }

    /** A formatted volume without tables. */
    constructor (capacity: nat, blocks: nat, maxValue: nat, clock: nat)
      requires capacity >= 2
      ensures Valid() && tables == map[] && mem == [] && FreeCount(bitmap) == |bitmap| == blocks && NoLeak(tables, Vol())
      ensures this.capacity == capacity && this.maxValue == maxValue && this.clock == clock
    {
      this.capacity, this.maxValue, this.clock := capacity, maxValue, clock;
      bitmap := seq(blocks, _ => false);
      disk := seq(blocks, _ => "");
      tables, mem := map[], [];
      new;
      AllFree(bitmap);
    }

    /** A table at the level of records. */
    ghost function ShelfAt(name: string): Shelf
      requires name in tables
      reads this
    {
      ShelfOf(tables[name], Vol(), Convert(MemOf(mem, name)))
    }

    // ---------- Blocks ----------

    /** Takes a free block and truncates its file, as the writers do before they use it. */
    method TakeBlock() returns (block: nat)
      requires |bitmap| == |disk| && FreeCount(bitmap) > 0
      modifies this`bitmap, this`disk
      ensures Took(old(Vol()), Vol(), [block]) && Vol().Block(block) && Vol().FileOf(block) == ""
      ensures FreeCount(bitmap) == old(FreeCount(bitmap)) - 1
    {
      hide FreeCount;
      var i;
      bitmap, i := FindFreeBlock(bitmap);
      block := i + 1;
      disk := disk[i := ""];
      OneBlock(block);
    }

    /** write_tkv: a block that holds some texts holds one more; the ghost texts are those it holds before. */
    method WriteTkv(tkv: string, block: nat, ghost cells: seq<string>)
      requires Vol().Block(block)
      modifies this`disk
      ensures disk == old(disk)[block - 1 := old(disk)[block - 1] + tkv + [NUL]]
      ensures old(disk)[block - 1] == File(cells) ==> disk[block - 1] == File(cells + [tkv])
      ensures old(disk)[block - 1] == File(cells) && NUL !in tkv && (forall i :: 0 <= i < |cells| ==> NUL !in cells[i]) ==>
                Cells(disk[block - 1]) == Cells(old(disk)[block - 1]) + [tkv]
    {
      hide File, Cells;
      FileAppend(cells, tkv);
      if NUL !in tkv && forall i :: 0 <= i < |cells| ==> NUL !in cells[i] {
        CellsOfFile(cells);
        CellsOfFile(cells + [tkv]);
      }
      disk := disk[block - 1 := disk[block - 1] + tkv + [NUL]];
    }

    /** The body of the writers' loop for one text; w and v0 are the writer's state and the volume it started on. */
    method PutText(text: string, blocks: Archive, space: nat, ghost w: Writer, ghost v0: Volume)
      returns (blocks': Archive, space': nat)
      requires capacity >= 2 && space >= 2 && w.space == space && |blocks| > 0
      requires Wrote(v0, Vol(), blocks, w)
      requires FreeCount(bitmap) >= |Put(w, text, capacity).closed| - |w.closed|
      modifies this`bitmap, this`disk
      ensures Wrote(v0, Vol(), blocks', Put(w, text, capacity)) && space' == Put(w, text, capacity).space
      ensures FreeCount(bitmap) + |blocks'| == old(FreeCount(bitmap)) + |blocks|
    {
      hide Wrote, FreeCount;
      blocks', space' := blocks, space;
      WroteLast(v0, Vol(), blocks, w);
      if space > |text| {
        WroteCell(v0, Vol(), Volume(bitmap, disk[blocks[|blocks| - 1] - 1 := disk[blocks[|blocks| - 1] - 1] + text + [NUL]]),
                  blocks, w, text, space - |text|);
        WriteTkv(text, blocks[|blocks| - 1], w.cur);
        space' := space - |text|;
      } else {
        var rest := text;
        ghost var at := w;
        while |rest| > space'
          invariant space' >= 2 && at.space == space' && |blocks'| > 0
          invariant Put(at, rest, capacity) == Put(w, text, capacity)
          invariant Wrote(v0, Vol(), blocks', at)
          invariant FreeCount(bitmap) >= |Put(at, rest, capacity).closed| - |at.closed|
          invariant FreeCount(bitmap) + |blocks'| == old(FreeCount(bitmap)) + |blocks|
          decreases |rest|
        {
          var piece := rest[..space' - 1] + [LF];
          var current := blocks'[|blocks'| - 1];
          WroteLast(v0, Vol(), blocks', at);
          WroteCell(v0, Vol(), Volume(bitmap, disk[current - 1 := disk[current - 1] + piece + [NUL]]), blocks', at, piece, 0);
          WriteTkv(piece, current, at.cur);
          at := Writer(at.closed, at.cur + [piece], 0);
          ghost var next := Writer(at.closed + [at.cur], [], capacity);
          rest := rest[space' - 1..];
          PutGrows(next, rest, capacity);
          ghost var before := Vol();
          var block := TakeBlock();
          WroteBlock(v0, before, Vol(), blocks', at, block, capacity);
          blocks', space', at := blocks' + [block], capacity, next;
        }
        var current := blocks'[|blocks'| - 1];
        WroteLast(v0, Vol(), blocks', at);
        WroteCell(v0, Vol(), Volume(bitmap, disk[current - 1 := disk[current - 1] + rest + [NUL]]), blocks', at, rest, space' - |rest|);
        WriteTkv(rest, current, at.cur);
        space' := space' - |rest|;
      }
    }

    /** The common body of dump_table and create_partition: writes a list of texts to fresh blocks. */
    method WriteTexts(texts: seq<string>) returns (blocks: Archive)
      requires capacity >= 2 && |bitmap| == |disk| && FreeCount(bitmap) >= |Layout(texts, capacity)|
      modifies this`bitmap, this`disk
      ensures Took(old(Vol()), Vol(), blocks) && |blocks| == |Layout(texts, capacity)|
      ensures forall i :: 0 <= i < |blocks| ==> Vol().Block(blocks[i]) && Vol().FileOf(blocks[i]) == File(Layout(texts, capacity)[i])
      ensures FreeCount(bitmap) + |blocks| == old(FreeCount(bitmap))
    {
      hide FreeCount, Put, File;
      ghost var v0 := Vol();
      var block := TakeBlock();
      blocks := [block];
      var space := capacity;
      ghost var w := Writer([], [], capacity);
      ghost var whole := PutAll(w, texts, capacity);
      NoFile();
      assert Wrote(v0, Vol(), blocks, w);
      var i := 0;
      assert texts[0..] == texts;
      while i < |texts|
        invariant i <= |texts| && space >= 2 && w.space == space && |blocks| > 0
        invariant Wrote(v0, Vol(), blocks, w)
        invariant PutAll(w, texts[i..], capacity) == whole
        invariant FreeCount(bitmap) >= |whole.closed| - |w.closed|
        invariant FreeCount(bitmap) + |blocks| == old(FreeCount(bitmap))
      {
        ghost var put := Put(w, texts[i], capacity);
        ghost var rolled := Roll(put, capacity);
        assert texts[i..][1..] == texts[i + 1..];
        PutGrows(w, texts[i], capacity);
        PutAllGrows(rolled, texts[i + 1..], capacity);
        blocks, space := PutText(texts[i], blocks, space, w, v0);
        w := put;
        WroteCount(v0, Vol(), blocks, w);
        if space <= 1 {
          ghost var before := Vol();
          block := TakeBlock();
          WroteBlock(v0, before, Vol(), blocks, w, block, capacity);
          blocks, space := blocks + [block], capacity;
        }
        w := rolled;
        i := i + 1;
      }
      assert texts[|texts|..] == [];
    }

    /** free_blocks_of_fs_archive: empties the files and clears the bits. */
    method FreeBlocksOfFsArchive(blocks: Archive)
      requires |bitmap| == |disk| && InRange(Vol(), blocks)
      modifies this`bitmap, this`disk
      ensures Released(old(Vol()), Vol(), blocks)
      ensures NoDup(blocks) && (forall b :: b in blocks ==> old(Vol()).Taken(b)) ==>
                FreeCount(bitmap) == old(FreeCount(bitmap)) + |blocks|
    {
      hide FreeCount;
      ghost var v0 := Vol();
      ghost var distinct := NoDup(blocks) && forall b :: b in blocks ==> v0.Taken(b);
      assert blocks[..0] == [];
      for i := 0 to |blocks|
        invariant |bitmap| == |disk| && Released(v0, Vol(), blocks[..i])
        invariant distinct ==> FreeCount(bitmap) == old(FreeCount(bitmap)) + i
      {
        var b := blocks[i];
        ghost var before := Vol();
        if distinct {
          assert b !in blocks[..i] && b in blocks;
          FreeCountClear(bitmap, b - 1);
        }
        disk := disk[b - 1 := ""];
        bitmap := bitmap[b - 1 := false];
        assert Released(before, Vol(), [b]);
        ReleasedMore(v0, before, Vol(), blocks[..i], [b]);
        assert blocks[..i + 1] == blocks[..i] + [b];
      }
      assert blocks[..|blocks|] == blocks;
    }

    /** free_partitions and free_blocks_of_all_tmps: releases a list of archives. */
    method FreeArchives(archives: seq<Archive>)
      requires |bitmap| == |disk| && InRange(Vol(), Concat(archives))
      modifies this`bitmap, this`disk
      ensures Released(old(Vol()), Vol(), Concat(archives))
      ensures NoDup(Concat(archives)) && (forall b :: b in Concat(archives) ==> old(Vol()).Taken(b)) ==>
                FreeCount(bitmap) == old(FreeCount(bitmap)) + |Concat(archives)|
    {
      hide FreeCount, Concat, NoDup, Released;
      ghost var v0 := Vol();
      NothingReleased(v0);
      ghost var distinct := NoDup(Concat(archives)) && forall b :: b in Concat(archives) ==> v0.Taken(b);
      assert archives[..0] == [];
      for i := 0 to |archives|
        invariant |bitmap| == |disk| && Released(v0, Vol(), Concat(archives[..i]))
        invariant distinct ==> FreeCount(bitmap) == old(FreeCount(bitmap)) + |Concat(archives[..i])|
      {
        ghost var before, done := Vol(), Concat(archives[..i]);
        ConcatPrefix(archives, i);
        assert archives[..i + 1] == archives[..i] + [archives[i]];
        ConcatSnoc(archives[..i], archives[i]);
        StillInRange(v0, before, Concat(archives), done, archives[i]);
        if distinct { StillTaken(v0, before, Concat(archives), done, archives[i]); }
        FreeBlocksOfFsArchive(archives[i]);
        ReleasedMore(v0, before, Vol(), done, archives[i]);
      }
      assert archives[..|archives|] == archives;
    }

    // ---------- Reading archives ----------

    /** create_tkv_list on an archive of this volume. */
    method ReadRecords(blocks: Archive) returns (records: seq<Record>)
      requires ArchiveOk(Vol(), blocks, Size())
      ensures records == AllRecords(RoundsAt(Vol(), blocks)) && AllStored(records, Size())
    {
      hide AllEncoded, AllFit, WellFormed, Glue, Flat, Cells, File;
      ArchiveRecords(Vol(), blocks, Size());
      records := CreateTkvList(Files(Volume(bitmap, disk), blocks), Size(), seq(Size(), _ => NUL), Contents(Vol(), blocks));
    }

    /** create_partition_tkv_list. */
    method ReadPartitions(parts: seq<Archive>) returns (records: seq<seq<Record>>)
      requires AllArchivesOk(Vol(), parts, Size())
      ensures records == PartRecords(RoundsOfAll(Vol(), parts))
      ensures forall p :: 0 <= p < |records| ==> AllStored(records[p], Size())
    {
      hide ArchiveOk, AllStored, AllRecords, RoundsAt;
      records := [];
      for i := 0 to |parts|
        invariant |records| == i
        invariant forall p :: 0 <= p < i ==> records[p] == AllRecords(RoundsAt(Vol(), parts[p])) && AllStored(records[p], Size())
      {
        var rs := ReadRecords(parts[i]);
        records := records + [rs];
      }
    }

    method SearchArchive(blocks: Archive, key: nat) returns (record: Option<Record>)
      requires ArchiveOk(Vol(), blocks, Size())
      ensures record == Found(RoundsAt(Vol(), blocks), key)
      ensures record.Some? ==> record.value.key == key && Stored(record.value, Size())
    {
      hide AllEncoded, AllFit, WellFormed, Glue, Flat, Cells, File, Found;
      ArchiveRecords(Vol(), blocks, Size());
      FoundMember(RoundsAt(Vol(), blocks), key);
      record := SearchKeyInFsArchive(Files(Volume(bitmap, disk), blocks), key, Size(), seq(Size(), _ => NUL), Contents(Vol(), blocks));
    }

    /** search_in_all_tmps: counts up while A<n>.tmp exists. */
    method SearchInAllTmps(tmps: map<nat, Archive>, key: nat) returns (record: Option<Record>)
      requires Contiguous(tmps) && AllArchivesOk(Vol(), TmpSeq(tmps), Size())
      ensures record == SearchTmps(RoundsOfAll(Vol(), TmpSeq(tmps)), key)
      ensures record.Some? ==> record.value.key == key && Stored(record.value, Size())
    {
      hide ArchiveOk, Found, Rounds, Contents, Storable, Encode;
      record := None;
      var n := 1;
      ghost var rounds := RoundsOfAll(Vol(), TmpSeq(tmps));
      assert rounds[..0] == [];
      while n in tmps
        invariant 1 <= n <= |tmps| + 1
        invariant record == SearchTmps(rounds[..n - 1], key)
        invariant record.Some? ==> record.value.key == key && Stored(record.value, Size())
        decreases |tmps| + 1 - n
      {
        assert TmpSeq(tmps)[n - 1] == tmps[n];
        var found := SearchArchive(tmps[n], key);
        assert rounds[..n][..n - 1] == rounds[..n - 1];
        if Stamp(found) > Stamp(record) {
          record := found;
        }
        n := n + 1;
      }
      assert rounds[..n - 1] == rounds;
    }

    /** search_key_in_memtable. */
    method SearchKeyInMemtable(name: string, key: nat) returns (record: Option<Record>)
      ensures record == Pick(Convert(MemOf(mem, name)), key)
    {
      hide ConvertRecord;
      record := None;
      for i := 0 to |mem|
        invariant record == None
        invariant forall j :: 0 <= j < i ==> mem[j].name != name
      {
        if mem[i].name == name {
          var records := Convert(mem[i].tkvs);
          assert records[..0] == [];
          for j := 0 to |records|
            invariant record == Pick(records[..j], key)
          {
            assert records[..j + 1][..j] == records[..j];
            if records[j].key == key && records[j].ts > Stamp(record) {
              record := Some(records[j]);
            }
          }
          assert records[..|records|] == records;
          assert MemIndex(mem, name) == i;
          return;
        }
      }
      assert MemIndex(mem, name) == |mem|;
    }

    /** search_key on an existing table. */
    method SearchKey(name: string, key: nat) returns (record: Option<Record>)
      requires Valid() && name in tables
      ensures record == Search(ShelfAt(name), key)
      ensures record.Some? ==> record.value.key == key && Stored(record.value, Size())
    {
      hide ArchiveOk, Found, Rounds, Contents, AllEncoded, AllFit, Convert, Pick, Storable, Encode, StoreOk, TableOk, Search, ShelfOf,
           SearchTmps, TmpSeq, AllArchivesOk, Contiguous, MemOk;
      var t := tables[name];
      TableIsOk(tables, Vol(), name, key, Size());
      var inTmpc: Option<Record> := None;
      if t.tmpc.Some? {
        inTmpc := SearchArchive(t.tmpc.value, key);
      }
      var inTmps := SearchInAllTmps(t.tmps, key);
      var inPart := SearchArchive(t.parts[key % |t.parts|], key);
      var inMem := SearchKeyInMemtable(name, key);
      if inMem.Some? { MemStored(mem, name, key, Size()); }
      SearchOfShelf(t, Vol(), Convert(MemOf(mem, name)), key);
      record := Newer(Newer(Newer(inTmps, inTmpc), inMem), inPart);
    }

    // ---------- Compaction ----------

    /** create_new_partitions: writes every partition to fresh blocks. */
    method CreateNewPartitions(parts: seq<seq<Record>>) returns (archives: seq<Archive>)
      requires capacity >= 2 && |bitmap| == |disk|
      requires forall p :: 0 <= p < |parts| ==> AllStored(parts[p], Size())
      requires FreeCount(bitmap) >= BlocksNeeded(parts, 0, capacity)
      modifies this`bitmap, this`disk
      ensures |archives| == |parts| && Took(old(Vol()), Vol(), Concat(archives))
      ensures AllArchivesOk(Vol(), archives, Size()) && PartRecords(RoundsOfAll(Vol(), archives)) == parts
      ensures FreeCount(bitmap) + BlocksNeeded(parts, 0, capacity) == old(FreeCount(bitmap))
    {
      hide ArchiveOk, AllStored, AllRecords, Rounds, Contents, FreeCount, Layout, EncodeAll, Convert, AllEncoded, AllFit, NoDup;
      ghost var v0 := Vol();
      archives := [];
      TookNothing(v0);
      for i := 0 to |parts|
        invariant |archives| == i && |bitmap| == |disk| && Took(v0, Vol(), Concat(archives))
        invariant AllArchivesOk(Vol(), archives, Size())
        invariant forall p :: 0 <= p < i ==> AllRecords(RoundsAt(Vol(), archives[p])) == parts[p]
        invariant FreeCount(bitmap) >= BlocksNeeded(parts, i, capacity)
        invariant FreeCount(bitmap) + BlocksNeeded(parts, 0, capacity) == FreeCount(v0.bitmap) + BlocksNeeded(parts, i, capacity)
      {
        ghost var before := Vol();
        EncodeAllProperties(parts[i], Size());
        var blocks := WriteTexts(EncodeAll(parts[i]));
        WrittenArchive(Vol(), blocks, EncodeAll(parts[i]), capacity, Size());
        TookMore(v0, before, Vol(), Concat(archives), blocks);
        TookUntouched(v0, before, Vol(), Concat(archives), blocks);
        UntouchedArchives(before, Vol(), archives, Size());
        forall p | 0 <= p < i ensures RoundsAt(Vol(), archives[p]) == RoundsAt(before, archives[p]) {
          assert RoundsOfAll(Vol(), archives)[p] == RoundsOfAll(before, archives)[p];
        }
        ConcatSnoc(archives, blocks);
        archives := archives + [blocks];
      }
    }

    /** get_all_blocks_from_all_tmps: counts up while A<n>.tmp exists. */
    method GetAllBlocksFromAllTmps(tmps: map<nat, Archive>) returns (blocks: Archive)
      requires Contiguous(tmps)
      ensures blocks == Concat(TmpSeq(tmps))
    {
      blocks := [];
      var n := 1;
      ghost var all := TmpSeq(tmps);
      assert all[..0] == [];
      while n in tmps
        invariant 1 <= n <= |tmps| + 1
        invariant blocks == Concat(all[..n - 1])
        decreases |tmps| + 1 - n
      {
        assert all[..n] == all[..n - 1] + [tmps[n]];
        ConcatSnoc(all[..n - 1], tmps[n]);
        blocks := blocks + tmps[n];
        n := n + 1;
      }
      assert all[..n - 1] == all;
    }

    /** Blocks that a compaction which merges the given records has to find. */
    ghost function CompactionNeeds(name: string, merged: seq<Record>): nat
      requires capacity >= 2 && name in tables && tables[name].parts != []
      reads this
    {
      BlocksNeeded(MergeAll(PartRecords(RoundsOfAll(Vol(), tables[name].parts)), merged), 0, capacity)
    }

    /** free_partitions, and free_blocks_of_all_tmps if the temporary archives are to go. */
    method FreeTable(name: string, destroy: bool)
      requires name in tables && Owned(tables, Vol()) && |bitmap| == |disk|
      modifies this`bitmap, this`disk
      ensures var t := tables[name];
              var released := Concat(t.parts) + if destroy then Concat(TmpSeq(t.tmps)) else [];
              Released(old(Vol()), Vol(), released) && FreeCount(bitmap) == old(FreeCount(bitmap)) + |released|
    {
      hide Concat, FreeCount, NoDup, TmpSeq, Owned;
      ghost var v0 := Vol();
      var t := tables[name];
      TableBlocks(tables, v0, name);
      FreeArchives(t.parts);
      if destroy {
        ghost var before := Vol();
        ReleasedStillTaken(v0, before, Concat(t.parts), Concat(TmpSeq(t.tmps)));
        FreeArchives(TmpSeq(t.tmps));
        ReleasedMore(v0, before, Vol(), Concat(t.parts), Concat(TmpSeq(t.tmps)));
      } else {
        assert Concat(t.parts) + [] == Concat(t.parts);
      }
    }

    /** start_compaction; destroy tells whether the temporary archives go away. */
    method StartCompaction(name: string, tmpc: Archive, destroy: bool)
      requires Valid() && name in tables
      requires ArchiveOk(Vol(), tmpc, Size())
      requires FreeCount(bitmap) + |Concat(tables[name].parts)| + (if destroy then |Concat(TmpSeq(tables[name].tmps))| else 0)
               >= CompactionNeeds(name, AllRecords(RoundsAt(Vol(), tmpc)))
      modifies this`bitmap, this`disk, this`tables
      ensures Valid() && OthersSame(old(tables), tables, name, old(Vol()), Vol()) && name in tables
      ensures Rewritten(old(ShelfAt(name)), ShelfAt(name), AllRecords(RoundsAt(old(Vol()), tmpc)))
      ensures ShelfAt(name).tmps == if destroy then [] else old(ShelfAt(name)).tmps
      ensures SameLeaks(old(tables), old(Vol()), tables, Vol())
      ensures FreeCount(bitmap) + old(CompactionNeeds(name, AllRecords(RoundsAt(Vol(), tmpc)))) ==
              old(FreeCount(bitmap) + |Concat(tables[name].parts)| + (if destroy then |Concat(TmpSeq(tables[name].tmps))| else 0))
    {
      hide ArchiveOk, SameLeaks, AllStored, AllRecords, Rounds, Contents, FreeCount, Layout, EncodeAll, Convert, AllEncoded, AllFit, NoDup,
           Tidy, MergeAll, BlocksNeeded, Owned, Concat, TableOk, MemOk, TmpSeq, VolumeOk;
      ghost var v0 := Vol();
      TableFacts(tables, v0, name, Size());
      var t := tables[name];
      var tmpcTkvs := ReadRecords(tmpc);
      var parts := ReadPartitions(t.parts);
      var merged := GetTkvsToInsert(tmpcTkvs, parts);
      MergeAllStored(parts, tmpcTkvs, Size());
      MergeAllMeaning(parts, tmpcTkvs, 0);
      ghost var released := Concat(t.parts) + if destroy then Concat(TmpSeq(t.tmps)) else [];
      FreeTable(name, destroy);
      ghost var v1 := Vol();
      var archives := CreateNewPartitions(merged);
      var table := Table(archives, if destroy then map[] else tables[name].tmps, None);
      ghost var tables' := tables[name := table];
      CompactionStep(tables, name, v0, v1, Vol(), archives, destroy, Size());
      StepKeepsStore(tables, tables', name, v0, v1, Vol(), released, Concat(archives), Size());
      tables := tables[name := table];
    }

    /** compaction up to the point where A1.tmpc is written: it lists the blocks of all temporary archives. */
    method WriteTmpc(name: string)
      requires Valid() && name in tables && tables[name].tmpc == None
      modifies this`tables
      ensures Valid() && OthersSame(old(tables), tables, name, old(Vol()), Vol()) && name in tables
      ensures Interrupted(old(ShelfAt(name)), ShelfAt(name)) && SameLeaks(old(tables), old(Vol()), tables, Vol())
      ensures tables[name] == old(tables)[name].(tmpc := Some(Concat(TmpSeq(old(tables)[name].tmps))))
    {
      hide ArchiveOk, AllRecords, Rounds, Contents, Tidy, Concat, Convert;
      var t := tables[name];
      var blocks := GetAllBlocksFromAllTmps(t.tmps);
      TmpcArchive(Vol(), TmpSeq(t.tmps), Size());
      TmpcKeepsStore(tables, Vol(), name, blocks, Size());
      tables := tables[name := t.(tmpc := Some(blocks))];
    }

    /** The blocks that compaction of a table has to find, given those it will release. */
    ghost predicate CanCompact(name: string)
      requires name in tables && tables[name].parts != [] && capacity >= 2
      reads this
    {
      var t := tables[name];
      if t.tmpc.Some? then
        FreeCount(bitmap) + |Concat(t.parts)| >= CompactionNeeds(name, AllRecords(RoundsAt(Vol(), t.tmpc.value)))
      else
        FreeCount(bitmap) + |Concat(t.parts)| + |Concat(TmpSeq(t.tmps))| >= CompactionNeeds(name, Joined(RoundsOfAll(Vol(), TmpSeq(t.tmps))))
    }

    /** The branch of compaction that finds temporary archives and no A1.tmpc. */
    method CompactTmps(name: string)
      requires Valid() && name in tables && tables[name].tmpc == None && CanCompact(name)
      modifies this`bitmap, this`disk, this`tables
      ensures Valid() && OthersSame(old(tables), tables, name, old(Vol()), Vol()) && name in tables
      ensures Compacted(old(ShelfAt(name)), ShelfAt(name))
      ensures SameLeaks(old(tables), old(Vol()), tables, Vol())
    {
      hide ArchiveOk, AllRecords, Rounds, Contents, Tidy, Concat, Convert, FreeCount, Owned, MergeAll, BlocksNeeded, AllEncoded, AllFit,
           TableOk, MemOk;
      ghost var tables0, v0, s0 := tables, Vol(), ShelfAt(name);
      TableFacts(tables, v0, name, Size());
      TmpcArchive(v0, TmpSeq(tables[name].tmps), Size());
      WriteTmpc(name);
      ghost var tables1, s1 := tables, ShelfAt(name);
      StartCompaction(name, tables[name].tmpc.value, true);
      assert Rewritten(s1, ShelfAt(name), Joined(s0.tmps));
      OthersSameTwice(tables0, tables1, tables, name, v0, v0, Vol());
      LeaksTwice(tables0, v0, tables1, v0, tables, Vol());
    }

    /** compaction of a table. */
    method Compaction(name: string)
      requires Valid() && (name in tables ==> CanCompact(name))
      modifies this`bitmap, this`disk, this`tables
      ensures Valid() && (name in tables <==> name in old(tables))
      ensures name !in tables ==> tables == old(tables) && Vol() == old(Vol())
      ensures name in tables ==> OthersSame(old(tables), tables, name, old(Vol()), Vol())
      ensures name in tables ==> CompactionOutcome(old(ShelfAt(name)), ShelfAt(name))
      ensures SameLeaks(old(tables), old(Vol()), tables, Vol())
    {
      hide ArchiveOk, AllRecords, Rounds, Contents, Tidy, Concat, Convert, FreeCount, Owned, MergeAll, BlocksNeeded, AllEncoded, AllFit,
           TableOk, MemOk;
      if name !in tables { return; }
      TableFacts(tables, Vol(), name, Size());
      var t := tables[name];
      if t.tmpc.Some? {
        StartCompaction(name, t.tmpc.value, false);
      } else if 1 in t.tmps {
        CompactTmps(name);
      }
    }

    // ---------- Dump ----------

    /**
      dump_table: writes the texts of one table and adds the archive under the first free number. If the table
      was dropped, its directory is gone: the blocks are taken, the archive cannot be opened and the process does not
      survive writing to it.
     */
    method DumpTable(entry: MemEntry) returns (alive: bool)
      requires capacity >= 2 && StoreOk(tables, Vol(), Size())
      requires AllEncoded(entry.tkvs) && AllFit(entry.tkvs, Size())
      requires FreeCount(bitmap) >= |Layout(entry.tkvs, capacity)|
      modifies this`bitmap, this`disk, this`tables
      ensures StoreOk(tables, Vol(), Size()) && OthersSame(old(tables), tables, entry.name, old(Vol()), Vol())
      ensures tables.Keys == old(tables).Keys && (alive <==> entry.name in tables)
      ensures entry.name in tables ==>
                && DumpedAs(ShelfOf(old(tables)[entry.name], old(Vol()), Convert(entry.tkvs)), ShelfOf(tables[entry.name], Vol(), []), capacity)
                && SameLeaks(old(tables), old(Vol()), tables, Vol())
      ensures entry.name !in tables ==> tables == old(tables) && !NoLeak(tables, Vol())
      ensures FreeCount(bitmap) == old(FreeCount(bitmap)) - |Layout(entry.tkvs, capacity)|
    {
      hide ArchiveOk, AllRecords, Rounds, Contents, Tidy, Concat, Convert, FreeCount, Owned, Layout, AllEncoded, AllFit, Leaked;
      ghost var v0 := Vol();
      var blocks := WriteTexts(entry.tkvs);
      if entry.name !in tables {
        TakenForNothing(tables, v0, Vol(), blocks, Size());
        SomeBlock(entry.tkvs, capacity);
        assert Leaked(tables, Vol(), blocks[0]);
        return false;
      }
      var t := tables[entry.name];
      WrittenArchive(Vol(), blocks, entry.tkvs, capacity, Size());
      EncodeConvert(entry.tkvs);
      var n := 1;
      while n in t.tmps
        invariant 1 <= n <= |t.tmps| + 1
        decreases |t.tmps| + 1 - n
      {
        n := n + 1;
      }
      AddTmp(t.tmps, blocks);
      DumpStep(tables, entry.name, v0, Vol(), blocks, Size(), Convert(entry.tkvs), capacity);
      StepKeepsStore(tables, tables[entry.name := t.(tmps := t.tmps[n := blocks])], entry.name, v0, v0, Vol(), [], blocks, Size());
      tables := tables[entry.name := t.(tmps := t.tmps[n := blocks])];
      alive := true;
    }

    /**
      dump: every table of the memtable becomes a temporary archive, then the memtable is emptied. The process lives on and
      no block leaks if and only if every table of the memtable exists; otherwise the tables from the first missing one on lose
      what the memtable held of them.
     */
    method Dump() returns (alive: bool)
      requires Valid() && FreeCount(bitmap) >= DumpNeeds(mem, 0, capacity)
      modifies this
      ensures Valid() && mem == [] && tables.Keys == old(tables).Keys && (alive <==> Listed(old(mem), old(tables)))
      ensures forall name :: name in tables ==>
                if MemIndex(old(mem), name) < FirstMissing(old(mem), old(tables)) then
                  DumpedAs(old(ShelfAt(name)), ShelfAt(name), capacity)
                else ShelfAt(name) == old(ShelfAt(name)).(mem := [])
      ensures NoLeak(tables, Vol()) <==> old(NoLeak(tables, Vol())) && alive
    {
      hide ArchiveOk, AllRecords, Rounds, Contents, Tidy, Concat, Convert, FreeCount, Owned, Layout, AllEncoded, AllFit, Dumped, DumpedAs,
           MemIndex, ShelfOf, StoreOk, DumpedSoFar, OthersSame, MemOf, Leaked, NoLeak, SameLeaks, FirstMissing;
      ghost var v0, tables0 := Vol(), tables;
      NothingDumped(tables0, v0, mem, capacity);
      alive := true;
      var i := 0;
      while i < |mem| && alive
        invariant i <= |mem| && mem == old(mem) && tables.Keys == tables0.Keys
        invariant StoreOk(tables, Vol(), Size())
        invariant FreeCount(bitmap) >= DumpNeeds(mem, i, capacity)
        invariant DumpedSoFar(tables0, v0, tables, Vol(), mem, i, capacity)
        invariant alive ==> forall k :: 0 <= k < i ==> mem[k].name in tables0
        invariant !alive ==> 0 < i && mem[i - 1].name !in tables0 && forall k :: 0 <= k < i - 1 ==> mem[k].name in tables0
        invariant NoLeak(tables, Vol()) <==> NoLeak(tables0, v0) && alive
      {
        ghost var v, before := Vol(), tables;
        alive := DumpTable(mem[i]);
        if mem[i].name in tables { LeaksNone(before, v, tables, Vol()); }
        DumpedOneMore(tables0, v0, before, v, tables, Vol(), mem, i, Size(), capacity);
        i := i + 1;
      }
      ghost var first := if alive then i else i - 1;
      MissingAt(mem, tables0, first);
      DumpedUpTo(tables0, v0, tables, Vol(), mem, i, first, capacity);
      NoMem();
      mem := [];
    }

    // ---------- The other operations ----------

    /** process_create. */
    method Create(name: string, partitions: nat) returns (status: int)
      requires Valid() && partitions >= 1
      modifies this`bitmap, this`tables
      ensures Valid()
      ensures status == if old(FreeCount(bitmap)) < partitions then -2 else if name in old(tables) then -1 else 0
      ensures status != 0 ==> bitmap == old(bitmap) && tables == old(tables)
      ensures status == 0 ==> tables.Keys == old(tables).Keys + {name} && OthersSame(old(tables), tables, name, old(Vol()), Vol())
      ensures status == 0 ==> FreeCount(bitmap) == old(FreeCount(bitmap)) - partitions
      ensures SameLeaks(old(tables), old(Vol()), tables, Vol())
      ensures status == 0 ==>
                && |ShelfAt(name).parts| == partitions && ShelfAt(name).tmps == [] && ShelfAt(name).tmpc == None
                && forall p :: 0 <= p < partitions ==> AllRecords(ShelfAt(name).parts[p]) == []
    {
      hide ArchiveOk, AllRecords, Rounds, Contents, Tidy, Concat, Convert, FreeCount, Owned, AllEncoded, AllFit, TableOk, NoDup;
      var bits, blocks := AssignFreeBlocks(bitmap, partitions, disk);
      if |blocks| == partitions {
        if name !in tables {
          var table := Table(Singles(blocks), map[], None);
          CreateStep(tables, name, Vol(), Volume(bits, disk), blocks, Size());
          StepKeepsStore(tables, tables[name := table], name, Vol(), Vol(), Volume(bits, disk), [], blocks, Size());
          tables := tables[name := table];
          bitmap := bits;
          status := 0;
        } else {
          status := -1;
        }
      } else {
        status := -2;
      }
    }

    /** process_drop: the memtable is not touched. */
    method Drop(name: string) returns (status: int)
      requires Valid()
      modifies this`bitmap, this`disk, this`tables
      ensures Valid() && status == if name in old(tables) then 0 else -1
      ensures status == -1 ==> tables == old(tables) && Vol() == old(Vol())
      ensures status == 0 ==> tables.Keys == old(tables).Keys - {name} && OthersSame(old(tables), tables, name, old(Vol()), Vol())
      ensures status == 0 ==> FreeCount(bitmap) == old(FreeCount(bitmap)) + |AllBlocks(old(tables)[name])|
      ensures SameLeaks(old(tables), old(Vol()), tables, Vol())
      ensures Listed(mem, old(tables)) ==> (Listed(mem, tables) <==> status == -1 || forall i :: 0 <= i < |mem| ==> mem[i].name != name)
    {
      hide ArchiveOk, AllRecords, Rounds, Contents, Tidy, Concat, Convert, FreeCount, Owned, AllEncoded, AllFit, TableOk, NoDup;
      if name !in tables { return -1; }
      var t := tables[name];
      ghost var v0 := Vol();
      FreeTable(name, true);
      TookNothing(Vol());
      StepKeepsStore(tables, tables - {name}, name, v0, Vol(), Vol(), AllBlocks(t), [], Size());
      tables := tables - {name};
      status := 0;
    }

    /**
      process_insert; a timestamp of -1 asks for the clock's. Any value that is not too long is taken, but the engine stays
      in order if and only if the record's text can be read back.
     */
    method Insert(name: string, key: nat, value: string, timestamp: int, now: nat) returns (status: int)
      requires MemNames(mem) && timestamp >= -1 && key < KEYS
      modifies this`mem
      ensures status == if name !in tables then -2 else if |value| > maxValue then -1 else 0
      ensures status != 0 ==> mem == old(mem)
      ensures var r := Record(if timestamp == -1 then now else timestamp, key, value);
              && (status == 0 ==> mem == Appended(old(mem), name, Encode(r)))
              && MemNames(mem) && (Valid() <==> old(Valid()) && (status != 0 || Stored(r, Size())))
              && (status == 0 && Stored(r, Size()) ==> Convert(MemOf(mem, name)) == Convert(MemOf(old(mem), name)) + [r])
      ensures forall n :: n != name ==> MemOf(mem, n) == MemOf(old(mem), n)
      ensures Listed(old(mem), tables) ==> Listed(mem, tables)
    {
      hide StoreOk, Encode, Convert, MemTexts, MemIndex, MemOf, Stored, Appended, Listed;
      if name !in tables { return -2; }
      if |value| > maxValue { return -1; }
      var r := Record(if timestamp == -1 then now else timestamp, key, value);
      var tkv := Encode(r);
      AppendedMem(mem, name, r, tables, Size());
      AppendedIs(mem, name, tkv);
      ghost var entry, before := |mem|, mem;
      if forall i :: 0 <= i < |mem| ==> mem[i].name != name {
        mem := mem + [MemEntry(name, [])];
      } else {
        entry :| 0 <= entry < |mem| && mem[entry].name == name;
      }
      var i := 0;
      while mem[i].name != name
        invariant 0 <= i <= entry < |mem| && mem[entry].name == name
        decreases entry - i
      {
        i := i + 1;
      }
      mem := mem[i := MemEntry(name, mem[i].tkvs + [tkv])];
      if i == |before| {
        assert [] + [tkv] == [tkv];
        assert mem == before + [MemEntry(name, [tkv])];
      } else {
        assert before[i].name == name;
      }
      status := 0;
    }

    /** process_multiinsert: attempts every insert, and answers -1 if any was refused. */
    method MultiInsert(rows: seq<Row>) returns (result: int)
      requires MemNames(mem) && forall i :: 0 <= i < |rows| ==> rows[i].record.key < KEYS
      modifies this`mem
      ensures result == if forall i :: 0 <= i < |rows| ==> Takes(rows[i], tables, maxValue) then 0 else -1
      ensures MemNames(mem) && Grew(old(mem), mem, rows, tables, maxValue)
      ensures Valid() <==>
              old(Valid()) && forall i :: 0 <= i < |rows| && Takes(rows[i], tables, maxValue) ==> Stored(rows[i].record, Size())
      ensures Listed(old(mem), tables) ==> Listed(mem, tables)
    {
      hide StoreOk, MemTexts, Convert, MemOf, Stored, Listed, Grew, Appended;
      result := 0;
      assert rows[..0] == [];
      GrewNothing(mem, tables, maxValue);
      for i := 0 to |rows|
        invariant MemNames(mem)
        invariant Valid() <==>
                  old(Valid()) && forall j :: 0 <= j < i && Takes(rows[j], tables, maxValue) ==> Stored(rows[j].record, Size())
        invariant result == if forall j :: 0 <= j < i ==> Takes(rows[j], tables, maxValue) then 0 else -1
        invariant Grew(old(mem), mem, rows[..i], tables, maxValue)
        invariant Listed(old(mem), tables) ==> Listed(mem, tables)
      {
        ghost var before := mem;
        var row := rows[i];
        var status := Insert(row.table, row.record.key, row.record.value, row.record.ts, 0);
        assert rows[..i + 1] == rows[..i] + [row];
        AppendedTexts(before, row.table, Encode(row.record));
        GrewMore(old(mem), before, mem, rows[..i], row, tables, maxValue);
        if status < 0 {
          result := -1;
        }
      }
      assert rows[..|rows|] == rows;
    }
  }

  /** A CREATE, an INSERT, a DROP and a dump: whatever the record, the dump's blocks are lost. */
  method DropThenDump(capacity: nat, blocks: nat, maxValue: nat, clock: nat, name: string, r: Record) returns (fs: FileSystem)
    requires capacity >= 2 && Stored(r, TkvSize(clock, maxValue)) && |r.value| <= maxValue
    requires blocks > |Layout([Encode(r)], capacity)|
    ensures fresh(fs) && fs.Valid() && fs.tables == map[] && fs.mem == [] && !NoLeak(fs.tables, fs.Vol())
  {
    hide StoreOk, Encode, Convert, MemTexts, Layout, TkvSize, FreeCount, NoLeak;
    fs := new FileSystem(capacity, blocks, maxValue, clock);
    var status := fs.Create(name, 1);
    status := fs.Insert(name, r.key, r.value, r.ts, 0);
    assert fs.mem == [MemEntry(name, [Encode(r)])];
    status := fs.Drop(name);
    assert DumpNeeds(fs.mem, 1, capacity) == 0;
    assert fs.mem[0].name !in fs.tables;
    var alive := fs.Dump();
  }

  // ---------- Lemmas about searching ----------

  lemma TableIsOk(tables: Tables, v: Volume, name: string, key: nat, size: nat)
    requires StoreOk(tables, v, size) && name in tables
    ensures var t := tables[name];
            && t.parts != [] && Contiguous(t.tmps) && AllArchivesOk(v, TmpSeq(t.tmps), size)
            && ArchiveOk(v, t.parts[key % |t.parts|], size) && (t.tmpc.Some? ==> ArchiveOk(v, t.tmpc.value, size))
  {
    hide ArchiveOk, Tidy, Contiguous, TmpSeq, Concat, Owned, VolumeOk;
    assert TableOk(tables[name], v, size);
  }

  /** search_key in terms of the table's archives. */
  lemma SearchOfShelf(t: Table, v: Volume, mem: seq<Record>, key: nat)
    requires t.parts != []
    ensures ShelfOf(t, v, mem).parts != [] && Search(ShelfOf(t, v, mem), key) ==
            Newer(Newer(Newer(SearchTmps(RoundsOfAll(v, TmpSeq(t.tmps)), key),
                              if t.tmpc.Some? then Found(RoundsAt(v, t.tmpc.value), key) else None),
                        Pick(mem, key)), Found(RoundsAt(v, t.parts[key % |t.parts|]), key))
  {
    hide Found, Rounds, Contents, Pick, SearchTmps, TmpSeq, RoundsAt;
  }

  // ---------- Lemmas about compaction ----------

  lemma {:induction false} TmpcArchive(v: Volume, archives: seq<Archive>, size: nat)
    requires |v.bitmap| == |v.disk| && AllArchivesOk(v, archives, size)
    ensures ArchiveOk(v, Concat(archives), size)
    ensures AllRecords(RoundsAt(v, Concat(archives))) == Joined(RoundsOfAll(v, archives))
    decreases |archives|
  {
    hide ArchiveOk, Rounds, Contents, AllRecords;
    if archives == [] {
      NoArchive(v, size);
    } else {
      var last := |archives| - 1;
      var init := archives[..last];
      TmpcArchive(v, init, size);
      ArchiveConcat(v, Concat(init), archives[last], size);
      assert RoundsOfAll(v, archives)[..last] == RoundsOfAll(v, init);
    }
  }

  lemma TableFacts(tables: Tables, v: Volume, name: string, size: nat)
    requires StoreOk(tables, v, size) && name in tables
    ensures |v.bitmap| == |v.disk| && tables[name].parts != [] && AllArchivesOk(v, TmpSeq(tables[name].tmps), size)
    ensures tables[name].tmpc.Some? ==> ArchiveOk(v, tables[name].tmpc.value, size)
    ensures TmpSeq(tables[name].tmps) == [] <==> 1 !in tables[name].tmps
    ensures AllArchivesOk(v, tables[name].parts, size) && Tidy(PartRecords(RoundsOfAll(v, tables[name].parts)))
  {
    var t := tables[name];
    assert TableOk(t, v, size);
    assert 1 in t.tmps <==> 1 <= |t.tmps|;
  }

  lemma NoArchive(v: Volume, size: nat)
    ensures ArchiveOk(v, [], size) && AllRecords(RoundsAt(v, [])) == []
  {
    assert Contents(v, []) == [];
    assert RoundsAt(v, []) == [];
  }

  /** Writing A1.tmpc changes no ownership. */
  lemma TmpcKeepsStore(tables: Tables, v: Volume, name: string, blocks: Archive, size: nat)
    requires StoreOk(tables, v, size) && name in tables && ArchiveOk(v, blocks, size)
    requires blocks == Concat(TmpSeq(tables[name].tmps))
    ensures var tables' := tables[name := tables[name].(tmpc := Some(blocks))];
            StoreOk(tables', v, size) && OthersSame(tables, tables', name, v, v) && SameLeaks(tables, v, tables', v)
  {
    hide ArchiveOk, Rounds, Contents, Tidy, NoDup, Concat;
    var tables' := tables[name := tables[name].(tmpc := Some(blocks))];
    assert forall n, b :: Uses(tables', n, b) <==> Uses(tables, n, b);
  }

  lemma OthersSameTwice(tables: Tables, tables1: Tables, tables2: Tables, name: string, v: Volume, v1: Volume, v2: Volume)
    requires OthersSame(tables, tables1, name, v, v1) && OthersSame(tables1, tables2, name, v1, v2)
    ensures OthersSame(tables, tables2, name, v, v2)
  {
    hide ShelfOf;
    forall n, mem | n != name && n in tables ensures ShelfOf(tables2[n], v2, mem) == ShelfOf(tables[n], v, mem) {
      assert n in tables1;
      assert ShelfOf(tables1[n], v1, mem) == ShelfOf(tables[n], v, mem);
    }
  }

  // ---------- Lemmas about dumping ----------

  function DumpNeeds(mem: seq<MemEntry>, i: nat, capacity: nat): nat
    requires capacity >= 2 && i <= |mem|
    decreases |mem| - i
  {
    if i == |mem| then 0 else |Layout(mem[i].tkvs, capacity)| + DumpNeeds(mem, i + 1, capacity)
  }

  /** Even an empty list of texts takes a block. */
  lemma SomeBlock(texts: seq<string>, capacity: nat)
    requires capacity >= 2
    ensures |Layout(texts, capacity)| >= 1
  {
  }

  lemma DumpStep(tables: Tables, name: string, v: Volume, v': Volume, blocks: Archive, size: nat, records: seq<Record>, capacity: nat)
    requires StoreOk(tables, v, size) && name in tables && Took(v, v', blocks) && capacity >= 2
    requires ArchiveOk(v', blocks, size) && AllRecords(RoundsAt(v', blocks)) == records && RoundsAt(v', blocks) == LaidOut(records, capacity)
    ensures var t := tables[name];
            var t' := t.(tmps := t.tmps[|t.tmps| + 1 := blocks]);
            && Step(tables, tables[name := t'], name, v, v, v', [], blocks) && TableOk(t', v', size)
            && DumpedAs(ShelfOf(t, v, records), ShelfOf(t', v', []), capacity)
  {
    hide ArchiveOk, LaidOut, RoundsAt, Contents, Tidy, NoDup, AllRecords, Concat;
    var t := tables[name];
    var t' := t.(tmps := t.tmps[|t.tmps| + 1 := blocks]);
    AddTmp(t.tmps, blocks);
    ConcatSnoc(TmpSeq(t.tmps), blocks);
    assert AllBlocks(t') == AllBlocks(t) + blocks;
    forall b | b in AllBlocks(t) ensures b !in blocks && v.Taken(b) && v'.FileOf(b) == v.FileOf(b) {
      assert Uses(tables, name, b);
    }
    NoDupConcat(AllBlocks(t), blocks);
    DumpedTable(t, v, v', blocks, size, records, capacity);
  }

  lemma DumpedTable(t: Table, v: Volume, v': Volume, blocks: Archive, size: nat, records: seq<Record>, capacity: nat)
    requires TableOk(t, v, size) && Untouched(v, v', AllBlocks(t)) && capacity >= 2
    requires ArchiveOk(v', blocks, size) && AllRecords(RoundsAt(v', blocks)) == records && RoundsAt(v', blocks) == LaidOut(records, capacity)
    ensures var t' := t.(tmps := t.tmps[|t.tmps| + 1 := blocks]);
            TableOk(t', v', size) && DumpedAs(ShelfOf(t, v, records), ShelfOf(t', v', []), capacity)
  {
    hide ArchiveOk, LaidOut, RoundsAt, Contents, Tidy, NoDup, AllRecords, Concat, AllBlocks;
    var t' := t.(tmps := t.tmps[|t.tmps| + 1 := blocks]);
    AddTmp(t.tmps, blocks);
    ConcatSnoc(TmpSeq(t.tmps), blocks);
    UntouchedTable(t, v, v', size, records);
    assert RoundsOfAll(v', TmpSeq(t'.tmps)) == RoundsOfAll(v', TmpSeq(t.tmps)) + [RoundsAt(v', blocks)];
  }

  ghost predicate DumpedSoFar(tables0: Tables, v0: Volume, tables: Tables, v: Volume, mem: seq<MemEntry>, i: nat, capacity: nat)
    requires capacity >= 2
  {
    forall name :: name in tables0 ==>
      name in tables &&
      if MemIndex(mem, name) < i && MemIndex(mem, name) < |mem| then
        DumpedAs(ShelfOf(tables0[name], v0, Convert(MemOf(mem, name))), ShelfOf(tables[name], v, []), capacity)
      else
        tables[name] == tables0[name] && forall m :: ShelfOf(tables[name], v, m) == ShelfOf(tables0[name], v0, m)
  }

  lemma NothingDumped(tables: Tables, v: Volume, mem: seq<MemEntry>, capacity: nat)
    requires capacity >= 2
    ensures DumpedSoFar(tables, v, tables, v, mem, 0, capacity)
  {
  }

  lemma DumpedOneMore(tables0: Tables, v0: Volume, tables: Tables, v: Volume, tables': Tables, v': Volume, mem: seq<MemEntry>, i: nat,
                      size: nat, capacity: nat)
    requires i < |mem| && MemOk(mem, size) && capacity >= 2 && tables.Keys == tables0.Keys == tables'.Keys
    requires DumpedSoFar(tables0, v0, tables, v, mem, i, capacity) && OthersSame(tables, tables', mem[i].name, v, v')
    requires mem[i].name in tables ==>
               DumpedAs(ShelfOf(tables[mem[i].name], v, Convert(mem[i].tkvs)), ShelfOf(tables'[mem[i].name], v', []), capacity)
    ensures DumpedSoFar(tables0, v0, tables', v', mem, i + 1, capacity)
  {
    hide ShelfOf, DumpedAs, Convert;
    assert MemIndex(mem, mem[i].name) == i;
    forall name | name in tables0
      ensures name in tables' &&
              if MemIndex(mem, name) < i + 1 then
                DumpedAs(ShelfOf(tables0[name], v0, Convert(MemOf(mem, name))), ShelfOf(tables'[name], v', []), capacity)
              else
                tables'[name] == tables0[name] && forall m :: ShelfOf(tables'[name], v', m) == ShelfOf(tables0[name], v0, m)
    {
      assert name in tables;
      if name != mem[i].name {
        assert tables'[name] == tables[name];
        assert MemIndex(mem, name) != i;
      }
    }
  }

  lemma {:induction false} MissingAt(mem: seq<MemEntry>, tables: Tables, i: nat)
    requires i <= |mem| && (i < |mem| ==> mem[i].name !in tables) && forall j :: 0 <= j < i ==> mem[j].name in tables
    ensures FirstMissing(mem, tables) == i
  {
    if i > 0 { MissingAt(mem[1..], tables, i - 1); }
  }

  /** The tables before the first missing one are dumped, the others have lost their part of the memtable. */
  lemma DumpedUpTo(tables0: Tables, v0: Volume, tables: Tables, v: Volume, mem: seq<MemEntry>, i: nat, first: nat, capacity: nat)
    requires capacity >= 2 && i <= |mem| && DumpedSoFar(tables0, v0, tables, v, mem, i, capacity) && tables.Keys == tables0.Keys
    requires first == i || (first + 1 == i && mem[first].name !in tables0)
    ensures forall name :: name in tables ==>
              if MemIndex(mem, name) < first then
                DumpedAs(ShelfOf(tables0[name], v0, Convert(MemOf(mem, name))), ShelfOf(tables[name], v, []), capacity)
              else
                ShelfOf(tables[name], v, []) == ShelfOf(tables0[name], v0, Convert(MemOf(mem, name))).(mem := [])
  {
    hide DumpedAs, Convert, ShelfOf, MemOf;
    forall name | name in tables && MemIndex(mem, name) >= first
      ensures ShelfOf(tables[name], v, []) == ShelfOf(tables0[name], v0, Convert(MemOf(mem, name))).(mem := [])
    {
      assert MemIndex(mem, name) != first || first == i;
      assert ShelfOf(tables[name], v, []) == ShelfOf(tables0[name], v0, []);
      ShelfWithout(tables0[name], v0, Convert(MemOf(mem, name)));
    }
  }

  lemma ShelfWithout(t: Table, v: Volume, mem: seq<Record>)
    ensures ShelfOf(t, v, mem).(mem := []) == ShelfOf(t, v, [])
  {
    hide RoundsOfAll;
  }

  lemma NoMem()
    ensures forall name :: Convert(MemOf([], name)) == []
  {
  }

  // ---------- Lemmas about creating tables ----------

  /** assign_free_blocks: takes up to n free blocks. */
  method AssignFreeBlocks(bitmap: seq<bool>, n: nat, ghost disk: seq<string>) returns (bits: seq<bool>, blocks: seq<nat>)
    requires |bitmap| == |disk|
    ensures |blocks| == n <==> FreeCount(bitmap) >= n
    ensures Took(Volume(bitmap, disk), Volume(bits, disk), blocks)
    ensures FreeCount(bits) == FreeCount(bitmap) - |blocks|
  {
    hide FreeCount, NoDup;
    bits, blocks := bitmap, [];
    TookNothing(Volume(bitmap, disk));
    FreeCountBound(bitmap);
    if n <= |bitmap| {
      var i := 0;
      while i < n
        invariant i == |blocks| <= n
        invariant Took(Volume(bitmap, disk), Volume(bits, disk), blocks)
        invariant FreeCount(bits) == FreeCount(bitmap) - |blocks|
      {
        ghost var before := Volume(bits, disk);
        var block;
        bits, block := FindFreeBlock(bits);
        if block == -1 {
          break;
        }
        assert Took(before, Volume(bits, disk), [block + 1]) by { OneBlock(block + 1); }
        TookMore(Volume(bitmap, disk), before, Volume(bits, disk), blocks, [block + 1]);
        blocks := blocks + [block + 1];
        i := i + 1;
      }
    }
  }

  lemma OneBlock(b: nat)
    ensures NoDup([b])
  {
  }

  /** One archive of one block for every partition. */
  function Singles(blocks: seq<nat>): (archives: seq<Archive>)
    ensures |archives| == |blocks|
  {
    seq(|blocks|, i requires 0 <= i < |blocks| => [blocks[i]])
  }

  lemma {:induction false} ConcatSingles(blocks: seq<nat>)
    ensures Concat(Singles(blocks)) == blocks
    decreases |blocks|
  {
    if blocks != [] {
      var last := |blocks| - 1;
      ConcatSingles(blocks[..last]);
      assert Singles(blocks)[..last] == Singles(blocks[..last]);
      assert blocks == blocks[..last] + [blocks[last]];
    }
  }

  lemma CreateStep(tables: Tables, name: string, v: Volume, v': Volume, blocks: seq<nat>, size: nat)
    requires StoreOk(tables, v, size) && name !in tables && |blocks| >= 1
    requires Took(v, v', blocks) && v'.disk == v.disk
    ensures var t := Table(Singles(blocks), map[], None);
            && Step(tables, tables[name := t], name, v, v, v', [], blocks) && TableOk(t, v', size)
            && TmpSeq(t.tmps) == [] && forall p :: 0 <= p < |blocks| ==> AllRecords(RoundsAt(v', t.parts[p])) == []
  {
    hide ArchiveOk, Rounds, Contents, AllRecords, NoDup, Concat;
    var t := Table(Singles(blocks), map[], None);
    ConcatSingles(blocks);
    assert TmpSeq(t.tmps) == [];
    NoBlocks();
    assert AllBlocks(t) == blocks;
    forall p | 0 <= p < |blocks| ensures ArchiveOk(v', t.parts[p], size) && AllRecords(RoundsAt(v', t.parts[p])) == [] {
      assert blocks[p] in blocks;
      assert v'.FileOf(blocks[p]) == v.FileOf(blocks[p]) == "";
      EmptyArchive(v', blocks[p], size);
    }
    assert forall p :: 0 <= p < |blocks| ==> PartRecords(RoundsOfAll(v', t.parts))[p] == [];
  }

  lemma NoBlocks()
    ensures Concat([]) == []
  {
  }

  // ---------- Lemmas about the memtable ----------

  /** Every table's part of the memtable has grown by the texts of the rows that it takes. */
  ghost predicate Grew(mem: seq<MemEntry>, mem': seq<MemEntry>, rows: seq<Row>, tables: Tables, maxValue: nat)
  {
    forall name :: MemOf(mem', name) == MemOf(mem, name) + EncodeAll(RowsFor(rows, name, tables, maxValue))
  }

  lemma GrewNothing(mem: seq<MemEntry>, tables: Tables, maxValue: nat)
    ensures Grew(mem, mem, [], tables, maxValue)
  {
    hide MemOf;
  }

  lemma GrewMore(mem0: seq<MemEntry>, mem: seq<MemEntry>, mem': seq<MemEntry>, rows: seq<Row>, row: Row, tables: Tables, maxValue: nat)
    requires Grew(mem0, mem, rows, tables, maxValue)
    requires !Takes(row, tables, maxValue) ==> mem' == mem
    requires Takes(row, tables, maxValue) ==>
               && MemOf(mem', row.table) == MemOf(mem, row.table) + [Encode(row.record)]
               && forall n :: n != row.table ==> MemOf(mem', n) == MemOf(mem, n)
    ensures Grew(mem0, mem', rows + [row], tables, maxValue)
  {
    hide MemOf, Takes, Encode;
    assert (rows + [row])[..|rows|] == rows;
    forall name ensures MemOf(mem', name) == MemOf(mem0, name) + EncodeAll(RowsFor(rows + [row], name, tables, maxValue)) {
      var before, after := RowsFor(rows, name, tables, maxValue), RowsFor(rows + [row], name, tables, maxValue);
      if after == before + [row.record] { assert EncodeAll(after) == EncodeAll(before) + [Encode(row.record)]; }
    }
  }

  /** In terms of records, if the rows can be stored. */
  lemma GrewRecords(mem: seq<MemEntry>, mem': seq<MemEntry>, rows: seq<Row>, tables: Tables, maxValue: nat, size: nat, name: string)
    requires Grew(mem, mem', rows, tables, maxValue) && forall i :: 0 <= i < |rows| ==> Stored(rows[i].record, size)
    ensures Convert(MemOf(mem', name)) == Convert(MemOf(mem, name)) + RowsFor(rows, name, tables, maxValue)
  {
    hide MemOf, Stored, Convert, EncodeAll, RowsFor;
    var added := RowsFor(rows, name, tables, maxValue);
    RowsForStored(rows, name, tables, maxValue, size);
    EncodeAllProperties(added, size);
    ConvertConcat(MemOf(mem, name), EncodeAll(added));
  }

  lemma {:induction false} RowsForStored(rows: seq<Row>, name: string, tables: Tables, maxValue: nat, size: nat)
    requires forall i :: 0 <= i < |rows| ==> Stored(rows[i].record, size)
    ensures AllStored(RowsFor(rows, name, tables, maxValue), size)
    decreases |rows|
  {
    hide Stored;
    if rows != [] { RowsForStored(rows[..|rows| - 1], name, tables, maxValue, size); }
  }

  lemma MemStored(mem: seq<MemEntry>, name: string, key: nat, size: nat)
    requires MemOk(mem, size) && Pick(Convert(MemOf(mem, name)), key).Some?
    ensures var r := Pick(Convert(MemOf(mem, name)), key).value; r.key == key && Stored(r, size)
  {
    hide Storable, Encode, ConvertRecord, Pick, AllEncoded, AllFit;
    PickMember(Convert(MemOf(mem, name)), key);
    if MemIndex(mem, name) < |mem| { TextsAreStored(MemOf(mem, name), size); }
  }

  lemma {:induction false} MemIndexIs(mem: seq<MemEntry>, name: string, i: nat)
    requires i <= |mem| && (i < |mem| ==> mem[i].name == name)
    requires forall j :: 0 <= j < i ==> mem[j].name != name
    ensures MemIndex(mem, name) == i
  {
    if i > 0 { MemIndexIs(mem[1..], name, i - 1); }
  }

  lemma AppendedIs(mem: seq<MemEntry>, name: string, tkv: string)
    ensures forall i :: 0 <= i < |mem| && mem[i].name == name && MemNames(mem) ==>
              Appended(mem, name, tkv) == mem[i := MemEntry(name, mem[i].tkvs + [tkv])]
    ensures (forall i :: 0 <= i < |mem| ==> mem[i].name != name) ==> Appended(mem, name, tkv) == mem + [MemEntry(name, [tkv])]
  {
    forall i | 0 <= i < |mem| && mem[i].name == name && MemNames(mem) ensures MemIndex(mem, name) == i { MemIndexIs(mem, name, i); }
    if forall i :: 0 <= i < |mem| ==> mem[i].name != name { MemIndexIs(mem, name, |mem|); }
  }

  lemma AppendedTexts(mem: seq<MemEntry>, name: string, tkv: string)
    requires MemNames(mem)
    ensures MemNames(Appended(mem, name, tkv)) && MemOf(Appended(mem, name, tkv), name) == MemOf(mem, name) + [tkv]
    ensures forall n :: n != name ==> MemOf(Appended(mem, name, tkv), n) == MemOf(mem, n)
  {
    var mem', i := Appended(mem, name, tkv), MemIndex(mem, name);
    MemIndexIs(mem', name, i);
    forall n | n != name ensures MemOf(mem', n) == MemOf(mem, n) {
      var k := MemIndex(mem, n);
      MemIndexIs(mem', n, if k == |mem| then |mem'| else k);
    }
  }

  /** What one more text does to the memtable. */
  lemma AppendedMem(mem: seq<MemEntry>, name: string, r: Record, tables: Tables, size: nat)
    requires MemNames(mem) && r.key < KEYS
    ensures var mem' := Appended(mem, name, Encode(r));
            && MemNames(mem') && (forall n :: n != name ==> MemOf(mem', n) == MemOf(mem, n))
            && (MemTexts(mem', size) <==> MemTexts(mem, size) && Stored(r, size))
            && (Stored(r, size) ==> Convert(MemOf(mem', name)) == Convert(MemOf(mem, name)) + [r])
            && (name in tables && Listed(mem, tables) ==> Listed(mem', tables))
  {
    hide Encode, ConvertRecord, AllEncoded, AllFit, Convert;
    var tkv := Encode(r);
    var mem', i := Appended(mem, name, tkv), MemIndex(mem, name);
    var tkvs := MemOf(mem, name);
    AppendedTexts(mem, name, tkv);
    EncodedIff(r);
    OneText(tkv, size);
    EncodedConcat(tkvs, [tkv]);
    FitConcat(tkvs, [tkv], size);
    NoText(size);
    assert mem'[i].tkvs == tkvs + [tkv];
    assert AllEncoded(mem'[i].tkvs) && AllFit(mem'[i].tkvs, size) <==> AllEncoded(tkvs) && AllFit(tkvs, size) && Stored(r, size);
    assert forall k :: 0 <= k < |mem| && k != i ==> mem'[k] == mem[k];
    if Stored(r, size) {
      EncodeAllProperties([r], size);
      assert EncodeAll([r]) == [tkv];
      ConvertConcat(tkvs, [tkv]);
    }
  }

  lemma OneText(tkv: string, size: nat)
    ensures AllEncoded([tkv]) <==> Encoded(tkv)
    ensures AllFit([tkv], size) <==> |tkv| + 1 <= size
  {
    hide Encoded;
    assert [tkv][1..] == [];
  }

  lemma NoText(size: nat)
    ensures AllEncoded([]) && AllFit([], size)
  {
  }

  lemma {:induction false} AllFree(bitmap: seq<bool>)
    requires forall i :: 0 <= i < |bitmap| ==> !bitmap[i]
    ensures FreeCount(bitmap) == |bitmap|
    decreases |bitmap|
  {
    if bitmap != [] { AllFree(bitmap[..|bitmap| - 1]); }
  }

  lemma TookUntouched(v0: Volume, v: Volume, v': Volume, a: seq<nat>, b: seq<nat>)
    requires Took(v0, v, a) && Took(v, v', b)
    ensures Untouched(v, v', a)
  {
    forall x | x in a ensures x !in b { assert v.Taken(x); }
  }

  lemma TableBlocks(tables: Tables, v: Volume, name: string)
    requires name in tables && Owned(tables, v)
    ensures NoDup(Concat(tables[name].parts)) && NoDup(Concat(TmpSeq(tables[name].tmps)))
    ensures forall b :: b in Concat(tables[name].parts) ==> v.Taken(b) && b !in Concat(TmpSeq(tables[name].tmps))
    ensures forall b :: b in Concat(TmpSeq(tables[name].tmps)) ==> v.Taken(b)
    ensures InRange(v, Concat(tables[name].parts)) && InRange(v, Concat(TmpSeq(tables[name].tmps)))
  {
    hide NoDup, Concat;
    var parts, tmps := Concat(tables[name].parts), Concat(TmpSeq(tables[name].tmps));
    NoDupConcat(parts, tmps);
    forall b | b in parts || b in tmps ensures v.Taken(b) { assert Uses(tables, name, b); }
    forall i | 0 <= i < |parts| ensures v.Block(parts[i]) { assert parts[i] in parts; }
    forall i | 0 <= i < |tmps| ensures v.Block(tmps[i]) { assert tmps[i] in tmps; }
  }

  lemma ReleasedStillTaken(v0: Volume, v: Volume, a: seq<nat>, b: seq<nat>)
    requires Released(v0, v, a) && InRange(v0, b) && (forall x :: x in a ==> x !in b) && forall x :: x in b ==> v0.Taken(x)
    ensures InRange(v, b) && forall x :: x in b ==> v.Taken(x)
  {
  }

  lemma CompactionStep(tables: Tables, name: string, v0: Volume, v1: Volume, v2: Volume, archives: seq<Archive>, destroy: bool,
                       size: nat)
    requires StoreOk(tables, v0, size) && name in tables
    requires archives != [] && AllArchivesOk(v2, archives, size) && Tidy(PartRecords(RoundsOfAll(v2, archives)))
    requires var t := tables[name];
             Released(v0, v1, Concat(t.parts) + if destroy then Concat(TmpSeq(t.tmps)) else [])
    requires Took(v1, v2, Concat(archives))
    ensures var t := tables[name];
            var t' := Table(archives, if destroy then map[] else t.tmps, None);
            && Step(tables, tables[name := t'], name, v0, v1, v2,
                    Concat(t.parts) + if destroy then Concat(TmpSeq(t.tmps)) else [], Concat(archives))
            && TableOk(t', v2, size)
            && RoundsOfAll(v2, TmpSeq(t'.tmps)) == if destroy then [] else RoundsOfAll(v0, TmpSeq(t.tmps))
  {
    hide ArchiveOk, Rounds, Contents, Tidy, Owned, NoDup;
    var t := tables[name];
    var parts, tmps := Concat(t.parts), Concat(TmpSeq(t.tmps));
    var t' := Table(archives, if destroy then map[] else t.tmps, None);
    TableBlocks(tables, v0, name);
    if destroy {
      assert TmpSeq(t'.tmps) == [];
      assert AllBlocks(t') == Concat(archives);
    } else {
      forall b | b in tmps ensures v1.Taken(b) && b !in Concat(archives) && v2.FileOf(b) == v0.FileOf(b) {
        assert b !in parts && v0.Block(b) && v1.Block(b);
      }
      NoDupConcat(Concat(archives), tmps);
      UntouchedArchives(v0, v2, TmpSeq(t.tmps), size);
    }
  }

  lemma {:induction false} ConcatPrefix(archives: seq<Archive>, i: nat)
    requires i < |archives|
    ensures var done := Concat(archives[..i]);
            |done| + |archives[i]| <= |Concat(archives)| &&
            Concat(archives)[..|done|] == done && Concat(archives)[|done|..|done| + |archives[i]|] == archives[i]
    decreases |archives|
  {
    var last := |archives| - 1;
    if i < last {
      ConcatPrefix(archives[..last], i);
      assert archives[..last][..i] == archives[..i];
    } else {
      assert archives[..last] == archives[..i];
    }
  }

  lemma NothingReleased(v: Volume)
    requires |v.bitmap| == |v.disk|
    ensures Concat([]) == [] && Released(v, v, [])
  {
  }

  lemma StillInRange(v0: Volume, v: Volume, all: seq<nat>, done: seq<nat>, next: seq<nat>)
    requires Released(v0, v, done) && InRange(v0, all)
    requires |done| + |next| <= |all| && all[|done|..|done| + |next|] == next
    ensures InRange(v, next)
  {
    forall i | 0 <= i < |next| ensures v.Block(next[i]) { assert next[i] == all[|done| + i]; }
  }

  /** While distinct blocks are released one archive after the other, the next ones are still taken. */
  lemma StillTaken(v0: Volume, v: Volume, all: seq<nat>, done: seq<nat>, next: seq<nat>)
    requires Released(v0, v, done) && NoDup(all) && forall b :: b in all ==> v0.Taken(b)
    requires |done| + |next| <= |all| && all[..|done|] == done && all[|done|..|done| + |next|] == next
    ensures NoDup(next) && forall b :: b in next ==> v.Taken(b)
  {
    forall i, j | 0 <= i < j < |next| ensures next[i] != next[j] {
      assert next[i] == all[|done| + i] && next[j] == all[|done| + j];
    }
    forall b | b in next ensures v.Taken(b) {
      var j :| 0 <= j < |next| && next[j] == b;
      assert b == all[|done| + j];
      forall i | 0 <= i < |done| ensures done[i] != b { assert done[i] == all[i]; }
      assert b in all;
    }
  }

  lemma WroteLast(v0: Volume, v: Volume, blocks: Archive, w: Writer)
    requires Wrote(v0, v, blocks, w)
    ensures |blocks| > 0 && v.Block(blocks[|blocks| - 1]) && |v.bitmap| == |v.disk|
  {
  }

  lemma WroteCount(v0: Volume, v: Volume, blocks: Archive, w: Writer)
    requires Wrote(v0, v, blocks, w)
    ensures |blocks| == |w.closed| + 1 && |v.bitmap| == |v.disk|
  {
  }
}
