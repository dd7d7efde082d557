/**
  The directories of the storage engine as values: every table with its partition archives, its
  numbered temporary archives and the archive under compaction, over a volume of blocks.
 */
module Store {
  import opened Options
  import opened Records
  import opened BlockCodec
  import opened ArchiveSearch
  import opened Lookups
  import opened Shelves
  import opened Volumes

  /** tmps maps the number n of A<n>.tmp to its archive; A1.tmpc only lists blocks that temporary archives own. */
  datatype Table = Table(parts: seq<Archive>, tmps: map<nat, Archive>, tmpc: Option<Archive>)

  type Tables = map<string, Table>

  /** The numbers of the temporary archives run from 1 without gaps, so counting up finds all of them. */
  ghost predicate Contiguous(tmps: map<nat, Archive>)
  {
    forall i: nat :: i in tmps <==> 1 <= i <= |tmps|
  }

  function TmpSeq(tmps: map<nat, Archive>): (s: seq<Archive>)
    ensures |s| == |tmps|
  {
    seq(|tmps|, i requires 0 <= i < |tmps| => if i + 1 in tmps then tmps[i + 1] else [])
  }

  function Concat(archives: seq<Archive>): seq<nat>
    decreases |archives|
  {
    if archives == [] then [] else Concat(archives[..|archives| - 1]) + archives[|archives| - 1]
  }

  /** The blocks that a table owns, with repetitions if there were any. */
  function AllBlocks(t: Table): seq<nat> { Concat(t.parts) + Concat(TmpSeq(t.tmps)) }

  lemma {:induction false} InConcat(archives: seq<Archive>, b: nat)
    ensures b in Concat(archives) <==> exists i :: 0 <= i < |archives| && b in archives[i]
    decreases |archives|
  {
    hide Concat;
    if archives == [] {
      NoArchives();
    } else {
      var last := |archives| - 1;
      var init := archives[..last];
      InConcat(init, b);
      ConcatLast(archives);
      if b in Concat(init) {
        var i :| 0 <= i < last && b in init[i];
        assert b in archives[i];
      }
      if i :| 0 <= i < |archives| && b in archives[i] {
        if i < last { assert b in init[i]; }
      }
    }
  }

  lemma NoArchives()
    ensures Concat([]) == []
  {
  }

  lemma ConcatLast(archives: seq<Archive>)
    requires archives != []
    ensures Concat(archives) == Concat(archives[..|archives| - 1]) + archives[|archives| - 1]
  {
  }

  lemma ConcatSnoc(archives: seq<Archive>, a: Archive)
    ensures Concat(archives + [a]) == Concat(archives) + a
  {
    assert (archives + [a])[..|archives|] == archives;
  }

  /** The file with number |tmps| + 1 is the first that does not exist. */
  lemma AddTmp(tmps: map<nat, Archive>, a: Archive)
    requires Contiguous(tmps)
    ensures |tmps| + 1 !in tmps
    ensures Contiguous(tmps[|tmps| + 1 := a])
    ensures TmpSeq(tmps[|tmps| + 1 := a]) == TmpSeq(tmps) + [a]
  {
    assert |tmps[|tmps| + 1 := a]| == |tmps| + 1;
  }

  // ---------- Ownership ----------

  predicate Uses(tables: Tables, name: string, b: nat) { name in tables && b in AllBlocks(tables[name]) }

  /** The bit of every block in use is set, and no block is used twice. */
  ghost predicate Owned(tables: Tables, v: Volume)
  {
    && (forall name :: name in tables ==> NoDup(AllBlocks(tables[name])))
    && (forall name, b :: Uses(tables, name, b) ==> v.Taken(b))
    && (forall name, name', b :: Uses(tables, name, b) && Uses(tables, name', b) ==> name == name')
  }

  /** A block whose bit is set although no table uses it. */
  ghost predicate Leaked(tables: Tables, v: Volume, b: nat) { v.Taken(b) && forall name :: !Uses(tables, name, b) }

  ghost predicate NoLeak(tables: Tables, v: Volume) { forall b :: !Leaked(tables, v, b) }

  ghost predicate SameLeaks(tables: Tables, v: Volume, tables': Tables, v': Volume)
  {
    forall b :: Leaked(tables', v', b) <==> Leaked(tables, v, b)
  }

  /** An archive that owns its blocks: a partition or a temporary archive of some table. */
  datatype Holder = InPart(table: string, part: nat) | InTmp(table: string, number: nat)

  predicate Holding(tables: Tables, h: Holder, b: nat)
  {
    h.table in tables &&
    match h
    case InPart(name, p) => p < |tables[name].parts| && b in tables[name].parts[p]
    case InTmp(name, n) => n in tables[name].tmps && b in tables[name].tmps[n]
  }

  function Position(h: Holder): nat
  {
    match h
    case InPart(_, p) => p
    case InTmp(_, n) => if n == 0 then 0 else n - 1
  }

  lemma {:induction false} ConcatOnce(archives: seq<Archive>, i: nat, j: nat, b: nat)
    requires NoDup(Concat(archives)) && i < j < |archives| && b in archives[i]
    ensures b !in archives[j]
    decreases |archives|
  {
    var last := |archives| - 1;
    NoDupConcat(Concat(archives[..last]), archives[last]);
    if j < last {
      ConcatOnce(archives[..last], i, j, b);
    } else {
      assert b in archives[..last][i];
      InConcat(archives[..last], b);
    }
  }

  lemma HoldingUses(tables: Tables, h: Holder, b: nat)
    requires h.table in tables && Contiguous(tables[h.table].tmps) && Holding(tables, h, b)
    ensures Uses(tables, h.table, b)
    ensures h.InPart? ==> b in Concat(tables[h.table].parts)
    ensures h.InTmp? ==> b in Concat(TmpSeq(tables[h.table].tmps))
  {
    var t := tables[h.table];
    if h.InPart? {
      InConcat(t.parts, b);
    } else {
      assert b in TmpSeq(t.tmps)[h.number - 1];
      InConcat(TmpSeq(t.tmps), b);
    }
  }

  /**
    A block belongs to a partition or temporary archive if and only if its bit is set and it has not leaked, and then
    to only one. Without leaks a bit is set if and only if exactly one archive owns the block.
   */
  lemma OneOwner(tables: Tables, v: Volume, b: nat)
    requires Owned(tables, v) && forall name :: name in tables ==> Contiguous(tables[name].tmps)
    ensures (exists h :: Holding(tables, h, b)) <==> v.Taken(b) && !Leaked(tables, v, b)
    ensures NoLeak(tables, v) ==> (v.Taken(b) <==> exists h :: Holding(tables, h, b))
    ensures forall h, h' :: Holding(tables, h, b) && Holding(tables, h', b) ==> h == h'
  {
    hide Concat, NoDup, Contiguous;
    if v.Taken(b) && !Leaked(tables, v, b) {
      var h := HolderOf(tables, v, b);
    }
    forall h | Holding(tables, h, b) ensures v.Taken(b) && !Leaked(tables, v, b) { HoldingUses(tables, h, b); }
    forall h, h' | Holding(tables, h, b) && Holding(tables, h', b) ensures h == h' {
      HoldingUses(tables, h, b);
      HoldingUses(tables, h', b);
      SameHolder(tables, h, h', b);
    }
  }

  lemma HolderOf(tables: Tables, v: Volume, b: nat) returns (h: Holder)
    requires v.Taken(b) && !Leaked(tables, v, b) && forall name :: name in tables ==> Contiguous(tables[name].tmps)
    ensures Holding(tables, h, b)
  {
    hide Concat, NoDup;
    var name :| Uses(tables, name, b);
    var t := tables[name];
    if b in Concat(t.parts) {
      InConcat(t.parts, b);
      var p :| 0 <= p < |t.parts| && b in t.parts[p];
      h := InPart(name, p);
    } else {
      InConcat(TmpSeq(t.tmps), b);
      var p :| 0 <= p < |TmpSeq(t.tmps)| && b in TmpSeq(t.tmps)[p];
      h := InTmp(name, p + 1);
    }
  }

  lemma SameHolder(tables: Tables, h: Holder, h': Holder, b: nat)
    requires h.table == h'.table && h.table in tables && Contiguous(tables[h.table].tmps) && NoDup(AllBlocks(tables[h.table]))
    requires Holding(tables, h, b) && Holding(tables, h', b)
    ensures h == h'
  {
    var t := tables[h.table];
    var tmps := TmpSeq(t.tmps);
    HoldingUses(tables, h, b);
    HoldingUses(tables, h', b);
    NoDupConcat(Concat(t.parts), Concat(tmps));
    assert h.InPart? == h'.InPart?;
    var archives := if h.InPart? then t.parts else tmps;
    if Position(h) < Position(h') {
      ConcatOnce(archives, Position(h), Position(h'), b);
    } else if Position(h') < Position(h) {
      ConcatOnce(archives, Position(h'), Position(h), b);
    }
  }

  // ---------- Tables ----------

  function RoundsOfAll(v: Volume, archives: seq<Archive>): (s: seq<seq<Round>>)
    ensures |s| == |archives|
  {
    seq(|archives|, i requires 0 <= i < |archives| => RoundsAt(v, archives[i]))
  }

  /** The table at the level of records. */
  function ShelfOf(t: Table, v: Volume, mem: seq<Record>): Shelf
  {
    Shelf(RoundsOfAll(v, t.parts), RoundsOfAll(v, TmpSeq(t.tmps)),
          if t.tmpc.Some? then Some(RoundsAt(v, t.tmpc.value)) else None, mem)
  }

  predicate AllArchivesOk(v: Volume, archives: seq<Archive>, size: nat)
  {
    forall i :: 0 <= i < |archives| ==> ArchiveOk(v, archives[i], size)
  }

  ghost predicate TableOk(t: Table, v: Volume, size: nat)
  {
    && t.parts != [] && Contiguous(t.tmps)
    && AllArchivesOk(v, t.parts, size) && AllArchivesOk(v, TmpSeq(t.tmps), size)
    && (t.tmpc.Some? ==> ArchiveOk(v, t.tmpc.value, size) && forall b :: b in t.tmpc.value ==> b in Concat(TmpSeq(t.tmps)))
    && Tidy(PartRecords(RoundsOfAll(v, t.parts)))
  }

  ghost predicate StoreOk(tables: Tables, v: Volume, size: nat)
  {
    VolumeOk(v) && Owned(tables, v) && forall name :: name in tables ==> TableOk(tables[name], v, size)
  }

  /** Blocks of the archive are the same on both volumes. */
  ghost predicate Untouched(v: Volume, v': Volume, blocks: seq<nat>)
  {
    |v.bitmap| == |v.disk| == |v'.bitmap| == |v'.disk| &&
    forall b :: b in blocks && v.Block(b) ==> v'.FileOf(b) == v.FileOf(b)
  }

  lemma UntouchedArchives(v: Volume, v': Volume, archives: seq<Archive>, size: nat)
    requires Untouched(v, v', Concat(archives))
    ensures RoundsOfAll(v', archives) == RoundsOfAll(v, archives)
    ensures AllArchivesOk(v, archives, size) ==> AllArchivesOk(v', archives, size)
  {
    hide ArchiveOk, Rounds, Contents;
    forall i | 0 <= i < |archives|
      ensures RoundsAt(v', archives[i]) == RoundsAt(v, archives[i])
      ensures ArchiveOk(v, archives[i], size) ==> ArchiveOk(v', archives[i], size)
    {
      forall j | 0 <= j < |archives[i]| && v.Block(archives[i][j])
        ensures v'.FileOf(archives[i][j]) == v.FileOf(archives[i][j])
      {
        assert archives[i][j] in archives[i];
        InConcat(archives, archives[i][j]);
      }
      SameArchive(v, v', archives[i], size);
    }
  }

  /** A table whose blocks are untouched reads the same and stays in order. */
  lemma UntouchedTable(t: Table, v: Volume, v': Volume, size: nat, mem: seq<Record>)
    requires TableOk(t, v, size) && Untouched(v, v', AllBlocks(t))
    ensures TableOk(t, v', size) && ShelfOf(t, v', mem) == ShelfOf(t, v, mem)
  {
    hide ArchiveOk, Rounds, Contents, Tidy, Concat;
    UntouchedArchives(v, v', t.parts, size);
    UntouchedArchives(v, v', TmpSeq(t.tmps), size);
    if t.tmpc.Some? { SameArchive(v, v', t.tmpc.value, size); }
  }
}
