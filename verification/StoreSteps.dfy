/** What the steps of the storage engine do to ownership and to the tables they do not name. */
module StoreSteps {
  import opened Options
  import opened Records
  import opened BlockCodec
  import opened ArchiveSearch
  import opened Lookups
  import opened Shelves
  import opened Volumes
  import opened Store

  /** Only the named table may differ. */
  ghost predicate OnlyChanges(tables: Tables, tables': Tables, name: string)
  {
    forall n :: n != name ==> (n in tables' <==> n in tables) && (n in tables ==> tables'[n] == tables[n])
  }

  /**
    The shape of every step: from v to v1 some blocks of the named table are released, from v1 to v2 some
    free blocks are taken, and afterwards the table uses what it took and what it did not release.
   */
  ghost predicate Step(tables: Tables, tables': Tables, name: string, v: Volume, v1: Volume, v2: Volume,
                       released: seq<nat>, taken: seq<nat>)
  {
    && OnlyChanges(tables, tables', name)
    && Released(v, v1, released) && Took(v1, v2, taken)
    && (forall b :: b in released ==> Uses(tables, name, b))
    && (name in tables' ==> NoDup(AllBlocks(tables'[name])))
    && (forall b :: Uses(tables', name, b) <==> b in taken || (Uses(tables, name, b) && b !in released))
  }

  lemma StepKeepsOwnership(tables: Tables, tables': Tables, name: string, v: Volume, v1: Volume, v2: Volume,
                           released: seq<nat>, taken: seq<nat>)
    requires Owned(tables, v) && Step(tables, tables', name, v, v1, v2, released, taken)
    ensures Owned(tables', v2) && SameLeaks(tables, v, tables', v2)
  {
    hide AllBlocks, NoDup;
    StepKeepsLeaks(tables, tables', name, v, v1, v2, released, taken);
    forall n, b | Uses(tables', n, b) ensures v2.Taken(b) {
      if n == name {
        if b !in taken { assert v.Taken(b) && v1.Taken(b); }
      } else {
        assert Uses(tables, n, b);
        OtherBlock(tables, tables', name, v, v1, v2, released, taken, n, b);
      }
    }
    forall n, n', b | Uses(tables', n, b) && Uses(tables', n', b) ensures n == n' {
      if n != name { OtherBlock(tables, tables', name, v, v1, v2, released, taken, n, b); }
      if n' != name { OtherBlock(tables, tables', name, v, v1, v2, released, taken, n', b); }
    }
    forall n | n in tables' ensures NoDup(AllBlocks(tables'[n])) {
      if n != name { assert n in tables; }
    }
  }

  /** A step neither leaks a block nor recovers one. */
  lemma StepKeepsLeaks(tables: Tables, tables': Tables, name: string, v: Volume, v1: Volume, v2: Volume,
                       released: seq<nat>, taken: seq<nat>)
    requires Owned(tables, v) && Step(tables, tables', name, v, v1, v2, released, taken)
    ensures SameLeaks(tables, v, tables', v2)
  {
    hide AllBlocks, NoDup;
    forall b ensures Leaked(tables', v2, b) <==> Leaked(tables, v, b) {
      if b in taken {
        assert Uses(tables', name, b) && v1.Block(b) && !v1.Taken(b);
        if b in released { assert Uses(tables, name, b); } else { assert !v.Taken(b); }
      } else if b in released {
        assert Uses(tables, name, b) && v.Taken(b);
        assert !v1.Taken(b) && !v2.Taken(b);
      } else {
        forall n ensures Uses(tables', n, b) <==> Uses(tables, n, b) {}
        assert v2.Taken(b) <==> v.Taken(b);
      }
    }
  }

  lemma LeaksTwice(tables: Tables, v: Volume, tables1: Tables, v1: Volume, tables2: Tables, v2: Volume)
    requires SameLeaks(tables, v, tables1, v1) && SameLeaks(tables1, v1, tables2, v2)
    ensures SameLeaks(tables, v, tables2, v2)
  {
    hide Leaked;
  }

  lemma LeaksNone(tables: Tables, v: Volume, tables': Tables, v': Volume)
    requires SameLeaks(tables, v, tables', v')
    ensures NoLeak(tables', v') <==> NoLeak(tables, v)
  {
    hide Leaked;
  }

  /** Blocks that are taken and recorded in no archive: every table reads as before, and exactly those blocks have leaked. */
  lemma TakenForNothing(tables: Tables, v: Volume, v': Volume, blocks: seq<nat>, size: nat)
    requires StoreOk(tables, v, size) && Took(v, v', blocks)
    ensures StoreOk(tables, v', size)
    ensures forall b :: Leaked(tables, v', b) <==> Leaked(tables, v, b) || b in blocks
    ensures forall n, mem :: n in tables ==> ShelfOf(tables[n], v', mem) == ShelfOf(tables[n], v, mem)
  {
    hide AllBlocks, NoDup, TableOk, ShelfOf;
    forall n, b | Uses(tables, n, b) ensures v'.Taken(b) && b !in blocks && v'.Block(b) && v'.FileOf(b) == v.FileOf(b) {
      assert v.Taken(b);
      assert b !in blocks;
    }
    TookKeepsOk(v, v', blocks);
    forall n | n in tables ensures TableOk(tables[n], v', size) { UnusedTable(tables, v, v', blocks, n, size, []); }
    forall n, mem | n in tables ensures ShelfOf(tables[n], v', mem) == ShelfOf(tables[n], v, mem) {
      UnusedTable(tables, v, v', blocks, n, size, mem);
    }
    forall b ensures Leaked(tables, v', b) <==> Leaked(tables, v, b) || b in blocks {
      if b in blocks {
        assert v'.Taken(b);
      } else {
        assert v'.Taken(b) <==> v.Taken(b);
      }
    }
  }

  lemma UnusedTable(tables: Tables, v: Volume, v': Volume, blocks: seq<nat>, n: string, size: nat, mem: seq<Record>)
    requires Owned(tables, v) && n in tables && TableOk(tables[n], v, size) && Took(v, v', blocks)
    ensures TableOk(tables[n], v', size) && ShelfOf(tables[n], v', mem) == ShelfOf(tables[n], v, mem)
  {
    hide AllBlocks, NoDup, TableOk, ShelfOf;
    forall b | b in AllBlocks(tables[n]) && v.Block(b) ensures v'.FileOf(b) == v.FileOf(b) {
      assert Uses(tables, n, b) && v.Taken(b);
    }
    UntouchedTable(tables[n], v, v', size, mem);
  }

  /** Blocks of other tables take no part in a step. */
  lemma OtherBlock(tables: Tables, tables': Tables, name: string, v: Volume, v1: Volume, v2: Volume,
                   released: seq<nat>, taken: seq<nat>, n: string, b: nat)
    requires Owned(tables, v) && Step(tables, tables', name, v, v1, v2, released, taken)
    requires n != name && Uses(tables', n, b)
    ensures Uses(tables, n, b) && b !in released && b !in taken && v2.Taken(b) && v2.FileOf(b) == v.FileOf(b)
    ensures !Uses(tables', name, b)
  {
    hide AllBlocks, NoDup;
    assert n in tables && tables'[n] == tables[n];
    assert Uses(tables, n, b);
    assert v.Taken(b);
    assert !Uses(tables, name, b);
    assert b !in released;
    assert v1.Taken(b) && v1.Block(b);
    assert b !in taken;
  }

  lemma OtherTable(tables: Tables, tables': Tables, name: string, v: Volume, v1: Volume, v2: Volume,
                   released: seq<nat>, taken: seq<nat>, n: string, size: nat, mem: seq<Record>)
    requires Owned(tables, v) && Step(tables, tables', name, v, v1, v2, released, taken)
    requires n != name && n in tables && TableOk(tables[n], v, size)
    ensures n in tables' && TableOk(tables'[n], v2, size)
    ensures ShelfOf(tables'[n], v2, mem) == ShelfOf(tables[n], v, mem)
  {
    hide AllBlocks, TableOk, ShelfOf;
    forall b | b in AllBlocks(tables[n]) && v.Block(b) ensures v2.FileOf(b) == v.FileOf(b) {
      assert Uses(tables', n, b);
      OtherBlock(tables, tables', name, v, v1, v2, released, taken, n, b);
    }
    UntouchedTable(tables[n], v, v2, size, mem);
  }

  /** Other tables read the same after a step. */
  ghost predicate OthersSame(tables: Tables, tables': Tables, name: string, v: Volume, v': Volume)
  {
    && OnlyChanges(tables, tables', name)
    && forall n, mem :: n != name && n in tables ==> ShelfOf(tables'[n], v', mem) == ShelfOf(tables[n], v, mem)
  }

  /** A step leaves the store in order if it leaves its own table in order. */
  lemma StepKeepsStore(tables: Tables, tables': Tables, name: string, v: Volume, v1: Volume, v2: Volume,
                       released: seq<nat>, taken: seq<nat>, size: nat)
    requires StoreOk(tables, v, size) && Step(tables, tables', name, v, v1, v2, released, taken)
    requires name in tables' ==> TableOk(tables'[name], v2, size)
    ensures StoreOk(tables', v2, size) && OthersSame(tables, tables', name, v, v2) && SameLeaks(tables, v, tables', v2)
  {
    hide TableOk, ShelfOf, AllBlocks, NoDup, Uses, Leaked;
    StepKeepsOwnership(tables, tables', name, v, v1, v2, released, taken);
    ReleasedKeepsOk(v, v1, released);
    TookKeepsOk(v1, v2, taken);
    forall n | n in tables' ensures TableOk(tables'[n], v2, size) {
      if n != name { OtherTable(tables, tables', name, v, v1, v2, released, taken, n, size, []); }
    }
    forall n, mem | n != name && n in tables ensures ShelfOf(tables'[n], v2, mem) == ShelfOf(tables[n], v, mem) {
      OtherTable(tables, tables', name, v, v1, v2, released, taken, n, size, mem);
    }
  }

  // ---------- Records that go through a merge ----------

  lemma {:induction false} MergeAllStored(parts: seq<seq<Record>>, rs: seq<Record>, size: nat)
    requires parts != [] && AllStored(rs, size)
    requires forall p :: 0 <= p < |parts| ==> AllStored(parts[p], size)
    ensures forall p :: 0 <= p < |parts| ==> AllStored(MergeAll(parts, rs)[p], size)
    decreases |rs|
  {
    hide Stored;
    if rs != [] {
      var init, r := rs[..|rs| - 1], rs[|rs| - 1];
      MergeAllStored(parts, init, size);
      var part := MergeAll(parts, init)[r.key % |parts|];
      assert AllStored(Merge(part, r), size) by {
        var i := IndexOf(part, r.key);
        assert Stored(r, size);
      }
    }
  }

  /** The blocks needed to write partitions i and up. */
  function BlocksNeeded(parts: seq<seq<Record>>, i: nat, capacity: nat): nat
    requires capacity >= 2 && i <= |parts|
    decreases |parts| - i
  {
    if i == |parts| then 0 else |Layout(EncodeAll(parts[i]), capacity)| + BlocksNeeded(parts, i + 1, capacity)
  }

  // ---------- The writer on a volume ----------

  /** The blocks taken since v0 hold what the writer has produced. */
  ghost predicate Wrote(v0: Volume, v: Volume, blocks: Archive, w: Writer)
  {
    && Took(v0, v, blocks) && |blocks| == |w.closed| + 1
    && forall i :: 0 <= i < |blocks| ==> v.Block(blocks[i]) && v.FileOf(blocks[i]) == File(w.All()[i])
  }

  lemma WroteCell(v0: Volume, v: Volume, v': Volume, blocks: Archive, w: Writer, s: string, space: nat)
    requires Wrote(v0, v, blocks, w)
    requires var b := blocks[|blocks| - 1];
             v' == Volume(v.bitmap, v.disk[b - 1 := v.disk[b - 1] + s + [NUL]])
    ensures Wrote(v0, v', blocks, Writer(w.closed, w.cur + [s], space))
  {
    hide File;
    var last := |blocks| - 1;
    var w' := Writer(w.closed, w.cur + [s], space);
    FileAppend(w.cur, s);
    forall i | 0 <= i < |blocks| ensures v'.Block(blocks[i]) && v'.FileOf(blocks[i]) == File(w'.All()[i]) {
      assert v.FileOf(blocks[i]) == File(w.All()[i]);
      if i < last { assert blocks[i] != blocks[last] && w'.All()[i] == w.All()[i]; }
    }
    assert Took(v0, v', blocks) by {
      forall b | v0.Block(b) && b !in blocks ensures v'.Taken(b) == v0.Taken(b) && v'.FileOf(b) == v0.FileOf(b) {
        assert b != blocks[last];
      }
      forall b | b in blocks ensures v'.Taken(b) { assert v.Taken(b); }
    }
  }

  lemma WroteBlock(v0: Volume, v: Volume, v': Volume, blocks: Archive, w: Writer, b: nat, capacity: nat)
    requires Wrote(v0, v, blocks, w) && Took(v, v', [b]) && v'.Block(b) && v'.FileOf(b) == ""
    ensures Wrote(v0, v', blocks + [b], Writer(w.closed + [w.cur], [], capacity))
  {
    hide File, NoDup;
    TookMore(v0, v, v', blocks, [b]);
    var w' := Writer(w.closed + [w.cur], [], capacity);
    NoFile();
    forall i | 0 <= i < |blocks + [b]|
      ensures v'.Block((blocks + [b])[i]) && v'.FileOf((blocks + [b])[i]) == File(w'.All()[i])
    {
      if i < |blocks| {
        assert v.FileOf(blocks[i]) == File(w.All()[i]) && w'.All()[i] == w.All()[i];
        assert blocks[i] in blocks && v.Taken(blocks[i]) && blocks[i] !in [b];
      }
    }
  }

  lemma NoFile()
    ensures File([]) == ""
  {
  }

  lemma {:induction false} PutGrows(w: Writer, s: string, capacity: nat)
    requires w.space >= 2 && capacity >= 2
    ensures |Put(w, s, capacity).closed| >= |w.closed|
    decreases |s|
  {
    if |s| > w.space {
      PutGrows(Writer(w.closed + [w.cur + [s[..w.space - 1] + [LF]]], [], capacity), s[w.space - 1..], capacity);
    }
  }

  lemma {:induction false} PutAllGrows(w: Writer, texts: seq<string>, capacity: nat)
    requires w.space >= 2 && capacity >= 2
    ensures |PutAll(w, texts, capacity).closed| >= |w.closed|
    decreases |texts|
  {
    if texts != [] {
      PutGrows(w, texts[0], capacity);
      PutAllGrows(Roll(Put(w, texts[0], capacity), capacity), texts[1..], capacity);
    }
  }
}
