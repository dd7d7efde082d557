/**
  The block device as values: a bitmap and one file per block. Block numbers start at 1, so block b is
  governed by bit b - 1. Archives are lists of block numbers.
 */
module Volumes {
  import opened Options
  import opened Records
  import opened BlockCodec
  import opened ArchiveSearch

  type Archive = seq<nat>

  datatype Volume = Volume(bitmap: seq<bool>, disk: seq<string>) {
    predicate Block(b: nat) { 1 <= b <= |bitmap| == |disk| }
    predicate Taken(b: nat) { Block(b) && bitmap[b - 1] }
    function FileOf(b: nat): string
      requires Block(b)
    {
      disk[b - 1]
    }
  }

  /** A block that nobody owns has an empty file. */
  ghost predicate VolumeOk(v: Volume)
  {
    |v.bitmap| == |v.disk| && forall b :: v.Block(b) && !v.Taken(b) ==> v.FileOf(b) == ""
  }

  // ---------- Counting free blocks ----------

  function FreeCount(bitmap: seq<bool>): nat
    decreases |bitmap|
  {
    if bitmap == [] then 0 else FreeCount(bitmap[..|bitmap| - 1]) + (if bitmap[|bitmap| - 1] then 0 else 1)
  }

  lemma {:induction false} FreeCountSet(bitmap: seq<bool>, i: nat)
    requires i < |bitmap| && !bitmap[i]
    ensures FreeCount(bitmap[i := true]) == FreeCount(bitmap) - 1
    decreases |bitmap|
  {
    var last := |bitmap| - 1;
    if i == last {
      assert bitmap[i := true][..last] == bitmap[..last];
    } else {
      assert bitmap[i := true][..last] == bitmap[..last][i := true];
      FreeCountSet(bitmap[..last], i);
    }
  }

  lemma {:induction false} FreeCountClear(bitmap: seq<bool>, i: nat)
    requires i < |bitmap| && bitmap[i]
    ensures FreeCount(bitmap[i := false]) == FreeCount(bitmap) + 1
  {
    FreeCountSet(bitmap[i := false], i);
    assert bitmap[i := false][i := true] == bitmap;
  }

  lemma {:induction false} NoneFree(bitmap: seq<bool>)
    requires forall i :: 0 <= i < |bitmap| ==> bitmap[i]
    ensures FreeCount(bitmap) == 0
    decreases |bitmap|
  {
    if bitmap != [] { NoneFree(bitmap[..|bitmap| - 1]); }
  }

  lemma {:induction false} FreeCountBound(bitmap: seq<bool>)
    ensures FreeCount(bitmap) <= |bitmap|
    decreases |bitmap|
  {
    if bitmap != [] { FreeCountBound(bitmap[..|bitmap| - 1]); }
  }

  /** find_free_block: takes the lowest clear bit, or answers -1. */
  method FindFreeBlock(bitmap: seq<bool>) returns (bitmap': seq<bool>, block: int)
    ensures block == -1 <==> FreeCount(bitmap) == 0
    ensures block == -1 ==> bitmap' == bitmap
    ensures block != -1 ==> 0 <= block < |bitmap| && !bitmap[block] && bitmap' == bitmap[block := true]
    ensures block != -1 ==> forall j :: 0 <= j < block ==> bitmap[j]
    ensures block != -1 ==> FreeCount(bitmap') == FreeCount(bitmap) - 1
  {
    for i := 0 to |bitmap|
      invariant forall j :: 0 <= j < i ==> bitmap[j]
    {
      if !bitmap[i] {
        FreeCountSet(bitmap, i);
        return bitmap[i := true], i;
      }
    }
    NoneFree(bitmap);
    return bitmap, -1;
  }

  // ---------- Taking and releasing blocks ----------

  lemma NoDupConcat(a: seq<nat>, b: seq<nat>)
    ensures NoDup(a + b) <==> NoDup(a) && NoDup(b) && forall x :: x in a ==> x !in b
  {
    if NoDup(a + b) {
      forall i, j | 0 <= i < j < |a| ensures a[i] != a[j] { assert (a + b)[i] == a[i] && (a + b)[j] == a[j]; }
      forall i, j | 0 <= i < j < |b| ensures b[i] != b[j] { assert (a + b)[|a| + i] == b[i] && (a + b)[|a| + j] == b[j]; }
      forall i, j | 0 <= i < |a| && 0 <= j < |b| ensures a[i] != b[j] {
        assert (a + b)[i] == a[i] && (a + b)[|a| + j] == b[j];
      }
    }
    if NoDup(a) && NoDup(b) && forall x :: x in a ==> x !in b {
      forall i, j | 0 <= i < j < |a + b| ensures (a + b)[i] != (a + b)[j] {
        if i < |a| <= j { assert a[i] in a && b[j - |a|] in b; }
      }
    }
  }

  /** From v to v' exactly the given blocks, all free before, have been taken; nothing else has changed. */
  ghost predicate Took(v: Volume, v': Volume, blocks: seq<nat>)
  {
    && |v.bitmap| == |v.disk| == |v'.bitmap| == |v'.disk| && NoDup(blocks)
    && (forall b :: b in blocks ==> v.Block(b) && !v.Taken(b) && v'.Taken(b))
    && (forall b :: v.Block(b) && b !in blocks ==> v'.Taken(b) == v.Taken(b) && v'.FileOf(b) == v.FileOf(b))
  }

  lemma TookNothing(v: Volume)
    requires |v.bitmap| == |v.disk|
    ensures Took(v, v, [])
  {
  }

  lemma TookMore(v: Volume, v': Volume, v'': Volume, a: seq<nat>, b: seq<nat>)
    requires Took(v, v', a) && Took(v', v'', b)
    ensures Took(v, v'', a + b)
  {
    forall x | x in a ensures x !in b { assert v'.Taken(x); }
    NoDupConcat(a, b);
    forall x | x in a + b ensures v.Block(x) && !v.Taken(x) && v''.Taken(x) {
      if x in a {
        assert v'.Block(x) && x !in b;
      } else {
        assert x in b && x !in a && v.Block(x);
      }
    }
    forall x | v.Block(x) && x !in a + b ensures v''.Taken(x) == v.Taken(x) && v''.FileOf(x) == v.FileOf(x) {
      assert x !in a && x !in b && v'.Block(x);
    }
  }

  /** From v to v' exactly the given blocks have been released and their files emptied. */
  ghost predicate Released(v: Volume, v': Volume, blocks: seq<nat>)
  {
    && |v.bitmap| == |v.disk| == |v'.bitmap| == |v'.disk|
    && (forall b :: b in blocks ==> v.Block(b) && !v'.Taken(b) && v'.FileOf(b) == "")
    && (forall b :: v.Block(b) && b !in blocks ==> v'.Taken(b) == v.Taken(b) && v'.FileOf(b) == v.FileOf(b))
  }

  lemma ReleasedMore(v: Volume, v': Volume, v'': Volume, a: seq<nat>, b: seq<nat>)
    requires Released(v, v', a) && Released(v', v'', b)
    ensures Released(v, v'', a + b)
  {
    forall x | x in a + b ensures v.Block(x) && !v''.Taken(x) && v''.FileOf(x) == "" {
      if x !in b { assert x in a && v'.Block(x); } else { assert v'.Block(x); }
    }
    forall x | v.Block(x) && x !in a + b ensures v''.Taken(x) == v.Taken(x) && v''.FileOf(x) == v.FileOf(x) {
      assert x !in a && x !in b && v'.Block(x);
    }
  }

  lemma ReleasedKeepsOk(v: Volume, v': Volume, blocks: seq<nat>)
    requires VolumeOk(v) && Released(v, v', blocks)
    ensures VolumeOk(v')
  {
    forall b | v'.Block(b) && !v'.Taken(b) ensures v'.FileOf(b) == "" {
      assert v.Block(b);
      if b !in blocks { assert !v.Taken(b); }
    }
  }

  lemma TookKeepsOk(v: Volume, v': Volume, blocks: seq<nat>)
    requires VolumeOk(v) && Took(v, v', blocks)
    ensures VolumeOk(v')
  {
    forall b | v'.Block(b) && !v'.Taken(b) ensures v'.FileOf(b) == "" {
      assert v.Block(b);
    }
  }

  // ---------- Archives on a volume ----------

  /** Every text fits the readers' buffer. */
  predicate AllFit(texts: seq<string>, size: nat)
  {
    texts == [] || (|texts[0]| + 1 <= size && AllFit(texts[1..], size))
  }

  lemma {:induction false} FitAt(texts: seq<string>, size: nat, i: nat)
    requires AllFit(texts, size) && i < |texts|
    ensures |texts[i]| + 1 <= size
  {
    if i > 0 { FitAt(texts[1..], size, i - 1); }
  }

  lemma {:induction false} FitAll(texts: seq<string>, size: nat)
    requires forall i :: 0 <= i < |texts| ==> |texts[i]| + 1 <= size
    ensures AllFit(texts, size)
  {
    if texts != [] { FitAll(texts[1..], size); }
  }

  lemma {:induction false} FitConcat(a: seq<string>, b: seq<string>, size: nat)
    ensures AllFit(a + b, size) <==> AllFit(a, size) && AllFit(b, size)
  {
    if a == [] {
      assert a + b == b;
    } else {
      assert (a + b)[1..] == a[1..] + b;
      FitConcat(a[1..], b, size);
    }
  }

  /** A record that the engine keeps: storable, and with a text that fits. */
  predicate Stored(r: Record, size: nat) { Storable(r) && |Encode(r)| + 1 <= size }

  predicate AllStored(rs: seq<Record>, size: nat) { forall i :: 0 <= i < |rs| ==> Stored(rs[i], size) }

  lemma EncodeAllProperties(rs: seq<Record>, size: nat)
    requires AllStored(rs, size)
    ensures AllEncoded(EncodeAll(rs)) && AllFit(EncodeAll(rs), size) && Convert(EncodeAll(rs)) == rs
    ensures forall i :: 0 <= i < |rs| ==> Text(EncodeAll(rs)[i], size)
  {
    hide Encode, ConvertRecord, AllEncoded, AllFit;
    var texts := EncodeAll(rs);
    forall i | 0 <= i < |rs| ensures Text(texts[i], size) && Encoded(texts[i]) && ConvertRecord(texts[i]) == rs[i] {
      EncodeProperties(rs[i]);
    }
    EncodedAll(texts);
    FitAll(texts, size);
  }

  /** Texts of storable records are what their records print as. */
  lemma EncodeConvert(texts: seq<string>)
    requires AllEncoded(texts)
    ensures EncodeAll(Convert(texts)) == texts
  {
    hide Encode, ConvertRecord, AllEncoded;
    forall i | 0 <= i < |texts| ensures Encode(Convert(texts)[i]) == texts[i] { EncodedAt(texts, i); }
  }

  lemma TextsAreStored(texts: seq<string>, size: nat)
    requires AllEncoded(texts) && AllFit(texts, size)
    ensures AllStored(Convert(texts), size)
    ensures forall i :: 0 <= i < |texts| ==> Text(texts[i], size)
  {
    hide Encode, ConvertRecord, AllEncoded, AllFit;
    forall i | 0 <= i < |texts| ensures Stored(Convert(texts)[i], size) && Text(texts[i], size) {
      EncodedAt(texts, i);
      FitAt(texts, size, i);
      EncodeProperties(ConvertRecord(texts[i]));
    }
  }

  predicate InRange(v: Volume, blocks: Archive) { forall i :: 0 <= i < |blocks| ==> v.Block(blocks[i]) }

  /** The block files of an archive, in order. */
  function Files(v: Volume, blocks: Archive): (fs: seq<string>)
    requires InRange(v, blocks)
    ensures |fs| == |blocks|
  {
    seq(|blocks|, i requires 0 <= i < |blocks| => v.FileOf(blocks[i]))
  }

  function Contents(v: Volume, blocks: Archive): (content: Content)
    ensures |content| == |blocks|
  {
    seq(|blocks|, i requires 0 <= i < |blocks| => if v.Block(blocks[i]) then Cells(v.FileOf(blocks[i])) else [])
  }

  /** The archive can be read, and every text in it is that of a storable record. */
  predicate ArchiveOk(v: Volume, blocks: Archive, size: nat)
  {
    && InRange(v, blocks)
    && (forall i :: 0 <= i < |blocks| ==> v.FileOf(blocks[i]) == File(Contents(v, blocks)[i]))
    && WellFormed(Contents(v, blocks), size)
    && AllEncoded(Glue(Flat(Contents(v, blocks)))) && AllFit(Glue(Flat(Contents(v, blocks))), size)
  }

  function RoundsAt(v: Volume, blocks: Archive): seq<Round> { Rounds(Contents(v, blocks)) }

  /** An archive whose blocks have not changed reads the same. */
  lemma SameArchive(v: Volume, v': Volume, blocks: Archive, size: nat)
    requires |v.bitmap| == |v.disk| == |v'.bitmap| == |v'.disk|
    requires forall i :: 0 <= i < |blocks| && v.Block(blocks[i]) ==> v'.FileOf(blocks[i]) == v.FileOf(blocks[i])
    ensures Contents(v', blocks) == Contents(v, blocks)
    ensures ArchiveOk(v', blocks, size) <==> ArchiveOk(v, blocks, size)
  {
    hide Cells, File, WellFormed, AllEncoded, AllFit, Glue, Flat;
    assert Contents(v', blocks) == Contents(v, blocks);
  }

  lemma ContentsConcat(v: Volume, a: Archive, b: Archive)
    ensures Contents(v, a + b) == Contents(v, a) + Contents(v, b)
  {
    hide Cells;
  }

  lemma ArchiveRecords(v: Volume, blocks: Archive, size: nat)
    requires ArchiveOk(v, blocks, size)
    ensures AllRecords(RoundsAt(v, blocks)) == Convert(Glue(Flat(Contents(v, blocks))))
    ensures AllStored(AllRecords(RoundsAt(v, blocks)), size)
  {
    hide AllEncoded, AllFit, Glue, Flat, Rounds, AllRecords, Convert;
    RoundsMeaning(Contents(v, blocks), size);
    TextsAreStored(Glue(Flat(Contents(v, blocks))), size);
  }

  /** The blocks of two archives, one after the other, form an archive with the records of both. */
  lemma ArchiveConcat(v: Volume, a: Archive, b: Archive, size: nat)
    requires ArchiveOk(v, a, size) && ArchiveOk(v, b, size)
    ensures ArchiveOk(v, a + b, size)
    ensures AllRecords(RoundsAt(v, a + b)) == AllRecords(RoundsAt(v, a)) + AllRecords(RoundsAt(v, b))
  {
    hide Cells, File, WellFormed, AllEncoded, AllFit, Glue, Flat, Rounds, AllRecords;
    var ca, cb := Contents(v, a), Contents(v, b);
    ContentsConcat(v, a, b);
    DecodeConcat(ca, cb, size);
    EncodedConcat(Glue(Flat(ca)), Glue(Flat(cb)));
    FitConcat(Glue(Flat(ca)), Glue(Flat(cb)), size);
    ConvertConcat(Glue(Flat(ca)), Glue(Flat(cb)));
    RoundsMeaning(ca, size);
    RoundsMeaning(cb, size);
    RoundsMeaning(ca + cb, size);
    forall i | 0 <= i < |a + b| ensures v.Block((a + b)[i]) && v.FileOf((a + b)[i]) == File(Contents(v, a + b)[i]) {
      if i < |a| { assert (a + b)[i] == a[i]; } else { assert (a + b)[i] == b[i - |a|]; }
    }
  }

  /** Blocks that hold the layout of a list of texts form an archive of exactly those texts. */
  lemma WrittenArchive(v: Volume, blocks: Archive, texts: seq<string>, capacity: nat, size: nat)
    requires capacity >= 2 && InRange(v, blocks)
    requires AllEncoded(texts) && AllFit(texts, size)
    requires |blocks| == |Layout(texts, capacity)|
    requires forall i :: 0 <= i < |blocks| ==> v.FileOf(blocks[i]) == File(Layout(texts, capacity)[i])
    ensures ArchiveOk(v, blocks, size)
    ensures AllRecords(RoundsAt(v, blocks)) == Convert(texts) && RoundsAt(v, blocks) == Rounds(Layout(texts, capacity))
  {
    hide AllEncoded, AllFit, Glue, Flat, Layout, Rounds, AllRecords, Convert;
    var layout := Layout(texts, capacity);
    TextsAreStored(texts, size);
    RoundTrip(texts, capacity, size);
    forall i | 0 <= i < |blocks| ensures Contents(v, blocks)[i] == layout[i] {
      assert BlockOk(layout[i], size);
      CellsOfFile(layout[i]);
    }
    assert Contents(v, blocks) == layout;
    RoundsMeaning(layout, size);
  }

  lemma EmptyArchive(v: Volume, b: nat, size: nat)
    requires v.Block(b) && v.FileOf(b) == ""
    ensures ArchiveOk(v, [b], size) && AllRecords(RoundsAt(v, [b])) == []
  {
    var content := Contents(v, [b]);
    assert content == [[]];
    assert Flat(content) == [] by { assert content[1..] == []; }
    RoundsMeaning(content, size);
  }
}
