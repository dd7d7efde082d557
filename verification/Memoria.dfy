/** The cache process: segments and pages over the main memory. */
module Memorias {
  import opened Options
  import opened Records
  import opened Pages
  import opened MainMemories

  /** A dirty record as the journal sends it. */
  datatype Dirty = Dirty(table: string, record: Record)

  /** The record that waits for a journal to make room. */
  datatype Register = Register(table: string, record: Record, modified: bool)

  datatype Outcome = Refused | Cached | Journaling

  /** Comparing the key field of a frame compares keys. */
  lemma KeyField(text: string, key: nat)
    requires Filled(text)
    ensures |Tokens(text)| == 3 && (Tokens(text)[1] == Print(key) <==> ConvertRecord(text).key == key)
    ensures Parse(Tokens(text)[0]) == ConvertRecord(text).ts
  {
    EncodeProperties(ConvertRecord(text));
    if Tokens(text)[1] == Print(key) { PrintInjective(ConvertRecord(text).key, key); }
  }

  lemma EncodeFilled(r: Record)
    requires Readable(r)
    ensures Filled(Encode(r)) && ConvertRecord(Encode(r)) == r && NUL !in Encode(r) && Encode(r) != NULL
  {
    EncodeProperties(r);
    FilledIsNotNull(Encode(r));
  }

  lemma FitsHasRoom(r: Record, size: nat)
    requires Readable(r) && |Encode(r)| + 1 <= size
    ensures r.key < KEYS && NUL !in r.value && |Encode(r)| + 1 <= size
  {
  }

  /** A frame holds the text of a record that can be read back exactly if the record is one. The text has no NUL if the value has none. */
  lemma FilledIff(r: Record)
    requires r.key < KEYS && NUL !in r.value
    ensures Filled(Encode(r)) <==> Readable(r)
    ensures NUL !in Encode(r) && (Readable(r) ==> ConvertRecord(Encode(r)) == r && Encode(r) != NULL)
  {
    if Readable(r) { EncodeFilled(r); }
    if Filled(Encode(r)) { EncodeInjective(r, ConvertRecord(Encode(r))); }
  }

  /** A page whose frame cannot be read spoils the cache. */
  lemma AddSpoils(c: Cache, i: nat, name: string, frame: nat, text: string, modified: bool)
    requires i <= |c.segments| && frame < |c.frames| && !Filled(text)
    ensures !CacheOk(Add(c, i, name, frame, text, modified), None)
  {
    hide Filled, NamesOk;
    var c' := Add(c, i, name, frame, text, modified);
    var j := if i < |c.segments| then |c.segments[i].pages| else 0;
    assert PageAt(c', i, j) && FrameAt(c', i, j) == frame;
  }

  lemma ModifySpoils(c: Cache, i: nat, j: nat, text: string)
    requires PageAt(c, i, j) && FrameAt(c, i, j) < |c.frames| && !Filled(text)
    ensures !CacheOk(Modify(c, i, j, text), None)
  {
    hide Filled, NamesOk;
    var c' := Modify(c, i, j, text);
    assert PageAt(c', i, j) && FrameAt(c', i, j) == FrameAt(c, i, j);
  }

  lemma OnePage(memorySize: nat, size: nat)
    requires memorySize >= size > 0
    ensures memorySize / size >= 1
  {
  }

  lemma FrameHere(c: Cache, hole: Option<string>, i: nat, j: nat)
    requires CacheOk(c, hole) && PageAt(c, i, j)
    ensures c.segments[i].pages[j].frame < |c.frames| && Filled(c.frames[c.segments[i].pages[j].frame])
    ensures RecordIn(c.frames, c.segments[i].pages[j]) == ConvertRecord(c.frames[c.segments[i].pages[j].frame])
  {
    assert FrameAt(c, i, j) == c.segments[i].pages[j].frame;
  }

  lemma SmallNull()
    ensures NUL !in NULL
  {
  }

  /** If no page is clean, every line is dirty. */
  lemma AllDirty(c: Cache, n: string, k: nat)
    requires forall i: nat, j: nat :: PageAt(c, i, j) ==> c.segments[i].pages[j].modified
    requires Lookup(c, n, k).Some?
    ensures Lookup(c, n, k).value.dirty
  {
    hide RecordIn;
    var i, j := Located(c, n, k);
  }

  lemma VictimIsFair(c: Cache, oldest: (nat, nat))
    requires CacheOk(c, None) && PageAt(c, oldest.0, oldest.1) && !c.segments[oldest.0].pages[oldest.1].modified
    requires forall i: nat, j: nat :: PageAt(c, i, j) && !c.segments[i].pages[j].modified ==>
               RecordIn(c.frames, c.segments[oldest.0].pages[oldest.1]).ts <= RecordIn(c.frames, c.segments[i].pages[j]).ts
    ensures FairVictim(c, Some((c.segments[oldest.0].name, KeyAt(c, oldest.0, oldest.1))))
  {
    hide RecordIn, Lookup, CacheOk;
    LookupAt(c, None, oldest.0, oldest.1);
    forall n: string, k: nat | Lookup(c, n, k).Some? && !Lookup(c, n, k).value.dirty
      ensures RecordIn(c.frames, c.segments[oldest.0].pages[oldest.1]).ts <= Lookup(c, n, k).value.record.ts
    {
      var i, j := Located(c, n, k);
    }
  }

  /** Some frame holds the word "null". */
  ghost predicate Free(c: Cache) { exists f :: 0 <= f < |c.frames| && c.frames[f] == NULL }

  /** Some line is clean. */
  ghost predicate SomeClean(c: Cache) { exists n: string, k: nat :: Lookup(c, n, k).Some? && !Lookup(c, n, k).value.dirty }

  /** The key has a page, or one can be found for it without a journal. */
  ghost predicate HasPlace(c: Cache, name: string, key: nat) { Lookup(c, name, key).Some? || Free(c) || SomeClean(c) }

  /** What one victim and one new line do to the cache. */
  ghost predicate Replaced(c: Cache, c': Cache, name: string, line: Line, victim: Option<(string, nat)>)
  {
    && Lookup(c', name, line.record.key) == Some(line)
    && forall n: string, k: nat :: (n, k) != (name, line.record.key) ==>
         Lookup(c', n, k) == if victim == Some((n, k)) then None else Lookup(c, n, k)
  }

  /** Eviction removes nothing, or a clean line that is no newer than any other clean line. */
  ghost predicate FairVictim(c: Cache, victim: Option<(string, nat)>)
  {
    victim.Some? ==>
      && Lookup(c, victim.value.0, victim.value.1).Some? && !Lookup(c, victim.value.0, victim.value.1).value.dirty
      && forall n: string, k: nat :: Lookup(c, n, k).Some? && !Lookup(c, n, k).value.dirty ==>
           Lookup(c, victim.value.0, victim.value.1).value.record.ts <= Lookup(c, n, k).value.record.ts
  }

  /** The list is the cache's dirty lines, each once. */
  ghost predicate IsJournal(c: Cache, dirty: seq<Dirty>)
  {
    && (forall n: string, r: Record :: Dirty(n, r) in dirty <==> Lookup(c, n, r.key) == Some(Line(r, true)))
    && (forall x, y :: 0 <= x < y < |dirty| ==> (dirty[x].table, dirty[x].record.key) != (dirty[y].table, dirty[y].record.key))
  }

  /** A page of the record's table and key has the frame. */
  ghost predicate FrameOf(c: Cache, f: nat, row: Dirty)
  {
    exists i: nat, j: nat :: Holds(c, i, j, row.table, row.record.key) && FrameAt(c, i, j) == f
  }

  /** A journal has no more rows than the cache has frames. */
  lemma JournalBound(c: Cache, dirty: seq<Dirty>)
    requires CacheOk(c, None) && IsJournal(c, dirty)
    ensures |dirty| <= |c.frames|
  {
    hide CacheOk, Lookup, FrameOf;
    var frames := FramesOfRows(c, dirty, |dirty|);
    Pigeonhole(frames, |c.frames|);
  }

  lemma {:induction false} FramesOfRows(c: Cache, dirty: seq<Dirty>, n: nat) returns (frames: seq<nat>)
    requires CacheOk(c, None) && IsJournal(c, dirty) && n <= |dirty|
    ensures |frames| == n && NoDup(frames) && forall x :: 0 <= x < n ==> frames[x] < |c.frames| && FrameOf(c, frames[x], dirty[x])
    decreases n
  {
    hide CacheOk, Lookup, FrameOf;
    if n == 0 {
      frames := [];
    } else {
      var before := FramesOfRows(c, dirty, n - 1);
      var f := FrameOfRow(c, dirty, n - 1);
      forall x | 0 <= x < n - 1 ensures before[x] != f {
        if before[x] == f { OneRowPerFrame(c, f, dirty[x], dirty[n - 1]); }
      }
      frames := before + [f];
    }
  }

  lemma FrameOfRow(c: Cache, dirty: seq<Dirty>, x: nat) returns (f: nat)
    requires CacheOk(c, None) && IsJournal(c, dirty) && x < |dirty|
    ensures f < |c.frames| && FrameOf(c, f, dirty[x])
  {
    hide FramesOk, NamesOk, Lookup, RecordIn;
    var row := dirty[x];
    assert Dirty(row.table, row.record) in dirty;
    var i, j := Located(c, row.table, row.record.key);
    FilledAt(c, i, j);
    f := FrameAt(c, i, j);
    assert Holds(c, i, j, row.table, row.record.key);
  }

  lemma OneRowPerFrame(c: Cache, f: nat, a: Dirty, b: Dirty)
    requires CacheOk(c, None) && FrameOf(c, f, a) && FrameOf(c, f, b)
    ensures (a.table, a.record.key) == (b.table, b.record.key)
  {
    hide Filled, NamesOk, RecordIn;
    var i: nat, j: nat :| Holds(c, i, j, a.table, a.record.key) && FrameAt(c, i, j) == f;
    var x: nat, y: nat :| Holds(c, x, y, b.table, b.record.key) && FrameAt(c, x, y) == f;
    assert i == x && j == y;
  }

  class Memory {
    const main: MainMemory
    const maxValue: nat
    const clock: nat
    var segments: seq<Segment>

    ghost function State(): Cache
      reads this, main.buffer
    {
      Cache(main.Frames(), segments)
    }

    ghost predicate Ready(hole: Option<string>)
      reads this, main.buffer
    {
      main.Valid() && main.pageCount >= 1 && main.pageSize == TkvSize(clock, maxValue) && CacheOk(State(), hole)
    }

    ghost predicate Valid()
      reads this, main.buffer
    {
      Ready(None)
    }

    /** The page size follows from the longest value, the largest key and the clock's digits. */
    constructor (memorySize: nat, maxValue: nat, clock: nat)
      requires memorySize >= TkvSize(clock, maxValue)
      ensures Valid() && fresh(main.buffer) && segments == [] && this.maxValue == maxValue && this.clock == clock
      ensures main.pageCount == memorySize / TkvSize(clock, maxValue)
    {
      this.maxValue, this.clock := maxValue, clock;
      var memory := new MainMemory(memorySize, TkvSize(clock, maxValue));
      memory.Init();
      main := memory;
      segments := [];
      new;
      assert main.pageCount >= 1 by { OnePage(memorySize, TkvSize(clock, maxValue)); }
    }

    /** The record's text is a C string that fits a frame. */
    predicate HasRoom(r: Record) { r.key < KEYS && NUL !in r.value && |Encode(r)| + 1 <= TkvSize(clock, maxValue) }

    /** Besides, it can be read back. */
    predicate Fits(r: Record) { Readable(r) && |Encode(r)| + 1 <= TkvSize(clock, maxValue) }

    // ---------- Searching ----------

    /** get_segment_by_name. */
    method FindSegment(name: string) returns (i: nat)
      ensures i == SegmentIndex(segments, name)
    {
      i := 0;
      while i < |segments| && segments[i].name != name
        invariant i <= |segments| && forall j :: 0 <= j < i ==> segments[j].name != name
      {
        i := i + 1;
      }
    }

    /** get_page_by_key: compares the printed key with the key field of each frame. */
    method FindPage(pages: seq<Page>, key: nat) returns (j: nat)
      requires main.Valid()
      requires forall p :: 0 <= p < |pages| ==> pages[p].frame < main.pageCount && Filled(main.Frames()[pages[p].frame])
      ensures j == PageIndex(pages, main.Frames(), key)
    {
      hide Filled, ConvertRecord, Tokens, TextAt, Print, PageIndex;
      ghost var frames := main.Frames();
      j := 0;
      while j < |pages|
        invariant j <= |pages| && forall p :: 0 <= p < j ==> RecordIn(frames, pages[p]).key != key
      {
        var text := main.Read(pages[j].frame);
        KeyField(text, key);
        if Tokens(text)[1] == Print(key) {
          break;
        }
        j := j + 1;
      }
    }

    /** The page of a key: segment and position, or no position. */
    method Find(name: string, key: nat) returns (i: nat, j: nat, found: bool)
      requires Valid()
      ensures i == SegmentIndex(segments, name)
      ensures found <==> Lookup(State(), name, key).Some?
      ensures found ==> PageAt(State(), i, j) && segments[i].name == name && KeyAt(State(), i, j) == key
      ensures found ==> Lookup(State(), name, key) == Some(Line(RecordIn(main.Frames(), segments[i].pages[j]), segments[i].pages[j].modified))
    {
      hide Filled, ConvertRecord;
      j, found := 0, false;
      i := FindSegment(name);
      if i < |segments| {
        assert forall p :: 0 <= p < |segments[i].pages| ==> PageAt(State(), i, p) && FrameAt(State(), i, p) == segments[i].pages[p].frame;
        j := FindPage(segments[i].pages, key);
        found := j < |segments[i].pages|;
      }
    }

    /** process_select on a hit: the record in the frame. */
    method Select(name: string, key: nat) returns (record: Option<Record>)
      requires Valid()
      ensures record == match Lookup(State(), name, key) case Some(line) => Some(line.record) case None => None
    {
      hide Filled, ConvertRecord;
      var i, j, found := Find(name, key);
      if found {
        assert FrameAt(State(), i, j) < main.pageCount;
        var text := main.Read(segments[i].pages[j].frame);
        record := Some(ConvertRecord(text));
      } else {
        record := None;
      }
    }

    // ---------- Frames ----------

    /** memory_full. */
    method MemoryFull() returns (full: bool)
      requires main.Valid()
      ensures full <==> forall f :: 0 <= f < main.pageCount ==> main.Frames()[f] != NULL
    {
      for f := 0 to main.pageCount
        invariant forall g :: 0 <= g < f ==> main.Frames()[g] != NULL
      {
        var text := main.Read(f);
        if text == NULL {
          return false;
        }
      }
      return true;
    }

    /** memory_insert: writes the text to the first free frame, or answers -1. */
    method MemoryInsert(text: string) returns (frame: int)
      requires main.Valid() && |text| < main.pageSize && NUL !in text
      modifies main.buffer
      ensures main.Valid()
      ensures frame == -1 ==> main.Frames() == old(main.Frames()) && forall f :: 0 <= f < main.pageCount ==> main.Frames()[f] != NULL
      ensures frame != -1 ==> 0 <= frame < main.pageCount && old(main.Frames())[frame] == NULL
                              && main.Frames() == old(main.Frames())[frame := text]
    {
      hide TextAt;
      for f := 0 to main.pageCount
        invariant main.Valid() && main.Frames() == old(main.Frames())
        invariant forall g :: 0 <= g < f ==> main.Frames()[g] != NULL
      {
        var present := main.Read(f);
        if present == NULL {
          main.Write(f, text);
          return f;
        }
      }
      return -1;
    }

    /** get_pages_by_modified, as positions. */
    method GetPagesByModified(modified: bool) returns (pages: seq<(nat, nat)>)
      ensures forall p :: p in pages <==> PageAt(State(), p.0, p.1) && segments[p.0].pages[p.1].modified == modified
      ensures forall x, y :: 0 <= x < y < |pages| ==> pages[x] != pages[y]
    {
      pages := [];
      for i := 0 to |segments|
        invariant forall p :: p in pages <==> p.0 < i && PageAt(State(), p.0, p.1) && segments[p.0].pages[p.1].modified == modified
        invariant forall x, y :: 0 <= x < y < |pages| ==> pages[x] != pages[y]
      {
        for j := 0 to |segments[i].pages|
          invariant forall p :: p in pages <==>
                      (p.0 < i || (p.0 == i && p.1 < j)) && PageAt(State(), p.0, p.1) && segments[p.0].pages[p.1].modified == modified
          invariant forall x, y :: 0 <= x < y < |pages| ==> pages[x] != pages[y]
        {
          if segments[i].pages[j].modified == modified {
            pages := pages + [(i, j)];
          }
        }
      }
    }

    // ---------- Replacement ----------

    /** The timestamp field of a page's frame. */
    method TimestampOf(page: (nat, nat)) returns (ts: nat)
      requires Valid() && PageAt(State(), page.0, page.1)
      ensures ts == RecordIn(main.Frames(), segments[page.0].pages[page.1]).ts
    {
      hide Filled, ConvertRecord, Tokens, Parse, CacheOk;
      FrameHere(State(), None, page.0, page.1);
      var text := main.Read(segments[page.0].pages[page.1].frame);
      KeyField(text, 0);
      ts := Parse(Tokens(text)[0]);
    }

    /** The first page of the list sorted by timestamp. */
    method Oldest(pages: seq<(nat, nat)>) returns (oldest: (nat, nat))
      requires Valid() && pages != [] && forall p :: p in pages ==> PageAt(State(), p.0, p.1)
      ensures oldest in pages
      ensures forall p :: p in pages ==>
                RecordIn(main.Frames(), segments[oldest.0].pages[oldest.1]).ts <= RecordIn(main.Frames(), segments[p.0].pages[p.1]).ts
    {
      hide CacheOk, RecordIn;
      oldest := pages[0];
      var ts := TimestampOf(oldest);
      for k := 1 to |pages|
        invariant oldest in pages && ts == RecordIn(main.Frames(), segments[oldest.0].pages[oldest.1]).ts
        invariant forall x :: 0 <= x < k ==> ts <= RecordIn(main.Frames(), segments[pages[x].0].pages[pages[x].1]).ts
      {
        assert pages[k] in pages;
        var other := TimestampOf(pages[k]);
        if other < ts {
          oldest, ts := pages[k], other;
        }
      }
    }

    /** eliminate_page_instance_by_index. */
    method EliminatePage(i: nat, j: nat, table: string)
      requires Valid() && PageAt(State(), i, j)
      modifies this`segments, main.buffer
      ensures FrameAt(old(State()), i, j) < |old(State()).frames| && State() == Evict(old(State()), i, j, table)
      ensures Ready(Some(table))
    {
      hide Filled, ConvertRecord, Lookup, CacheOk;
      ghost var c := State();
      EvictKeeps(c, i, j, table);
      var segment := segments[i];
      SmallNull();
      main.Write(segment.pages[j].frame, NULL);
      segments := segments[i := Segment(segment.name, RemoveAt(segment.pages, j))];
      if |segments[i].pages| == 0 && segment.name != table {
        WipeNothing(main.Frames());
        assert segments[i].pages == [];
        segments := RemoveAt(segments, i);
      }
    }

    /** The part of replace_algorithm that makes room: evicts the oldest clean page, if there is one. */
    method MakeRoom(name: string) returns (room: bool, ghost victim: Option<(string, nat)>)
      requires Valid()
      modifies this`segments, main.buffer
      ensures room <==> SomeClean(old(State()))
      ensures room <==> victim.Some?
      ensures room ==> Ready(Some(name)) && Free(State())
      ensures room ==> FairVictim(old(State()), victim) && forall n: string, k: nat ::
                Lookup(State(), n, k) == if victim == Some((n, k)) then None else Lookup(old(State()), n, k)
      ensures !room ==> State() == old(State()) && Valid()
    {
      hide Filled, ConvertRecord, Lookup, CacheOk, RecordIn;
      ghost var c := State();
      victim := None;
      var clean := GetPagesByModified(false);
      if clean == [] {
        forall i: nat, j: nat | PageAt(c, i, j) ensures c.segments[i].pages[j].modified { assert (i, j) !in clean; }
        forall n: string, k: nat | Lookup(c, n, k).Some? ensures Lookup(c, n, k).value.dirty { AllDirty(c, n, k); }
        return false, None;
      }
      var oldest := Oldest(clean);
      victim := Some((segments[oldest.0].name, KeyAt(c, oldest.0, oldest.1)));
      forall i: nat, j: nat | PageAt(c, i, j) && !c.segments[i].pages[j].modified
        ensures RecordIn(c.frames, c.segments[oldest.0].pages[oldest.1]).ts <= RecordIn(c.frames, c.segments[i].pages[j]).ts
      {
        assert (i, j) in clean;
      }
      VictimIsFair(c, oldest);
      EvictKeeps(c, oldest.0, oldest.1, name);
      EliminatePage(oldest.0, oldest.1, name);
      assert main.Frames()[FrameAt(c, oldest.0, oldest.1)] == NULL;
      room := true;
    }

    /**
      memory_insert and the page that goes with it, in the table's segment or in a new one. The cache stays in order if and
      only if the text can be read back.
     */
    method AddPage(name: string, record: Record, modified: bool, ghost hole: Option<string>)
      requires Ready(hole) && (hole == None || hole == Some(name)) && HasRoom(record)
      requires Lookup(State(), name, record.key) == None
      requires Free(State())
      modifies this`segments, main.buffer
      ensures main.Valid() && (Valid() <==> Readable(record))
      ensures Readable(record) ==> Replaced(old(State()), State(), name, Line(record, modified), None)
    {
      hide Filled, ConvertRecord, Lookup, CacheOk, Encode, RecordIn, Readable;
      ghost var c := State();
      var text := Encode(record);
      FilledIff(record);
      var frame := MemoryInsert(text);
      var i := FindSegment(name);
      if Readable(record) { AddKeeps(c, hole, i, name, frame, text, modified); }
      var page := Page(frame, modified);
      segments := if i < |segments| then segments[i := Segment(segments[i].name, segments[i].pages + [page])]
                  else segments + [Segment(name, [page])];
      assert State() == Add(c, i, name, frame, text, modified);
      if !Readable(record) { AddSpoils(c, i, name, frame, text, modified); }
    }

    /**
      Puts a record that is not cached into a free frame or, only if there is none, into the frame of the oldest clean page.
      Only if there is neither does it ask for a journal.
     */
    method PutPage(name: string, record: Record, modified: bool) returns (outcome: Outcome, ghost victim: Option<(string, nat)>)
      requires Valid() && HasRoom(record) && Lookup(State(), name, record.key) == None
      modifies this`segments, main.buffer
      ensures main.Valid() && outcome != Refused && (Valid() <==> outcome == Journaling || Readable(record))
      ensures outcome == Cached <==> Free(old(State())) || SomeClean(old(State()))
      ensures victim.Some? <==> outcome == Cached && !Free(old(State()))
      ensures outcome == Cached && Readable(record) ==>
                Replaced(old(State()), State(), name, Line(record, modified), victim) && FairVictim(old(State()), victim)
      ensures outcome == Journaling ==> State() == old(State())
    {
      hide Lookup, CacheOk, Readable, Encode;
      victim := None;
      var full := MemoryFull();
      if !full {
        AddPage(name, record, modified, None);
        return Cached, None;
      }
      var room;
      room, victim := MakeRoom(name);
      if !room {
        return Journaling, None;
      }
      AddPage(name, record, modified, Some(name));
      outcome := Cached;
    }

    // ---------- Operations ----------

    /**
      process_insert; the timestamp is the clock's. Any value that is not too long is taken, but the cache stays in order if
      and only if the record's text can be read back.
     */
    method Insert(name: string, key: nat, value: string, now: nat) returns (outcome: Outcome, ghost victim: Option<(string, nat)>)
      requires Valid() && key < KEYS && NUL !in value && |Print(now)| <= |Print(clock)|
      modifies this`segments, main.buffer
      ensures main.Valid() && (outcome == Refused <==> |value| > maxValue)
      ensures outcome == Cached <==> |value| <= maxValue && HasPlace(old(State()), name, key)
      ensures victim.Some? <==> outcome == Cached && Lookup(old(State()), name, key) == None && !Free(old(State()))
      ensures Valid() <==> outcome != Cached || Readable(Record(now, key, value))
      ensures outcome == Cached && Valid() ==>
                Replaced(old(State()), State(), name, Line(Record(now, key, value), true), victim) && FairVictim(old(State()), victim)
      ensures outcome != Cached ==> State() == old(State())
    {
      hide Filled, ConvertRecord, Lookup, CacheOk, Encode, RecordIn, Readable, Print;
      victim := None;
      if |value| > maxValue { return Refused, None; }
      ghost var c := State();
      var record := Record(now, key, value);
      EncodeFits(record, clock, maxValue);
      var i, j, found := Find(name, key);
      if found {
        var text := Encode(record);
        FilledIff(record);
        if Readable(record) { ModifyKeeps(c, i, j, text); }
        FrameHere(c, None, i, j);
        var segment := segments[i];
        main.Write(segment.pages[j].frame, text);
        segments := segments[i := Segment(segment.name, segment.pages[j := Page(segment.pages[j].frame, true)])];
        assert State() == Modify(c, i, j, text);
        if !Readable(record) { ModifySpoils(c, i, j, text); }
        outcome := Cached;
      } else {
        outcome, victim := PutPage(name, record, true);
      }
    }

    /** select_callback with a record from the filesystem: caches it as a clean page. */
    method Fill(name: string, record: Record) returns (outcome: Outcome, ghost victim: Option<(string, nat)>)
      requires Valid() && Fits(record) && Lookup(State(), name, record.key) == None
      modifies this`segments, main.buffer
      ensures Valid() && outcome != Refused
      ensures outcome == Cached <==> Free(old(State())) || SomeClean(old(State()))
      ensures victim.Some? <==> outcome == Cached && !Free(old(State()))
      ensures outcome == Cached ==> Replaced(old(State()), State(), name, Line(record, false), victim) && FairVictim(old(State()), victim)
      ensures outcome == Journaling ==> State() == old(State())
    {
      hide Lookup, CacheOk, Readable, Encode;
      FitsHasRoom(record, TkvSize(clock, maxValue));
      outcome, victim := PutPage(name, record, false);
    }

    /** remove_segment. */
    method RemoveSegment(i: nat)
      requires Valid() && i < |segments|
      modifies this`segments, main.buffer
      ensures Valid() && State() == DropSegment(old(State()), i)
    {
      hide Filled, ConvertRecord, Lookup, CacheOk, RecordIn, Wipe;
      ghost var c := State();
      DropSegmentKeeps(c, None, i);
      var pages := segments[i].pages;
      SmallNull();
      WipeNothing(c.frames);
      assert pages[..0] == [];
      for j := 0 to |pages|
        invariant main.Valid() && segments == c.segments
        invariant main.Frames() == Wipe(c.frames, pages[..j])
      {
        FrameHere(c, None, i, j);
        WipeOneMore(c.frames, pages, j);
        main.Write(pages[j].frame, NULL);
      }
      assert pages[..|pages|] == pages;
      segments := RemoveAt(segments, i);
    }

    /** process_drop on the cache's side. */
    method Drop(name: string)
      requires Valid()
      modifies this`segments, main.buffer
      ensures Valid() && forall n: string, k: nat :: Lookup(State(), n, k) == if n == name then None else Lookup(old(State()), n, k)
    {
      hide Filled, ConvertRecord, CacheOk, RecordIn, Wipe;
      ghost var c := State();
      var i := FindSegment(name);
      if i < |segments| {
        DropSegmentKeeps(c, None, i);
        RemoveSegment(i);
      }
    }

    /** delete_all_segments. */
    method DeleteAllSegments()
      requires Valid()
      modifies this`segments, main.buffer
      ensures Valid() && segments == [] && forall n: string, k: nat :: Lookup(State(), n, k) == None
      ensures forall f :: 0 <= f < main.pageCount ==> main.Frames()[f] == NULL
    {
      hide CacheOk, Wipe;
      var i := |segments|;
      while i > 0
        invariant i == |segments| && Valid()
      {
        i := i - 1;
        RemoveSegment(i);
      }
      Emptied(State());
    }

    /** The list that the journal sends: get_pages_by_modified and list_add_multi_lists. */
    method JournalRows() returns (rows: seq<Dirty>)
      requires Valid()
      ensures IsJournal(State(), rows) && |rows| <= main.pageCount
      ensures forall x :: 0 <= x < |rows| ==> Readable(rows[x].record)
    {
      hide Filled, ConvertRecord, Lookup, CacheOk, RecordIn;
      ghost var c := State();
      var pages := GetPagesByModified(true);
      rows := [];
      for x := 0 to |pages|
        invariant |rows| == x
        invariant forall y :: 0 <= y < x ==> PageAt(c, pages[y].0, pages[y].1) && rows[y] == RowAt(c, pages[y].0, pages[y].1)
      {
        assert pages[x] in pages;
        var (i, j) := pages[x];
        FrameHere(c, None, i, j);
        var text := main.Read(segments[i].pages[j].frame);
        rows := rows + [Dirty(segments[i].name, ConvertRecord(text))];
      }
      assert forall y :: 0 <= y < |pages| ==> pages[y] in pages;
      JournalIsComplete(c, pages, rows);
      JournalBound(c, rows);
    }

    /** journal_callback: on success everything is dropped, and the waiting record, if any, is cached. */
    method JournalCallback(success: bool, register: Option<Register>)
      requires Valid() && (register.Some? ==> Fits(register.value.record))
      modifies this`segments, main.buffer
      ensures Valid() && (!success ==> State() == old(State()))
      ensures success && register.None? ==> forall n: string, k: nat :: Lookup(State(), n, k) == None
      ensures success && register.Some? ==> forall n: string, k: nat ::
                Lookup(State(), n, k) ==
                if (n, k) == (register.value.table, register.value.record.key)
                then Some(Line(register.value.record, register.value.modified)) else None
    {
      hide Lookup, CacheOk, Readable;
      if success {
        DeleteAllSegments();
        if register.Some? {
          assert main.Frames()[0] == NULL;
          FitsHasRoom(register.value.record, TkvSize(clock, maxValue));
          AddPage(register.value.table, register.value.record, register.value.modified, None);
        }
      }
    }
  }

  lemma WipeOneMore(frames: seq<string>, pages: seq<Page>, j: nat)
    requires j < |pages| && pages[j].frame < |frames|
    ensures Wipe(frames, pages[..j + 1]) == Wipe(frames, pages[..j])[pages[j].frame := NULL]
  {
    assert pages[..j + 1][..j] == pages[..j];
  }

  function RowAt(c: Cache, i: nat, j: nat): Dirty
    requires PageAt(c, i, j)
  {
    Dirty(c.segments[i].name, RecordIn(c.frames, c.segments[i].pages[j]))
  }

  /** The journal holds exactly the dirty lines, each once. */
  lemma JournalIsComplete(c: Cache, pages: seq<(nat, nat)>, rows: seq<Dirty>)
    requires CacheOk(c, None) && |rows| == |pages|
    requires forall i: nat, j: nat :: (i, j) in pages <==> PageAt(c, i, j) && c.segments[i].pages[j].modified
    requires forall x, y :: 0 <= x < y < |pages| ==> pages[x] != pages[y]
    requires forall y :: 0 <= y < |pages| ==> PageAt(c, pages[y].0, pages[y].1) && rows[y] == RowAt(c, pages[y].0, pages[y].1)
    ensures forall n: string, r: Record :: Dirty(n, r) in rows <==> Lookup(c, n, r.key) == Some(Line(r, true))
    ensures forall x, y :: 0 <= x < y < |rows| ==> (rows[x].table, rows[x].record.key) != (rows[y].table, rows[y].record.key)
    ensures forall x :: 0 <= x < |rows| ==> Readable(rows[x].record)
  {
    hide ConvertRecord, Lookup, RecordIn;
    forall x | 0 <= x < |rows|
      ensures Lookup(c, rows[x].table, rows[x].record.key) == Some(Line(rows[x].record, true)) && Readable(rows[x].record)
    {
      assert pages[x] in pages;
      var (i, j) := pages[x];
      LookupAt(c, None, i, j);
      FrameHere(c, None, i, j);
    }
    forall n: string, r: Record | Lookup(c, n, r.key) == Some(Line(r, true)) ensures Dirty(n, r) in rows {
      var i, j := Located(c, n, r.key);
      assert (i, j) in pages;
      var x :| 0 <= x < |pages| && pages[x] == (i, j);
      assert rows[x] == Dirty(n, r);
    }
    forall x, y | 0 <= x < y < |rows| ensures (rows[x].table, rows[x].record.key) != (rows[y].table, rows[y].record.key) {
      RowsApart(c, pages[x], pages[y]);
    }
  }

  lemma RowsApart(c: Cache, p: (nat, nat), q: (nat, nat))
    requires CacheOk(c, None) && PageAt(c, p.0, p.1) && PageAt(c, q.0, q.1) && p != q
    ensures (c.segments[p.0].name, KeyAt(c, p.0, p.1)) != (c.segments[q.0].name, KeyAt(c, q.0, q.1))
  {
    hide Filled, RecordIn;
  }
}
