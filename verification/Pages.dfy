/**
  The paged cache as values: fixed-size frames that hold a record's text or the word "null", and
  segments (one per table) whose pages name a frame and carry a dirty bit.
 */
module Pages {
  import opened Options
  import opened Records

  /** The source stores a page's byte offset, which is the frame number times the page size. */
  datatype Page = Page(frame: nat, modified: bool)

  datatype Segment = Segment(name: string, pages: seq<Page>)

  datatype Cache = Cache(frames: seq<string>, segments: seq<Segment>)

  /** What the cache holds for a key. */
  datatype Line = Line(record: Record, dirty: bool)

  const NULL := "null"

  /** get_segment_by_name: the first segment of that name, or the number of segments. */
  function SegmentIndex(segments: seq<Segment>, name: string): (i: nat)
    ensures i <= |segments|
    ensures i < |segments| ==> segments[i].name == name
    ensures forall j :: 0 <= j < i ==> segments[j].name != name
  {
    if segments == [] || segments[0].name == name then 0 else 1 + SegmentIndex(segments[1..], name)
  }

  function RecordIn(frames: seq<string>, page: Page): Record
  {
    if page.frame < |frames| then ConvertRecord(frames[page.frame]) else Record(0, 0, "")
  }

  /** get_page_by_key: the first page whose frame holds the key, or the number of pages. */
  function PageIndex(pages: seq<Page>, frames: seq<string>, key: nat): (j: nat)
    ensures j <= |pages|
    ensures j < |pages| ==> RecordIn(frames, pages[j]).key == key
    ensures forall k :: 0 <= k < j ==> RecordIn(frames, pages[k]).key != key
  {
    if pages == [] || RecordIn(frames, pages[0]).key == key then 0 else 1 + PageIndex(pages[1..], frames, key)
  }

  function Lookup(c: Cache, name: string, key: nat): Option<Line>
  {
    var i := SegmentIndex(c.segments, name);
    if i == |c.segments| then None else
      var pages := c.segments[i].pages;
      var j := PageIndex(pages, c.frames, key);
      if j == |pages| then None else Some(Line(RecordIn(c.frames, pages[j]), pages[j].modified))
  }

  // ---------- The invariant ----------

  predicate PageAt(c: Cache, i: nat, j: nat) { i < |c.segments| && j < |c.segments[i].pages| }

  function FrameAt(c: Cache, i: nat, j: nat): nat
    requires PageAt(c, i, j)
  {
    c.segments[i].pages[j].frame
  }

  function KeyAt(c: Cache, i: nat, j: nat): nat
    requires PageAt(c, i, j)
  {
    RecordIn(c.frames, c.segments[i].pages[j]).key
  }

  /** The frame holds the text of a record that can be read back. */
  predicate Filled(text: string) { Readable(ConvertRecord(text)) && text == Encode(ConvertRecord(text)) }

  /** Some page names the frame. */
  ghost predicate Used(c: Cache, f: nat) { exists i: nat, j: nat :: PageAt(c, i, j) && FrameAt(c, i, j) == f }

  /** Every page names a frame that holds a record, and every frame that is not "null" is named by exactly one page. */
  ghost predicate FramesOk(c: Cache)
  {
    && (forall i: nat, j: nat :: PageAt(c, i, j) ==> FrameAt(c, i, j) < |c.frames| && Filled(c.frames[FrameAt(c, i, j)]))
    && (forall i: nat, j: nat, i': nat, j': nat ::
          PageAt(c, i, j) && PageAt(c, i', j') && FrameAt(c, i, j) == FrameAt(c, i', j') ==> i == i' && j == j')
    && (forall f: nat :: f < |c.frames| && c.frames[f] != NULL ==> Used(c, f))
  }

  /**
    Segment names are unique and so are the keys of a segment. No segment is empty, except possibly the one
    that is about to receive a page.
   */
  ghost predicate NamesOk(c: Cache, hole: Option<string>)
  {
    && (forall i, i' :: 0 <= i < i' < |c.segments| ==> c.segments[i].name != c.segments[i'].name)
    && (forall i: nat, j: nat, j': nat :: PageAt(c, i, j) && PageAt(c, i, j') && j < j' ==> KeyAt(c, i, j) != KeyAt(c, i, j'))
    && (forall i :: 0 <= i < |c.segments| && c.segments[i].pages == [] ==> hole == Some(c.segments[i].name))
  }

  ghost predicate CacheOk(c: Cache, hole: Option<string>) { FramesOk(c) && NamesOk(c, hole) }

  lemma FilledIsNotNull(text: string)
    requires Filled(text)
    ensures text != NULL && NUL !in text
  {
    EncodeProperties(ConvertRecord(text));
    assert IsDigit(text[0]) && !IsDigit(NULL[0]);
  }

  /** Pages are found by name and key. */
  lemma LookupAt(c: Cache, hole: Option<string>, i: nat, j: nat)
    requires CacheOk(c, hole) && PageAt(c, i, j)
    ensures var page := c.segments[i].pages[j];
            Lookup(c, c.segments[i].name, KeyAt(c, i, j)) == Some(Line(RecordIn(c.frames, page), page.modified))
  {
    hide Filled, ConvertRecord;
    var name, key := c.segments[i].name, KeyAt(c, i, j);
    assert SegmentIndex(c.segments, name) == i;
    var k := PageIndex(c.segments[i].pages, c.frames, key);
    assert k == j by {
      if k < j { assert PageAt(c, i, k) && KeyAt(c, i, k) == key; }
    }
  }

  lemma Located(c: Cache, name: string, key: nat) returns (i: nat, j: nat)
    requires Lookup(c, name, key).Some?
    ensures PageAt(c, i, j) && c.segments[i].name == name && KeyAt(c, i, j) == key
    ensures var page := c.segments[i].pages[j]; Lookup(c, name, key) == Some(Line(RecordIn(c.frames, page), page.modified))
  {
    i := SegmentIndex(c.segments, name);
    j := PageIndex(c.segments[i].pages, c.frames, key);
  }

  /** A page and its counterpart in another cache: same table, same frame, same text, same bit. */
  ghost predicate Twin(c: Cache, i: nat, j: nat, c': Cache, i': nat, j': nat)
  {
    && PageAt(c, i, j) && PageAt(c', i', j')
    && c'.segments[i'].name == c.segments[i].name && c'.segments[i'].pages[j'] == c.segments[i].pages[j]
    && FrameAt(c, i, j) < |c.frames| == |c'.frames| && c'.frames[FrameAt(c, i, j)] == c.frames[FrameAt(c, i, j)]
  }

  ghost predicate HasTwin(c: Cache, i: nat, j: nat, c': Cache) { exists i': nat, j': nat :: Twin(c, i, j, c', i', j') }

  lemma TwinFacts(c: Cache, i: nat, j: nat, c': Cache, i': nat, j': nat)
    requires Twin(c, i, j, c', i', j')
    ensures FrameAt(c', i', j') == FrameAt(c, i, j) && KeyAt(c', i', j') == KeyAt(c, i, j)
    ensures RecordIn(c'.frames, c'.segments[i'].pages[j']) == RecordIn(c.frames, c.segments[i].pages[j])
  {
    hide ConvertRecord;
  }

  /** The page holds that key of that table. */
  predicate Holds(c: Cache, i: nat, j: nat, name: string, key: nat)
  {
    PageAt(c, i, j) && c.segments[i].name == name && KeyAt(c, i, j) == key
  }

  lemma TwinLookup(c: Cache, hole: Option<string>, c': Cache, hole': Option<string>, i: nat, j: nat)
    requires CacheOk(c, hole) && CacheOk(c', hole') && PageAt(c, i, j) && HasTwin(c, i, j, c')
    ensures Lookup(c', c.segments[i].name, KeyAt(c, i, j)) == Lookup(c, c.segments[i].name, KeyAt(c, i, j))
  {
    hide CacheOk, Lookup, RecordIn;
    var i', j' :| Twin(c, i, j, c', i', j');
    TwinFacts(c, i, j, c', i', j');
    LookupAt(c, hole, i, j);
    LookupAt(c', hole', i', j');
  }

  /** A key whose pages have twins both ways is looked up alike. */
  lemma SameLookup(c: Cache, hole: Option<string>, c': Cache, hole': Option<string>, name: string, key: nat)
    requires CacheOk(c, hole) && CacheOk(c', hole')
    requires forall i: nat, j: nat :: Holds(c, i, j, name, key) ==> HasTwin(c, i, j, c')
    requires forall i: nat, j: nat :: Holds(c', i, j, name, key) ==> HasTwin(c', i, j, c)
    ensures Lookup(c', name, key) == Lookup(c, name, key)
  {
    hide CacheOk, Lookup, RecordIn, HasTwin;
    if Lookup(c, name, key).Some? {
      var i, j := Located(c, name, key);
      assert Holds(c, i, j, name, key);
      TwinLookup(c, hole, c', hole', i, j);
    } else if Lookup(c', name, key).Some? {
      var i, j := Located(c', name, key);
      assert Holds(c', i, j, name, key);
      TwinLookup(c', hole', c, hole, i, j);
    }
  }

  /** A key without pages is not found. */
  lemma NoLookup(c: Cache, name: string, key: nat)
    requires forall i: nat, j: nat :: !Holds(c, i, j, name, key)
    ensures Lookup(c, name, key) == None
  {
    hide Lookup, RecordIn, Holds;
    if Lookup(c, name, key) != None { NotHeld(c, name, key); }
  }

  lemma NotHeld(c: Cache, name: string, key: nat)
    requires Lookup(c, name, key).Some?
    ensures exists i: nat, j: nat :: Holds(c, i, j, name, key)
  {
    hide Lookup, RecordIn;
    var i, j := Located(c, name, key);
    assert Holds(c, i, j, name, key);
  }

  /** Pages of different tables or keys have different frames, so two twins of one page are the same page. */
  lemma TwinsApart(c: Cache, c': Cache, hole': Option<string>, a: nat, b: nat, x: nat, y: nat)
    requires FramesOk(c) && NamesOk(c', hole') && PageAt(c', a, b) && PageAt(c', x, y)
    requires HasTwin(c', a, b, c) && HasTwin(c', x, y, c) && FrameAt(c', a, b) == FrameAt(c', x, y)
    ensures a == x && b == y
  {
    hide Filled, RecordIn;
    var a', b' :| Twin(c', a, b, c, a', b');
    var x', y' :| Twin(c', x, y, c, x', y');
    TwinFacts(c', a, b, c, a', b');
    TwinFacts(c', x, y, c, x', y');
    assert a' == x' && b' == y';
    SameKey(c', hole', a, b, x, y);
  }

  lemma SameKey(c: Cache, hole: Option<string>, a: nat, b: nat, x: nat, y: nat)
    requires NamesOk(c, hole) && PageAt(c, a, b) && PageAt(c, x, y)
    requires c.segments[a].name == c.segments[x].name && KeyAt(c, a, b) == KeyAt(c, x, y)
    ensures a == x && b == y
  {
    hide RecordIn;
  }

  lemma TwinFrame(c: Cache, c': Cache, a: nat, b: nat)
    requires FramesOk(c) && PageAt(c', a, b) && HasTwin(c', a, b, c)
    ensures FrameAt(c', a, b) < |c'.frames| && Filled(c'.frames[FrameAt(c', a, b)])
  {
    hide Filled, RecordIn;
    var x, y :| Twin(c', a, b, c, x, y);
    assert FrameAt(c, x, y) == FrameAt(c', a, b);
  }

  /** If all pages but (i, j) are twins of old ones, and that one has a frame of its own, the frames are in order. */
  lemma FramesKept(c: Cache, c': Cache, hole': Option<string>, i: nat, j: nat)
    requires FramesOk(c) && NamesOk(c', hole')
    requires PageAt(c', i, j) ==> FrameAt(c', i, j) < |c'.frames| && Filled(c'.frames[FrameAt(c', i, j)])
    requires forall a: nat, b: nat :: PageAt(c', a, b) && (a, b) != (i, j) ==>
               HasTwin(c', a, b, c) && (PageAt(c', i, j) ==> FrameAt(c', a, b) != FrameAt(c', i, j))
    requires forall f: nat :: f < |c'.frames| && c'.frames[f] != NULL ==> Used(c', f)
    ensures FramesOk(c')
  {
    hide Filled, HasTwin, NamesOk, Used;
    forall a: nat, b: nat | PageAt(c', a, b) ensures FrameAt(c', a, b) < |c'.frames| && Filled(c'.frames[FrameAt(c', a, b)]) {
      if (a, b) != (i, j) { TwinFrame(c, c', a, b); }
    }
    forall a: nat, b: nat, x: nat, y: nat | PageAt(c', a, b) && PageAt(c', x, y) && FrameAt(c', a, b) == FrameAt(c', x, y)
      ensures a == x && b == y
    {
      if (a, b) != (i, j) && (x, y) != (i, j) { TwinsApart(c, c', hole', a, b, x, y); }
    }
  }

  lemma TwinUses(c: Cache, a: nat, b: nat, c': Cache)
    requires PageAt(c, a, b) && HasTwin(c, a, b, c')
    ensures Used(c', FrameAt(c, a, b))
  {
    var x, y :| Twin(c, a, b, c', x, y);
    assert FrameAt(c', x, y) == FrameAt(c, a, b);
  }

  lemma FilledAt(c: Cache, i: nat, j: nat)
    requires FramesOk(c) && PageAt(c, i, j)
    ensures FrameAt(c, i, j) < |c.frames| && Filled(c.frames[FrameAt(c, i, j)]) && c.frames[FrameAt(c, i, j)] != NULL
  {
    hide Filled;
    FilledIsNotNull(c.frames[FrameAt(c, i, j)]);
  }

  lemma FramesApart(c: Cache, i: nat, j: nat, a: nat, b: nat)
    requires FramesOk(c) && PageAt(c, i, j) && PageAt(c, a, b) && (a, b) != (i, j)
    ensures FrameAt(c, i, j) != FrameAt(c, a, b)
  {
    hide Filled;
  }

  /** A page of the old cache that uses the frame. */
  lemma UserOf(c: Cache, f: nat) returns (i: nat, j: nat)
    requires FramesOk(c) && f < |c.frames| && c.frames[f] != NULL
    ensures PageAt(c, i, j) && FrameAt(c, i, j) == f
  {
    hide Filled;
    i, j :| PageAt(c, i, j) && FrameAt(c, i, j) == f;
  }

  // ---------- Changing a page in place ----------

  function Modify(c: Cache, i: nat, j: nat, text: string): Cache
    requires PageAt(c, i, j) && FrameAt(c, i, j) < |c.frames|
  {
    var s := c.segments[i];
    Cache(c.frames[s.pages[j].frame := text], c.segments[i := Segment(s.name, s.pages[j := Page(s.pages[j].frame, true)])])
  }

  /** An INSERT that hits: the page holds the new record and is dirty, nothing else changes. */
  lemma ModifyKeeps(c: Cache, i: nat, j: nat, text: string)
    requires CacheOk(c, None) && PageAt(c, i, j) && Filled(text) && ConvertRecord(text).key == KeyAt(c, i, j)
    ensures FrameAt(c, i, j) < |c.frames| && CacheOk(Modify(c, i, j, text), None)
    ensures Lookup(Modify(c, i, j, text), c.segments[i].name, KeyAt(c, i, j)) == Some(Line(ConvertRecord(text), true))
    ensures forall name: string, key: nat :: (name, key) != (c.segments[i].name, KeyAt(c, i, j)) ==>
              Lookup(Modify(c, i, j, text), name, key) == Lookup(c, name, key)
  {
    hide Filled, ConvertRecord, Lookup, FramesOk, NamesOk, HasTwin, RecordIn, Used;
    FilledAt(c, i, j);
    var c' := Modify(c, i, j, text);
    forall a: nat, b: nat | PageAt(c, a, b) && (a, b) != (i, j)
      ensures PageAt(c', a, b) && HasTwin(c, a, b, c') && HasTwin(c', a, b, c) && FrameAt(c', a, b) != FrameAt(c', i, j)
    {
      ModifyTwin(c, i, j, text, a, b);
    }
    forall a: nat, b: nat | PageAt(c', a, b) ensures PageAt(c, a, b) {}
    ModifyNames(c, i, j, text);
    forall f: nat | f < |c'.frames| && c'.frames[f] != NULL ensures Used(c', f) {
      if f == FrameAt(c, i, j) { UsedHere(c', i, j); } else {
        var a, b := UserOf(c, f);
        TwinUses(c, a, b, c');
      }
    }
    FramesKept(c, c', None, i, j);
    LookupAt(c', None, i, j);
    forall name: string, key: nat | (name, key) != (c.segments[i].name, KeyAt(c, i, j)) ensures Lookup(c', name, key) == Lookup(c, name, key) {
      SameLookup(c, None, c', None, name, key);
    }
  }

  lemma UsedHere(c: Cache, i: nat, j: nat)
    requires PageAt(c, i, j)
    ensures Used(c, FrameAt(c, i, j))
  {
  }

  lemma ModifyTwin(c: Cache, i: nat, j: nat, text: string, a: nat, b: nat)
    requires FramesOk(c) && PageAt(c, i, j) && FrameAt(c, i, j) < |c.frames| && PageAt(c, a, b) && (a, b) != (i, j)
    ensures var c' := Modify(c, i, j, text);
            PageAt(c', a, b) && HasTwin(c, a, b, c') && HasTwin(c', a, b, c) && FrameAt(c', a, b) != FrameAt(c', i, j)
  {
    hide FramesOk, Filled;
    var c' := Modify(c, i, j, text);
    FramesApart(c, i, j, a, b);
    FilledAt(c, a, b);
    assert Twin(c, a, b, c', a, b) && Twin(c', a, b, c, a, b);
  }

  lemma ModifyNames(c: Cache, i: nat, j: nat, text: string)
    requires FramesOk(c) && NamesOk(c, None) && PageAt(c, i, j) && FrameAt(c, i, j) < |c.frames| && ConvertRecord(text).key == KeyAt(c, i, j)
    ensures var c' := Modify(c, i, j, text);
            && NamesOk(c', None) && PageAt(c', i, j) && c'.segments[i].name == c.segments[i].name
            && KeyAt(c', i, j) == KeyAt(c, i, j) && RecordIn(c'.frames, c'.segments[i].pages[j]) == ConvertRecord(text)
            && c'.segments[i].pages[j].modified && FrameAt(c', i, j) == FrameAt(c, i, j)
  {
    hide Filled, ConvertRecord, FramesOk;
    var c' := Modify(c, i, j, text);
    forall a: nat, b: nat | PageAt(c', a, b) ensures PageAt(c, a, b) && KeyAt(c', a, b) == KeyAt(c, a, b) {
      if (a, b) != (i, j) { FramesApart(c, i, j, a, b); }
    }
  }

  // ---------- Adding a page ----------

  /** A page in a free frame, in an existing segment i or in a new segment at the end. */
  function Add(c: Cache, i: nat, name: string, frame: nat, text: string, modified: bool): Cache
    requires i <= |c.segments| && frame < |c.frames|
  {
    var page := Page(frame, modified);
    Cache(c.frames[frame := text],
          if i < |c.segments| then c.segments[i := Segment(c.segments[i].name, c.segments[i].pages + [page])]
          else c.segments + [Segment(name, [page])])
  }

  lemma AddKeeps(c: Cache, hole: Option<string>, i: nat, name: string, frame: nat, text: string, modified: bool)
    requires CacheOk(c, hole) && i == SegmentIndex(c.segments, name) && (hole == None || hole == Some(name))
    requires frame < |c.frames| && c.frames[frame] == NULL && Filled(text)
    requires Lookup(c, name, ConvertRecord(text).key) == None
    ensures CacheOk(Add(c, i, name, frame, text, modified), None)
    ensures Lookup(Add(c, i, name, frame, text, modified), name, ConvertRecord(text).key) == Some(Line(ConvertRecord(text), modified))
    ensures forall n: string, key: nat :: (n, key) != (name, ConvertRecord(text).key) ==>
              Lookup(Add(c, i, name, frame, text, modified), n, key) == Lookup(c, n, key)
  {
    hide Filled, ConvertRecord, Lookup, FramesOk, NamesOk, HasTwin, RecordIn, Used, SegmentIndex;
    var c' := Add(c, i, name, frame, text, modified);
    var j := if i < |c.segments| then |c.segments[i].pages| else 0;
    forall a: nat, b: nat | PageAt(c, a, b)
      ensures PageAt(c', a, b) && (a, b) != (i, j) && HasTwin(c, a, b, c') && HasTwin(c', a, b, c) && FrameAt(c', a, b) != frame
    {
      AddTwin(c, i, name, frame, text, modified, a, b);
    }
    forall a: nat, b: nat | PageAt(c', a, b) && (a, b) != (i, j) ensures PageAt(c, a, b) {}
    AddNames(c, hole, i, j, name, frame, text, modified);
    forall f: nat | f < |c'.frames| && c'.frames[f] != NULL ensures Used(c', f) {
      if f == frame { UsedHere(c', i, j); } else {
        var a, b := UserOf(c, f);
        TwinUses(c, a, b, c');
      }
    }
    FramesKept(c, c', None, i, j);
    LookupAt(c', None, i, j);
    forall n: string, key: nat | (n, key) != (name, ConvertRecord(text).key) ensures Lookup(c', n, key) == Lookup(c, n, key) {
      SameLookup(c, hole, c', None, n, key);
    }
  }

  lemma AddTwin(c: Cache, i: nat, name: string, frame: nat, text: string, modified: bool, a: nat, b: nat)
    requires FramesOk(c) && i <= |c.segments| && frame < |c.frames| && c.frames[frame] == NULL && PageAt(c, a, b)
    ensures var c' := Add(c, i, name, frame, text, modified);
            && PageAt(c', a, b) && (a == i ==> b < |c.segments[i].pages|)
            && HasTwin(c, a, b, c') && HasTwin(c', a, b, c) && FrameAt(c', a, b) != frame
  {
    hide FramesOk, Filled;
    var c' := Add(c, i, name, frame, text, modified);
    FilledAt(c, a, b);
    assert Twin(c, a, b, c', a, b) && Twin(c', a, b, c, a, b);
  }

  lemma AddNames(c: Cache, hole: Option<string>, i: nat, j: nat, name: string, frame: nat, text: string, modified: bool)
    requires CacheOk(c, hole) && i == SegmentIndex(c.segments, name) && (hole == None || hole == Some(name))
    requires frame < |c.frames| && c.frames[frame] == NULL && Lookup(c, name, ConvertRecord(text).key) == None
    requires j == if i < |c.segments| then |c.segments[i].pages| else 0
    ensures var c' := Add(c, i, name, frame, text, modified);
            && NamesOk(c', None) && PageAt(c', i, j) && c'.segments[i].name == name && FrameAt(c', i, j) == frame
            && KeyAt(c', i, j) == ConvertRecord(text).key && RecordIn(c'.frames, c'.segments[i].pages[j]) == ConvertRecord(text)
            && c'.segments[i].pages[j].modified == modified
  {
    hide Filled, ConvertRecord, FramesOk, Lookup, SegmentIndex;
    var c' := Add(c, i, name, frame, text, modified);
    forall a: nat, b: nat | PageAt(c', a, b) && (a, b) != (i, j)
      ensures PageAt(c, a, b) && KeyAt(c', a, b) == KeyAt(c, a, b) && (a == i ==> KeyAt(c, a, b) != ConvertRecord(text).key)
    {
      assert PageAt(c, a, b);
      FilledAt(c, a, b);
      if a == i { LookupAt(c, hole, a, b); }
    }
  }

  // ---------- Removing a page ----------

  function RemoveAt<T>(s: seq<T>, i: nat): seq<T>
    requires i < |s|
  {
    s[..i] + s[i + 1..]
  }

  function RemovePage(c: Cache, i: nat, j: nat): Cache
    requires PageAt(c, i, j) && FrameAt(c, i, j) < |c.frames|
  {
    var s := c.segments[i];
    Cache(c.frames[s.pages[j].frame := NULL], c.segments[i := Segment(s.name, RemoveAt(s.pages, j))])
  }

  /** Removing a page frees its frame and forgets its key; the segment may be left empty. */
  lemma RemovePageKeeps(c: Cache, i: nat, j: nat)
    requires CacheOk(c, None) && PageAt(c, i, j)
    ensures FrameAt(c, i, j) < |c.frames|
    ensures CacheOk(RemovePage(c, i, j), if |c.segments[i].pages| == 1 then Some(c.segments[i].name) else None)
    ensures Lookup(RemovePage(c, i, j), c.segments[i].name, KeyAt(c, i, j)) == None
    ensures forall name: string, key: nat :: (name, key) != (c.segments[i].name, KeyAt(c, i, j)) ==>
              Lookup(RemovePage(c, i, j), name, key) == Lookup(c, name, key)
  {
    hide Filled, ConvertRecord, Lookup, FramesOk, NamesOk, HasTwin, RecordIn, Used, RemoveAt;
    FilledAt(c, i, j);
    var c' := RemovePage(c, i, j);
    var hole := if |c.segments[i].pages| == 1 then Some(c.segments[i].name) else None;
    forall a: nat, b: nat | PageAt(c, a, b) && (a, b) != (i, j) ensures HasTwin(c, a, b, c') { RemoveTwin(c, i, j, a, b); }
    forall a: nat, b: nat | PageAt(c', a, b)
      ensures HasTwin(c', a, b, c) && (c'.segments[a].name, KeyAt(c', a, b)) != (c.segments[i].name, KeyAt(c, i, j))
    {
      KeptTwin(c, i, j, a, b);
    }
    RemoveNames(c, i, j);
    forall f: nat | f < |c'.frames| && c'.frames[f] != NULL ensures Used(c', f) {
      var a, b := UserOf(c, f);
      TwinUses(c, a, b, c');
    }
    FramesKept(c, c', hole, |c'.segments|, 0);
    NoLookup(c', c.segments[i].name, KeyAt(c, i, j));
    forall name: string, key: nat | (name, key) != (c.segments[i].name, KeyAt(c, i, j)) ensures Lookup(c', name, key) == Lookup(c, name, key) {
      SameLookup(c, None, c', hole, name, key);
    }
  }

  lemma RemoveTwin(c: Cache, i: nat, j: nat, a: nat, b: nat)
    requires FramesOk(c) && PageAt(c, i, j) && FrameAt(c, i, j) < |c.frames| && PageAt(c, a, b) && (a, b) != (i, j)
    ensures HasTwin(c, a, b, RemovePage(c, i, j))
  {
    hide FramesOk, Filled;
    FramesApart(c, i, j, a, b);
    FilledAt(c, a, b);
    assert Twin(c, a, b, RemovePage(c, i, j), a, if a == i && b > j then b - 1 else b);
  }

  lemma KeptTwin(c: Cache, i: nat, j: nat, a: nat, b: nat)
    requires CacheOk(c, None) && PageAt(c, i, j) && FrameAt(c, i, j) < |c.frames| && PageAt(RemovePage(c, i, j), a, b)
    ensures var c' := RemovePage(c, i, j);
            HasTwin(c', a, b, c) && (c'.segments[a].name, KeyAt(c', a, b)) != (c.segments[i].name, KeyAt(c, i, j))
  {
    hide FramesOk, Filled, NamesOk, RecordIn;
    var c' := RemovePage(c, i, j);
    var b' := if a == i && b >= j then b + 1 else b;
    assert PageAt(c, a, b') && c'.segments[a].pages[b] == c.segments[a].pages[b'];
    FramesApart(c, i, j, a, b');
    FilledAt(c, a, b');
    assert Twin(c', a, b, c, a, b');
    TwinFacts(c', a, b, c, a, b');
    KeysApart(c, None, i, j, a, b');
  }

  lemma KeysApart(c: Cache, hole: Option<string>, i: nat, j: nat, a: nat, b: nat)
    requires NamesOk(c, hole) && PageAt(c, i, j) && PageAt(c, a, b) && (a, b) != (i, j)
    ensures (c.segments[a].name, KeyAt(c, a, b)) != (c.segments[i].name, KeyAt(c, i, j))
  {
    hide RecordIn, NamesOk;
    if c.segments[a].name == c.segments[i].name && KeyAt(c, a, b) == KeyAt(c, i, j) { SameKey(c, hole, a, b, i, j); }
  }

  lemma RemoveNames(c: Cache, i: nat, j: nat)
    requires CacheOk(c, None) && PageAt(c, i, j) && FrameAt(c, i, j) < |c.frames|
    ensures NamesOk(RemovePage(c, i, j), if |c.segments[i].pages| == 1 then Some(c.segments[i].name) else None)
  {
    hide Filled, FramesOk, ConvertRecord;
    var c' := RemovePage(c, i, j);
    forall a: nat, b: nat | PageAt(c', a, b)
      ensures var b' := if a == i && b >= j then b + 1 else b; PageAt(c, a, b') && KeyAt(c', a, b) == KeyAt(c, a, b')
    {
      var b' := if a == i && b >= j then b + 1 else b;
      assert PageAt(c, a, b');
      FramesApart(c, i, j, a, b');
    }
  }

  // ---------- Removing a segment ----------

  /** The frames of the given pages become "null". */
  function Wipe(frames: seq<string>, pages: seq<Page>): (wiped: seq<string>)
    ensures |wiped| == |frames|
    ensures forall f :: 0 <= f < |frames| ==> wiped[f] == if (exists j :: 0 <= j < |pages| && pages[j].frame == f) then NULL else frames[f]
    decreases |pages|
  {
    if pages == [] then frames else
      var last := |pages| - 1;
      var before := Wipe(frames, pages[..last]);
      if pages[last].frame < |frames| then before[pages[last].frame := NULL] else before
  }

  function DropSegment(c: Cache, i: nat): Cache
    requires i < |c.segments|
  {
    Cache(Wipe(c.frames, c.segments[i].pages), RemoveAt(c.segments, i))
  }

  /** remove_segment frees the frames of one segment and forgets its keys. */
  lemma DropSegmentKeeps(c: Cache, hole: Option<string>, i: nat)
    requires CacheOk(c, hole) && i < |c.segments|
    ensures CacheOk(DropSegment(c, i), if hole == Some(c.segments[i].name) then None else hole)
    ensures forall name: string, key: nat ::
              Lookup(DropSegment(c, i), name, key) == if name == c.segments[i].name then None else Lookup(c, name, key)
  {
    hide Filled, ConvertRecord, Lookup, FramesOk, NamesOk, HasTwin, RecordIn, Used, DropSegment;
    var c' := DropSegment(c, i);
    var hole' := if hole == Some(c.segments[i].name) then None else hole;
    DropNames(c, hole, i);
    forall a: nat, b: nat | PageAt(c, a, b) && a != i ensures HasTwin(c, a, b, c') { DropTwin(c, i, a, b); }
    forall a: nat, b: nat | PageAt(c', a, b) ensures HasTwin(c', a, b, c) && c'.segments[a].name != c.segments[i].name {
      UndroppedTwin(c, hole, i, a, b);
    }
    forall f: nat | f < |c'.frames| && c'.frames[f] != NULL ensures Used(c', f) { StillUsed(c, i, f); }
    FramesKept(c, c', hole', |c'.segments|, 0);
    forall name: string, key: nat
      ensures Lookup(c', name, key) == if name == c.segments[i].name then None else Lookup(c, name, key)
    {
      if name == c.segments[i].name {
        NoLookup(c', name, key);
      } else {
        SameLookup(c, hole, c', hole', name, key);
      }
    }
  }

  lemma StillUsed(c: Cache, i: nat, f: nat)
    requires FramesOk(c) && i < |c.segments| && f < |c.frames| && DropSegment(c, i).frames[f] != NULL
    ensures Used(DropSegment(c, i), f)
  {
    hide FramesOk, Filled, Wipe, HasTwin, Used;
    assert c.frames[f] != NULL;
    var a, b := UserOf(c, f);
    assert a != i;
    DropTwin(c, i, a, b);
    TwinUses(c, a, b, DropSegment(c, i));
  }

  lemma KeptFrame(c: Cache, i: nat, a: nat, b: nat)
    requires FramesOk(c) && i < |c.segments| && PageAt(c, a, b) && a != i
    ensures FrameAt(c, a, b) < |c.frames| && Wipe(c.frames, c.segments[i].pages)[FrameAt(c, a, b)] == c.frames[FrameAt(c, a, b)]
  {
    hide Filled, Wipe, FramesOk;
    FilledAt(c, a, b);
    var pages := c.segments[i].pages;
    forall j | 0 <= j < |pages| ensures pages[j].frame != FrameAt(c, a, b) {
      FramesApart(c, i, j, a, b);
    }
  }

  lemma DropTwin(c: Cache, i: nat, a: nat, b: nat)
    requires FramesOk(c) && i < |c.segments| && PageAt(c, a, b) && a != i
    ensures HasTwin(c, a, b, DropSegment(c, i))
  {
    hide FramesOk, Wipe;
    KeptFrame(c, i, a, b);
    assert Twin(c, a, b, DropSegment(c, i), if a > i then a - 1 else a, b);
  }

  lemma UndroppedTwin(c: Cache, hole: Option<string>, i: nat, a: nat, b: nat)
    requires CacheOk(c, hole) && i < |c.segments| && PageAt(DropSegment(c, i), a, b)
    ensures var c' := DropSegment(c, i); HasTwin(c', a, b, c) && c'.segments[a].name != c.segments[i].name
  {
    hide FramesOk, Wipe, RecordIn;
    var c' := DropSegment(c, i);
    var a' := if a >= i then a + 1 else a;
    assert c'.segments[a] == c.segments[a'];
    KeptFrame(c, i, a', b);
    assert Twin(c', a, b, c, a', b);
  }

  lemma DropNames(c: Cache, hole: Option<string>, i: nat)
    requires CacheOk(c, hole) && i < |c.segments|
    ensures NamesOk(DropSegment(c, i), if hole == Some(c.segments[i].name) then None else hole) && |DropSegment(c, i).frames| == |c.frames|
  {
    hide Filled, FramesOk, ConvertRecord, Wipe;
    var c' := DropSegment(c, i);
    forall a: nat, b: nat | PageAt(c', a, b)
      ensures var a' := if a >= i then a + 1 else a; PageAt(c, a', b) && KeyAt(c', a, b) == KeyAt(c, a', b)
    {
      KeptFrame(c, i, if a >= i then a + 1 else a, b);
    }
    forall a | 0 <= a < |c'.segments| ensures c'.segments[a] == c.segments[if a >= i then a + 1 else a] {}
  }

  // ---------- Evicting ----------

  /** eliminate_page_instance_by_index: an emptied segment goes too, unless the new page is for it. */
  function Evict(c: Cache, i: nat, j: nat, table: string): Cache
    requires PageAt(c, i, j) && FrameAt(c, i, j) < |c.frames|
  {
    var c' := RemovePage(c, i, j);
    if |c.segments[i].pages| == 1 && c.segments[i].name != table then DropSegment(c', i) else c'
  }

  lemma EvictKeeps(c: Cache, i: nat, j: nat, table: string)
    requires CacheOk(c, None) && PageAt(c, i, j)
    ensures FrameAt(c, i, j) < |c.frames| && CacheOk(Evict(c, i, j, table), Some(table))
    ensures Evict(c, i, j, table).frames == c.frames[FrameAt(c, i, j) := NULL]
    ensures forall name: string, key: nat ::
              Lookup(Evict(c, i, j, table), name, key) ==
              if (name, key) == (c.segments[i].name, KeyAt(c, i, j)) then None else Lookup(c, name, key)
  {
    hide Filled, ConvertRecord, Lookup, Wipe;
    RemovePageKeeps(c, i, j);
    var c' := RemovePage(c, i, j);
    if |c.segments[i].pages| == 1 && c.segments[i].name != table {
      var hole := Some(c.segments[i].name);
      DropSegmentKeeps(c', hole, i);
      assert c'.segments[i].pages == [];
      WipeNothing(c'.frames);
      forall key: nat ensures Lookup(c', c.segments[i].name, key) == None { NoPages(c', i, key, hole); }
    }
  }

  lemma WipeNothing(frames: seq<string>)
    ensures Wipe(frames, []) == frames
  {
  }

  lemma NoPages(c: Cache, i: nat, key: nat, hole: Option<string>)
    requires CacheOk(c, hole) && i < |c.segments| && c.segments[i].pages == []
    ensures Lookup(c, c.segments[i].name, key) == None
  {
    hide Filled, ConvertRecord;
    assert SegmentIndex(c.segments, c.segments[i].name) == i;
  }

  /** An empty cache. */
  lemma Emptied(c: Cache)
    requires CacheOk(c, None) && c.segments == []
    ensures forall f :: 0 <= f < |c.frames| ==> c.frames[f] == NULL
    ensures forall name: string, key: nat :: Lookup(c, name, key) == None
  {
  }
}
