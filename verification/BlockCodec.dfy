/**
  The block codec. A block file is a run of NUL-terminated strings, here called cells. A text that does
  not fit the space left in a block is cut: the piece that fits is stored with a trailing line feed and
  the remainder continues at the start of the next block. Readers glue the pieces together again.
 */
module BlockCodec {
  import opened Options
  import opened Records

  /** The cells of every block of an archive, in order. */
  type Content = seq<seq<string>>

  // ---------- Files as cells ----------

  /** The bytes of a block file that holds the given cells. */
  function File(cells: seq<string>): string
  {
    if cells == [] then "" else cells[0] + [NUL] + File(cells[1..])
  }

  /** The cells of a block file. */
  function Cells(file: string): seq<string>
    decreases |file|
  {
    if file == "" then [] else
      var c := Until(file, NUL);
      if |c| == |file| then [c] else [c] + Cells(file[|c| + 1..])
  }

  lemma {:induction false} CellsOfFile(cells: seq<string>)
    requires forall i :: 0 <= i < |cells| ==> NUL !in cells[i]
    ensures Cells(File(cells)) == cells
  {
    hide Cells;
    if cells == [] {
      NoCells();
    } else {
      CellsOfFile(cells[1..]);
      CellsStep(cells[0], File(cells[1..]));
    }
  }

  lemma NoCells()
    ensures Cells("") == []
  {
  }

  lemma CellsStep(text: string, rest: string)
    requires NUL !in text
    ensures Cells(text + [NUL] + rest) == [text] + Cells(rest)
  {
    hide Until;
    UntilStops(text, NUL, rest);
    assert (text + [NUL] + rest)[|text| + 1..] == rest;
  }

  lemma {:induction false} FileConcat(a: seq<string>, b: seq<string>)
    ensures File(a + b) == File(a) + File(b)
  {
    if a == [] {
      assert a + b == b;
    } else {
      assert (a + b)[1..] == a[1..] + b;
      FileConcat(a[1..], b);
    }
  }

  /** Writing a string with its NUL at the end of a file adds one cell. */
  lemma FileAppend(cells: seq<string>, c: string)
    ensures File(cells + [c]) == File(cells) + c + [NUL]
  {
    FileConcat(cells, [c]);
    assert File([c]) == c + [NUL] + File([c][1..]);
  }

  // ---------- Fragments ----------

  predicate IsFragment(c: string) { c != "" && c[|c| - 1] == LF }

  /** A fragment without its line feed. */
  function Strip(c: string): string { if c == "" then "" else c[..|c| - 1] }

  predicate EndsOpen(block: seq<string>) { block != [] && IsFragment(block[|block| - 1]) }

  /** The text of the fragment at the end of a block. */
  function OpenText(block: seq<string>): string { if block == [] then "" else Strip(block[|block| - 1]) }

  function Flat(content: Content): seq<string>
  {
    if content == [] then [] else content[0] + Flat(content[1..])
  }

  lemma {:induction false} FlatConcat(a: Content, b: Content)
    ensures Flat(a + b) == Flat(a) + Flat(b)
  {
    if a == [] {
      assert a + b == b;
    } else {
      assert (a + b)[1..] == a[1..] + b;
      FlatConcat(a[1..], b);
    }
  }

  lemma FlatSnoc(a: Content, b: seq<string>)
    ensures Flat(a + [b]) == Flat(a) + b
  {
    FlatConcat(a, [b]);
    assert Flat([b]) == b + Flat([b][1..]);
  }

  /** The meaning of a run of cells: a fragment is joined with the cell after it. */
  function Glue(cells: seq<string>): seq<string>
    decreases |cells|
  {
    if cells == [] then []
    else if IsFragment(cells[0]) && |cells| > 1 then Glue([Strip(cells[0]) + cells[1]] + cells[2..])
    else [cells[0]] + Glue(cells[1..])
  }

  lemma {:induction false} GlueConcat(a: seq<string>, b: seq<string>)
    requires !EndsOpen(a)
    requires forall i :: 0 <= i < |a| ==> a[i] != ""
    ensures Glue(a + b) == Glue(a) + Glue(b)
    decreases |a|
  {
    if a == [] {
      assert a + b == b;
    } else if IsFragment(a[0]) {
      var joined := [Strip(a[0]) + a[1]] + a[2..];
      assert [Strip((a + b)[0]) + (a + b)[1]] + (a + b)[2..] == joined + b;
      GlueConcat(joined, b);
    } else {
      assert (a + b)[1..] == a[1..] + b;
      GlueConcat(a[1..], b);
    }
  }

  /** Cells that are no fragments are left alone. */
  lemma {:induction false} GlueWhole(a: seq<string>)
    requires forall i :: 0 <= i < |a| ==> !IsFragment(a[i])
    ensures Glue(a) == a
  {
    if a != [] { GlueWhole(a[1..]); }
  }

  // ---------- Well-formed archives ----------

  /** Cells are non-empty NUL-free strings that fit the readers' buffer; only the last may be a fragment. */
  predicate BlockOk(block: seq<string>, size: nat)
  {
    forall i :: 0 <= i < |block| ==>
      && block[i] != "" && NUL !in block[i] && |block[i]| + 1 <= size
      && (i + 1 < |block| ==> !IsFragment(block[i]))
  }

  /** Every fragment is continued in the next block of the archive. */
  predicate Continued(content: Content)
  {
    forall i :: 0 <= i < |content| && EndsOpen(content[i]) ==> i + 1 < |content| && content[i + 1] != []
  }

  predicate WellFormed(content: Content, size: nat)
  {
    (forall i :: 0 <= i < |content| ==> BlockOk(content[i], size)) && Continued(content)
  }

  lemma WellFormedConcat(a: Content, b: Content, size: nat)
    requires WellFormed(a, size) && WellFormed(b, size)
    ensures WellFormed(a + b, size)
  {
  }

  lemma {:induction false} FlatClosed(content: Content, size: nat)
    requires WellFormed(content, size)
    ensures !EndsOpen(Flat(content))
    ensures forall i :: 0 <= i < |Flat(content)| ==> Flat(content)[i] != ""
  {
    hide Flat, IsFragment;
    if content == [] {
      NothingFlat();
    } else {
      var last := |content| - 1;
      assert content[..last] + [content[last]] == content;
      FlatSnoc(content[..last], content[last]);
      if content[last] == [] {
        WithoutEmptyBlock(content, size);
        FlatClosed(content[..last], size);
      } else {
        FlatNonEmpty(content[..last], size);
      }
    }
  }

  lemma NothingFlat()
    ensures Flat([]) == []
  {
  }

  lemma WithoutEmptyBlock(content: Content, size: nat)
    requires WellFormed(content, size) && content != [] && content[|content| - 1] == []
    ensures WellFormed(content[..|content| - 1], size)
  {
    hide BlockOk, EndsOpen;
    var last := |content| - 1;
    forall i | 0 <= i < last && EndsOpen(content[i]) ensures i + 1 < last && content[i + 1] != [] {
      assert content[i + 1] != [];
    }
  }

  lemma {:induction false} FlatNonEmpty(content: Content, size: nat)
    requires forall i :: 0 <= i < |content| ==> BlockOk(content[i], size)
    ensures forall i :: 0 <= i < |Flat(content)| ==> Flat(content)[i] != ""
  {
    if content != [] { FlatNonEmpty(content[1..], size); }
  }

  /** Reading the blocks of several archives one after the other reads their texts one after the other. */
  lemma DecodeConcat(a: Content, b: Content, size: nat)
    requires WellFormed(a, size) && WellFormed(b, size)
    ensures WellFormed(a + b, size)
    ensures Glue(Flat(a + b)) == Glue(Flat(a)) + Glue(Flat(b))
  {
    WellFormedConcat(a, b, size);
    FlatConcat(a, b);
    FlatClosed(a, size);
    GlueConcat(Flat(a), Flat(b));
  }

  // ---------- The writer ----------

  /** Closed blocks, the open block and the space that the writer counts as left in it. */
  datatype Writer = Writer(closed: Content, cur: seq<string>, space: nat) {
    function All(): Content { closed + [cur] }
  }

  /** Stores one text, cutting it as often as needed. */
  function Put(w: Writer, s: string, capacity: nat): Writer
    requires w.space >= 2 && capacity >= 2
    decreases |s|
  {
    if |s| <= w.space then
      Writer(w.closed, w.cur + [s], w.space - |s|)
    else
      var piece := s[..w.space - 1] + [LF];
      Put(Writer(w.closed + [w.cur + [piece]], [], capacity), s[w.space - 1..], capacity)
  }

  /** A block with at most one character left is closed. */
  function Roll(w: Writer, capacity: nat): Writer
  {
    if w.space <= 1 then Writer(w.closed + [w.cur], [], capacity) else w
  }

  function PutAll(w: Writer, texts: seq<string>, capacity: nat): Writer
    requires w.space >= 2 && capacity >= 2
    decreases |texts|
  {
    if texts == [] then w else PutAll(Roll(Put(w, texts[0], capacity), capacity), texts[1..], capacity)
  }

  /** The blocks that the writer produces for a list of texts. */
  function Layout(texts: seq<string>, capacity: nat): Content
    requires capacity >= 2
  {
    PutAll(Writer([], [], capacity), texts, capacity).All()
  }

  function Used(block: seq<string>): nat
  {
    if block == [] then 0 else |block[0]| + Used(block[1..])
  }

  lemma {:induction false} UsedSnoc(block: seq<string>, c: string)
    ensures Used(block + [c]) == Used(block) + |c|
  {
    if block == [] {
      assert [] + [c] == [c] && [c][1..] == [];
    } else {
      assert (block + [c])[1..] == block[1..] + [c];
      UsedSnoc(block[1..], c);
    }
  }

  /** A closed block: at most one character is left, and none if its last text was cut. */
  predicate IsFull(block: seq<string>, capacity: nat)
  {
    capacity - 1 <= Used(block) <= capacity && (EndsOpen(block) ==> Used(block) == capacity)
  }

  /** What the writer maintains while it is cutting a text. */
  predicate Shape(w: Writer, capacity: nat, size: nat)
  {
    && (forall i :: 0 <= i < |w.closed| ==> BlockOk(w.closed[i], size) && IsFull(w.closed[i], capacity))
    && BlockOk(w.cur, size) && !EndsOpen(w.cur) && Used(w.cur) + w.space == capacity
    && (forall i :: 0 <= i < |w.closed| - 1 && EndsOpen(w.closed[i]) ==> w.closed[i + 1] != [])
  }

  predicate Followed(w: Writer)
  {
    w.closed != [] && EndsOpen(w.closed[|w.closed| - 1]) ==> w.cur != []
  }

  predicate Text(s: string, size: nat)
  {
    s != "" && LF !in s && NUL !in s && |s| + 1 <= size
  }

  lemma {:induction false} PutShape(w: Writer, s: string, capacity: nat, size: nat)
    requires w.space >= 2 && capacity >= 2 && Text(s, size) && Shape(w, capacity, size)
    ensures Shape(Put(w, s, capacity), capacity, size) && Followed(Put(w, s, capacity))
    decreases |s|
  {
    hide Shape, Followed;
    if |s| <= w.space {
      ShapeWhole(w, s, capacity, size);
    } else {
      ShapeCut(w, s, capacity, size);
      PutShape(Writer(w.closed + [w.cur + [s[..w.space - 1] + [LF]]], [], capacity), s[w.space - 1..], capacity, size);
    }
  }

  lemma ShapeWhole(w: Writer, s: string, capacity: nat, size: nat)
    requires Text(s, size) && Shape(w, capacity, size) && |s| <= w.space
    ensures var w' := Writer(w.closed, w.cur + [s], w.space - |s|); Shape(w', capacity, size) && Followed(w')
  {
    hide Used;
    UsedSnoc(w.cur, s);
  }

  lemma ShapeCut(w: Writer, s: string, capacity: nat, size: nat)
    requires w.space >= 2 && Text(s, size) && Shape(w, capacity, size) && |s| > w.space
    ensures Shape(Writer(w.closed + [w.cur + [s[..w.space - 1] + [LF]]], [], capacity), capacity, size) && Text(s[w.space - 1..], size)
  {
    hide Used;
    var piece := s[..w.space - 1] + [LF];
    UsedSnoc(w.cur, piece);
    NothingUsed();
    assert BlockOk(w.cur + [piece], size);
  }

  lemma NothingUsed()
    ensures Used([]) == 0
  {
  }

  /** The cells that Put adds, block boundaries apart. */
  function Pieces(s: string, space: nat, capacity: nat): (p: seq<string>)
    requires space >= 2 && capacity >= 2
    ensures |p| > 0
    decreases |s|
  {
    if |s| <= space then [s] else [s[..space - 1] + [LF]] + Pieces(s[space - 1..], capacity, capacity)
  }

  lemma {:induction false} PutAddsPieces(w: Writer, s: string, capacity: nat)
    requires w.space >= 2 && capacity >= 2
    ensures Flat(Put(w, s, capacity).All()) == Flat(w.All()) + Pieces(s, w.space, capacity)
    decreases |s|
  {
    FlatSnoc(w.closed, w.cur);
    if |s| <= w.space {
      FlatSnoc(w.closed, w.cur + [s]);
    } else {
      var block := w.cur + [s[..w.space - 1] + [LF]];
      var next := Writer(w.closed + [block], [], capacity);
      FlatSnoc(w.closed, block);
      FlatSnoc(next.closed, []);
      PutAddsPieces(next, s[w.space - 1..], capacity);
    }
  }

  /** Gluing the pieces of a text, after any text already glued to its front, gives the text back. */
  lemma {:induction false} GluePieces(front: string, s: string, space: nat, capacity: nat, rest: seq<string>)
    requires space >= 2 && capacity >= 2 && s != "" && LF !in s
    ensures var p := Pieces(s, space, capacity);
            Glue([front + p[0]] + p[1..] + rest) == [front + s] + Glue(rest)
    decreases |s|
  {
    var p := Pieces(s, space, capacity);
    var cells := [front + p[0]] + p[1..] + rest;
    if |s| <= space {
      assert cells == [front + s] + rest;
      assert !IsFragment(front + s) by { assert (front + s)[|front + s| - 1] == s[|s| - 1]; }
    } else {
      var tail := Pieces(s[space - 1..], capacity, capacity);
      var front' := front + s[..space - 1];
      assert p == [s[..space - 1] + [LF]] + tail;
      assert IsFragment(cells[0]) && Strip(cells[0]) == front';
      assert [Strip(cells[0]) + cells[1]] + cells[2..] == [front' + tail[0]] + tail[1..] + rest;
      GluePieces(front', s[space - 1..], capacity, capacity, rest);
      assert front' + s[space - 1..] == front + s;
    }
  }

  predicate Ready(w: Writer, capacity: nat, size: nat)
  {
    w.space >= 2 && Shape(w, capacity, size) && Followed(w)
  }

  lemma ReadyIsWellFormed(w: Writer, capacity: nat, size: nat)
    requires Shape(w, capacity, size) && Followed(w)
    ensures WellFormed(w.All(), size)
  {
    forall i | 0 <= i < |w.All()| && EndsOpen(w.All()[i]) ensures i + 1 < |w.All()| && w.All()[i + 1] != [] {
      if i + 1 < |w.closed| { assert w.All()[i + 1] == w.closed[i + 1]; }
    }
  }

  /** Closing a full block adds no cell. */
  lemma RollReady(put: Writer, capacity: nat, size: nat)
    requires capacity >= 2 && Shape(put, capacity, size) && Followed(put)
    ensures Ready(Roll(put, capacity), capacity, size)
    ensures Flat(Roll(put, capacity).All()) == Flat(put.All())
  {
    if put.space <= 1 {
      var w' := Roll(put, capacity);
      FlatSnoc(put.All(), []);
      assert w'.All() == put.All() + [[]];
      forall i | 0 <= i < |w'.closed| - 1 && EndsOpen(w'.closed[i]) ensures w'.closed[i + 1] != [] {
        assert w'.closed[i] == put.closed[i];
      }
    }
  }

  /** One record of the writer's loop: the texts glued from the blocks grow by exactly that text. */
  lemma PutOne(w: Writer, s: string, capacity: nat, size: nat)
    requires capacity >= 2 && Ready(w, capacity, size) && Text(s, size)
    ensures Ready(Roll(Put(w, s, capacity), capacity), capacity, size)
    ensures Glue(Flat(Roll(Put(w, s, capacity), capacity).All())) == Glue(Flat(w.All())) + [s]
  {
    PutShape(w, s, capacity, size);
    RollReady(Put(w, s, capacity), capacity, size);
    PutAddsPieces(w, s, capacity);
    ReadyIsWellFormed(w, capacity, size);
    FlatClosed(w.All(), size);
    GlueAddsPieces(Flat(w.All()), s, w.space, capacity);
  }

  lemma GlueAddsPieces(cells: seq<string>, s: string, space: nat, capacity: nat)
    requires space >= 2 && capacity >= 2 && s != "" && LF !in s
    requires !EndsOpen(cells) && forall i :: 0 <= i < |cells| ==> cells[i] != ""
    ensures Glue(cells + Pieces(s, space, capacity)) == Glue(cells) + [s]
  {
    GlueConcat(cells, Pieces(s, space, capacity));
    GlueOfPieces(s, space, capacity);
  }

  lemma GlueOfPieces(s: string, space: nat, capacity: nat)
    requires space >= 2 && capacity >= 2 && s != "" && LF !in s
    ensures Glue(Pieces(s, space, capacity)) == [s]
  {
    var p := Pieces(s, space, capacity);
    calc {
      Glue(p);
      { assert p == ["" + p[0]] + p[1..] + [] by { assert "" + p[0] == p[0]; } }
      Glue(["" + p[0]] + p[1..] + []);
      { GluePieces("", s, space, capacity, []); }
      ["" + s] + Glue([]);
      { assert "" + s == s; }
      [s];
    }
  }

  lemma {:induction false} PutAllRoundTrip(w: Writer, texts: seq<string>, capacity: nat, size: nat)
    requires capacity >= 2 && Ready(w, capacity, size)
    requires forall i :: 0 <= i < |texts| ==> Text(texts[i], size)
    ensures Ready(PutAll(w, texts, capacity), capacity, size)
    ensures Glue(Flat(PutAll(w, texts, capacity).All())) == Glue(Flat(w.All())) + texts
    decreases |texts|
  {
    if texts == [] {
      assert Glue(Flat(w.All())) + texts == Glue(Flat(w.All()));
    } else {
      PutOne(w, texts[0], capacity, size);
      PutAllRoundTrip(Roll(Put(w, texts[0], capacity), capacity), texts[1..], capacity, size);
      assert Glue(Flat(w.All())) + [texts[0]] + texts[1..] == Glue(Flat(w.All())) + texts;
    }
  }

  /** What was written is read back, in order, and no block holds more characters than its capacity. */
  lemma RoundTrip(texts: seq<string>, capacity: nat, size: nat)
    requires capacity >= 2
    requires forall i :: 0 <= i < |texts| ==> Text(texts[i], size)
    ensures WellFormed(Layout(texts, capacity), size)
    ensures Glue(Flat(Layout(texts, capacity))) == texts
    ensures forall i :: 0 <= i < |Layout(texts, capacity)| - 1 ==> IsFull(Layout(texts, capacity)[i], capacity)
    ensures Layout(texts, capacity) != [] && Used(Layout(texts, capacity)[|Layout(texts, capacity)| - 1]) <= capacity - 2
  {
    hide Glue, PutAll, Text;
    var w := Writer([], [], capacity);
    GlueWhole([]);
    PutAllRoundTrip(w, texts, capacity, size);
    FlatSnoc([], []);
    assert w.All() == [[]];
    ReadyIsWellFormed(PutAll(w, texts, capacity), capacity, size);
    assert [] + texts == texts;
  }

  // ---------- Groups: what one round of a reader's outer loop sees ----------

  /** The whole cells of a block and the text glued from its final fragment, if it has one. */
  datatype Group = Group(whole: seq<string>, glued: Option<string>)

  /** Follows a fragment into the next blocks; gives the text and what is still to be read. */
  function Follow(front: string, content: Content): (r: (string, Content))
    ensures |r.1| <= |content|
    decreases |content|
  {
    if content == [] || content[0] == [] then (front, content)
    else
      var s := front + content[0][0];
      if IsFragment(s) then Follow(Strip(s), content[1..]) else (s, [content[0][1..]] + content[1..])
  }

  function Groups(content: Content): seq<Group>
    decreases |content|
  {
    if content == [] then []
    else if !EndsOpen(content[0]) then [Group(content[0], None)] + Groups(content[1..])
    else
      var followed := Follow(OpenText(content[0]), content[1..]);
      [Group(content[0][..|content[0]| - 1], Some(followed.0))] + Groups(followed.1)
  }

  lemma {:induction false} FollowWellFormed(front: string, content: Content, size: nat)
    requires WellFormed(content, size)
    ensures WellFormed(Follow(front, content).1, size)
    decreases |content|
  {
    if content != [] && content[0] != [] {
      var s := front + content[0][0];
      if IsFragment(s) { FollowWellFormed(Strip(s), content[1..], size); }
    }
  }

  function GroupTexts(g: Group): seq<string>
  {
    match g.glued
    case Some(s) => g.whole + [s]
    case None => g.whole
  }

  function Ungroup(gs: seq<Group>): seq<string>
  {
    if gs == [] then [] else GroupTexts(gs[0]) + Ungroup(gs[1..])
  }

  lemma {:induction false} FollowGlue(front: string, content: Content, size: nat)
    requires WellFormed(content, size) && content != [] && content[0] != []
    ensures var flat := Flat(content);
            flat != [] &&
            Glue([front + flat[0]] + flat[1..]) ==
              [Follow(front, content).0] + Glue(Flat(Follow(front, content).1))
    decreases |content|
  {
    var flat := Flat(content);
    var s := front + content[0][0];
    var cells := [s] + flat[1..];
    if IsFragment(s) {
      assert s[|s| - 1] == content[0][0][|content[0][0]| - 1];
      assert EndsOpen(content[0]);
      var next := Flat(content[1..]);
      assert |content[0]| == 1;
      assert flat[1..] == next;
      assert next != [];
      assert [Strip(cells[0]) + cells[1]] + cells[2..] == [Strip(s) + next[0]] + next[1..];
      FollowGlue(Strip(s), content[1..], size);
    } else {
      var rest := [content[0][1..]] + content[1..];
      assert rest[1..] == content[1..];
      assert cells[1..] == Flat(rest);
    }
  }

  /** The readers' grouping has the meaning of the archive. */
  lemma {:induction false} GroupsMeaning(content: Content, size: nat)
    requires WellFormed(content, size)
    ensures Ungroup(Groups(content)) == Glue(Flat(content))
    decreases |content|
  {
    hide Glue, Follow, IsFragment, Strip;
    if content == [] {
      GlueWhole([]);
    } else if !EndsOpen(content[0]) {
      GroupsMeaning(content[1..], size);
      ClosedBlockGlue(content, size);
    } else {
      FollowWellFormed(OpenText(content[0]), content[1..], size);
      GroupsMeaning(Follow(OpenText(content[0]), content[1..]).1, size);
      OpenFirstBlock(content, size);
    }
  }

  lemma ClosedBlockGlue(content: Content, size: nat)
    requires WellFormed(content, size) && content != [] && !EndsOpen(content[0])
    ensures Glue(Flat(content)) == content[0] + Glue(Flat(content[1..]))
  {
    hide Glue;
    GlueWhole(content[0]);
    GlueConcat(content[0], Flat(content[1..]));
  }

  lemma OpenFirstBlock(content: Content, size: nat)
    requires WellFormed(content, size) && content != [] && EndsOpen(content[0])
    ensures var followed := Follow(OpenText(content[0]), content[1..]);
            Glue(Flat(content)) == content[0][..|content[0]| - 1] + [followed.0] + Glue(Flat(followed.1))
  {
    hide Glue, Follow;
    var last := |content[0]| - 1;
    OpenBlockGlue(content[0][..last], content[0][last], content[1..], size);
    assert content[0] == content[0][..last] + [content[0][last]];
  }

  /** One step of gluing. */
  lemma GlueOpen(open: string, next: seq<string>)
    requires IsFragment(open) && next != []
    ensures Glue([open] + next) == Glue([Strip(open) + next[0]] + next[1..])
  {
    assert ([open] + next)[2..] == next[1..];
  }

  lemma WholeIsClosed(whole: seq<string>)
    requires forall i :: 0 <= i < |whole| ==> !IsFragment(whole[i])
    ensures !EndsOpen(whole)
  {
  }

  lemma OpenBlockGlue(whole: seq<string>, open: string, content: Content, size: nat)
    requires WellFormed(content, size) && content != [] && content[0] != []
    requires IsFragment(open)
    requires forall i :: 0 <= i < |whole| ==> !IsFragment(whole[i]) && whole[i] != ""
    ensures var followed := Follow(Strip(open), content);
            Glue(whole + [open] + Flat(content)) == whole + [followed.0] + Glue(Flat(followed.1))
  {
    hide Follow, Flat, WellFormed, IsFragment, Strip, Glue;
    var next, followed := Flat(content), Follow(Strip(open), content);
    FollowGlue(Strip(open), content, size);
    GlueWhole(whole);
    GlueOpen(open, next);
    WholeIsClosed(whole);
    GlueConcat(whole, [open] + next);
    assert whole + [open] + next == whole + ([open] + next);
    assert whole + [followed.0] + Glue(Flat(followed.1)) == whole + ([followed.0] + Glue(Flat(followed.1)));
  }

  // ---------- Reading a block through a fixed buffer ----------

  /** What fread delivers for a request of n bytes at the given position. */
  function Window(file: string, pos: nat, n: nat): (w: string)
    ensures |w| <= n
  {
    if pos >= |file| then "" else if pos + n <= |file| then file[pos..pos + n] else file[pos..]
  }

  /** fread leaves the bytes beyond a short read as they were. */
  function Overwrite(buffer: string, window: string): (b: string)
    requires |window| <= |buffer|
    ensures |b| == |buffer|
  {
    window + buffer[|window|..]
  }

  function Offset(cells: seq<string>, j: nat): nat
    requires j <= |cells|
  {
    |File(cells[..j])|
  }

  lemma FileAt(cells: seq<string>, j: nat)
    requires j < |cells|
    ensures Offset(cells, j) + |cells[j]| + 1 <= |File(cells)|
    ensures File(cells)[Offset(cells, j)..Offset(cells, j) + |cells[j]| + 1] == cells[j] + [NUL]
    ensures Offset(cells, j + 1) == Offset(cells, j) + |cells[j]| + 1
  {
    hide File;
    FileParts(cells, j);
    Middle(File(cells[..j]), cells[j] + [NUL], File(cells[j + 1..]));
    assert cells[..j + 1] == cells[..j] + [cells[j]];
    FileAppend(cells[..j], cells[j]);
  }

  lemma Middle(a: string, b: string, c: string)
    ensures |a| + |b| <= |a + b + c| && (a + b + c)[|a|..|a| + |b|] == b
  {
  }

  lemma FileParts(cells: seq<string>, j: nat)
    requires j < |cells|
    ensures File(cells) == File(cells[..j]) + (cells[j] + [NUL]) + File(cells[j + 1..])
  {
    hide File;
    assert cells == cells[..j] + cells[j..];
    FileConcat(cells[..j], cells[j..]);
    FirstCell(cells[j..]);
    assert cells[j..][1..] == cells[j + 1..];
  }

  lemma FirstCell(cells: seq<string>)
    requires cells != []
    ensures File(cells) == (cells[0] + [NUL]) + File(cells[1..])
  {
  }

  /** A buffer large enough shows exactly the cell that starts at the file position. */
  lemma ReadCell(cells: seq<string>, j: nat, n: nat, buffer: string)
    requires j < |cells| && NUL !in cells[j] && |cells[j]| + 1 <= n <= |buffer|
    ensures var w := Window(File(cells), Offset(cells, j), n);
            |w| > 0 && Until(Overwrite(buffer, w), NUL) == cells[j]
    ensures Offset(cells, j + 1) == Offset(cells, j) + |cells[j]| + 1
  {
    FileAt(cells, j);
    var w := Window(File(cells), Offset(cells, j), n);
    var b := Overwrite(buffer, w);
    assert w[..|cells[j]| + 1] == cells[j] + [NUL];
    assert b == cells[j] + [NUL] + b[|cells[j]| + 1..];
    UntilStops(cells[j], NUL, b[|cells[j]| + 1..]);
  }

  lemma ReadEnd(cells: seq<string>, size: nat)
    ensures Window(File(cells), Offset(cells, |cells|), size) == ""
  {
    assert cells[..|cells|] == cells;
  }

  function Convert(texts: seq<string>): (rs: seq<Record>)
    ensures |rs| == |texts|
  {
    seq(|texts|, i requires 0 <= i < |texts| => ConvertRecord(texts[i]))
  }

  /** The texts of a list of records, as convert_to_tkv prints them. */
  function EncodeAll(rs: seq<Record>): (texts: seq<string>)
    ensures |texts| == |rs|
  {
    seq(|rs|, i requires 0 <= i < |rs| => Encode(rs[i]))
  }

  lemma ConvertConcat(a: seq<string>, b: seq<string>)
    ensures Convert(a + b) == Convert(a) + Convert(b)
  {
  }

  function WholePart(cells: seq<string>): seq<string>
  {
    if EndsOpen(cells) then cells[..|cells| - 1] else cells
  }

  /** The cells that a reader has to take from a block whose first cell it may already have consumed. */
  function Unread(cells: seq<string>, index: bool): seq<string>
  {
    if index && cells != [] then cells[1..] else cells
  }

  /** One fread of the readers' loops, at the file position that fseek left. */
  method ReadNext(file: string, pointer: nat, size: nat, buffer: string, ghost cells: seq<string>, ghost j: nat)
    returns (filled: string, text: string, lecture: nat)
    requires file == File(cells) && BlockOk(cells, size) && |buffer| == size
    requires j <= |cells| && pointer == Offset(cells, j)
    ensures |filled| == size && text == Until(filled, NUL)
    ensures lecture == 0 <==> j == |cells|
    ensures text == if j < |cells| then cells[j] else Until(buffer, NUL)
    ensures j < |cells| ==> pointer + |text| + 1 == Offset(cells, j + 1)
  {
    var window := Window(file, pointer, size);
    filled := Overwrite(buffer, window);
    text, lecture := Until(filled, NUL), |window|;
    if j < |cells| {
      ReadCell(cells, j, size, buffer);
    } else {
      ReadEnd(cells, size);
      assert filled == buffer;
    }
  }

  /** A reader enters a block at its start, or after a first cell that ended the previous text. */
  predicate Entry(cells: seq<string>, index: bool, incompleteSize: nat)
  {
    index ==> cells != [] && !IsFragment(cells[0]) && incompleteSize == |cells[0]| + 1
  }

  /** The readers' buffer at the start of a block: zeroed, or holding the continuation just skipped. */
  method OpenBlock(file: string, index: bool, incompleteSize: nat, size: nat, ghost cells: seq<string>)
    returns (buffer: string, pointer: nat, ghost j: nat)
    requires file == File(cells) && BlockOk(cells, size)
    requires Entry(cells, index, incompleteSize)
    ensures |buffer| == size && !IsFragment(Until(buffer, NUL))
    ensures j <= |cells| && pointer == Offset(cells, j) && cells[j..] == Unread(cells, index)
  {
    buffer, pointer, j := seq(size, _ => NUL), 0, 0;
    if index {
      ReadCell(cells, 0, incompleteSize, buffer);
      buffer := Overwrite(buffer, Window(file, 0, incompleteSize));
      pointer, j := incompleteSize, 1;
    } else {
      assert Until(buffer, NUL) == "";
    }
  }

  lemma WholeCells(cells: seq<string>, first: nat, j: nat, size: nat)
    requires BlockOk(cells, size) && first <= j <= |cells|
    requires j == |cells| ==> !EndsOpen(cells[first..])
    requires j < |cells| ==> IsFragment(cells[j])
    ensures WholePart(cells[first..]) == cells[first..j]
    ensures EndsOpen(cells[first..]) <==> j < |cells|
    ensures j < |cells| ==> j == |cells| - 1
  {
  }

  /**
    add_records_from_block. The buffer keeps stale bytes between reads, and end of file shows only as a
    read of zero bytes, because fseek clears the flag that the loop tests.
   */
  method AddRecordsFromBlock(file: string, index: bool, incompleteSize: nat, size: nat, tkvs: seq<string>,
                             ghost cells: seq<string>)
    returns (texts: seq<string>, found: string, incomplete: bool)
    requires file == File(cells) && BlockOk(cells, size)
    requires Entry(cells, index, incompleteSize)
    ensures incomplete == EndsOpen(Unread(cells, index))
    ensures texts == tkvs + WholePart(Unread(cells, index))
    ensures incomplete ==> found == OpenText(cells)
  {
    hide File, Until, Offset, BlockOk, WholePart, Strip, Entry;
    found, incomplete, texts := "-1;-1;-1", false, tkvs;
    var buffer, pointer, text, lecture;
    ghost var j;
    buffer, pointer, j := OpenBlock(file, index, incompleteSize, size, cells);
    ghost var first := j;
    while true
      invariant first <= j <= |cells| && pointer == Offset(cells, j) && |buffer| == size
      invariant !IsFragment(Until(buffer, NUL))
      invariant texts == tkvs + cells[first..j]
      invariant first < j ==> !IsFragment(cells[j - 1])
      decreases |cells| - j
    {
      buffer, text, lecture := ReadNext(file, pointer, size, buffer, cells, j);
      pointer := pointer + |text| + 1;
      if IsFragment(text) {
        found, incomplete := Strip(text), true;
        break;
      }
      if lecture == 0 {
        break;
      }
      assert cells[first..j + 1] == cells[first..j] + [text];
      texts := texts + [text];
      j := j + 1;
    }
    WholeCells(cells, first, j, size);
  }

  /** read_first_tkv_in_block; the buffer comes from malloc, so its old bytes are arbitrary. */
  method ReadFirstTkvInBlock(file: string, size: nat, garbage: string, ghost cells: seq<string>) returns (text: string)
    requires file == File(cells) && BlockOk(cells, size) && cells != [] && |garbage| == size
    ensures text == cells[0]
  {
    ReadCell(cells, 0, size, garbage);
    text := Until(Overwrite(garbage, Window(file, 0, size)), NUL);
  }

  /** The blocks of an archive hold the given cells. */
  predicate Holds(files: seq<string>, content: Content)
  {
    |files| == |content| && forall i :: 0 <= i < |files| ==> files[i] == File(content[i])
  }

  /** What a reader at block i, that may have consumed its first cell, still has to read. */
  function Suffix(content: Content, i: nat, index: bool): Content
  {
    if i >= |content| then [] else
      [Unread(content[i], index)] + content[i + 1..]
  }

  /** A reader's position: block i, with its first cell consumed when index is set. */
  predicate At(content: Content, i: nat, index: bool, incompleteSize: nat)
  {
    if i < |content| then Entry(content[i], index, incompleteSize) else i == |content| && !index
  }

  /** What a reader knows when it opens block i. */
  lemma AtBlock(files: seq<string>, content: Content, i: nat, index: bool, incompleteSize: nat, size: nat)
    requires Holds(files, content) && WellFormed(content, size) && i < |content| && At(content, i, index, incompleteSize)
    ensures |files| == |content| && files[i] == File(content[i]) && BlockOk(content[i], size) && Entry(content[i], index, incompleteSize)
    ensures EndsOpen(Unread(content[i], index)) ==> EndsOpen(content[i])
    ensures At(content, i + 1, false, incompleteSize)
  {
  }

  /** The block after one that ends open. */
  lemma NextBlock(files: seq<string>, content: Content, i: nat, size: nat)
    requires Holds(files, content) && WellFormed(content, size) && i < |content| && EndsOpen(content[i])
    ensures |files| == |content| && i + 1 < |content| && content[i + 1] != []
    ensures files[i + 1] == File(content[i + 1]) && BlockOk(content[i + 1], size)
  {
    hide File, BlockOk;
  }

  /** Reading one more continuation of a text. */
  lemma FollowStep(text: string, content: Content, i: nat, size: nat)
    requires WellFormed(content, size) && i + 1 < |content| && content[i + 1] != [] && EndsOpen(content[i])
    ensures var s := text + content[i + 1][0];
            if IsFragment(s) then
              EndsOpen(content[i + 1]) && Follow(text, content[i + 1..]) == Follow(Strip(s), content[i + 2..])
            else
              Follow(text, content[i + 1..]) == (s, Suffix(content, i + 1, true)) && At(content, i + 1, true, |content[i + 1][0]| + 1)
  {
    var s, first := text + content[i + 1][0], content[i + 1][0];
    assert first != "" && s[|s| - 1] == first[|first| - 1];
    assert content[i + 1..][1..] == content[i + 2..];
  }


  /** The inner loop of both readers: follows a fragment from block i. */
  method FollowFragment(files: seq<string>, start: nat, front: string, size: nat, garbage: string, ghost content: Content)
    returns (text: string, i: nat, incompleteSize: nat)
    requires Holds(files, content) && WellFormed(content, size) && |garbage| == size
    requires start < |content| && EndsOpen(content[start])
    ensures start <= i && At(content, i + 1, true, incompleteSize)
    ensures Follow(front, content[start + 1..]) == (text, Suffix(content, i + 1, true))
  {
    hide File, Holds, BlockOk, WellFormed, Strip, At, Suffix, Follow;
    text, i := front, start;
    var incomplete := true;
    incompleteSize := 0;
    while incomplete
      invariant start <= i < |content|
      invariant incomplete ==> EndsOpen(content[i])
      invariant incomplete ==> Follow(front, content[start + 1..]) == Follow(text, content[i + 1..])
      invariant !incomplete ==> At(content, i + 1, true, incompleteSize)
      invariant !incomplete ==> Follow(front, content[start + 1..]) == (text, Suffix(content, i + 1, true))
      decreases incomplete, |content| - i
    {
      incomplete := false;
      NextBlock(files, content, i, size);
      FollowStep(text, content, i, size);
      var continuation := ReadFirstTkvInBlock(files[i + 1], size, garbage, content[i + 1]);
      incompleteSize := |continuation| + 1;
      text := text + continuation;
      if IsFragment(text) {
        text := Strip(text);
        incomplete := true;
        i := i + 1;
      }
    }
  }

  /** One round of a reader's outer loop takes one group. */
  lemma NextGroup(content: Content, i: nat, index: bool)
    requires i < |content|
    ensures var rest, unread := Suffix(content, i, index), Unread(content[i], index);
            if EndsOpen(unread) then
              var followed := Follow(OpenText(content[i]), content[i + 1..]);
              Groups(rest) == [Group(WholePart(unread), Some(followed.0))] + Groups(followed.1)
            else
              Groups(rest) == [Group(WholePart(unread), None)] + Groups(Suffix(content, i + 1, false))
  {
    hide Follow, Groups, Strip;
    var rest, unread := Suffix(content, i, index), Unread(content[i], index);
    assert rest[0] == unread && rest[1..] == content[i + 1..];
    assert content[i + 1..] == Suffix(content, i + 1, false);
    FirstGroup(rest);
    if EndsOpen(unread) { assert OpenText(unread) == OpenText(content[i]); }
  }

  lemma FirstGroup(content: Content)
    requires content != []
    ensures if EndsOpen(content[0]) then
              var followed := Follow(OpenText(content[0]), content[1..]);
              Groups(content) == [Group(WholePart(content[0]), Some(followed.0))] + Groups(followed.1)
            else
              Groups(content) == [Group(WholePart(content[0]), None)] + Groups(content[1..])
  {
    hide Follow, Strip, IsFragment;
  }

  ghost function Remaining(content: Content, i: nat, index: bool): seq<string>
  {
    Ungroup(Groups(Suffix(content, i, index)))
  }

  lemma RemainingIs(content: Content, i: nat, index: bool)
    ensures Remaining(content, i, index) == Ungroup(Groups(Suffix(content, i, index)))
  {
  }

  lemma RemainingStep(content: Content, i: nat, index: bool)
    requires i < |content|
    ensures var unread := Unread(content[i], index);
            Remaining(content, i, index) ==
            if EndsOpen(unread) then
              var followed := Follow(OpenText(content[i]), content[i + 1..]);
              WholePart(unread) + [followed.0] + Ungroup(Groups(followed.1))
            else
              WholePart(unread) + Remaining(content, i + 1, false)
  {
    NextGroup(content, i, index);
  }

  lemma Regroup<T>(a: seq<T>, b: seq<T>, c: seq<T>, d: seq<T>)
    ensures a + (b + c + d) == a + b + c + d
    ensures a + (b + d) == a + b + d
  {
  }

  /** One round of create_tkv_list's loop. */
  method DecodeRound(files: seq<string>, i: nat, index: bool, incompleteSize: nat, size: nat, garbage: string,
                     tkvs: seq<string>, ghost content: Content)
    returns (tkvs': seq<string>, i': nat, index': bool, incompleteSize': nat)
    requires Holds(files, content) && WellFormed(content, size) && |garbage| == size
    requires i < |content| && At(content, i, index, incompleteSize)
    ensures i < i' && At(content, i', index', incompleteSize')
    ensures tkvs' + Remaining(content, i', index') == tkvs + Remaining(content, i, index)
  {
    hide *;
    AtBlock(files, content, i, index, incompleteSize, size);
    RemainingStep(content, i, index);
    ghost var before, whole := Remaining(content, i, index), WholePart(Unread(content[i], index));
    var found, incomplete;
    tkvs', found, incomplete := AddRecordsFromBlock(files[i], index, incompleteSize, size, tkvs, content[i]);
    if incomplete {
      var text;
      text, i', incompleteSize' := FollowFragment(files, i, found, size, garbage, content);
      i', index' := i' + 1, true;
      RemainingIs(content, i', true);
      ghost var rest := Remaining(content, i', true);
      assert before == whole + [text] + rest;
      Regroup(tkvs, whole, [text], rest);
      tkvs' := tkvs' + [text];
    } else {
      i', index', incompleteSize' := i + 1, false, incompleteSize;
      ghost var rest := Remaining(content, i', false);
      assert before == whole + rest;
      Regroup(tkvs, whole, [], rest);
    }
  }

  /** create_tkv_list: decodes a whole archive. Each text is converted to a record as it is added. */
  method CreateTkvList(files: seq<string>, size: nat, garbage: string, ghost content: Content) returns (tkvs: seq<Record>)
    requires Holds(files, content) && WellFormed(content, size) && |garbage| == size
    ensures tkvs == Convert(Glue(Flat(content)))
  {
    var index, incompleteSize, i := false, 0, 0;
    var texts: seq<string> := [];
    GroupsMeaning(content, size);
    assert Suffix(content, 0, false) == content;
    while i < |files|
      invariant At(content, i, index, incompleteSize)
      invariant texts + Remaining(content, i, index) == Remaining(content, 0, false)
    {
      texts, i, index, incompleteSize := DecodeRound(files, i, index, incompleteSize, size, garbage, texts, content);
    }
    tkvs := Convert(texts);
  }
}
