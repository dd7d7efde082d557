/**
  The search for a key in one archive. It reads block by block and keeps a candidate text together with
  the timestamp that later matches must exceed. A match in a block that ends in a fragment replaces the
  candidate without that comparison and without recording its timestamp.
 */
module ArchiveSearch {
  import opened Options
  import opened Records
  import opened BlockCodec
  import opened Lookups

  /** What one round of the search sees: the whole records of a block and the record cut at its end. */
  datatype Round = Round(whole: seq<Record>, cut: Option<Record>)

  /** The timestamp to exceed and the candidate. */
  datatype Best = Best(ts: int, candidate: Option<Record>)

  const NOTHING := Best(-1, None)

  function CutStamp(round: Round, key: nat): int
  {
    if round.cut.Some? && round.cut.value.key == key then round.cut.value.ts else -1
  }

  function Next(best: Best, round: Round, key: nat): Best
  {
    var match_ := Pick(round.whole, key);
    if round.cut.None? then
      if Stamp(match_) > best.ts then Best(Stamp(match_), match_) else best
    else
      var candidate := if match_.Some? then match_ else best.candidate;
      if CutStamp(round, key) > best.ts then Best(CutStamp(round, key), round.cut) else Best(best.ts, candidate)
  }

  function Run(best: Best, rounds: seq<Round>, key: nat): Best
    decreases |rounds|
  {
    if rounds == [] then best else Run(Next(best, rounds[0], key), rounds[1..], key)
  }

  /** What search_key_in_fs_archive answers. */
  function Found(rounds: seq<Round>, key: nat): Option<Record>
  {
    Run(NOTHING, rounds, key).candidate
  }

  lemma {:induction false} RunSnoc(best: Best, rounds: seq<Round>, round: Round, key: nat)
    ensures Run(best, rounds + [round], key) == Next(Run(best, rounds, key), round, key)
    decreases |rounds|
  {
    if rounds == [] {
      assert [round][1..] == [];
      assert Run(best, [round], key) == Run(Next(best, round, key), [round][1..], key);
      assert rounds + [round] == [round];
    } else {
      assert (rounds + [round])[1..] == rounds[1..] + [round];
      RunSnoc(Next(best, rounds[0], key), rounds[1..], round, key);
    }
  }

  function RoundRecords(round: Round): seq<Record>
  {
    if round.cut.Some? then round.whole + [round.cut.value] else round.whole
  }

  /** The records of the archive, in order. */
  function AllRecords(rounds: seq<Round>): seq<Record>
    decreases |rounds|
  {
    if rounds == [] then [] else AllRecords(rounds[..|rounds| - 1]) + RoundRecords(rounds[|rounds| - 1])
  }

  /** The search answers a record of the key that the archive holds. */
  lemma {:induction false} FoundMember(rounds: seq<Round>, key: nat)
    ensures Found(rounds, key).Some? ==> Found(rounds, key).value.key == key && Found(rounds, key).value in AllRecords(rounds)
    ensures Run(NOTHING, rounds, key).ts >= -1
    decreases |rounds|
  {
    if rounds != [] {
      var init, round := rounds[..|rounds| - 1], rounds[|rounds| - 1];
      assert rounds == init + [round];
      FoundMember(init, key);
      RunSnoc(NOTHING, init, round, key);
      if Pick(round.whole, key).Some? { PickMember(round.whole, key); }
    }
  }

  // ---------- What the search answers, in closed form ----------

  /** A round whose matches escape the comparison. */
  predicate Loose(round: Round, key: nat) { round.cut.Some? && Pick(round.whole, key).Some? }

  /** The greatest timestamp among the matches that are compared. */
  function Guarded(rounds: seq<Round>, key: nat): int
    decreases |rounds|
  {
    if rounds == [] then -1 else
      var before := Guarded(rounds[..|rounds| - 1], key);
      var round := rounds[|rounds| - 1];
      var here := if round.cut.Some? then CutStamp(round, key) else Stamp(Pick(round.whole, key));
      if here > before then here else before
  }

  /** The last loose round, or -1. */
  function LastLoose(rounds: seq<Round>, key: nat): (i: int)
    ensures -1 <= i < |rounds|
    ensures i >= 0 ==> Loose(rounds[i], key)
    ensures forall j :: i < j < |rounds| ==> !Loose(rounds[j], key)
    decreases |rounds|
  {
    if rounds == [] then -1
    else if Loose(rounds[|rounds| - 1], key) then |rounds| - 1
    else LastLoose(rounds[..|rounds| - 1], key)
  }

  /** The timestamp of the answer, without running the search. */
  function Expected(rounds: seq<Round>, key: nat): int
  {
    var i := LastLoose(rounds, key);
    if i < 0 then Guarded(rounds, key) else
      var before, after := Guarded(rounds[..i], key), Guarded(rounds[i..], key);
      if after > before then after else Stamp(Pick(rounds[i].whole, key))
  }

  lemma {:induction false} GuardedSplit(rounds: seq<Round>, i: nat, key: nat)
    requires i <= |rounds|
    ensures Guarded(rounds, key) ==
            if Guarded(rounds[i..], key) > Guarded(rounds[..i], key) then Guarded(rounds[i..], key) else Guarded(rounds[..i], key)
    ensures Guarded(rounds, key) >= -1
    decreases |rounds|
  {
    if i == |rounds| {
      assert rounds[..i] == rounds;
      if rounds != [] { GuardedSplit(rounds[..i - 1], i - 1, key); }
    } else {
      var init := rounds[..|rounds| - 1];
      GuardedSplit(init, i, key);
      assert rounds[i..][..|rounds[i..]| - 1] == init[i..];
      assert init[..i] == rounds[..i];
    }
  }

  lemma {:induction false} RunClosedForm(rounds: seq<Round>, key: nat)
    ensures Run(NOTHING, rounds, key).ts == Guarded(rounds, key)
    ensures Stamp(Found(rounds, key)) == Expected(rounds, key)
    decreases |rounds|
  {
    if rounds != [] {
      var last := |rounds| - 1;
      var init, round := rounds[..last], rounds[last];
      assert rounds == init + [round];
      RunClosedForm(init, key);
      RunSnoc(NOTHING, init, round, key);
      GuardedSplit(init, |init|, key);
      if Loose(round, key) {
        assert rounds[last..] == [round];
        assert [round][..0] == [];
      } else {
        TightRound(init, round, key);
      }
    }
  }

  /** A round that is not loose leaves the last loose one where it was. */
  lemma TightRound(init: seq<Round>, round: Round, key: nat)
    requires !Loose(round, key)
    ensures var here := if round.cut.Some? then CutStamp(round, key) else Stamp(Pick(round.whole, key));
            Expected(init + [round], key) == if here > Guarded(init, key) then here else Expected(init, key)
  {
    var rounds := init + [round];
    assert rounds[..|init|] == init;
    var i := LastLoose(init, key);
    assert LastLoose(rounds, key) == i;
    if i >= 0 {
      assert rounds[..i] == init[..i];
      var tail := rounds[i..];
      assert tail[..|tail| - 1] == init[i..] && tail[|tail| - 1] == round;
      GuardedSplit(init, i, key);
    }
  }

  /**
    The search is right exactly when no round is loose, or the part after the last loose round decides
    and holds the greatest timestamp, or that part does not decide and the loose match itself holds it.
   */
  lemma SearchIsRightIff(rounds: seq<Round>, key: nat)
    ensures var greatest, i := Stamp(Pick(AllRecords(rounds), key)), LastLoose(rounds, key);
            Stamp(Found(rounds, key)) == greatest <==>
            (i < 0
             || (Guarded(rounds[i..], key) > Guarded(rounds[..i], key) && Guarded(rounds[i..], key) == greatest)
             || (Guarded(rounds[i..], key) <= Guarded(rounds[..i], key) && Stamp(Pick(rounds[i].whole, key)) == greatest))
    ensures LastLoose(rounds, key) < 0 ==> Found(rounds, key) == Pick(AllRecords(rounds), key)
  {
    RunClosedForm(rounds, key);
    if LastLoose(rounds, key) < 0 {
      NoneLoose(rounds, key);
      FoundClosedForm(rounds, key);
    }
  }

  // ---------- Which record it answers ----------

  /** The records that are compared: those cut at the end of a block, and the whole ones of blocks without a cut. */
  function Compared(rounds: seq<Round>): seq<Record>
    decreases |rounds|
  {
    if rounds == [] then [] else Compared(rounds[..|rounds| - 1]) + RoundCompared(rounds[|rounds| - 1])
  }

  function RoundCompared(round: Round): seq<Record> { if round.cut.Some? then [round.cut.value] else round.whole }

  /** The answer, without running the search: the first greatest of the compared records, unless a loose match got in between. */
  function Answered(rounds: seq<Round>, key: nat): Option<Record>
  {
    var i := LastLoose(rounds, key);
    if i < 0 then Pick(Compared(rounds), key) else
      var before, after := Pick(Compared(rounds[..i]), key), Pick(Compared(rounds[i..]), key);
      if Stamp(after) > Stamp(before) then after else Pick(rounds[i].whole, key)
  }

  lemma ComparedSnoc(init: seq<Round>, round: Round, key: nat)
    ensures Pick(Compared(init + [round]), key) == Keep(Pick(Compared(init), key), Pick(RoundCompared(round), key))
  {
    hide Pick, RoundCompared;
    assert (init + [round])[..|init|] == init;
    PickConcat(Compared(init), RoundCompared(round), key);
  }

  lemma PickStamp(rs: seq<Record>, key: nat)
    ensures Stamp(Pick(rs, key)) >= -1
  {
  }

  lemma {:induction false} ComparedSplit(rounds: seq<Round>, i: nat, key: nat)
    requires i <= |rounds|
    ensures Pick(Compared(rounds), key) == Keep(Pick(Compared(rounds[..i]), key), Pick(Compared(rounds[i..]), key))
    decreases |rounds|
  {
    hide Pick, Compared;
    if i == |rounds| {
      assert rounds[..i] == rounds && rounds[i..] == [];
      FoundNothing(key);
      PickStamp(Compared(rounds), key);
    } else {
      var init, round := rounds[..|rounds| - 1], rounds[|rounds| - 1];
      ComparedSplit(init, i, key);
      assert rounds == init + [round] && rounds[i..] == init[i..] + [round] && init[..i] == rounds[..i];
      ComparedSnoc(init, round, key);
      ComparedSnoc(init[i..], round, key);
    }
  }

  /** The timestamp to exceed is that of the compared records. */
  lemma {:induction false} GuardedIsPick(rounds: seq<Round>, key: nat)
    ensures Guarded(rounds, key) == Stamp(Pick(Compared(rounds), key))
    decreases |rounds|
  {
    if rounds != [] {
      var init, round := rounds[..|rounds| - 1], rounds[|rounds| - 1];
      GuardedIsPick(init, key);
      assert rounds == init + [round];
      ComparedSnoc(init, round, key);
      if round.cut.Some? { PickOne(round.cut.value, key); }
    }
  }

  /** The search answers exactly this record, whatever the archive. */
  lemma {:induction false} FoundClosedForm(rounds: seq<Round>, key: nat)
    ensures Found(rounds, key) == Answered(rounds, key)
    ensures LastLoose(rounds, key) < 0 ==> Pick(Compared(rounds), key) == Pick(AllRecords(rounds), key)
    decreases |rounds|
  {
    hide Pick, Run, Guarded, Compared, Answered;
    if rounds == [] {
      FoundNothing(key);
    } else {
      var last := |rounds| - 1;
      var init, round := rounds[..last], rounds[last];
      assert rounds == init + [round];
      FoundClosedForm(init, key);
      RunSnoc(NOTHING, init, round, key);
      RunClosedForm(init, key);
      GuardedIsPick(init, key);
      if round.cut.Some? { PickOne(round.cut.value, key); }
      AnsweredSnoc(init, round, key);
      if LastLoose(rounds, key) < 0 {
        ComparedSnoc(init, round, key);
        PickConcat(AllRecords(init), RoundRecords(round), key);
        PickRound(round, key);
      }
    }
  }

  lemma FoundNothing(key: nat)
    ensures Found([], key) == None == Answered([], key) && Pick(Compared([]), key) == None == Pick(AllRecords([]), key)
  {
  }

  lemma AnsweredSnoc(init: seq<Round>, round: Round, key: nat)
    ensures Answered(init + [round], key) ==
            var here := Pick(RoundCompared(round), key);
            if Stamp(here) > Stamp(Pick(Compared(init), key)) then here
            else if Loose(round, key) then Pick(round.whole, key)
            else Answered(init, key)
  {
    hide Pick, Compared, RoundCompared;
    var rounds := init + [round];
    assert rounds[..|init|] == init;
    ComparedSnoc(init, round, key);
    if Loose(round, key) {
      assert rounds[|init|..] == [] + [round];
      ComparedSnoc([], round, key);
      FoundNothing(key);
    } else {
      var i := LastLoose(init, key);
      assert LastLoose(rounds, key) == i;
      if i >= 0 {
        assert rounds[..i] == init[..i] && rounds[i..] == init[i..] + [round];
        ComparedSnoc(init[i..], round, key);
        ComparedSplit(init, i, key);
      }
    }
  }

  lemma {:induction false} NoneLoose(rounds: seq<Round>, key: nat)
    requires forall i :: 0 <= i < |rounds| ==> !Loose(rounds[i], key)
    ensures Guarded(rounds, key) == Stamp(Pick(AllRecords(rounds), key))
    decreases |rounds|
  {
    if rounds != [] {
      var init, round := rounds[..|rounds| - 1], rounds[|rounds| - 1];
      NoneLoose(init, key);
      PickConcat(AllRecords(init), RoundRecords(round), key);
      PickRound(round, key);
    }
  }

  lemma PickRound(round: Round, key: nat)
    ensures Pick(RoundRecords(round), key) ==
            if round.cut.Some? && CutStamp(round, key) > Stamp(Pick(round.whole, key)) then round.cut
            else Pick(round.whole, key)
  {
    if round.cut.Some? {
      PickConcat(round.whole, [round.cut.value], key);
      PickOne(round.cut.value, key);
    }
  }

  // ---------- Archives in timestamp order ----------

  lemma OrderedPick(a: seq<Record>, b: seq<Record>, key: nat)
    requires InOrder(a + b) && Consistent(a + b)
    ensures Pick(b, key).Some? ==> Stamp(Pick(a, key)) <= Stamp(Pick(b, key)) && Pick(a + b, key) == Pick(b, key)
    ensures Pick(b, key).None? ==> Pick(a + b, key) == Pick(a, key)
    ensures Stamp(Pick(a, key)) == Stamp(Pick(b, key)) ==> Pick(a, key) == Pick(b, key)
  {
    PickConcat(a, b, key);
    if Pick(b, key).Some? && Pick(a, key).Some? {
      PickMember(a, key);
      PickMember(b, key);
      var i :| 0 <= i < |a| && a[i] == Pick(a, key).value;
      var j :| 0 <= j < |b| && b[j] == Pick(b, key).value;
      assert (a + b)[i] == a[i] && (a + b)[|a| + j] == b[j];
    }
  }

  /** In timestamp order the search answers the newest record. */
  lemma {:induction false} OrderedSearch(rounds: seq<Round>, key: nat)
    requires InOrder(AllRecords(rounds)) && Consistent(AllRecords(rounds))
    ensures Found(rounds, key) == Pick(AllRecords(rounds), key)
    ensures -1 <= Run(NOTHING, rounds, key).ts <= Stamp(Found(rounds, key))
    decreases |rounds|
  {
    if rounds != [] {
      var init, round := rounds[..|rounds| - 1], rounds[|rounds| - 1];
      assert rounds == init + [round];
      var before := AllRecords(init);
      assert InOrder(before) && Consistent(before) by { Prefix(before, RoundRecords(round)); }
      OrderedSearch(init, key);
      RunSnoc(NOTHING, init, round, key);
      if round.cut.Some? {
        var cut := [round.cut.value];
        assert before + RoundRecords(round) == before + round.whole + cut;
        Prefix(before + round.whole, cut);
        OrderedPick(before, round.whole, key);
        OrderedPick(before + round.whole, cut, key);
        PickOne(round.cut.value, key);
      } else {
        OrderedPick(before, round.whole, key);
      }
    }
  }

  lemma Prefix(a: seq<Record>, b: seq<Record>)
    requires InOrder(a + b) && Consistent(a + b)
    ensures InOrder(a) && Consistent(a)
  {
    forall i, j | 0 <= i < |a| && 0 <= j < |a| && a[i].key == a[j].key
      ensures (i < j ==> a[i].ts <= a[j].ts) && (a[i].ts == a[j].ts ==> a[i] == a[j])
    {
      assert (a + b)[i] == a[i] && (a + b)[j] == a[j];
    }
  }

  // ---------- The search itself ----------

  /** A text that the writer produces from a storable record. */
  predicate Encoded(s: string) { Storable(ConvertRecord(s)) && s == Encode(ConvertRecord(s)) }

  /** The text of a record is one that can be read back exactly if the record is storable. */
  lemma EncodedIff(r: Record)
    requires r.key < KEYS
    ensures Encoded(Encode(r)) <==> Storable(r)
    ensures Storable(r) ==> ConvertRecord(Encode(r)) == r
  {
    if Storable(r) { EncodeProperties(r); }
    if Encoded(Encode(r)) { EncodeInjective(r, ConvertRecord(Encode(r))); }
  }

  /** Stated by recursion so that a proof looks at one text at a time. */
  predicate AllEncoded(texts: seq<string>)
  {
    texts == [] || (Encoded(texts[0]) && AllEncoded(texts[1..]))
  }

  lemma {:induction false} EncodedAt(texts: seq<string>, i: nat)
    requires AllEncoded(texts) && i < |texts|
    ensures Encoded(texts[i])
  {
    if i > 0 { EncodedAt(texts[1..], i - 1); }
  }

  lemma {:induction false} EncodedAll(texts: seq<string>)
    requires forall i :: 0 <= i < |texts| ==> Encoded(texts[i])
    ensures AllEncoded(texts)
  {
    if texts != [] { EncodedAll(texts[1..]); }
  }

  lemma {:induction false} EncodedConcat(a: seq<string>, b: seq<string>)
    ensures AllEncoded(a + b) <==> AllEncoded(a) && AllEncoded(b)
  {
    if a == [] {
      assert a + b == b;
    } else {
      assert (a + b)[1..] == a[1..] + b;
      EncodedConcat(a[1..], b);
    }
  }

  const NO_TEXT := "-1;-1;-1"

  function Show(o: Option<Record>): string
  {
    match o
    case Some(r) => Encode(r)
    case None => NO_TEXT
  }

  /** Comparing texts compares records. */
  lemma TextMatches(s: string, key: nat)
    requires Encoded(s)
    ensures |Tokens(s)| >= 3
    ensures Tokens(s)[1] == Print(key) <==> ConvertRecord(s).key == key
    ensures Parse(Tokens(s)[0]) == ConvertRecord(s).ts
    ensures s != NO_TEXT
  {
    var r := ConvertRecord(s);
    EncodeProperties(r);
    if Tokens(s)[1] == Print(key) { PrintInjective(r.key, key); }
    assert IsDigit(s[0]) && !IsDigit(NO_TEXT[0]);
  }

  /** The text and timestamp that the scan of a block's whole cells ends with. */
  function BestText(texts: seq<string>, key: nat): (string, int)
    decreases |texts|
  {
    if texts == [] then (NO_TEXT, -1) else
      var last := |texts| - 1;
      var best, tokens := BestText(texts[..last], key), Tokens(texts[last]);
      if |tokens| >= 3 && tokens[1] == Print(key) && Parse(tokens[0]) > best.1 then (texts[last], Parse(tokens[0])) else best
  }

  lemma NoBest(key: nat)
    ensures BestText([], key) == (NO_TEXT, -1)
  {
  }

  lemma {:induction false} BestTextMeaning(texts: seq<string>, key: nat)
    requires AllEncoded(texts)
    ensures var match_ := Pick(Convert(texts), key);
            BestText(texts, key) == (Show(match_), Stamp(match_)) && (match_.Some? ==> Encoded(Show(match_)) && Show(match_) != NO_TEXT)
    decreases |texts|
  {
    hide Encoded, Convert, Pick, Tokens, Print, Parse, ConvertRecord, AllEncoded, Encode;
    if texts == [] {
      NothingPicked(key);
    } else {
      var last := |texts| - 1;
      var init, text := texts[..last], texts[last];
      assert texts == init + [text];
      EncodedConcat(init, [text]);
      EncodedAt(texts, last);
      BestTextMeaning(init, key);
      TextMatches(text, key);
      PickSnoc(init, text, key);
      EncodedText(text);
    }
  }

  lemma NothingPicked(key: nat)
    ensures Pick(Convert([]), key) == None
  {
  }

  lemma EncodedText(text: string)
    requires Encoded(text)
    ensures Encode(ConvertRecord(text)) == text
  {
  }

  method Consider(text: string, key: nat, found: string, foundTs: int, ghost whole: seq<string>, ghost k: nat)
    returns (found': string, foundTs': int)
    requires AllEncoded(whole) && k < |whole| && text == whole[k]
    requires (found, foundTs) == BestText(whole[..k], key)
    ensures (found', foundTs') == BestText(whole[..k + 1], key)
  {
    hide AllEncoded, ConvertRecord, Tokens, Print, Parse;
    EncodedAt(whole, k);
    TextMatches(text, key);
    assert whole[..k + 1][..k] == whole[..k];
    found', foundTs' := found, foundTs;
    var tokens := Tokens(text);
    if tokens[1] == Print(key) && Parse(tokens[0]) > foundTs {
      found', foundTs' := text, Parse(tokens[0]);
    }
  }

  /** search_key_in_block: previous is the caller's candidate text, replaced here when the block ends in a fragment. */
  method SearchKeyInBlock(file: string, key: nat, index: bool, incompleteSize: nat, size: nat, previous: string,
                          ghost cells: seq<string>)
    returns (found: string, incomplete: bool, previous': string)
    requires file == File(cells) && BlockOk(cells, size)
    requires Entry(cells, index, incompleteSize)
    requires AllEncoded(WholePart(Unread(cells, index)))
    ensures incomplete == EndsOpen(Unread(cells, index))
    ensures var text := BestText(WholePart(Unread(cells, index)), key).0;
            if incomplete then
              found == OpenText(cells) && previous' == (if text != NO_TEXT then text else previous)
            else
              found == text && previous' == previous
  {
    hide File, Until, Offset, AllEncoded, BestText, Entry, BlockOk, WholePart, Strip;
    found, incomplete, previous' := NO_TEXT, false, previous;
    var foundTs: int := -1;
    var buffer, pointer, text, lecture;
    ghost var j;
    buffer, pointer, j := OpenBlock(file, index, incompleteSize, size, cells);
    ghost var first, whole := j, WholePart(Unread(cells, index));
    assert whole == WholePart(cells[first..]);
    ghost var k := 0;
    assert whole[..0] == [];
    NoBest(key);
    while true
      invariant first <= j <= |cells| && pointer == Offset(cells, j) && |buffer| == size
      invariant !IsFragment(Until(buffer, NUL))
      invariant first < j ==> !IsFragment(cells[j - 1])
      invariant j == first + k && k <= |whole| && (found, foundTs) == BestText(whole[..k], key)
      decreases |cells| - j
    {
      buffer, text, lecture := ReadNext(file, pointer, size, buffer, cells, j);
      pointer := pointer + |text| + 1;
      if IsFragment(text) {
        WholeCells(cells, first, j, size);
        assert whole[..k] == whole;
        if found != NO_TEXT {
          previous' := found;
        }
        found, incomplete := Strip(text), true;
        break;
      }
      if lecture == 0 {
        WholeCells(cells, first, j, size);
        assert whole[..k] == whole;
        break;
      }
      WholeCell(cells, first, j, size, whole);
      found, foundTs := Consider(text, key, found, foundTs, whole, k);
      j, k := j + 1, k + 1;
    }
  }

  lemma WholeCell(cells: seq<string>, first: nat, j: nat, size: nat, whole: seq<string>)
    requires BlockOk(cells, size) && first <= j < |cells| && !IsFragment(cells[j])
    requires whole == WholePart(cells[first..])
    ensures j - first < |whole| && whole[j - first] == cells[j]
  {
    assert cells[first..][j - first] == cells[j];
  }

  lemma PickSnoc(done: seq<string>, text: string, key: nat)
    ensures Pick(Convert(done + [text]), key) == Keep(Pick(Convert(done), key), Pick([ConvertRecord(text)], key))
    ensures Pick([ConvertRecord(text)], key) == if ConvertRecord(text).key == key then Some(ConvertRecord(text)) else None
  {
    ConvertConcat(done, [text]);
    assert Convert([text]) == [ConvertRecord(text)];
    PickConcat(Convert(done), [ConvertRecord(text)], key);
    PickOne(ConvertRecord(text), key);
  }

  // ---------- Rounds of an archive ----------

  function RoundOf(g: Group): Round
  {
    Round(Convert(g.whole), if g.glued.Some? then Some(ConvertRecord(g.glued.value)) else None)
  }

  function RoundsOf(gs: seq<Group>): (rs: seq<Round>)
    ensures |rs| == |gs|
  {
    seq(|gs|, i requires 0 <= i < |gs| => RoundOf(gs[i]))
  }

  /** The rounds in which both readers go through an archive. */
  function Rounds(content: Content): seq<Round>
  {
    RoundsOf(Groups(content))
  }

  lemma {:induction false} RoundsRecords(gs: seq<Group>)
    ensures AllRecords(RoundsOf(gs)) == Convert(Ungroup(gs))
    decreases |gs|
  {
    hide Convert, Ungroup, GroupTexts, RoundRecords, RoundOf;
    if gs == [] {
      NoTexts();
    } else {
      var last := |gs| - 1;
      assert RoundsOf(gs)[..last] == RoundsOf(gs[..last]);
      RoundsRecords(gs[..last]);
      UngroupSnoc(gs[..last], gs[last]);
      assert gs == gs[..last] + [gs[last]];
      ConvertConcat(Ungroup(gs[..last]), GroupTexts(gs[last]));
      RoundOfGroup(gs[last]);
    }
  }

  lemma NoTexts()
    ensures Convert(Ungroup([])) == []
  {
  }

  lemma RoundOfGroup(g: Group)
    ensures RoundRecords(RoundOf(g)) == Convert(GroupTexts(g))
  {
    hide ConvertRecord;
  }

  lemma {:induction false} UngroupSnoc(gs: seq<Group>, g: Group)
    ensures Ungroup(gs + [g]) == Ungroup(gs) + GroupTexts(g)
  {
    if gs == [] {
      assert gs + [g] == [g] && [g][1..] == [];
    } else {
      assert (gs + [g])[1..] == gs[1..] + [g];
      UngroupSnoc(gs[1..], g);
    }
  }

  /** Searching and decoding an archive see the same records. */
  lemma RoundsMeaning(content: Content, size: nat)
    requires WellFormed(content, size)
    ensures AllRecords(Rounds(content)) == Convert(Glue(Flat(content)))
  {
    GroupsMeaning(content, size);
    RoundsRecords(Groups(content));
  }

  // ---------- A layout that the search gets wrong ----------

  /** The first text fills a block; the second leaves room for a part of the third. */
  predicate CutsTheThird(a: string, b: string, c: string, capacity: nat)
  {
    |a| == capacity && |b| + 2 <= capacity < |b| + |c| && |b| + |c| + 3 <= 2 * capacity
  }

  lemma LayoutOfThree(a: string, b: string, c: string, capacity: nat)
    requires CutsTheThird(a, b, c, capacity)
    ensures var k := capacity - |b| - 1;
            0 <= k <= |c| && Layout([a, b, c], capacity) == [[a], [b, c[..k] + [LF]], [c[k..]]]
  {
    var k := capacity - |b| - 1;
    var piece, rest := c[..k] + [LF], c[k..];
    var w0 := Writer([], [], capacity);
    var w1 := Writer([[a]], [], capacity);
    var w2 := Writer([[a]], [b], capacity - |b|);
    var w3 := Writer([[a], [b, piece]], [rest], capacity - |rest|);
    assert Put(w0, a, capacity) == Writer([], [a], 0) by { assert [] + [a] == [a]; }
    assert Roll(Put(w0, a, capacity), capacity) == w1 by { assert [] + [[a]] == [[a]]; }
    assert Put(w1, b, capacity) == w2 by { assert [] + [b] == [b]; }
    CutThird(a, b, c, capacity, k);
    assert [a, b, c][1..] == [b, c] && [b, c][1..] == [c] && [c][1..] == [];
    assert PutAll(w3, [], capacity) == w3;
    assert PutAll(w2, [c], capacity) == w3;
    assert PutAll(w1, [b, c], capacity) == w3;
    assert PutAll(w0, [a, b, c], capacity) == w3;
    assert [[a], [b, piece]] + [[rest]] == [[a], [b, piece], [rest]];
  }

  lemma CutThird(a: string, b: string, c: string, capacity: nat, k: nat)
    requires CutsTheThird(a, b, c, capacity) && k == capacity - |b| - 1
    ensures Roll(Put(Writer([[a]], [b], capacity - |b|), c, capacity), capacity) ==
            Writer([[a], [b, c[..k] + [LF]]], [c[k..]], capacity - |c[k..]|)
  {
    var piece, rest := c[..k] + [LF], c[k..];
    var closed := [[a], [b, piece]];
    assert [b] + [piece] == [b, piece];
    assert [[a]] + [[b, piece]] == closed;
    assert Put(Writer(closed, [], capacity), rest, capacity) == Writer(closed, [rest], capacity - |rest|) by { assert [] + [rest] == [rest]; }
  }

  lemma GroupsOfThree(a: string, b: string, c: string, k: nat)
    requires a != "" && b != "" && 0 < k < |c| && LF !in a && LF !in b && LF !in c
    ensures Groups([[a], [b, c[..k] + [LF]], [c[k..]]]) == [Group([a], None), Group([b], Some(c)), Group([], None)]
  {
    var piece, rest := c[..k] + [LF], c[k..];
    var content := [[a], [b, piece], [rest]];
    assert !IsFragment(a) && IsFragment(piece) && Strip(piece) == c[..k] && c[..k] + rest == c && !IsFragment(c);
    assert content[1..] == [[b, piece], [rest]] && content[1..][1..] == [[rest]];
    assert Follow(c[..k], [[rest]]) == (c, [[]]) by { assert [rest][1..] == [] && [[]] + [[rest]][1..] == [[]]; }
    assert [b, piece][..1] == [b];
    assert Groups([[]]) == [Group([], None)] + Groups([]);
    assert Groups(content[1..]) == [Group([b], Some(c))] + Groups([[]]);
    assert Groups(content) == [Group([a], None)] + Groups(content[1..]);
  }

  /** Two records of a key in the wrong order, and one of another key that is cut in the older one's block. */
  predicate HidesTheNewest(newest: Record, older: Record, other: Record, capacity: nat)
  {
    && Storable(newest) && Storable(older) && Storable(other)
    && newest.key == older.key != other.key && newest.ts > older.ts
    && CutsTheThird(Encode(newest), Encode(older), Encode(other), capacity) && |Encode(older)| + 3 <= capacity
  }

  /** Such records exist, with blocks of ten characters. */
  lemma SomeRecordsAreHidden()
    ensures HidesTheNewest(Record(5, 1, "newest"), Record(3, 1, "o"), Record(9, 2, "abcdef"), 10)
  {
    var newest, older, other := Record(5, 1, "newest"), Record(3, 1, "o"), Record(9, 2, "abcdef");
    assert Print(5) == "5" && Print(3) == "3" && Print(9) == "9" && Print(1) == "1" && Print(2) == "2";
    assert |Encode(newest)| == 10 && |Encode(older)| == 5 && |Encode(other)| == 10;
  }

  /** Written in that order, the newest record is not found. */
  lemma LayoutCanHideTheNewest(newest: Record, older: Record, other: Record, capacity: nat)
    requires HidesTheNewest(newest, older, other, capacity)
    ensures var rounds := Rounds(Layout([Encode(newest), Encode(older), Encode(other)], capacity));
            AllRecords(rounds) == [newest, older, other] && Pick([newest, older, other], newest.key) == Some(newest)
            && Found(rounds, newest.key) == Some(older)
  {
    hide Encode, ConvertRecord, Layout, Groups;
    var a, b, c := Encode(newest), Encode(older), Encode(other);
    EncodeProperties(newest);
    EncodeProperties(older);
    EncodeProperties(other);
    LayoutOfThree(a, b, c, capacity);
    GroupsOfThree(a, b, c, capacity - |b| - 1);
    var first, second, third := Round([newest], None), Round([older], Some(other)), Round([], None);
    assert Convert([a]) == [newest] && Convert([b]) == [older] && Convert([]) == [];
    assert Rounds(Layout([a, b, c], capacity)) == [first, second, third];
    ThreeRounds(newest, older, other);
  }

  lemma ThreeRounds(newest: Record, older: Record, other: Record)
    requires newest.key == older.key != other.key && newest.ts > older.ts
    ensures var rounds := [Round([newest], None), Round([older], Some(other)), Round([], None)];
            AllRecords(rounds) == [newest, older, other] && Pick([newest, older, other], newest.key) == Some(newest)
            && Found(rounds, newest.key) == Some(older)
  {
    var first, second, third, key := Round([newest], None), Round([older], Some(other)), Round([], None), newest.key;
    PickOne(newest, key);
    PickOne(older, key);
    PickOne(other, key);
    PickNothing([], key);
    PickConcat([newest], [older] + [other], key);
    PickConcat([older], [other], key);
    assert [newest] + ([older] + [other]) == [newest, older, other];
    assert [first, second, third][1..] == [second, third] && [second, third][1..] == [third];
    assert Run(NOTHING, [first, second, third], key) == Run(Next(NOTHING, first, key), [second, third], key);
    assert Next(NOTHING, first, key) == Best(newest.ts, Some(newest));
    assert Next(Best(newest.ts, Some(newest)), second, key) == Best(newest.ts, Some(older));
    assert Run(Next(NOTHING, first, key), [second, third], key) == Run(Best(newest.ts, Some(older)), [third], key);
    assert Run(Best(newest.ts, Some(older)), [third], key) == Run(Best(newest.ts, Some(older)), [third][1..], key);
    assert [first, second, third][..2] == [first, second] && [first, second][..1] == [first] && [first][..0] == [];
    assert AllRecords([first]) == [] + [newest];
    assert AllRecords([first, second]) == [newest] + ([older] + [other]);
  }

  ghost function RunFrom(best: Best, content: Content, i: nat, index: bool, key: nat): Best
  {
    Run(best, Rounds(Suffix(content, i, index)), key)
  }

  lemma RunFromIs(best: Best, content: Content, i: nat, index: bool, key: nat)
    ensures RunFrom(best, content, i, index, key) == Run(best, Rounds(Suffix(content, i, index)), key)
  {
  }

  lemma RunFromStep(best: Best, content: Content, i: nat, index: bool, key: nat)
    requires i < |content|
    ensures var unread := Unread(content[i], index);
            var whole := Convert(WholePart(unread));
            RunFrom(best, content, i, index, key) ==
            if EndsOpen(unread) then
              var followed := Follow(OpenText(content[i]), content[i + 1..]);
              Run(Next(best, Round(whole, Some(ConvertRecord(followed.0))), key), Rounds(followed.1), key)
            else
              RunFrom(Next(best, Round(whole, None), key), content, i + 1, false, key)
  {
    hide ConvertRecord, Follow, Groups, Convert, Next, OpenText, WholePart, EndsOpen, Unread, Suffix;
    NextGroup(content, i, index);
    var gs := Groups(Suffix(content, i, index));
    assert RoundsOf(gs)[1..] == RoundsOf(gs[1..]);
  }

  lemma PickShown(whole: seq<string>, key: nat)
    requires AllEncoded(whole)
    requires Pick(Convert(whole), key).Some?
    ensures Encoded(Show(Pick(Convert(whole), key)))
    ensures ConvertRecord(Show(Pick(Convert(whole), key))) == Pick(Convert(whole), key).value
  {
    var i := PickFirstGreatest(Convert(whole), key);
    EncodedAt(whole, i);
    assert Show(Pick(Convert(whole), key)) == whole[i];
  }

  /** The search's variables hold the given state. */
  predicate Shown(best: Best, bestTs: int, correct: string)
  {
    && bestTs == best.ts >= -1
    && match best.candidate
       case Some(r) => Encoded(correct) && ConvertRecord(correct) == r
       case None => correct == NO_TEXT
  }

  /** The comparison after a block that ends with a whole record. */
  method CompareWhole(found: string, key: nat, bestTs: int, correct: string, ghost best: Best, ghost whole: seq<string>)
    returns (bestTs': int, correct': string)
    requires AllEncoded(whole)
    requires found == BestText(whole, key).0 && Shown(best, bestTs, correct)
    ensures Shown(Next(best, Round(Convert(whole), None), key), bestTs', correct')
  {
    bestTs', correct' := bestTs, correct;
    BestTextMeaning(whole, key);
    if Pick(Convert(whole), key).Some? { PickShown(whole, key); TextMatches(found, key); }
    if found != NO_TEXT {
      var tokens := Tokens(found);
      if Parse(tokens[0]) > bestTs {
        bestTs', correct' := Parse(tokens[0]), found;
      }
    }
  }

  /** The comparison with a record put together from fragments; correct may already have been replaced. */
  method CompareCut(text: string, key: nat, bestTs: int, correct: string, ghost previous: string, ghost best: Best,
                    ghost whole: seq<string>)
    returns (bestTs': int, correct': string)
    requires AllEncoded(whole)
    requires AllEncoded([text]) && Shown(best, bestTs, previous)
    requires var text := BestText(whole, key).0; correct == if text != NO_TEXT then text else previous
    ensures Shown(Next(best, Round(Convert(whole), Some(ConvertRecord(text))), key), bestTs', correct')
  {
    bestTs', correct' := bestTs, correct;
    BestTextMeaning(whole, key);
    if Pick(Convert(whole), key).Some? { PickShown(whole, key); }
    EncodedAt([text], 0);
    TextMatches(text, key);
    var tokens := Tokens(text);
    if tokens[1] == Print(key) && Parse(tokens[0]) > bestTs {
      bestTs', correct' := Parse(tokens[0]), text;
    }
  }

  lemma RoundEncoded(content: Content, i: nat, index: bool)
    requires i < |content|
    requires AllEncoded(Remaining(content, i, index))
    ensures var unread := Unread(content[i], index);
            AllEncoded(WholePart(unread)) &&
            if EndsOpen(unread) then
              var followed := Follow(OpenText(content[i]), content[i + 1..]);
              AllEncoded([followed.0]) && AllEncoded(Ungroup(Groups(followed.1)))
            else
              AllEncoded(Remaining(content, i + 1, false))
  {
    RemainingStep(content, i, index);
    var unread := Unread(content[i], index);
    var whole := WholePart(unread);
    var before := Remaining(content, i, index);
    if EndsOpen(unread) {
      var followed := Follow(OpenText(content[i]), content[i + 1..]);
      var text, rest := followed.0, Ungroup(Groups(followed.1));
      assert before == whole + [text] + rest;
      EncodedConcat(whole + [text], rest);
      EncodedConcat(whole, [text]);
    } else {
      var rest := Remaining(content, i + 1, false);
      assert before == whole + rest;
      EncodedConcat(whole, rest);
    }
  }

  /** One round of search_key_in_fs_archive's loop. */
  method SearchRound(files: seq<string>, i: nat, index: bool, incompleteSize: nat, size: nat, garbage: string, key: nat,
                     bestTs: int, correct: string, ghost best: Best, ghost content: Content)
    returns (i': nat, index': bool, incompleteSize': nat, bestTs': int, correct': string, ghost best': Best)
    requires Holds(files, content) && WellFormed(content, size) && |garbage| == size
    requires i < |content| && At(content, i, index, incompleteSize)
    requires AllEncoded(Remaining(content, i, index))
    requires Shown(best, bestTs, correct)
    ensures i < i' && At(content, i', index', incompleteSize')
    ensures AllEncoded(Remaining(content, i', index'))
    ensures Shown(best', bestTs', correct')
    ensures RunFrom(best', content, i', index', key) == RunFrom(best, content, i, index, key)
  {
    hide *;
    AtBlock(files, content, i, index, incompleteSize, size);
    RoundEncoded(content, i, index);
    RunFromStep(best, content, i, index, key);
    ghost var whole := WholePart(Unread(content[i], index));
    var found, incomplete, candidate;
    found, incomplete, candidate := SearchKeyInBlock(files[i], key, index, incompleteSize, size, correct, content[i]);
    if !incomplete {
      i', index', incompleteSize' := i + 1, false, incompleteSize;
      best' := Next(best, Round(Convert(whole), None), key);
      bestTs', correct' := CompareWhole(found, key, bestTs, candidate, best, whole);
    } else {
      var text;
      text, i', incompleteSize' := FollowFragment(files, i, found, size, garbage, content);
      i', index' := i' + 1, true;
      best' := Next(best, Round(Convert(whole), Some(ConvertRecord(text))), key);
      RemainingIs(content, i', true);
      RunFromIs(best', content, i', true, key);
      bestTs', correct' := CompareCut(text, key, bestTs, candidate, correct, best, whole);
    }
  }

  /** search_key_in_fs_archive. */
  method SearchKeyInFsArchive(files: seq<string>, key: nat, size: nat, garbage: string, ghost content: Content)
    returns (record: Option<Record>)
    requires Holds(files, content) && WellFormed(content, size) && |garbage| == size
    requires AllEncoded(Glue(Flat(content)))
    ensures record == Found(Rounds(content), key)
  {
    var index, incompleteSize, i := false, 0, 0;
    var bestTs: int, correct := -1, NO_TEXT;
    ghost var best := NOTHING;
    GroupsMeaning(content, size);
    assert Suffix(content, 0, false) == content;
    while i < |files|
      invariant At(content, i, index, incompleteSize)
      invariant AllEncoded(Remaining(content, i, index))
      invariant Shown(best, bestTs, correct)
      invariant RunFrom(best, content, i, index, key) == RunFrom(NOTHING, content, 0, false, key)
    {
      i, index, incompleteSize, bestTs, correct, best :=
        SearchRound(files, i, index, incompleteSize, size, garbage, key, bestTs, correct, best, content);
    }
    if best.candidate.Some? { TextMatches(correct, key); }
    record := if correct == NO_TEXT then None else Some(ConvertRecord(correct));
  }
}
