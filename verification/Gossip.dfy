/** The table of memories that gossiping spreads: the newest entry of every memory wins. */
module Gossip {
  import opened Options

  datatype Entry = Entry(id: int, ip: string, port: int, alive: bool, timestamp: int)

  /** The id of an entry that is known by its address only. */
  const NAMELESS := -1

  // ---------- Tables ----------

  predicate UniqueIds(table: seq<Entry>) { forall i, j :: 0 <= i < j < |table| ==> table[i].id != table[j].id }

  predicate Named(table: seq<Entry>) { forall i :: 0 <= i < |table| ==> table[i].id != NAMELESS }

  /** Entries of the same memory with the same timestamp are the same. */
  predicate Consistent(entries: seq<Entry>)
  {
    forall i, j :: 0 <= i < |entries| && 0 <= j < |entries| && entries[i].id == entries[j].id && entries[i].timestamp == entries[j].timestamp
      ==> entries[i] == entries[j]
  }

  function Find(table: seq<Entry>, id: int): (r: Option<Entry>)
    ensures r.Some? <==> exists i :: 0 <= i < |table| && table[i].id == id
    ensures r.Some? ==> r.value in table && r.value.id == id
  {
    if table == [] then None else if table[0].id == id then Some(table[0]) else Find(table[1..], id)
  }

  lemma {:induction false} FindAt(table: seq<Entry>, i: nat)
    requires UniqueIds(table) && i < |table|
    ensures Find(table, table[i].id) == Some(table[i])
    decreases |table|
  {
    if i > 0 {
      assert table[0].id != table[i].id;
      FindAt(table[1..], i - 1);
    }
  }

  /** The later entry wins only if it is strictly newer. */
  function Join(a: Option<Entry>, b: Option<Entry>): Option<Entry>
  {
    if a.None? || (b.Some? && a.value.timestamp < b.value.timestamp) then b else a
  }

  /** The first entry of greatest timestamp. */
  function Newest(entries: seq<Entry>, id: int): Option<Entry>
    decreases |entries|
  {
    if entries == [] then None else
      var last := entries[|entries| - 1];
      Join(Newest(entries[..|entries| - 1], id), if last.id == id then Some(last) else None)
  }

  /** What Newest means, without its recursion. */
  lemma {:induction false} NewestMeaning(entries: seq<Entry>, id: int)
    ensures Newest(entries, id).None? <==> forall i :: 0 <= i < |entries| ==> entries[i].id != id
    ensures Newest(entries, id).Some? ==>
              && Newest(entries, id).value in entries && Newest(entries, id).value.id == id
              && forall i :: 0 <= i < |entries| && entries[i].id == id ==> entries[i].timestamp <= Newest(entries, id).value.timestamp
    decreases |entries|
  {
    if entries != [] { NewestMeaning(entries[..|entries| - 1], id); }
  }

  lemma {:induction false} NewestConcat(a: seq<Entry>, b: seq<Entry>, id: int)
    ensures Newest(a + b, id) == Join(Newest(a, id), Newest(b, id))
    decreases |b|
  {
    if b == [] {
      assert a + b == a;
    } else {
      var init := b[..|b| - 1];
      NewestConcat(a, init, id);
      assert (a + b)[..|a + b| - 1] == a + init;
    }
  }

  lemma {:induction false} NewestIsFind(table: seq<Entry>, id: int)
    requires UniqueIds(table)
    ensures Newest(table, id) == Find(table, id)
  {
    NewestMeaning(table, id);
    if Find(table, id).Some? {
      var i :| 0 <= i < |table| && table[i] == Find(table, id).value;
      var j :| 0 <= j < |table| && table[j] == Newest(table, id).value;
    }
  }

  // ---------- Updates ----------

  /** The position of a memory, or the length of the table. */
  function IndexOf(table: seq<Entry>, id: int): (i: nat)
    ensures i <= |table| && (i < |table| ==> table[i].id == id) && forall j :: 0 <= j < i ==> table[j].id != id
  {
    if table == [] || table[0].id == id then 0 else 1 + IndexOf(table[1..], id)
  }

  function Update(table: seq<Entry>, entry: Entry): seq<Entry>
  {
    var i := IndexOf(table, entry.id);
    if i == |table| then
      if entry.id != NAMELESS then table + [entry] else table
    else if table[i].timestamp < entry.timestamp then table[i := entry]
    else table
  }

  function Merge(table: seq<Entry>, received: seq<Entry>): seq<Entry>
    decreases |received|
  {
    if received == [] then table else Update(Merge(table, received[..|received| - 1]), received[|received| - 1])
  }

  lemma {:induction false} FindIs(table: seq<Entry>, id: int, i: nat)
    requires i <= |table| && (i < |table| ==> table[i].id == id) && forall j :: 0 <= j < i ==> table[j].id != id
    ensures Find(table, id) == if i < |table| then Some(table[i]) else None
    decreases |table|
  {
    if i > 0 { FindIs(table[1..], id, i - 1); }
  }

  /** An update changes one memory's entry at most, and joins it; it adds no nameless entry. */
  lemma UpdateJoins(table: seq<Entry>, entry: Entry, id: int)
    requires UniqueIds(table)
    ensures UniqueIds(Update(table, entry)) && (Named(table) ==> Named(Update(table, entry)))
    ensures Find(Update(table, entry), id) ==
            if id == entry.id && (id != NAMELESS || Find(table, id).Some?) then Join(Find(table, id), Some(entry)) else Find(table, id)
  {
    hide Find, IndexOf;
    var table', i := Update(table, entry), IndexOf(table, entry.id);
    var k := IndexOf(table, id);
    FindIs(table, id, k);
    if id == entry.id {
      FindIs(table', id, if i == |table| && id == NAMELESS then |table'| else i);
    } else {
      FindIs(table', id, if k == |table| then |table'| else k);
    }
  }

  /** Folding received entries computes the newest entry of every memory, in whatever table they are merged. */
  lemma {:induction false} MergeIsJoin(table: seq<Entry>, received: seq<Entry>, id: int)
    requires UniqueIds(table) && Named(table)
    ensures UniqueIds(Merge(table, received)) && Named(Merge(table, received))
    ensures Find(Merge(table, received), id) == if id == NAMELESS then None else Newest(table + received, id)
    decreases |received|
  {
    if received == [] {
      NewestIsFind(table, id);
      assert table + received == table;
    } else {
      var init, last := received[..|received| - 1], received[|received| - 1];
      MergeIsJoin(table, init, id);
      UpdateJoins(Merge(table, init), last, id);
      assert (table + received)[..|table + received| - 1] == table + init;
    }
  }

  /** An entry is never lost, and never gets older. */
  lemma MergeGrows(table: seq<Entry>, received: seq<Entry>, i: nat)
    requires UniqueIds(table) && Named(table) && i < |table|
    ensures var r := Find(Merge(table, received), table[i].id); r.Some? && r.value.timestamp >= table[i].timestamp
  {
    var id := table[i].id;
    MergeIsJoin(table, received, id);
    NewestMeaning(table + received, id);
    assert (table + received)[i] == table[i];
  }

  lemma NewestOfSameEntries(a: seq<Entry>, b: seq<Entry>, id: int)
    requires Consistent(a) && forall e :: e in a <==> e in b
    ensures Newest(a, id) == Newest(b, id)
  {
    NewestMeaning(a, id);
    NewestMeaning(b, id);
    if Newest(a, id).Some? || Newest(b, id).Some? {
      var x := if Newest(a, id).Some? then Newest(a, id).value else Newest(b, id).value;
      assert x in a && x in b;
      var i :| 0 <= i < |a| && a[i] == x;
      var k :| 0 <= k < |b| && b[k] == x;
      var y := Newest(b, id).value;
      assert y in a;
      var j :| 0 <= j < |a| && a[j] == y;
      var l :| 0 <= l < |b| && b[l] == Newest(a, id).value;
    }
  }

  /** Neither the order nor the repetition of the received entries matters. */
  lemma OrderDoesNotMatter(table: seq<Entry>, received: seq<Entry>, received': seq<Entry>, id: int)
    requires UniqueIds(table) && Named(table) && Consistent(table + received)
    requires forall e :: e in received <==> e in received'
    ensures Find(Merge(table, received), id) == Find(Merge(table, received'), id)
  {
    MergeIsJoin(table, received, id);
    MergeIsJoin(table, received', id);
    NewestOfSameEntries(table + received, table + received', id);
  }

  /** Merging the same entries again changes nothing. */
  lemma MergeTwice(table: seq<Entry>, received: seq<Entry>, id: int)
    requires UniqueIds(table) && Named(table)
    ensures Find(Merge(Merge(table, received), received), id) == Find(Merge(table, received), id)
  {
    var merged := Merge(table, received);
    MergeIsJoin(table, received, id);
    MergeIsJoin(merged, received, id);
    NewestConcat(table, received, id);
    NewestConcat(merged, received, id);
    NewestIsFind(merged, id);
  }

  // ---------- Exchanges ----------

  ghost predicate SameEntries(a: seq<Entry>, b: seq<Entry>) { forall e :: e in a <==> e in b }

  ghost predicate SameAnswers(a: seq<Entry>, b: seq<Entry>) { forall id :: Find(a, id) == Find(b, id) }

  /** The two tables hold different entries of a memory with the same timestamp. */
  predicate Clash(a: seq<Entry>, b: seq<Entry>, id: int)
  {
    Find(a, id).Some? && Find(b, id).Some? && Find(a, id) != Find(b, id) && Find(a, id).value.timestamp == Find(b, id).value.timestamp
  }

  /**
    A request and its reply: b merges what a sends, and a merges what b answers. Afterwards they agree on a
    memory exactly if they did not hold clashing entries of it.
   */
  lemma ExchangeAgreesOn(a: seq<Entry>, b: seq<Entry>, id: int)
    requires UniqueIds(a) && Named(a) && UniqueIds(b) && Named(b)
    ensures var b' := Merge(b, a);
            var a' := Merge(a, b');
            Find(a', id) == Find(b', id) <==> !Clash(a, b, id)
  {
    var b' := Merge(b, a);
    MergeIsJoin(b, a, id);
    MergeIsJoin(a, b', id);
    NewestConcat(b, a, id);
    NewestConcat(a, b', id);
    NewestIsFind(a, id);
    NewestIsFind(b, id);
    NewestIsFind(b', id);
    assert Find(a, NAMELESS).None? && Find(b, NAMELESS).None?;
  }

  /** A full exchange leaves both memories with the same table exactly if no memory's entries clash. */
  lemma ExchangeEqualises(a: seq<Entry>, b: seq<Entry>)
    requires UniqueIds(a) && Named(a) && UniqueIds(b) && Named(b)
    ensures var b' := Merge(b, a);
            var a' := Merge(a, b');
            SameEntries(a', b') <==> forall id :: !Clash(a, b, id)
  {
    var b' := Merge(b, a);
    var a' := Merge(a, b');
    MergeIsJoin(b, a, 0);
    MergeIsJoin(a, b', 0);
    forall id ensures Find(a', id) == Find(b', id) <==> !Clash(a, b, id) { ExchangeAgreesOn(a, b, id); }
    SameFinds(a', b');
  }

  /** Tables hold the same entries iff they answer the same. */
  lemma SameFinds(a: seq<Entry>, b: seq<Entry>)
    requires UniqueIds(a) && UniqueIds(b)
    ensures SameEntries(a, b) <==> SameAnswers(a, b)
  {
    if SameEntries(a, b) {
      forall id ensures Find(a, id) == Find(b, id) { SameAnswer(a, b, id); }
    }
    if SameAnswers(a, b) {
      forall e ensures e in a <==> e in b { SameMember(a, b, e); }
    }
  }

  lemma SameAnswer(a: seq<Entry>, b: seq<Entry>, id: int)
    requires UniqueIds(a) && UniqueIds(b) && SameEntries(a, b)
    ensures Find(a, id) == Find(b, id)
  {
    if Find(a, id).Some? { FoundIff(b, Find(a, id).value); }
    if Find(b, id).Some? { FoundIff(a, Find(b, id).value); }
  }

  lemma SameMember(a: seq<Entry>, b: seq<Entry>, e: Entry)
    requires UniqueIds(a) && UniqueIds(b) && Find(a, e.id) == Find(b, e.id)
    ensures e in a <==> e in b
  {
    FoundIff(a, e);
    FoundIff(b, e);
  }

  lemma FoundIff(table: seq<Entry>, e: Entry)
    requires UniqueIds(table)
    ensures e in table <==> Find(table, e.id) == Some(e)
  {
    if e in table {
      var i :| 0 <= i < |table| && table[i] == e;
      FindAt(table, i);
    }
  }

  // ---------- The gossiping memory ----------

  function Lower(c: char): char { if 'A' <= c <= 'Z' then c - 'A' + 'a' else c }

  predicate SameIgnoringCase(a: string, b: string) { |a| == |b| && forall i :: 0 <= i < |a| ==> Lower(a[i]) == Lower(b[i]) }

  predicate IsLetter(c: char) { 'a' <= c <= 'z' || 'A' <= c <= 'Z' }

  /** The other form of a letter; any other character has only one. */
  function OtherCase(c: char): (r: char)
    ensures r != c <==> IsLetter(c)
    ensures IsLetter(c) ==> IsLetter(r)
  {
    if 'a' <= c <= 'z' then c - 'a' + 'A' else if 'A' <= c <= 'Z' then c - 'A' + 'a' else c
  }

  predicate NoLetters(a: string) { forall i :: 0 <= i < |a| ==> !IsLetter(a[i]) }

  lemma OneLetter(c: char, d: char)
    ensures OtherCase(OtherCase(c)) == c
    ensures Lower(c) == Lower(d) <==> c == d || c == OtherCase(d)
  {
  }

  /** Two texts are the same if they have the same characters, up to the case of letters. */
  lemma CaseMeaning(a: string, b: string)
    ensures SameIgnoringCase(a, b) <==> |a| == |b| && forall i :: 0 <= i < |a| ==> a[i] == b[i] || a[i] == OtherCase(b[i])
  {
    hide Lower, OtherCase;
    forall i | 0 <= i < |a| && i < |b| ensures Lower(a[i]) == Lower(b[i]) <==> a[i] == b[i] || a[i] == OtherCase(b[i]) {
      OneLetter(a[i], b[i]);
    }
  }

  lemma CaseIsEquivalence(a: string, b: string, c: string)
    ensures SameIgnoringCase(a, a)
    ensures SameIgnoringCase(a, b) ==> SameIgnoringCase(b, a)
    ensures SameIgnoringCase(a, b) && SameIgnoringCase(b, c) ==> SameIgnoringCase(a, c)
  {
    hide Lower;
  }

  /** Without letters there is nothing to ignore. */
  lemma CaseOfNumbers(a: string, b: string)
    requires NoLetters(a)
    ensures SameIgnoringCase(a, b) <==> a == b
    ensures SameIgnoringCase(b, a) <==> a == b
  {
    hide SameIgnoringCase, OtherCase;
    CaseMeaning(a, b);
    CaseMeaning(b, a);
    forall i | 0 <= i < |a| && i < |b| && (a[i] == OtherCase(b[i]) || b[i] == OtherCase(a[i])) ensures a[i] == b[i] {
      OneLetter(b[i], a[i]);
    }
  }

  /** Changing a character keeps the text the same if and only if it changes the case of a letter, or nothing. */
  lemma ChangedCharacter(a: string, i: nat, c: char)
    requires i < |a|
    ensures SameIgnoringCase(a, a[i := c]) <==> c == a[i] || c == OtherCase(a[i])
  {
    hide SameIgnoringCase, OtherCase;
    CaseMeaning(a, a[i := c]);
    OneLetter(c, a[i]);
    OneLetter(a[i], c);
  }

  lemma CaseInTable(table: seq<Entry>, ip: string)
    requires NoLetters(ip)
    ensures forall i :: 0 <= i < |table| ==> (SameIgnoringCase(table[i].ip, ip) <==> table[i].ip == ip)
  {
    hide SameIgnoringCase, NoLetters;
    forall i | 0 <= i < |table| ensures SameIgnoringCase(table[i].ip, ip) <==> table[i].ip == ip { CaseOfNumbers(ip, table[i].ip); }
  }

  class GossipTable {
    var memories: seq<Entry>

    ghost predicate Valid()
      reads this
    {
      UniqueIds(memories) && Named(memories)
    }

    /** init_gossiping: a memory knows itself. */
    constructor (me: Entry)
      requires me.id != NAMELESS
      ensures Valid() && memories == [me]
    {
      memories := [me];
    }

    /** update_memory. */
    method UpdateMemory(memory: Entry)
      requires Valid()
      modifies this
      ensures Valid() && memories == Update(old(memories), memory)
    {
      UpdateJoins(memories, memory, memory.id);
      var i := 0;
      while i < |memories|
        invariant i <= |memories| && memories == old(memories) && forall j :: 0 <= j < i ==> memories[j].id != memory.id
      {
        var existing := memories[i];
        if existing.id == memory.id {
          if existing.timestamp < memory.timestamp {
            memories := memories[i := Entry(existing.id, memory.ip, memory.port, memory.alive, memory.timestamp)];
          }
          return;
        }
        i := i + 1;
      }
      if memory.id != NAMELESS {
        memories := memories + [memory];
      }
    }

    /** Updates the table with every received entry, in order. */
    method Receive(received: seq<Entry>)
      requires Valid()
      modifies this
      ensures Valid() && memories == Merge(old(memories), received)
    {
      assert received[..0] == [];
      for i := 0 to |received|
        invariant Valid() && memories == Merge(old(memories), received[..i])
      {
        assert received[..i + 1][..i] == received[..i];
        UpdateMemory(received[i]);
      }
      assert received[..|received|] == received;
    }

    /** on_gossip: merges the request, whatever it holds, and answers with the whole table, in which every memory has a name. */
    method OnGossip(received: seq<Entry>) returns (reply: seq<Entry>)
      requires Valid()
      modifies this
      ensures Valid() && memories == Merge(old(memories), received) && reply == memories && Named(reply)
    {
      Receive(received);
      reply := [];
      for i := 0 to |memories|
        invariant reply == memories[..i]
      {
        reply := reply + [memories[i]];
      }
    }

    /** post_gossip: merges the answer, or marks the first memory at the requested address as dead. */
    method PostGossip(received: Option<seq<Entry>>, ip: string, port: int, now: int)
      requires Valid()
      modifies this
      ensures Valid()
      ensures received.Some? ==> memories == Merge(old(memories), received.value)
      ensures received.None? ==> |memories| == |old(memories)|
      ensures received.None? ==> forall i :: 0 <= i < |memories| ==>
                var e := old(memories)[i];
                memories[i] ==
                if (SameIgnoringCase(e.ip, ip) && e.port == port
                    && forall j :: 0 <= j < i ==> !(SameIgnoringCase(old(memories)[j].ip, ip) && old(memories)[j].port == port))
                then e.(alive := false, timestamp := now) else e
      ensures received.None? && NoLetters(ip) ==> forall i :: 0 <= i < |memories| ==>
                var e := old(memories)[i];
                memories[i] ==
                if e.ip == ip && e.port == port && forall j :: 0 <= j < i ==> !(old(memories)[j].ip == ip && old(memories)[j].port == port)
                then e.(alive := false, timestamp := now) else e
    {
      hide SameIgnoringCase, NoLetters;
      if NoLetters(ip) { CaseInTable(memories, ip); }
      if received.None? {
        var i := 0;
        while i < |memories|
          invariant i <= |memories| && memories == old(memories)
          invariant forall j :: 0 <= j < i ==> !(SameIgnoringCase(memories[j].ip, ip) && memories[j].port == port)
        {
          if SameIgnoringCase(memories[i].ip, ip) && memories[i].port == port {
            memories := memories[i := memories[i].(alive := false, timestamp := now)];
            break;
          }
          i := i + 1;
        }
      } else {
        Receive(received.value);
      }
    }
  }

  /**
    A clash: a memory that two others know alike stops answering one of them within the same millisecond, which marks it as dead.
    An exchange does not settle the matter.
   */
  method DeadOrAlive(other: Entry, me: Entry, you: Entry) returns (a: GossipTable, b: GossipTable)
    requires NoDup([other.id, me.id, you.id]) && NAMELESS !in [other.id, me.id, you.id] && other.alive
    requires !(SameIgnoringCase(you.ip, other.ip) && you.port == other.port)
    ensures fresh(a) && fresh(b) && a.Valid() && b.Valid() && Clash(a.memories, b.memories, other.id)
    ensures var b' := Merge(b.memories, a.memories);
            var a' := Merge(a.memories, b');
            !SameEntries(a', b') && Find(a', other.id) == Some(other) && Find(b', other.id) == Some(other.(alive := false))
  {
    hide Merge, Find;
    ghost var ids := [other.id, me.id, you.id];
    assert ids[0] == other.id && ids[1] == me.id && ids[2] == you.id;
    a := new GossipTable(me);
    b := new GossipTable(you);
    a.UpdateMemory(other);
    b.UpdateMemory(other);
    TwoEntries(me, other);
    TwoEntries(you, other);
    CaseIsEquivalence(other.ip, other.ip, other.ip);
    b.PostGossip(None, other.ip, other.port, other.timestamp);
    assert b.memories == [you, other.(alive := false)];
    ClashOfTwo(other, me, you);
    ExchangeEqualises(a.memories, b.memories);
    JoinedClash(a.memories, b.memories, other);
  }

  lemma TwoEntries(a: Entry, b: Entry)
    requires a.id != b.id && b.id != NAMELESS
    ensures Update([a], b) == [a, b]
  {
    assert IndexOf([a], b.id) == 1;
  }

  lemma ClashOfTwo(other: Entry, me: Entry, you: Entry)
    requires other.id != me.id && other.id != you.id && other.alive
    ensures var a, b := [me, other], [you, other.(alive := false)];
            Find(a, other.id) == Some(other) && Find(b, other.id) == Some(other.(alive := false)) && Clash(a, b, other.id)
  {
    hide Find;
    FindIs([me, other], other.id, 1);
    FindIs([you, other.(alive := false)], other.id, 1);
  }

  lemma JoinedClash(a: seq<Entry>, b: seq<Entry>, other: Entry)
    requires UniqueIds(a) && Named(a) && UniqueIds(b) && Named(b)
    requires Find(a, other.id) == Some(other) && Find(b, other.id) == Some(other.(alive := false))
    ensures var b' := Merge(b, a);
            Find(b', other.id) == Some(other.(alive := false)) && Find(Merge(a, b'), other.id) == Some(other)
  {
    hide Merge, Find, Newest;
    var b' := Merge(b, a);
    MergeIsJoin(b, a, other.id);
    MergeIsJoin(a, b', other.id);
    NewestConcat(b, a, other.id);
    NewestConcat(a, b', other.id);
    NewestIsFind(a, other.id);
    NewestIsFind(b, other.id);
    NewestIsFind(b', other.id);
    NamedHasNoNameless(a, other.id);
  }

  lemma NamedHasNoNameless(table: seq<Entry>, id: int)
    requires Named(table) && Find(table, id).Some?
    ensures id != NAMELESS
  {
  }

  /** One memory gossips with another. */
  method Exchange(a: GossipTable, b: GossipTable)
    requires a != b && a.Valid() && b.Valid()
    modifies a, b
    ensures a.Valid() && b.Valid()
    ensures SameEntries(a.memories, b.memories) <==> forall id :: !Clash(old(a.memories), old(b.memories), id)
  {
    ExchangeEqualises(a.memories, b.memories);
    var reply := b.OnGossip(a.memories);
    a.PostGossip(Some(reply), "", 0, 0);
  }
}
