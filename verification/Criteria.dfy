/** The kernel's memories and the criteria that they serve: strong, strong-hash and eventual consistency. */
module Criteria {
  import opened Options
  import opened Gossip

  /** No memory twice, and every memory known, alive and with a name of its own. */
  predicate Serves(list: seq<int>, memories: seq<Entry>)
  {
    NoDup(list) && forall id :: id in list ==> id != NAMELESS && Find(memories, id).Some? && Find(memories, id).value.alive
  }

  /** The list without the first occurrence of a memory. */
  function Without(list: seq<int>, id: int): seq<int>
  {
    if list == [] then [] else if list[0] == id then list[1..] else [list[0]] + Without(list[1..], id)
  }

  lemma {:induction false} WithoutMembers(list: seq<int>, id: int)
    requires NoDup(list)
    ensures NoDup(Without(list, id)) && (forall x :: x in Without(list, id) <==> x in list && x != id)
    ensures |Without(list, id)| == |list| - (if id in list then 1 else 0)
    decreases |list|
  {
    if list != [] {
      var rest := Without(list[1..], id);
      WithoutMembers(list[1..], id);
      assert list == [list[0]] + list[1..];
      forall i | 0 <= i < |rest| ensures rest[i] != list[0] { assert rest[i] in rest; }
    }
  }

  lemma {:induction false} WithoutFirst(list: seq<int>, id: int, i: nat)
    requires i <= |list| && (forall k :: 0 <= k < i ==> list[k] != id) && (i < |list| ==> list[i] == id)
    ensures Without(list, id) == if i < |list| then list[..i] + list[i + 1..] else list
  {
    if i > 0 {
      WithoutFirst(list[1..], id, i - 1);
      assert list == [list[0]] + list[1..];
      if i < |list| { assert list[..i] + list[i + 1..] == [list[0]] + (list[1..][..i - 1] + list[1..][i..]); }
    }
  }

  // ---------- Round robin ----------

  /** The eventual-consistency cursor after one pick from n memories. */
  function Step(cursor: int, n: nat): int { if cursor >= n - 1 then 0 else cursor + 1 }

  function Steps(cursor: int, n: nat, k: nat): int { if k == 0 then cursor else Step(Steps(cursor, n, k - 1), n) }

  /** The cursor after up to n picks: it counts up from the first pick and wraps once. */
  lemma {:induction false} StepsWrap(cursor: int, n: nat, k: nat)
    requires n > 0 && cursor >= -1 && 1 <= k <= n
    ensures var first := Step(cursor, n);
            0 <= first < n && Steps(cursor, n, k) == if first + k - 1 < n then first + k - 1 else first + k - 1 - n
  {
    if k > 1 { StepsWrap(cursor, n, k - 1); } else { assert Steps(cursor, n, 1) == Step(Steps(cursor, n, 0), n); }
  }

  /** n consecutive picks from an unchanged list of n memories visit every position exactly once. */
  lemma PicksVisitEachOnce(cursor: int, n: nat, i: nat)
    requires n > 0 && cursor >= -1 && i < n
    ensures exists k :: 1 <= k <= n && Steps(cursor, n, k) == i
    ensures forall k, l :: 1 <= k < l <= n ==> Steps(cursor, n, k) != Steps(cursor, n, l)
  {
    var first := Step(cursor, n);
    StepsWrap(cursor, n, 1);
    var k: nat := if i >= first then i - first + 1 else i + n - first + 1;
    StepsWrap(cursor, n, k);
    forall k: nat, l: nat | 1 <= k < l <= n ensures Steps(cursor, n, k) != Steps(cursor, n, l) {
      StepsWrap(cursor, n, k);
      StepsWrap(cursor, n, l);
    }
  }

  /** The pick after j others is the memory at the cursor. */
  predicate Picked(list: seq<int>, cursor: int, picks: seq<int>, j: nat)
  {
    var i := Steps(cursor, |list|, j + 1);
    j < |picks| && 0 <= i < |list| && picks[j] == list[i]
  }

  lemma AllPicked(list: seq<int>, cursor: int, picks: seq<int>)
    requires NoDup(list) && cursor >= -1 && |picks| == |list|
    requires forall j: nat :: j < |picks| ==> Picked(list, cursor, picks, j)
    ensures NoDup(picks) && forall id :: id in picks <==> id in list
  {
    var n := |list|;
    if n > 0 { PicksVisitEachOnce(cursor, n, 0); }
    forall i: nat, j: nat | i < j < n ensures picks[i] != picks[j] {
      assert Picked(list, cursor, picks, i) && Picked(list, cursor, picks, j);
      assert Steps(cursor, n, i + 1) != Steps(cursor, n, j + 1);
    }
    forall id ensures id in picks <==> id in list {
      if id in picks {
        var j: nat :| j < n && picks[j] == id;
        assert Picked(list, cursor, picks, j);
      }
      if id in list {
        var i :| 0 <= i < n && list[i] == id;
        PicksVisitEachOnce(cursor, n, i);
        var k: nat :| 1 <= k <= n && Steps(cursor, n, k) == i;
        assert Picked(list, cursor, picks, k - 1);
      }
    }
  }

  // ---------- What updates do to the criteria ----------

  /** The update brings news of the death of a known memory. */
  predicate Dies(memories: seq<Entry>, entry: Entry)
  {
    Find(memories, entry.id).Some? && Find(memories, entry.id).value.timestamp < entry.timestamp && !entry.alive
  }

  lemma UpdateServes(memories: seq<Entry>, entry: Entry, list: seq<int>)
    requires UniqueIds(memories) && Serves(list, memories)
    ensures Serves(if Dies(memories, entry) then Without(list, entry.id) else list, KernelUpdate(memories, entry))
  {
    hide Find, Update;
    var list' := if Dies(memories, entry) then Without(list, entry.id) else list;
    WithoutMembers(list, entry.id);
    forall id | id in list'
      ensures id != NAMELESS && Find(KernelUpdate(memories, entry), id).Some? && Find(KernelUpdate(memories, entry), id).value.alive
    {
      UpdateJoins(memories, entry, id);
      FindBefore(memories, entry, id);
    }
  }

  lemma FindBefore(memories: seq<Entry>, entry: Entry, id: int)
    requires Find(memories, id).Some?
    ensures Find(memories + [entry], id) == Find(memories, id)
  {
    hide Find, IndexOf;
    var i := IndexOf(memories, id);
    FindIs(memories, id, i);
    FindIs(memories + [entry], id, i);
  }

  /** The nameless entry can only be the first. */
  predicate NamelessFirst(memories: seq<Entry>) { forall i :: 0 < i < |memories| ==> memories[i].id != NAMELESS }

  /** The kernel's update differs from a memory's in one thing: it adds a nameless entry that it did not know. */
  function KernelUpdate(memories: seq<Entry>, entry: Entry): seq<Entry>
  {
    if entry.id == NAMELESS && Find(memories, NAMELESS).None? then memories + [entry] else Update(memories, entry)
  }

  function KernelMerge(memories: seq<Entry>, received: seq<Entry>): seq<Entry>
    decreases |received|
  {
    if received == [] then memories else KernelUpdate(KernelMerge(memories, received[..|received| - 1]), received[|received| - 1])
  }

  lemma {:induction false} NamedMerge(memories: seq<Entry>, received: seq<Entry>)
    requires Named(received)
    ensures KernelMerge(memories, received) == Merge(memories, received)
    ensures NamelessFirst(memories) ==> NamelessFirst(Merge(memories, received))
    decreases |received|
  {
    hide Find, IndexOf;
    if received != [] { NamedMerge(memories, received[..|received| - 1]); }
  }

  /** Only a nameless entry that was not known spoils the order, unless there was no other. */
  lemma KernelUpdateOrder(memories: seq<Entry>, entry: Entry)
    requires UniqueIds(memories)
    ensures UniqueIds(KernelUpdate(memories, entry))
    ensures NamelessFirst(memories) ==>
              (NamelessFirst(KernelUpdate(memories, entry)) <==>
               entry.id != NAMELESS || memories == [] || Find(memories, NAMELESS).Some?)
  {
    hide Find, IndexOf;
    UpdateJoins(memories, entry, 0);
    var memories' := KernelUpdate(memories, entry);
    if entry.id == NAMELESS && Find(memories, NAMELESS).None? {
      assert memories'[|memories|].id == NAMELESS;
    }
  }

  /** Marking one memory, dead or alive, keeps the others. */
  lemma MarkServes(memories: seq<Entry>, i: nat, alive: bool, now: int, list: seq<int>)
    requires UniqueIds(memories) && i < |memories| && Serves(list, memories)
    ensures var memories' := memories[i := memories[i].(alive := alive, timestamp := now)];
            && UniqueIds(memories') && (NamelessFirst(memories) ==> NamelessFirst(memories'))
            && Serves(if alive then list else Without(list, memories[i].id), memories')
  {
    hide Find;
    var memories' := memories[i := memories[i].(alive := alive, timestamp := now)];
    WithoutMembers(list, memories[i].id);
    forall id | id in list && (alive || id != memories[i].id)
      ensures id != NAMELESS && Find(memories', id).Some? && Find(memories', id).value.alive
    {
      var k :| 0 <= k < |memories| && memories[k] == Find(memories, id).value;
      assert memories'[k].id == id;
      FindAt(memories', k);
    }
  }

  lemma WithoutNamelessServes(memories: seq<Entry>, list: seq<int>)
    requires UniqueIds(memories) && memories != [] && memories[0].id == NAMELESS && Serves(list, memories)
    ensures UniqueIds(memories[1..]) && Serves(list, memories[1..])
  {
  }

  /** The table once the memory at position i has answered: the nameless entry has served its purpose, any other is alive. */
  function Answered(memories: seq<Entry>, i: nat, now: int): seq<Entry>
    requires i < |memories|
  {
    if memories[i].id == NAMELESS then memories[1..] else memories[i := memories[i].(alive := true, timestamp := now)]
  }

  /** What a list keeps while the entries are taken in, one after the other. */
  function Thin(list: seq<int>, memories: seq<Entry>, entries: seq<Entry>): seq<int>
    decreases |entries|
  {
    if entries == [] then list else
      var before, last := entries[..|entries| - 1], entries[|entries| - 1];
      if Dies(KernelMerge(memories, before), last) then Without(Thin(list, memories, before), last.id) else Thin(list, memories, before)
  }

  /** Some entry is news of the memory's death when its turn comes. */
  ghost predicate ReportedDead(memories: seq<Entry>, entries: seq<Entry>, id: int)
  {
    exists k :: 0 <= k < |entries| && entries[k].id == id && Dies(KernelMerge(memories, entries[..k]), entries[k])
  }

  /** One stands before the other. */
  ghost predicate Before(list: seq<int>, a: int, b: int) { exists i, j :: 0 <= i < j < |list| && list[i] == a && list[j] == b }

  lemma {:induction false} WithoutOrder(list: seq<int>, id: int, a: int, b: int)
    requires Before(Without(list, id), a, b)
    ensures Before(list, a, b)
  {
    if list[0] == id {
      var i, j :| 0 <= i < j < |list| - 1 && list[1..][i] == a && list[1..][j] == b;
      assert list[i + 1] == a && list[j + 1] == b;
    } else {
      var rest := Without(list[1..], id);
      var i, j :| 0 <= i < j < |rest| + 1 && ([list[0]] + rest)[i] == a && ([list[0]] + rest)[j] == b;
      if i > 0 {
        assert rest[i - 1] == a && rest[j - 1] == b;
        WithoutOrder(list[1..], id, a, b);
        var x, y :| 0 <= x < y < |list| - 1 && list[1..][x] == a && list[1..][y] == b;
        assert list[x + 1] == a && list[y + 1] == b;
      } else {
        assert rest[j - 1] == b;
        WithoutKeeps(list[1..], id, b);
        var y :| 0 <= y < |list| - 1 && list[1..][y] == b;
        assert list[0] == a && list[y + 1] == b;
      }
    }
  }

  lemma {:induction false} WithoutKeeps(list: seq<int>, id: int, b: int)
    requires b in Without(list, id)
    ensures b in list
  {
    if list[0] != id && b != list[0] {
      assert b in Without(list[1..], id);
      WithoutKeeps(list[1..], id, b);
    }
  }

  /** A list loses exactly the memories that the entries report dead, and keeps the order of the others. */
  lemma {:induction false} ThinMeaning(list: seq<int>, memories: seq<Entry>, entries: seq<Entry>)
    requires NoDup(list)
    ensures NoDup(Thin(list, memories, entries))
    ensures forall id :: id in Thin(list, memories, entries) <==> id in list && !ReportedDead(memories, entries, id)
    ensures forall a, b :: Before(Thin(list, memories, entries), a, b) ==> Before(list, a, b)
    decreases |entries|
  {
    hide Dies, KernelMerge, Before, ReportedDead, NoDup, Without;
    if entries == [] {
      NobodyReported(memories);
    } else {
      var n := |entries| - 1;
      var before, last := entries[..n], entries[n];
      var thin := Thin(list, memories, before);
      ThinMeaning(list, memories, before);
      WithoutMembers(thin, last.id);
      forall id ensures ReportedDead(memories, entries, id) <==>
                        ReportedDead(memories, before, id) || (last.id == id && Dies(KernelMerge(memories, before), last))
      {
        OneMoreReport(memories, entries, id);
      }
      forall a, b | Before(Without(thin, last.id), a, b) ensures Before(list, a, b) { WithoutOrder(thin, last.id, a, b); }
    }
  }

  lemma NobodyReported(memories: seq<Entry>)
    ensures forall id :: !ReportedDead(memories, [], id)
  {
  }

  lemma OneMoreReport(memories: seq<Entry>, entries: seq<Entry>, id: int)
    requires entries != []
    ensures var n := |entries| - 1;
            ReportedDead(memories, entries, id) <==>
            ReportedDead(memories, entries[..n], id) || (entries[n].id == id && Dies(KernelMerge(memories, entries[..n]), entries[n]))
  {
    hide Dies, KernelMerge;
    var n := |entries| - 1;
    var before := entries[..n];
    if k :| 0 <= k < |entries| && entries[k].id == id && Dies(KernelMerge(memories, entries[..k]), entries[k]) {
      if k < n { assert before[..k] == entries[..k] && before[k] == entries[k]; }
    }
    if k :| 0 <= k < n && before[k].id == id && Dies(KernelMerge(memories, before[..k]), before[k]) {
      assert before[..k] == entries[..k] && before[k] == entries[k];
    }
  }

  lemma ThinSnoc(list: seq<int>, memories: seq<Entry>, entries: seq<Entry>, k: nat)
    requires k < |entries|
    ensures Thin(list, memories, entries[..k + 1]) ==
            if Dies(KernelMerge(memories, entries[..k]), entries[k]) then Without(Thin(list, memories, entries[..k]), entries[k].id)
            else Thin(list, memories, entries[..k])
  {
    hide Dies, KernelMerge, Without;
    assert entries[..k + 1][..k] == entries[..k];
  }

  class Memories {
    var known: seq<Entry>
    var sc: seq<int>
    var shc: seq<int>
    var ec: seq<int>
    var ecNext: int

    /** The criteria are served by different memories, all known and alive. */
    ghost predicate Served()
      reads this
    {
      && UniqueIds(known) && ecNext >= -1
      && |sc| <= 1 && Serves(sc, known) && Serves(shc, known) && Serves(ec, known)
    }

    /** Besides, only the first memory can be nameless. */
    ghost predicate Valid()
      reads this
    {
      Served() && NamelessFirst(known)
    }

    /** init_gossiping and init_memory_list: one memory, known by its address only. */
    constructor (ip: string, port: int, now: int)
      ensures Valid() && known == [Entry(NAMELESS, ip, port, true, now)] && sc == shc == ec == []
    {
      known := [Entry(NAMELESS, ip, port, true, now)];
      sc, shc, ec, ecNext := [], [], [], -1;
    }

    /** get_memory_by_id on a criterion's list. */
    method Listed(list: seq<int>, id: int) returns (found: bool)
      ensures found <==> id in list
    {
      for i := 0 to |list|
        invariant id !in list[..i]
      {
        if list[i] == id {
          return true;
        }
      }
      assert list[..|list|] == list;
      return false;
    }

    /** get_memory_by_id on the known memories. */
    method GetMemoryById(id: int) returns (memory: Option<Entry>)
      ensures memory == Find(known, id)
    {
      hide Find;
      for i := 0 to |known|
        invariant forall j :: 0 <= j < i ==> known[j].id != id
      {
        if known[i].id == id {
          FindIs(known, id, i);
          return Some(known[i]);
        }
      }
      FindIs(known, id, |known|);
      return None;
    }

    /** A memory that ADD may assign. */
    predicate Usable(id: nat)
      reads this
    {
      Find(known, id).Some? && Find(known, id).value.alive
    }

    /** add_sc_memory: only the first memory is taken. */
    method AddSc(id: nat)
      requires Valid()
      modifies this`sc
      ensures Valid() && sc == if Usable(id) && old(sc) == [] then [id] else old(sc)
    {
      hide Find;
      var memory := GetMemoryById(id);
      if memory == None || !memory.value.alive { return; }
      var found := Listed(sc, id);
      if found { return; }
      if |sc| > 0 { return; }
      sc := sc + [id];
    }

    /** add_shc_memory: a second memory forces a journal of all of them. */
    method AddShc(id: nat) returns (journal: bool)
      requires Valid()
      modifies this`shc
      ensures Valid() && shc == if Usable(id) && id !in old(shc) then old(shc) + [id] else old(shc)
      ensures journal <==> shc != old(shc) && |shc| > 1
    {
      hide Find;
      var memory := GetMemoryById(id);
      if memory == None || !memory.value.alive { return false; }
      var found := Listed(shc, id);
      if found { return false; }
      shc := shc + [id];
      journal := |shc| > 1;
    }

    /** add_ec_memory. */
    method AddEc(id: nat)
      requires Valid()
      modifies this`ec
      ensures Valid() && ec == if Usable(id) && id !in old(ec) then old(ec) + [id] else old(ec)
    {
      hide Find;
      var memory := GetMemoryById(id);
      if memory == None || !memory.value.alive { return; }
      var found := Listed(ec, id);
      if found { return; }
      ec := ec + [id];
    }

    /** remove_memory_from_consistency. */
    method RemoveFromConsistency(list: seq<int>, id: int) returns (rest: seq<int>)
      ensures rest == Without(list, id)
    {
      hide Without;
      var i := 0;
      while i < |list|
        invariant i <= |list| && forall k :: 0 <= k < i ==> list[k] != id
      {
        if list[i] == id {
          WithoutFirst(list, id, i);
          return list[..i] + list[i + 1..];
        }
        i := i + 1;
      }
      WithoutFirst(list, id, i);
      return list;
    }

    /** remove_memory: a journal is forced if a strong-hash memory went. */
    method RemoveMemory(id: int) returns (journal: bool)
      requires NoDup(shc)
      modifies this`sc, this`shc, this`ec
      ensures sc == Without(old(sc), id) && shc == Without(old(shc), id) && ec == Without(old(ec), id)
      ensures journal <==> id in old(shc)
    {
      var before := |shc|;
      WithoutMembers(shc, id);
      sc := RemoveFromConsistency(sc, id);
      shc := RemoveFromConsistency(shc, id);
      ec := RemoveFromConsistency(ec, id);
      journal := before != |shc|;
    }

    /** A request to a memory failed: it counts as dead and serves no criterion. */
    method RequestFailed(i: nat, now: int) returns (journal: bool)
      requires Valid() && i < |known|
      modifies this
      ensures Valid() && known == old(known)[i := old(known)[i].(alive := false, timestamp := now)] && ecNext == old(ecNext)
      ensures sc == Without(old(sc), known[i].id) && shc == Without(old(shc), known[i].id) && ec == Without(old(ec), known[i].id)
      ensures journal <==> known[i].id in old(shc)
    {
      hide Find;
      MarkServes(known, i, false, now, sc);
      MarkServes(known, i, false, now, shc);
      MarkServes(known, i, false, now, ec);
      WithoutMembers(sc, known[i].id);
      known := known[i := known[i].(alive := false, timestamp := now)];
      journal := RemoveMemory(known[i].id);
    }

    /** update_memory in the kernel. */
    method UpdateMemory(memory: Entry)
      requires Served()
      modifies this
      ensures Served() && known == KernelUpdate(old(known), memory) && ecNext == old(ecNext)
      ensures old(Valid()) ==> (Valid() <==> memory.id != NAMELESS || old(known) == [] || Find(old(known), NAMELESS).Some?)
      ensures var dies := Dies(old(known), memory);
              && sc == (if dies then Without(old(sc), memory.id) else old(sc))
              && shc == (if dies then Without(old(shc), memory.id) else old(shc))
              && ec == (if dies then Without(old(ec), memory.id) else old(ec))
    {
      hide Find, Without;
      KernelUpdateOrder(known, memory);
      UpdateServes(known, memory, sc);
      UpdateServes(known, memory, shc);
      UpdateServes(known, memory, ec);
      WithoutMembers(sc, memory.id);
      var i := 0;
      while i < |known|
        invariant i <= |known| && forall j :: 0 <= j < i ==> known[j].id != memory.id
      {
        var existing := known[i];
        if existing.id == memory.id {
          FindIs(known, memory.id, i);
          if existing.timestamp < memory.timestamp {
            known := known[i := Entry(existing.id, memory.ip, memory.port, memory.alive, memory.timestamp)];
            if !memory.alive {
              var journal := RemoveMemory(memory.id);
            }
          }
          return;
        }
        i := i + 1;
      }
      FindIs(known, memory.id, |known|);
      known := known + [memory];
    }

    /** Updates the table with every received entry, in order. */
    method ReceiveAll(entries: seq<Entry>)
      requires Served()
      modifies this
      ensures Served() && known == KernelMerge(old(known), entries) && ecNext == old(ecNext)
      ensures sc == Thin(old(sc), old(known), entries) && shc == Thin(old(shc), old(known), entries) && ec == Thin(old(ec), old(known), entries)
    {
      hide Find, Without, Dies, KernelUpdate, UniqueIds, NoDup, Serves, NamelessFirst;
      assert entries[..0] == [];
      for k := 0 to |entries|
        invariant Served() && known == KernelMerge(old(known), entries[..k]) && ecNext == old(ecNext)
        invariant sc == Thin(old(sc), old(known), entries[..k]) && shc == Thin(old(shc), old(known), entries[..k])
        invariant ec == Thin(old(ec), old(known), entries[..k])
      {
        assert entries[..k + 1][..k] == entries[..k];
        ThinSnoc(old(sc), old(known), entries, k);
        ThinSnoc(old(shc), old(known), entries, k);
        ThinSnoc(old(ec), old(known), entries, k);
        UpdateMemory(entries[k]);
      }
      assert entries[..|entries|] == entries;
    }

    /** post_gossip in the kernel, for the selected memory at position i. */
    method PostGossip(i: nat, received: Option<seq<Entry>>, now: int)
      requires Valid() && i < |known|
      modifies this
      ensures Served() && ecNext == old(ecNext) && (received.None? || Named(received.value) ==> Valid())
      ensures var selected := old(known)[i];
              match received
              case None =>
                && known == old(known)[i := selected.(alive := false, timestamp := now)]
                && sc == Without(old(sc), selected.id) && shc == Without(old(shc), selected.id) && ec == Without(old(ec), selected.id)
              case Some(entries) =>
                var base := Answered(old(known), i, now);
                && known == KernelMerge(base, entries) && (Named(entries) ==> known == Merge(base, entries))
                && sc == Thin(old(sc), base, entries) && shc == Thin(old(shc), base, entries) && ec == Thin(old(ec), base, entries)
    {
      hide Find, Without, Thin, Merge, KernelMerge;
      if received == None {
        var journal := RequestFailed(i, now);
      } else {
        var entries := received.value;
        if known[i].id == NAMELESS {
          assert i == 0;
          WithoutNamelessServes(known, sc);
          WithoutNamelessServes(known, shc);
          WithoutNamelessServes(known, ec);
          known := known[1..];
        } else {
          MarkServes(known, i, true, now, sc);
          MarkServes(known, i, true, now, shc);
          MarkServes(known, i, true, now, ec);
          known := known[i := known[i].(alive := true, timestamp := now)];
        }
        if Named(entries) { NamedMerge(known, entries); }
        ReceiveAll(entries);
      }
    }

    /** gossip in the kernel with a memory: since memories only tell of named ones, the invariant holds along every run. */
    method Gossip(i: nat, peer: GossipTable, reachable: bool, now: int)
      requires Valid() && peer.Valid() && i < |known|
      modifies this, peer
      ensures Valid() && peer.Valid() && ecNext == old(ecNext)
      ensures reachable ==>
                var base := Answered(old(known), i, now);
                && peer.memories == Merge(old(peer.memories), old(known)) && known == Merge(base, peer.memories)
                && sc == Thin(old(sc), base, peer.memories) && shc == Thin(old(shc), base, peer.memories)
                && ec == Thin(old(ec), base, peer.memories)
      ensures !reachable ==>
                var id := old(known)[i].id;
                && peer.memories == old(peer.memories) && known == old(known)[i := old(known)[i].(alive := false, timestamp := now)]
                && sc == Without(old(sc), id) && shc == Without(old(shc), id) && ec == Without(old(ec), id)
    {
      hide Find, Without, Thin, Merge, KernelMerge, Serves, UniqueIds, NamelessFirst, Answered;
      if reachable {
        var reply := peer.OnGossip(known);
        PostGossip(i, Some(reply), now);
      } else {
        PostGossip(i, None, now);
      }
    }

    // ---------- Choosing a memory ----------

    /** get_any_sc_memory. */
    method GetAnySc() returns (id: Option<int>)
      requires Valid()
      ensures id.None? <==> sc == []
      ensures id.Some? ==> forall x :: x in sc <==> x == id.value
    {
      if |sc| == 0 { return None; }
      assert sc == [sc[0]];
      return Some(sc[0]);
    }

    /** get_any_shc_memory: the key decides. */
    method GetAnyShc(key: nat) returns (id: Option<int>)
      requires Valid()
      ensures id.None? <==> shc == []
      ensures id.Some? ==> id.value == shc[key % |shc|] && Find(known, id.value).Some? && Find(known, id.value).value.alive
    {
      if |shc| == 0 { return None; }
      return Some(shc[key % |shc|]);
    }

    /** get_any_ec_memory: round robin. */
    method GetAnyEc() returns (id: Option<int>)
      requires Valid()
      modifies this`ecNext
      ensures Valid() && (id.None? <==> ec == [])
      ensures ec == [] ==> ecNext == old(ecNext)
      ensures ec != [] ==> ecNext == Steps(old(ecNext), |ec|, 1) && 0 <= ecNext < |ec| && id == Some(ec[ecNext])
      ensures id.Some? ==> Find(known, id.value).Some? && Find(known, id.value).value.alive
    {
      hide Find;
      if |ec| == 0 { return None; }
      assert Steps(ecNext, |ec|, 1) == Step(Steps(ecNext, |ec|, 0), |ec|);
      if ecNext >= |ec| - 1 {
        ecNext := 0;
      } else {
        ecNext := ecNext + 1;
      }
      return Some(ec[ecNext]);
    }

    /** As many picks as the list has memories: every listed memory is picked exactly once. */
    method PickEach() returns (picks: seq<int>)
      requires Valid()
      modifies this`ecNext
      ensures Valid() && |picks| == |ec| && NoDup(picks) && forall id :: id in picks <==> id in ec
    {
      hide Find;
      picks := [];
      ghost var start := ecNext;
      for k := 0 to |ec|
        invariant Valid() && |picks| == k && ecNext == Steps(start, |ec|, k)
        invariant forall j: nat :: j < k ==> Picked(ec, start, picks, j)
      {
        var id := GetAnyEc();
        assert ecNext == Steps(start, |ec|, k + 1);
        ghost var before := picks;
        picks := picks + [id.value];
        forall j: nat | j < k + 1 ensures Picked(ec, start, picks, j) { assert j < k ==> Picked(ec, start, before, j); }
      }
      AllPicked(ec, start, picks);
    }

    /** The inner function of get_list_with_a_consistency. */
    method AddIfNotFound(mems: seq<int>, list: seq<int>) returns (all: seq<int>)
      requires NoDup(mems)
      ensures NoDup(all) && forall id :: id in all <==> id in mems || id in list
    {
      all := mems;
      for i := 0 to |list|
        invariant NoDup(all) && forall id :: id in all <==> id in mems || id in list[..i]
      {
        var found := Listed(all, list[i]);
        if !found {
          all := all + [list[i]];
        }
      }
      assert list[..|list|] == list;
    }

    /** get_list_with_a_consistency: every memory that serves some criterion, once. */
    method GetListWithAConsistency() returns (mems: seq<int>)
      ensures NoDup(mems) && forall id :: id in mems <==> id in sc || id in shc || id in ec
    {
      mems := AddIfNotFound([], sc);
      mems := AddIfNotFound(mems, shc);
      mems := AddIfNotFound(mems, ec);
    }
  }
}
