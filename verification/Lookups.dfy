/**
  Choosing the current record of a key. A search that finds nothing answers with timestamp -1 in the
  source; here it answers None.
 */
module Lookups {
  import opened Options
  import opened Records

  function Stamp(o: Option<Record>): int
  {
    match o
    case Some(r) => r.ts
    case None => -1
  }

  /** key_with_greater_timestamp: the second argument wins a tie. */
  function Newer(a: Option<Record>, b: Option<Record>): Option<Record>
  {
    if Stamp(a) > Stamp(b) then a else b
  }

  /** The scan of a record list: the first record of the key that has the greatest timestamp. */
  function Pick(rs: seq<Record>, key: nat): Option<Record>
    decreases |rs|
  {
    if rs == [] then None else
      var last := |rs| - 1;
      var before := Pick(rs[..last], key);
      if rs[last].key == key && rs[last].ts > Stamp(before) then Some(rs[last]) else before
  }

  /** Pick finds nothing exactly when the key does not occur. */
  lemma {:induction false} PickNothing(rs: seq<Record>, key: nat)
    ensures Pick(rs, key) == None <==> forall i :: 0 <= i < |rs| ==> rs[i].key != key
    decreases |rs|
  {
    if rs != [] {
      PickNothing(rs[..|rs| - 1], key);
      forall i | 0 <= i < |rs| - 1 ensures rs[i] == rs[..|rs| - 1][i] {}
    }
  }

  /** Otherwise it finds a record of the key that no other exceeds and no earlier one equals. */
  lemma {:induction false} PickFirstGreatest(rs: seq<Record>, key: nat) returns (i: nat)
    requires Pick(rs, key).Some?
    ensures i < |rs| && rs[i] == Pick(rs, key).value && rs[i].key == key
    ensures forall j :: 0 <= j < |rs| && rs[j].key == key ==> rs[j].ts <= rs[i].ts
    ensures forall j :: 0 <= j < i && rs[j].key == key ==> rs[j].ts < rs[i].ts
    decreases |rs|
  {
    var last := |rs| - 1;
    var init := rs[..last];
    if Pick(init, key).Some? {
      i := PickFirstGreatest(init, key);
      forall j | 0 <= j < last && rs[j].key == key ensures rs[j].ts <= init[i].ts { assert rs[j] == init[j]; }
      if Pick(rs, key) != Pick(init, key) { i := last; }
    } else {
      PickNothing(init, key);
      forall j | 0 <= j < last ensures rs[j].key != key { assert rs[j] == init[j]; }
      i := last;
    }
  }

  lemma PickBounds(rs: seq<Record>, key: nat, i: nat)
    requires i < |rs| && rs[i].key == key
    ensures Stamp(Pick(rs, key)) >= rs[i].ts
  {
    PickNothing(rs, key);
    var j := PickFirstGreatest(rs, key);
  }

  lemma PickMember(rs: seq<Record>, key: nat)
    requires Pick(rs, key).Some?
    ensures Pick(rs, key).value in rs && Pick(rs, key).value.key == key
  {
    var j := PickFirstGreatest(rs, key);
  }

  /** Keeps the earlier of two answers unless the later is strictly newer. */
  function Keep(a: Option<Record>, b: Option<Record>): Option<Record>
  {
    if Stamp(b) > Stamp(a) then b else a
  }

  lemma {:induction false} PickConcat(a: seq<Record>, b: seq<Record>, key: nat)
    ensures Pick(a + b, key) == Keep(Pick(a, key), Pick(b, key))
    decreases |b|
  {
    if b == [] {
      assert a + b == a;
    } else {
      var last := |b| - 1;
      assert (a + b)[..|a + b| - 1] == a + b[..last];
      PickConcat(a, b[..last], key);
    }
  }

  lemma PickOne(r: Record, key: nat)
    ensures Pick([r], key) == if r.key == key then Some(r) else None
  {
    assert [r][..0] == [];
  }

  // ---------- Timestamps that settle a record ----------

  /** Records of one key with the same timestamp are the same record. */
  predicate Consistent(rs: seq<Record>)
  {
    forall i, j :: 0 <= i < |rs| && 0 <= j < |rs| && rs[i].key == rs[j].key && rs[i].ts == rs[j].ts ==> rs[i] == rs[j]
  }

  /** Records of one key stand in the order of their timestamps. */
  predicate InOrder(rs: seq<Record>)
  {
    forall i, j :: 0 <= i < j < |rs| && rs[i].key == rs[j].key ==> rs[i].ts <= rs[j].ts
  }
}
