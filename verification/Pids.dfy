/** Process identifiers: a list that stays strictly increasing and hands out the least unused number. */
module Pids {
  predicate Increasing(ids: seq<nat>) { forall i, j :: 0 <= i < j < |ids| ==> ids[i] < ids[j] }

  predicate LeastUnused(ids: seq<nat>, id: nat) { id !in ids && forall k: nat :: k < id ==> k in ids }

  /** The list after an identifier has been handed out. */
  ghost predicate Generated(ids: seq<nat>, id: nat, ids': seq<nat>)
  {
    LeastUnused(ids, id) && Increasing(ids') && forall x :: x in ids' <==> x in ids || x == id
  }

  ghost predicate Removed(ids: seq<nat>, id: nat, ids': seq<nat>)
  {
    Increasing(ids') && forall x :: x in ids' <==> x in ids && x != id
  }

  /** An increasing list reaches at least its positions, and the gap-free part of it exactly. */
  lemma {:induction false} AtLeastPosition(ids: seq<nat>, i: nat)
    requires Increasing(ids) && i < |ids|
    ensures ids[i] >= i
  {
    if i > 0 { AtLeastPosition(ids, i - 1); }
  }

  lemma FirstGap(ids: seq<nat>, i: nat)
    requires Increasing(ids) && i <= |ids| && (forall k :: 0 <= k < i ==> ids[k] == k) && (i < |ids| ==> ids[i] != i)
    ensures Generated(ids, i, ids[..i] + [i] + ids[i..])
  {
    var ids' := ids[..i] + [i] + ids[i..];
    if i < |ids| { AtLeastPosition(ids, i); }
    forall k: nat | k < i ensures k in ids { assert ids[k] == k; }
    forall x ensures x in ids' <==> x in ids || x == i {
      assert ids == ids[..i] + ids[i..];
    }
  }

  lemma WithoutOne(ids: seq<nat>, i: nat)
    requires Increasing(ids) && i < |ids|
    ensures Removed(ids, ids[i], ids[..i] + ids[i + 1..])
  {
    var ids' := ids[..i] + ids[i + 1..];
    forall x ensures x in ids' <==> x in ids && x != ids[i] {
      if x in ids && x != ids[i] {
        var k :| 0 <= k < |ids| && ids[k] == x;
        assert ids'[if k < i then k else k - 1] == x;
      }
    }
  }

  class ProcessIds {
    var ids: seq<nat>

    ghost predicate Valid()
      reads this
    {
      Increasing(ids)
    }

    /** setup_pid_generator. */
    constructor ()
      ensures Valid() && ids == []
    {
      ids := [];
    }

    /** generate_pid. */
    method Generate() returns (id: nat)
      requires Valid()
      modifies this
      ensures Valid() && Generated(old(ids), id, ids)
    {
      var size := |ids|;
      var i := 0;
      while i < size
        invariant i <= size == |ids| && ids == old(ids)
        invariant forall k :: 0 <= k < i ==> ids[k] == k
      {
        if ids[i] != i {
          FirstGap(ids, i);
          ids := ids[..i] + [i] + ids[i..];
          return i;
        }
        i := i + 1;
      }
      FirstGap(ids, size);
      assert ids[..size] + [size] + ids[size..] == ids + [size];
      ids := ids + [size];
      return size;
    }

    /** remove_pid. */
    method Remove(id: nat)
      requires Valid()
      modifies this
      ensures Valid() && Removed(old(ids), id, ids)
    {
      var i := 0;
      while i < |ids|
        invariant i <= |ids| && ids == old(ids)
        invariant forall k :: 0 <= k < i ==> ids[k] != id
      {
        if ids[i] == id {
          WithoutOne(ids, i);
          ids := ids[..i] + ids[i + 1..];
          return;
        }
        i := i + 1;
      }
    }
  }
}
