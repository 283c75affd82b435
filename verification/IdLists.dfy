/**
 * Lists of 64-bit ids as the channel-group service keeps them
 * (channelgroup/api_channel_groups.go): deduplicated and sorted, so that a list
 * stands for a set and equal sets have equal lists.
 */
module IdLists {
  import opened Collections

  const MIN_ID := -0x8000_0000_0000_0000
  const MAX_ID := 0x7fff_ffff_ffff_ffff

  type Id = x: int | MIN_ID <= x <= MAX_ID

  // ----- sorted lists without repetition ------------------------------------

  predicate Increasing(ids: seq<Id>) {
    forall i, j :: 0 <= i < j < |ids| ==> ids[i] < ids[j]
  }

  predicate SameIds(a: seq<Id>, b: seq<Id>) {
    && (forall x :: x in a ==> x in b)
    && (forall x :: x in b ==> x in a)
  }

  predicate Distinct(ids: seq<Id>) {
    forall i, j :: 0 <= i < j < |ids| ==> ids[i] != ids[j]
  }

  lemma NonEmptyTogether(a: seq<Id>, b: seq<Id>)
    requires SameIds(a, b)
    ensures |b| > 0 ==> |a| > 0
  {
    if |b| > 0 {
      assert b[0] in a;
    }
  }

  lemma AppendedIncreasing(s: seq<Id>, x: Id)
    requires Increasing(s) && forall y :: y in s ==> y < x
    ensures Increasing(s + [x])
  {
    assert forall i :: 0 <= i < |s| ==> s[i] in s;
  }

  // A set has only one increasing list.
  lemma {:induction false} IncreasingIsUnique(a: seq<Id>, b: seq<Id>)
    requires Increasing(a) && Increasing(b) && SameIds(a, b)
    ensures a == b
  {
    NonEmptyTogether(a, b);
    NonEmptyTogether(b, a);
    if |a| > 0 {
      assert a[|a| - 1] in b;
      assert b[|b| - 1] in a;
      assert a[|a| - 1] == b[|b| - 1];
      var p, q := a[..|a| - 1], b[..|b| - 1];
      forall x
        ensures x in p <==> x in q
      {
        assert x in p <==> x in a && x != a[|a| - 1];
        assert x in q <==> x in b && x != b[|b| - 1];
      }
      IncreasingIsUnique(p, q);
      assert a == p + [a[|a| - 1]];
      assert b == q + [b[|b| - 1]];
    }
  }

  // ----- sorting ------------------------------------------------------------

  // Where x goes in a sorted list: everything before is smaller, everything from there on is not.
  method Position(sorted: seq<Id>, x: Id) returns (k: nat)
    ensures k <= |sorted|
    ensures forall i :: 0 <= i < k ==> sorted[i] < x
    ensures k < |sorted| ==> x <= sorted[k]
  {
    k := 0;
    while k < |sorted| && sorted[k] < x
      invariant k <= |sorted|
      invariant forall i :: 0 <= i < k ==> sorted[i] < x
    {
      k := k + 1;
    }
  }

  method SortIds(ids: seq<Id>) returns (sorted: seq<Id>)
    requires Distinct(ids)
    ensures Increasing(sorted)
    ensures forall x :: x in sorted <==> x in ids
  {
    sorted := [];
    for i := 0 to |ids|
      invariant Increasing(sorted)
      invariant forall x :: x in sorted <==> x in ids[..i]
    {
      var x := ids[i];
      var k := Position(sorted, x);
      assert x !in ids[..i];
      assert sorted == sorted[..k] + sorted[k..];
      assert ids[..i + 1] == ids[..i] + [x];
      ghost var before := sorted;
      sorted := sorted[..k] + [x] + sorted[k..];
      InsertedIncreasing(before, k, x);
    }
    assert ids[..|ids|] == ids;
  }

  lemma InsertedIncreasing(s: seq<Id>, k: nat, x: Id)
    requires Increasing(s) && k <= |s| && x !in s
    requires forall i :: 0 <= i < k ==> s[i] < x
    requires k < |s| ==> x <= s[k]
    ensures Increasing(s[..k] + [x] + s[k..])
  {
  }

  // ----- the service's helpers ----------------------------------------------

  method UniqueInt64s(values: seq<Id>) returns (unique: seq<Id>)
    ensures Increasing(unique)
    ensures forall x :: x in unique <==> x in values
  {
    var seen: set<Id> := {};
    unique := [];
    for i := 0 to |values|
      invariant forall x :: x in seen <==> x in values[..i]
      invariant forall x :: x in unique <==> x in values[..i]
      invariant Distinct(unique)
    {
      assert values[..i + 1] == values[..i] + [values[i]];
      if values[i] !in seen {
        seen := seen + {values[i]};
        unique := unique + [values[i]];
      }
    }
    assert values[..|values|] == values;
    unique := SortIds(unique);
  }

  method RemoveInt64s(values: seq<Id>, remove: seq<Id>) returns (unique: seq<Id>)
    ensures Increasing(unique)
    ensures forall x :: x in unique <==> x in values && x !in remove
  {
    var removeSet: set<Id> := {};
    for i := 0 to |remove|
      invariant forall x :: x in removeSet <==> x in remove[..i]
    {
      removeSet := removeSet + {remove[i]};
    }
    assert remove[..|remove|] == remove;
    unique := RemoveAttemptedInt64s(values, removeSet);
  }

  method RemoveAttemptedInt64s(values: seq<Id>, attempted: set<Id>) returns (unique: seq<Id>)
    ensures Increasing(unique)
    ensures forall x :: x in unique <==> x in values && x !in attempted
  {
    var remaining: seq<Id> := [];
    for i := 0 to |values|
      invariant forall x :: x in remaining <==> x in values[..i] && x !in attempted
    {
      if values[i] !in attempted {
        remaining := remaining + [values[i]];
      }
    }
    assert values[..|values|] == values;
    unique := UniqueInt64s(remaining);
  }

  method ContainsInt64(values: seq<Id>, needle: Id) returns (found: bool)
    ensures found <==> needle in values
  {
    for i := 0 to |values|
      invariant needle !in values[..i]
    {
      if values[i] == needle {
        return true;
      }
    }
    assert values[..|values|] == values;
    return false;
  }

  method IdsToAdd(existing: seq<Id>, requested: Option<seq<Id>>) returns (added: seq<Id>)
    ensures Increasing(added)
    ensures forall x :: x in added <==> requested.Some? && x in requested.value && x !in existing
  {
    added := [];
    if requested.Some? {
      var ids := UniqueInt64s(requested.value);
      for i := 0 to |ids|
        invariant Increasing(added)
        invariant forall x :: x in added <==> x in ids[..i] && x !in existing
      {
        var contained := ContainsInt64(existing, ids[i]);
        assert ids[..i + 1] == ids[..i] + [ids[i]];
        if !contained {
          forall x | x in added
            ensures x < ids[i]
          {
            var k :| 0 <= k < i && ids[..i][k] == x;
          }
          AppendedIncreasing(added, ids[i]);
          added := added + [ids[i]];
        }
      }
      assert ids[..|ids|] == ids;
    }
  }

  method IdsToDelete(existing: seq<Id>, requested: Option<seq<Id>>) returns (deleted: seq<Id>)
    ensures Increasing(deleted)
    ensures forall x :: x in deleted <==> requested.Some? && x in requested.value && x in existing
  {
    deleted := [];
    if requested.Some? {
      var ids := UniqueInt64s(requested.value);
      for i := 0 to |ids|
        invariant Increasing(deleted)
        invariant forall x :: x in deleted <==> x in ids[..i] && x in existing
      {
        var contained := ContainsInt64(existing, ids[i]);
        assert ids[..i + 1] == ids[..i] + [ids[i]];
        if contained {
          forall x | x in deleted
            ensures x < ids[i]
          {
            var k :| 0 <= k < i && ids[..i][k] == x;
          }
          AppendedIncreasing(deleted, ids[i]);
          deleted := deleted + [ids[i]];
        }
      }
      assert ids[..|ids|] == ids;
    }
  }
}
