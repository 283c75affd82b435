/**
 * The counters of one channel group (channelgroup/api_channel_groups.go): how often each user has been added, as a
 * wrapping 64-bit number. A user the map does not hold reads as zero.
 */
module MemberGenerations {
  import opened Collections
  import opened IdLists

  type UserId = Id

  const GENERATIONS := 0x1_0000_0000_0000_0000

  // ----- specification ------------------------------------------------------

  function Count(gens: map<UserId, nat>, u: UserId): nat {
    if u in gens then gens[u] else 0
  }

  function Bumped(gens: map<UserId, nat>, users: set<UserId>): map<UserId, nat> {
    gens + (map u | u in users :: (Count(gens, u) + 1) % GENERATIONS)
  }

  function SnapshotOf(gens: map<UserId, nat>, users: set<UserId>): map<UserId, nat> {
    map u | u in users :: Count(gens, u)
  }

  function UnchangedSince(gens: map<UserId, nat>, users: set<UserId>, snap: map<UserId, nat>): set<UserId> {
    set u | u in users && Count(gens, u) == Count(snap, u)
  }

  // ----- the map and its loops ----------------------------------------------

  class MemberOps {
    var generations: map<UserId, nat>

    constructor ()
      ensures generations == map[]
    {
      generations := map[];
    }

    method BumpMemberOpGenerations(userIds: seq<UserId>)
      modifies this
      ensures generations == Bumped(old(generations), Elements(userIds))
      ensures forall u :: Count(generations, u)
                       == if u in userIds then (Count(old(generations), u) + 1) % 0x1_0000_0000_0000_0000
                          else Count(old(generations), u)
    {
      var unique := UniqueInt64s(userIds);
      for i := 0 to |unique|
        invariant generations == Bumped(old(generations), Elements(unique[..i]))
      {
        var u := unique[i];
        FreshId(unique, i);
        assert Count(generations, u) == Count(old(generations), u);
        BumpedOneMore(old(generations), unique[..i], u);
        assert unique[..i + 1] == unique[..i] + [u];
        generations := generations[u := (Count(generations, u) + 1) % GENERATIONS];
      }
      assert unique[..|unique|] == unique;
      assert Elements(unique) == Elements(userIds);
    }

    method MemberOpGenerationsFor(userIds: seq<UserId>) returns (start: map<UserId, nat>)
      ensures start == SnapshotOf(generations, Elements(userIds))
      ensures start.Keys == Elements(userIds)
      ensures forall u :: u in userIds ==> start[u] == if u in generations then generations[u] else 0
    {
      var unique := UniqueInt64s(userIds);
      start := map[];
      for i := 0 to |unique|
        invariant start == SnapshotOf(generations, Elements(unique[..i]))
      {
        assert unique[..i + 1] == unique[..i] + [unique[i]];
        start := start[unique[i] := Count(generations, unique[i])];
      }
      assert unique[..|unique|] == unique;
      assert Elements(unique) == Elements(userIds);
    }

    method MemberIdsUnchangedSince(userIds: seq<UserId>, start: map<UserId, nat>) returns (current: seq<UserId>)
      ensures Distinct(current)
      ensures Elements(current) == UnchangedSince(generations, Elements(userIds), start)
      ensures forall u :: u in current <==> && u in userIds
                                            && (if u in generations then generations[u] else 0)
                                               == (if u in start then start[u] else 0)
    {
      var unique := UniqueInt64s(userIds);
      current := [];
      for i := 0 to |unique|
        invariant Distinct(current)
        invariant forall x :: x in current <==> x in unique[..i] && Count(generations, x) == Count(start, x)
      {
        FreshId(unique, i);
        assert unique[..i + 1] == unique[..i] + [unique[i]];
        if Count(generations, unique[i]) == Count(start, unique[i]) {
          current := current + [unique[i]];
        }
      }
      assert unique[..|unique|] == unique;
    }
  }

  lemma FreshId(unique: seq<Id>, i: nat)
    requires Increasing(unique) && i < |unique|
    ensures unique[i] !in unique[..i]
  {
  }

  lemma BumpedOneMore(gens: map<UserId, nat>, ids: seq<UserId>, u: UserId)
    requires u !in ids
    ensures Bumped(gens, Elements(ids + [u])) ==
            Bumped(gens, Elements(ids))[u := (Count(gens, u) + 1) % GENERATIONS]
  {
    assert Elements(ids + [u]) == Elements(ids) + {u};
  }

  // A list that names a user twice still bumps it once, so a snapshot taken before
  // goes stale for exactly the users on the list.
  lemma BumpMakesStale(gens: map<UserId, nat>, users: set<UserId>, watched: set<UserId>)
    requires forall u :: u in gens ==> gens[u] < GENERATIONS
    ensures UnchangedSince(Bumped(gens, users), watched, SnapshotOf(gens, watched)) == watched - users
  {
  }
}
