/**
 * The unsubscribe fan-out (channelgroup/api_channel_groups.go,
 * unsubscribeUsersFromChannelGroupChannels): of the pairs of given users and channels, unsubscribe
 * those no other channel group covers, batching users that lose the same
 * channels under a key made from the channel list.
 */
module FanOut {
  import opened Collections
  import opened IdLists
  import opened Remote
  import opened Sprint

  // One row of the query for other groups that list a channel of this group.
  datatype OtherRow = OtherRow(channel: Id, group: Id)

  type Members = Id -> Option<seq<Id>>

  // ----- specification ------------------------------------------------------

  predicate IsMember(members: Members, g: Id, u: Id) {
    members(g).Some? && u in members(g).value
  }

  // Some row's group lists the channel and has the user as a member.
  predicate Covered(rows: seq<OtherRow>, members: Members, u: Id, c: Id) {
    exists k :: 0 <= k < |rows| && rows[k].channel == c && IsMember(members, rows[k].group, u)
  }

  predicate ToSend(rows: seq<OtherRow>, members: Members, channels: seq<Id>, users: seq<Id>, u: Id, c: Id) {
    u in users && c in channels && !Covered(rows, members, u, c)
  }

  // Requests of a fan-out are unsubscribes of sorted channel lists.
  predicate WellFormed(trace: seq<Request>) {
    forall i :: 0 <= i < |trace| ==> trace[i].Unsubscribe? && Increasing(trace[i].channels) && Increasing(trace[i].users)
  }

  // ----- stage 1: which groups share which target channels ------------------

  predicate Shares(shared: map<Id, seq<Id>>, g: Id, c: Id) {
    g in shared && c in shared[g]
  }

  predicate RowListed(rows: seq<OtherRow>, n: nat, g: Id, c: Id)
    requires n <= |rows|
  {
    exists k :: 0 <= k < n && rows[k] == OtherRow(c, g)
  }

  method SharedChannelsByGroup(rows: seq<OtherRow>, channels: seq<Id>) returns (shared: map<Id, seq<Id>>)
    ensures forall g, c :: Shares(shared, g, c) <==> c in channels && RowListed(rows, |rows|, g, c)
    ensures forall g :: g in shared ==> |shared[g]| > 0
  {
    var target: set<Id> := set c | c in channels;
    shared := map[];
    for i := 0 to |rows|
      invariant forall g, c :: Shares(shared, g, c) <==> c in channels && RowListed(rows, i, g, c)
      invariant forall g :: g in shared ==> |shared[g]| > 0
    {
      var row := rows[i];
      ghost var before := shared;
      if row.channel in target {
        var sofar := if row.group in shared then shared[row.group] else [];
        shared := shared[row.group := sofar + [row.channel]];
      }
      forall g, c
        ensures Shares(shared, g, c) <==> c in channels && RowListed(rows, i + 1, g, c)
      {
        OneRowMore(rows, i, g, c);
        assert Shares(before, g, c) <==> c in channels && RowListed(rows, i, g, c);
      }
    }
  }

  lemma OneRowMore(rows: seq<OtherRow>, i: nat, g: Id, c: Id)
    requires i < |rows|
    ensures RowListed(rows, i + 1, g, c) <==> RowListed(rows, i, g, c) || rows[i] == OtherRow(c, g)
  {
  }

  // ----- stage 2: which channels each user keeps through those groups -------

  predicate Keeps(covered: map<Id, seq<Id>>, u: Id, c: Id) {
    u in covered && c in covered[u]
  }

  predicate KeptThrough(shared: map<Id, seq<Id>>, members: Members, groups: set<Id>, u: Id, c: Id) {
    exists g :: g in groups && Shares(shared, g, c) && IsMember(members, g, u)
  }

  method CoveredChannelsByUser(shared: map<Id, seq<Id>>, users: seq<Id>, members: Members)
    returns (ok: bool, covered: map<Id, seq<Id>>)
    requires Increasing(users)
    ensures ok <==> forall g :: g in shared ==> members(g).Some?
    ensures ok ==> forall u, c :: u in users ==>
                                    (Keeps(covered, u, c) <==> KeptThrough(shared, members, shared.Keys, u, c))
  {
    covered := map[];
    var pending := shared.Keys;
    // Go's map iteration order is arbitrary: any order is chosen here.
    while pending != {}
      invariant pending <= shared.Keys
      invariant forall g :: g in shared && g !in pending ==> members(g).Some?
      invariant forall u, c :: u in users ==>
                                 (Keeps(covered, u, c) <==> KeptThrough(shared, members, shared.Keys - pending, u, c))
      decreases pending
    {
      var g: Id :| g in pending;
      if members(g).None? {
        return false, map[];
      }
      ghost var before := covered;
      covered := CoverGroup(covered, shared[g], users, members(g).value);
      forall u, c | u in users
        ensures Keeps(covered, u, c) <==> KeptThrough(shared, members, shared.Keys - (pending - {g}), u, c)
      {
        OneGroupMore(shared, members, shared.Keys - pending, g, u, c);
        assert shared.Keys - (pending - {g}) == (shared.Keys - pending) + {g};
        assert Keeps(before, u, c) <==> KeptThrough(shared, members, shared.Keys - pending, u, c);
      }
      pending := pending - {g};
    }
    assert shared.Keys - pending == shared.Keys;
    return true, covered;
  }

  lemma OneGroupMore(shared: map<Id, seq<Id>>, members: Members, groups: set<Id>, g: Id, u: Id, c: Id)
    ensures KeptThrough(shared, members, groups + {g}, u, c) <==>
              KeptThrough(shared, members, groups, u, c) || (Shares(shared, g, c) && IsMember(members, g, u))
  {
  }

  // The channels of one other group are kept by those of the users that are its members.
  method CoverGroup(covered: map<Id, seq<Id>>, channels: seq<Id>, users: seq<Id>, members: seq<Id>)
    returns (covered': map<Id, seq<Id>>)
    requires Increasing(users)
    ensures forall u, c :: Keeps(covered', u, c) <==>
                             Keeps(covered, u, c) || (u in users && u in members && c in channels)
  {
    covered' := covered;
    for i := 0 to |users|
      invariant forall u, c :: Keeps(covered', u, c) <==>
                                 Keeps(covered, u, c) || (u in users[..i] && u in members && c in channels)
    {
      var u := users[i];
      var isMember := ContainsInt64(members, u);
      assert users[..i + 1] == users[..i] + [u];
      ghost var before := covered';
      if isMember {
        covered' := covered'[u := (if u in covered' then covered'[u] else []) + channels];
      }
      forall v, c
        ensures Keeps(covered', v, c) <==>
                  Keeps(covered, v, c) || (v in users[..i + 1] && v in members && c in channels)
      {
        assert Keeps(before, v, c) <==> Keeps(covered, v, c) || (v in users[..i] && v in members && c in channels);
      }
    }
    assert users[..|users|] == users;
  }

  // ----- stage 3: users by the list of channels they lose -------------------

  predicate IsRest(channels: seq<Id>, covered: map<Id, seq<Id>>, u: Id, rest: seq<Id>) {
    && Increasing(rest)
    && forall c :: c in rest <==> c in channels && !Keeps(covered, u, c)
  }

  datatype Batches = Batches(users: map<string, seq<Id>>, channels: map<string, seq<Id>>)

  // Each batch holds, in order, the first n users whose list has that key.
  ghost predicate Batched(b: Batches, users: seq<Id>, rests: seq<seq<Id>>) {
    && |rests| <= |users|
    && b.users.Keys == b.channels.Keys
    && (forall key :: key in b.users ==> SprintInts(b.channels[key]) == key && Increasing(b.channels[key])
                                          && Increasing(b.users[key]))
    && (forall key, u :: key in b.users && u in b.users[key] ==>
                           exists j :: 0 <= j < |rests| && users[j] == u && rests[j] == b.channels[key])
    && (forall j :: 0 <= j < |rests| && rests[j] != [] ==>
                      SprintInts(rests[j]) in b.users && users[j] in b.users[SprintInts(rests[j])])
  }

  method BatchUsers(users: seq<Id>, channels: seq<Id>, covered: map<Id, seq<Id>>)
    returns (b: Batches, ghost rests: seq<seq<Id>>)
    requires Increasing(users)
    ensures |rests| == |users| && Batched(b, users, rests)
    ensures forall j :: 0 <= j < |users| ==> IsRest(channels, covered, users[j], rests[j])
  {
    b := Batches(map[], map[]);
    rests := [];
    assert Batched(b, users, rests);
    hide Batched, SprintInts, WithUser;
    for i := 0 to |users|
      invariant |rests| == i && Batched(b, users, rests)
      invariant forall j :: 0 <= j < i ==> IsRest(channels, covered, users[j], rests[j])
    {
      var u := users[i];
      var rest := RemoveInt64s(channels, if u in covered then covered[u] else []);
      assert IsRest(channels, covered, u, rest);
      if rest != [] {
        BatchAdded(b, users, rests, rest);
        b := WithUser(b, u, rest);
      } else {
        UserWithoutRest(b, users, rests);
      }
      rests := rests + [rest];
    }
  }

  lemma UserBefore(b: Batches, users: seq<Id>, rests: seq<seq<Id>>, key: string, v: Id)
    requires Increasing(users) && |rests| < |users| && Batched(b, users, rests)
    requires key in b.users && v in b.users[key]
    ensures v < users[|rests|]
  {
  }

  // Adding user i, with this list, to the batch of the list's key.
  function WithUser(b: Batches, u: Id, rest: seq<Id>): Batches {
    var key := SprintInts(rest);
    Batches(b.users[key := (if key in b.users then b.users[key] else []) + [u]], b.channels[key := rest])
  }

  lemma UserAdded(b: Batches, users: seq<Id>, rests: seq<seq<Id>>, rest: seq<Id>, key: string)
    requires Increasing(users) && |rests| < |users| && Batched(b, users, rests) && Increasing(rest)
    requires key in WithUser(b, users[|rests|], rest).users
    ensures var b' := WithUser(b, users[|rests|], rest);
            && SprintInts(b'.channels[key]) == key && Increasing(b'.channels[key]) && Increasing(b'.users[key])
    ensures key in b.users ==> WithUser(b, users[|rests|], rest).channels[key] == b.channels[key]
  {
    hide SprintInts;
    if key in b.users {
      assert Increasing(b.users[key]);
      if key == SprintInts(rest) {
        SprintInjective(b.channels[key], rest);
        forall v | v in b.users[key]
          ensures v < users[|rests|]
        {
          UserBefore(b, users, rests, key, v);
        }
        AppendedIncreasing(b.users[key], users[|rests|]);
      }
    }
  }

  lemma BatchAdded(b: Batches, users: seq<Id>, rests: seq<seq<Id>>, rest: seq<Id>)
    requires Increasing(users) && |rests| < |users| && Batched(b, users, rests) && Increasing(rest) && rest != []
    ensures Batched(WithUser(b, users[|rests|], rest), users, rests + [rest])
  {
    hide SprintInts, Increasing;
    var i, key, rests' := |rests|, SprintInts(rest), rests + [rest];
    var u := users[i];
    var b' := WithUser(b, u, rest);
    forall k | k in b'.users
      ensures SprintInts(b'.channels[k]) == k && Increasing(b'.channels[k]) && Increasing(b'.users[k])
      ensures k in b.users ==> b'.channels[k] == b.channels[k]
    {
      UserAdded(b, users, rests, rest, k);
    }
    forall k, v | k in b'.users && v in b'.users[k]
      ensures exists j :: 0 <= j < |rests'| && users[j] == v && rests'[j] == b'.channels[k]
    {
      if k == key && v == u {
        assert users[i] == v && rests'[i] == b'.channels[k];
      } else {
        assert k in b.users && v in b.users[k];
        var j :| 0 <= j < |rests| && users[j] == v && rests[j] == b.channels[k];
        assert users[j] == v && rests'[j] == b'.channels[k];
      }
    }
    forall j | 0 <= j < |rests'| && rests'[j] != []
      ensures SprintInts(rests'[j]) in b'.users && users[j] in b'.users[SprintInts(rests'[j])]
    {
      if j < i {
        assert rests[j] != [] && users[j] in b.users[SprintInts(rests[j])];
      }
    }
  }

  lemma UserWithoutRest(b: Batches, users: seq<Id>, rests: seq<seq<Id>>)
    requires |rests| < |users| && Batched(b, users, rests)
    ensures Batched(b, users, rests + [[]])
  {
  }

  // ----- stage 4: one request per key ---------------------------------------

  // The user's list has one of these keys, and the channel is on it.
  ghost predicate InBatches(users: seq<Id>, rests: seq<seq<Id>>, keys: set<string>, u: Id, c: Id)
    requires |users| == |rests|
  {
    exists j :: 0 <= j < |users| && users[j] == u && SprintInts(rests[j]) in keys && c in rests[j]
  }

  lemma BatchMentions(b: Batches, users: seq<Id>, rests: seq<seq<Id>>, key: string, u: Id, c: Id)
    requires |users| == |rests| && Batched(b, users, rests) && key in b.users
    ensures u in b.users[key] && c in b.channels[key] <==> InBatches(users, rests, {key}, u, c)
  {
    if u in b.users[key] && c in b.channels[key] {
      var j :| 0 <= j < |rests| && users[j] == u && rests[j] == b.channels[key];
    }
    if j :| 0 <= j < |users| && users[j] == u && SprintInts(rests[j]) in {key} && c in rests[j] {
      SprintInjective(rests[j], b.channels[key]);
      assert rests[j] != [];
    }
  }

  lemma OneKeyMore(users: seq<Id>, rests: seq<seq<Id>>, keys: set<string>, key: string, u: Id, c: Id)
    requires |users| == |rests| && Increasing(users) && key !in keys
    ensures InBatches(users, rests, keys + {key}, u, c) <==>
              InBatches(users, rests, keys, u, c) || InBatches(users, rests, {key}, u, c)
    ensures !(InBatches(users, rests, keys, u, c) && InBatches(users, rests, {key}, u, c))
  {
    if j :| 0 <= j < |users| && users[j] == u && SprintInts(rests[j]) in keys && c in rests[j] {
      forall k | 0 <= k < |users| && users[k] == u
        ensures SprintInts(rests[k]) != key
      {
        assert k == j;
      }
    }
  }

  ghost predicate SentExactly(trace: seq<Request>, users: seq<Id>, rests: seq<seq<Id>>, keys: set<string>)
    requires |users| == |rests|
  {
    forall u, c :: Sent(trace, u, c) == if InBatches(users, rests, keys, u, c) then 1 else 0
  }

  ghost predicate AllAccepted(trace: seq<Request>, accepts: nat -> bool) {
    forall i :: 0 <= i < |trace| ==> accepts(i)
  }

  method SendBatches(b: Batches, users: seq<Id>, ghost rests: seq<seq<Id>>, accepts: nat -> bool)
    returns (ok: bool, trace: seq<Request>, ghost sent: set<string>)
    requires Increasing(users) && |users| == |rests| && Batched(b, users, rests)
    ensures WellFormed(trace)
    ensures sent <= b.users.Keys && SentExactly(trace, users, rests, sent)
    ensures ok ==> sent == b.users.Keys
    ensures AllAccepted(trace, accepts) && (!ok ==> !accepts(|trace|))
  {
    trace := [];
    sent := {};
    var pending := b.users.Keys;
    // The keys are sent in sorted order; the result does not depend on it.
    while pending != {}
      invariant pending <= b.users.Keys && sent == b.users.Keys - pending
      invariant WellFormed(trace) && SentExactly(trace, users, rests, sent) && AllAccepted(trace, accepts)
      decreases pending
    {
      var key: string :| key in pending;
      if !accepts(|trace|) {
        return false, trace, sent;
      }
      var q := Unsubscribe(b.channels[key], b.users[key]);
      forall u, c
        ensures Sent(trace + [q], u, c) == if InBatches(users, rests, sent + {key}, u, c) then 1 else 0
      {
        SentSnoc(trace, q, u, c);
        BatchMentions(b, users, rests, key, u, c);
        OneKeyMore(users, rests, sent, key, u, c);
      }
      trace := trace + [q];
      pending := pending - {key};
      sent := sent + {key};
    }
    return true, trace, sent;
  }

  // ----- the whole operation ------------------------------------------------

  function RowsOf(rows: Option<seq<OtherRow>>): seq<OtherRow> {
    if rows.Some? then rows.value else []
  }

  lemma KeptIsCovered(rows: seq<OtherRow>, channels: seq<Id>, shared: map<Id, seq<Id>>, members: Members, u: Id, c: Id)
    requires forall g, d :: Shares(shared, g, d) <==> d in channels && RowListed(rows, |rows|, g, d)
    requires c in channels
    ensures KeptThrough(shared, members, shared.Keys, u, c) <==> Covered(rows, members, u, c)
  {
    if Covered(rows, members, u, c) {
      var k :| 0 <= k < |rows| && rows[k].channel == c && IsMember(members, rows[k].group, u);
      assert rows[k] == OtherRow(c, rows[k].group);
      assert Shares(shared, rows[k].group, c);
    }
    if g :| g in shared.Keys && Shares(shared, g, c) && IsMember(members, g, u) {
      var k :| 0 <= k < |rows| && rows[k] == OtherRow(c, g);
    }
  }

  lemma BatchesSendUncovered(rows: seq<OtherRow>, members: Members, channels: seq<Id>, users: seq<Id>,
                             covered: map<Id, seq<Id>>, rests: seq<seq<Id>>, keys: set<string>, u: Id, c: Id)
    requires |users| == |rests|
    requires forall j :: 0 <= j < |users| ==> IsRest(channels, covered, users[j], rests[j])
    requires u in users && c in channels ==> (Keeps(covered, u, c) <==> Covered(rows, members, u, c))
    ensures InBatches(users, rests, keys, u, c) ==> ToSend(rows, members, channels, users, u, c)
    ensures (forall j :: 0 <= j < |rests| && rests[j] != [] ==> SprintInts(rests[j]) in keys) ==>
              ToSend(rows, members, channels, users, u, c) ==> InBatches(users, rests, keys, u, c)
  {
  }

  lemma SingleRequest(channels: seq<Id>, users: seq<Id>, u: Id, c: Id)
    ensures Sent([Unsubscribe(channels, users)], u, c) == if u in users && c in channels then 1 else 0
  {
  }

  predicate AllRead(rows: seq<OtherRow>, members: Members) {
    forall k :: 0 <= k < |rows| ==> members(rows[k].group).Some?
  }

  predicate SharedRead(rows: seq<OtherRow>, channels: seq<Id>, members: Members) {
    forall k :: 0 <= k < |rows| && rows[k].channel in channels ==> members(rows[k].group).Some?
  }

  // On success every uncovered pair is sent exactly once and no other pair at all; a failed run has
  // sent some of the uncovered pairs, each once, and ended at a failed read, with nothing sent, or at a
  // refused request.
  method UnsubscribeUsersFromChannelGroupChannels(
      rows: Option<seq<OtherRow>>, channelIds: seq<Id>, userIds: seq<Id>, members: Members, accepts: nat -> bool)
    returns (ok: bool, trace: seq<Request>)
    ensures WellFormed(trace)
    ensures forall u, c :: Sent(trace, u, c) <= if ToSend(RowsOf(rows), members, channelIds, userIds, u, c) then 1 else 0
    ensures ok ==> forall u, c ::
                     Sent(trace, u, c) == if ToSend(RowsOf(rows), members, channelIds, userIds, u, c) then 1 else 0
    ensures rows.Some? && AllRead(rows.value, members) && (forall i :: accepts(i)) ==> ok
    ensures ok && |channelIds| > 0 && |userIds| > 0 ==> rows.Some? && SharedRead(rows.value, channelIds, members)
    ensures !ok && (forall i :: accepts(i)) ==> trace == []
    ensures AllAccepted(trace, accepts)
    ensures !ok ==> && |channelIds| > 0 && |userIds| > 0
                    && (rows.None? || !SharedRead(rows.value, channelIds, members) || !accepts(|trace|))
    ensures rows.None? || !SharedRead(rows.value, channelIds, members) ==> trace == []
  {
    var channels := UniqueInt64s(channelIds);
    var users := UniqueInt64s(userIds);
    assert |channelIds| > 0 ==> channelIds[0] in channels;
    assert |userIds| > 0 ==> userIds[0] in users;
    trace := [];
    if |channels| == 0 || |users| == 0 {
      return true, [];
    }
    assert channels[0] in channelIds && users[0] in userIds;
    if rows.None? {
      return false, [];
    }
    var shared := SharedChannelsByGroup(rows.value, channels);
    if |rows.value| == 0 || |shared| == 0 {
      NothingShared(rows.value, channels, shared);
      SharedGroupsRead(rows.value, channels, shared, members);
      ok, trace := SendAll(rows.value, channels, users, members, shared, accepts);
      return;
    }
    var covered;
    ok, covered := CoveredChannelsByUser(shared, users, members);
    if !ok {
      ReadFailed(rows.value, channels, shared, members);
      return false, [];
    }
    SharedGroupsRead(rows.value, channels, shared, members);
    ok, trace := SendRest(rows.value, channels, users, members, shared, covered, accepts);
  }

  lemma NothingShared(rows: seq<OtherRow>, channels: seq<Id>, shared: map<Id, seq<Id>>)
    requires forall g, d :: Shares(shared, g, d) <==> d in channels && RowListed(rows, |rows|, g, d)
    requires forall g :: g in shared ==> |shared[g]| > 0
    requires |rows| == 0 || |shared| == 0
    ensures forall g :: g !in shared
  {
    if |rows| == 0 {
      forall g
        ensures g !in shared
      {
        if g in shared {
          assert Shares(shared, g, shared[g][0]);
        }
      }
    }
  }

  lemma SharedGroupsRead(rows: seq<OtherRow>, channels: seq<Id>, shared: map<Id, seq<Id>>, members: Members)
    requires forall g, d :: Shares(shared, g, d) <==> d in channels && RowListed(rows, |rows|, g, d)
    requires forall g :: g in shared ==> members(g).Some?
    ensures SharedRead(rows, channels, members)
  {
    forall k | 0 <= k < |rows| && rows[k].channel in channels
      ensures members(rows[k].group).Some?
    {
      assert rows[k] == OtherRow(rows[k].channel, rows[k].group);
      assert Shares(shared, rows[k].group, rows[k].channel);
    }
  }

  lemma ReadFailed(rows: seq<OtherRow>, channels: seq<Id>, shared: map<Id, seq<Id>>, members: Members)
    requires forall g, d :: Shares(shared, g, d) <==> d in channels && RowListed(rows, |rows|, g, d)
    requires forall g :: g in shared ==> |shared[g]| > 0
    requires !forall g :: g in shared ==> members(g).Some?
    ensures !AllRead(rows, members) && !SharedRead(rows, channels, members)
  {
    var g :| g in shared && members(g).None?;
    assert Shares(shared, g, shared[g][0]);
    var k :| 0 <= k < |rows| && rows[k] == OtherRow(shared[g][0], g);
  }

  method SendAll(rows: seq<OtherRow>, channels: seq<Id>, users: seq<Id>, members: Members,
                 ghost shared: map<Id, seq<Id>>, accepts: nat -> bool)
    returns (ok: bool, trace: seq<Request>)
    requires Increasing(channels) && Increasing(users) && forall g :: g !in shared
    requires forall g, d :: Shares(shared, g, d) <==> d in channels && RowListed(rows, |rows|, g, d)
    ensures WellFormed(trace)
    ensures !ok ==> trace == []
    ensures ok ==> forall u, c :: Sent(trace, u, c) == if ToSend(rows, members, channels, users, u, c) then 1 else 0
    ensures AllAccepted(trace, accepts) && (!ok ==> !accepts(|trace|))
  {
    if !accepts(0) {
      return false, [];
    }
    ok, trace := true, [Unsubscribe(channels, users)];
    forall u, c
      ensures Sent(trace, u, c) == if ToSend(rows, members, channels, users, u, c) then 1 else 0
    {
      SingleRequest(channels, users, u, c);
      if c in channels {
        KeptIsCovered(rows, channels, shared, members, u, c);
      }
    }
  }

  method SendRest(rows: seq<OtherRow>, channels: seq<Id>, users: seq<Id>, members: Members,
                  ghost shared: map<Id, seq<Id>>, covered: map<Id, seq<Id>>, accepts: nat -> bool)
    returns (ok: bool, trace: seq<Request>)
    requires Increasing(channels) && Increasing(users)
    requires forall g, d :: Shares(shared, g, d) <==> d in channels && RowListed(rows, |rows|, g, d)
    requires forall u, c :: u in users ==>
                              (Keeps(covered, u, c) <==> KeptThrough(shared, members, shared.Keys, u, c))
    ensures WellFormed(trace)
    ensures forall u, c :: Sent(trace, u, c) <= if ToSend(rows, members, channels, users, u, c) then 1 else 0
    ensures ok ==> forall u, c :: Sent(trace, u, c) == if ToSend(rows, members, channels, users, u, c) then 1 else 0
    ensures AllAccepted(trace, accepts) && (!ok ==> !accepts(|trace|))
  {
    var b, rests := BatchUsers(users, channels, covered);
    ghost var sent;
    ok, trace, sent := SendBatches(b, users, rests, accepts);
    forall u, c
      ensures InBatches(users, rests, sent, u, c) ==> ToSend(rows, members, channels, users, u, c)
      ensures ok && ToSend(rows, members, channels, users, u, c) ==> InBatches(users, rests, sent, u, c)
    {
      if c in channels {
        KeptIsCovered(rows, channels, shared, members, u, c);
      }
      BatchesSendUncovered(rows, members, channels, users, covered, rests, sent, u, c);
    }
  }

  // ----- what the rows mean -------------------------------------------------

  type Db = map<Id, set<Id>>

  // The query joins the other groups with the channels this group lists now.
  ghost predicate QueryResult(db: Db, g: Id, rows: seq<OtherRow>) {
    forall row: OtherRow ::
      row in rows <==> && row.group in db && row.group != g && row.channel in db[row.group]
                       && g in db && row.channel in db[g]
  }

  ghost predicate OtherGroupCovers(db: Db, members: Members, g: Id, u: Id, c: Id) {
    exists h :: h in db && h != g && c in db[h] && IsMember(members, h, u)
  }

  // Coverage by another group counts exactly for the channels the group still lists.
  lemma CoveredMeans(db: Db, members: Members, g: Id, rows: seq<OtherRow>, u: Id, c: Id)
    requires QueryResult(db, g, rows)
    ensures Covered(rows, members, u, c) <==> g in db && c in db[g] && OtherGroupCovers(db, members, g, u, c)
  {
    if Covered(rows, members, u, c) {
      var k :| 0 <= k < |rows| && rows[k].channel == c && IsMember(members, rows[k].group, u);
      assert rows[k] in rows;
    }
    if g in db && c in db[g] && OtherGroupCovers(db, members, g, u, c) {
      var h :| h in db && h != g && c in db[h] && IsMember(members, h, u);
      assert OtherRow(c, h) in rows;
    }
  }

  // So a pair another group covers is sent all the same exactly when the group no longer lists the channel.
  lemma CoveredPairSentIffStale(db: Db, members: Members, g: Id, rows: seq<OtherRow>,
                                channels: seq<Id>, users: seq<Id>, u: Id, c: Id)
    requires QueryResult(db, g, rows)
    requires u in users && c in channels && OtherGroupCovers(db, members, g, u, c)
    ensures ToSend(rows, members, channels, users, u, c) <==> !(g in db && c in db[g])
  {
    CoveredMeans(db, members, g, rows, u, c);
  }

  // Channel 5 left group 1 after the caller read it: user 7 loses it although group 2 covers it.
  lemma StaleChannelLosesCover()
    ensures var db, members := map[1 := {}, 2 := {5}], (g: Id) => Some([7]);
            && QueryResult(db, 1, [])
            && OtherGroupCovers(db, members, 1, 7, 5)
            && ToSend([], members, [5], [7], 7, 5)
  {
    var db, members := map[1 := {}, 2 := {5}], (g: Id) => Some([7]);
    assert 2 in db && 5 in db[2] && IsMember(members, 2, 7);
    assert OtherGroupCovers(db, members, 1, 7, 5);
    assert QueryResult(db, 1, []);
  }
}
