/**
 * Channel folders (channelgroup/api_channel_groups.go): the requests that move channels in and out of a folder, the
 * creation of a group with its rollback, and the folder actions. Every request
 * and every transaction may fail: number n fails when `fails(n)` holds, and then
 * it has no effect. The server refuses to archive a folder that holds a channel.
 */
module Folders {
  import opened Collections
  import opened IdLists
  import opened Remote

  type FolderOf = map<Id, Option<Id>>

  datatype Row = Row(channels: seq<Id>, folder: Option<Id>)

  datatype Outcome =
    | Ok
    | Failed
    | Conflict(channel: Id, expected: Id, conflicting: Id)
    | ExternalChannel(channel: Id)

  // ----- specification ------------------------------------------------------

  predicate HasFolder(rows: map<Id, Row>, g: Id) {
    g in rows && rows[g].folder.Some?
  }

  predicate Listed(ids: Option<seq<Id>>, c: Id) {
    ids.Some? && c in ids.value
  }

  function Placed(m: FolderOf, cs: seq<Id>, f: Id): FolderOf {
    map c | c in m :: if c in cs then Some(f) else m[c]
  }

  function Cleared(m: FolderOf, cs: seq<Id>): FolderOf {
    map c | c in m :: if c in cs then None else m[c]
  }

  predicate Free(m: FolderOf, c: Id, f: Id) {
    c in m && (m[c] == None || m[c] == Some(f))
  }

  predicate AllKnown(m: FolderOf, cs: seq<Id>) {
    forall c :: c in cs ==> c in m
  }

  // Every channel exists if there are users to subscribe, and has no other folder if there is one to fill.
  predicate Fillable(m: FolderOf, folder: Option<Id>, cs: seq<Id>, initial: seq<Id>) {
    && (folder.Some? ==> AllFree(m, cs, folder.value))
    && (|initial| > 0 ==> AllKnown(m, cs))
  }

  predicate AllFree(m: FolderOf, cs: seq<Id>, f: Id) {
    forall c :: c in cs ==> Free(m, c, f)
  }

  predicate Holds(m: FolderOf, f: Id) {
    exists c :: c in m && m[c] == Some(f)
  }

  // The folder holds no channel but these, and these have no other folder.
  predicate Removable(m: FolderOf, cs: seq<Id>, f: Id) {
    && AllFree(m, cs, f)
    && forall c :: c in m && m[c] == Some(f) ==> c in cs
  }

  // How far a walk over the channels got, and why it stopped.
  predicate Stopped(m: FolderOf, u: seq<Id>, k: nat, f: Id, result: Outcome) {
    && k < |u| && !Free(m, u[k], f)
    && (u[k] in m ==> result == Conflict(u[k], f, m[u[k]].value))
    && (u[k] !in m ==> result == Failed)
  }

  // A walk over these channels put those before number k into the folder and stopped there.
  ghost predicate StoppedOnTheWay(m: FolderOf, m': FolderOf, cs: seq<Id>, f: Id,
                                  u: seq<Id>, k: nat, result: Outcome) {
    && Increasing(u) && SameIds(u, cs) && k <= |u|
    && m' == Placed(m, u[..k], f)
    && AllFree(m, u[..k], f)
    && Stopped(m, u, k, f, result)
  }

  // The same for a walk that takes them out.
  ghost predicate StoppedClearing(m: FolderOf, m': FolderOf, cs: seq<Id>, f: Id,
                                  u: seq<Id>, k: nat, result: Outcome) {
    && Increasing(u) && SameIds(u, cs) && k <= |u|
    && m' == Cleared(m, u[..k])
    && AllFree(m, u[..k], f)
    && Stopped(m, u, k, f, result)
  }

  // A removal that no failing request ended: a channel of somebody else is in the folder, or the walk stopped.
  ghost predicate RefusedRemove(m: FolderOf, m': FolderOf, cs: seq<Id>, f: Id, result: Outcome) {
    || (&& result.ExternalChannel? && m' == m
        && result.channel in m && m[result.channel] == Some(f) && result.channel !in cs)
    || (&& (forall c :: c in m && m[c] == Some(f) ==> c in cs)
        && exists u, k :: StoppedClearing(m, m', cs, f, u, k, result))
  }

  predicate Least(c: Id, cs: seq<Id>) {
    c in cs && forall d :: d in cs ==> c <= d
  }

  // A walk into an unused folder that fails moves a channel at all exactly when the smallest channel
  // exists and has no folder; that channel is then in the new folder.
  lemma StrandsIffFirstIsFree(m: FolderOf, m': FolderOf, cs: seq<Id>, f: Id, u: seq<Id>, k: nat, result: Outcome, c: Id)
    requires StoppedOnTheWay(m, m', cs, f, u, k, result) && !Holds(m, f) && Least(c, cs)
    ensures !AllFree(m, cs, f)
    ensures m' == m <==> !Free(m, c, f)
    ensures Holds(m', f) <==> Free(m, c, f)
    ensures Free(m, c, f) ==> m'[c] == Some(f)
  {
    assert u[0] == c by {
      assert u[0] in cs && c in u;
    }
    assert u[k] in cs;
    if k > 0 {
      assert c in u[..k];
      assert Free(m, c, f) && m[c] == None;
      assert m'[c] == Some(f);
    } else {
      assert u[..0] == [];
      assert m' == m;
    }
  }

  // Undoing walks the same sorted list: it passes every channel that was added before it can stop.
  lemma UndoReaches(m: FolderOf, u: seq<Id>, k: nat, j: nat, f: Id)
    requires k <= |u| && j <= |u| && AllFree(m, u[..k], f)
    requires j < |u| ==> !Free(Placed(m, u[..k], f), u[j], f)
    ensures k <= j
  {
    forall i | 0 <= i < k
      ensures Free(Placed(m, u[..k], f), u[i], f)
    {
      assert u[i] in u[..k];
    }
  }

  // One channel more on the way through the list, added or removed.
  lemma OneMore(m: FolderOf, u: seq<Id>, i: nat, f: Id)
    requires Increasing(u) && i < |u| && AllFree(m, u[..i], f) && Free(m, u[i], f)
    ensures AllFree(m, u[..i + 1], f)
    ensures Placed(m, u[..i + 1], f) == Placed(m, u[..i], f)[u[i] := Some(f)]
    ensures Cleared(m, u[..i + 1]) == Cleared(m, u[..i])[u[i] := None]
  {
  }

  // A channel the walk has not reached is as before.
  lemma NotYet(m: FolderOf, u: seq<Id>, i: nat, f: Id)
    requires Increasing(u) && i < |u|
    ensures u[i] !in u[..i]
    ensures u[i] in m ==> Placed(m, u[..i], f)[u[i]] == m[u[i]] && Cleared(m, u[..i])[u[i]] == m[u[i]]
    ensures u[i] in m <==> u[i] in Placed(m, u[..i], f)
    ensures u[i] in m <==> u[i] in Cleared(m, u[..i])
  {
  }

  lemma UndoRestores(m: FolderOf, u: seq<Id>, k: nat, j: nat, f: Id)
    requires k <= j <= |u| && !Holds(m, f) && AllFree(m, u[..k], f)
    requires AllFree(Placed(m, u[..k], f), u[..j], f)
    ensures Cleared(Placed(m, u[..k], f), u[..j]) == m
  {
  }

  // Putting a channel into a folder reads it, and moves it if it has none.
  function PlaceCost(m: FolderOf, c: Id): nat {
    if c in m && m[c] == None then 2 else 1
  }

  function PlaceRequests(m: FolderOf, cs: seq<Id>): nat {
    if cs == [] then 0 else PlaceRequests(m, cs[..|cs| - 1]) + PlaceCost(m, cs[|cs| - 1])
  }

  lemma {:induction false} PlaceRequestsUpTo(m: FolderOf, cs: seq<Id>, i: nat)
    requires i < |cs|
    ensures PlaceRequests(m, cs[..i + 1]) == PlaceRequests(m, cs[..i]) + PlaceCost(m, cs[i])
    ensures PlaceRequests(m, cs[..i + 1]) <= PlaceRequests(m, cs)
    decreases |cs| - i
  {
    assert cs[..i + 1][..i] == cs[..i];
    if i + 1 < |cs| {
      PlaceRequestsUpTo(m, cs, i + 1);
    } else {
      assert cs[..i + 1] == cs;
    }
  }

  class FolderService {
    const fails: nat -> bool
    var clock: nat
    var folderOf: FolderOf
    var archived: map<Id, bool>
    var rows: map<Id, Row>
    var userGroups: map<Id, bool>
    var subs: set<Sub>

    constructor (fails: nat -> bool, folderOf: FolderOf, archived: map<Id, bool>)
      requires forall c :: c in folderOf && folderOf[c].Some? ==> folderOf[c].value in archived
      ensures this.fails == fails && this.folderOf == folderOf && this.archived == archived
      ensures rows == map[] && userGroups == map[] && subs == {} && clock == 0 && Valid()
    {
      this.fails, this.folderOf, this.archived := fails, folderOf, archived;
      clock, rows, userGroups, subs := 0, map[], map[], {};
    }

    // Channels are only ever in folders the server knows, and rows record such folders.
    ghost predicate Valid()
      reads this
    {
      && (forall c :: c in folderOf && folderOf[c].Some? ==> folderOf[c].value in archived)
      && (forall g :: g in rows && rows[g].folder.Some? ==> rows[g].folder.value in archived)
    }

    ghost predicate NoFaults(from: nat, to: nat)
    {
      forall i :: from <= i < to ==> !fails(i)
    }

    ghost predicate AtMostOneFault()
    {
      forall i, j :: fails(i) && fails(j) ==> i == j
    }

    // ----- single requests --------------------------------------------------

    method Request() returns (ok: bool)
      modifies this`clock
      ensures clock == old(clock) + 1
      ensures ok <==> !fails(old(clock))
    {
      ok := !fails(clock);
      clock := clock + 1;
    }

    method GetChannelById(c: Id) returns (folder: Option<Option<Id>>)
      modifies this`clock
      ensures clock == old(clock) + 1
      ensures folder.Some? <==> !fails(old(clock)) && c in folderOf
      ensures folder.Some? ==> folder.value == folderOf[c]
    {
      var ok := Request();
      folder := if ok && c in folderOf then Some(folderOf[c]) else None;
    }

    method UpdateChannel(c: Id, folder: Option<Id>) returns (ok: bool)
      modifies this`clock, this`folderOf
      ensures clock == old(clock) + 1
      ensures ok <==> !fails(old(clock)) && c in folderOf && (folder.Some? ==> folder.value in archived)
      ensures folderOf == if ok then old(folderOf)[c := folder] else old(folderOf)
    {
      ok := Request();
      ok := ok && c in folderOf && (folder.Some? ==> folder.value in archived);
      if ok {
        folderOf := folderOf[c := folder];
      }
    }

    method ArchiveChannelFolder(f: Id) returns (ok: bool)
      modifies this`clock, this`archived
      ensures clock == old(clock) + 1
      ensures ok <==> !fails(old(clock)) && f in archived && !Holds(folderOf, f)
      ensures archived == if ok then old(archived)[f := true] else old(archived)
    {
      ok := Request();
      ok := ok && f in archived && !Holds(folderOf, f);
      if ok {
        archived := archived[f := true];
      }
    }

    method SetChannelGroupFolder(g: Id, folder: Option<Id>) returns (ok: bool)
      modifies this`clock, this`rows
      ensures clock == old(clock) + 1
      ensures ok <==> !fails(old(clock))
      ensures rows == if ok && g in old(rows) then old(rows)[g := old(rows)[g].(folder := folder)] else old(rows)
    {
      ok := Request();
      if ok && g in rows {
        rows := rows[g := rows[g].(folder := folder)];
      }
    }

    // ----- walks over a group's channels ------------------------------------

    method PlaceChannel(c: Id, f: Id) returns (result: Outcome)
      requires Valid() && f in archived
      modifies this`clock, this`folderOf
      ensures Valid() && old(clock) < clock
      ensures result.Ok? ==> && NoFaults(old(clock), clock) && Free(old(folderOf), c, f)
                             && folderOf == old(folderOf)[c := Some(f)]
                             && clock == old(clock) + PlaceCost(old(folderOf), c)
      ensures clock <= old(clock) + PlaceCost(old(folderOf), c)
      ensures !result.Ok? ==> NoFaults(old(clock), clock - 1) && folderOf == old(folderOf)
      ensures !result.Ok? && NoFaults(old(clock), clock) ==>
                && !Free(folderOf, c, f)
                && result == if c in folderOf then Conflict(c, f, folderOf[c].value) else Failed
    {
      var folder := GetChannelById(c);
      if folder.None? {
        return Failed;
      }
      if folder.value.Some? {
        if folder.value.value != f {
          return Conflict(c, f, folder.value.value);
        }
      } else {
        var ok := UpdateChannel(c, Some(f));
        if !ok {
          return Failed;
        }
      }
      assert folderOf == old(folderOf)[c := Some(f)];
      return Ok;
    }

    method AddChannelsToFolder(channelIds: seq<Id>, f: Id)
      returns (result: Outcome, ghost u: seq<Id>, ghost k: nat)
      requires Valid() && f in archived
      modifies this`clock, this`folderOf
      ensures Valid() && old(clock) <= clock
      ensures Increasing(u) && SameIds(u, channelIds) && k <= |u|
      ensures folderOf == Placed(old(folderOf), u[..k], f) && AllFree(old(folderOf), u[..k], f)
      ensures result.Ok? ==> k == |u| && NoFaults(old(clock), clock)
                             && clock == old(clock) + PlaceRequests(old(folderOf), u)
      ensures clock <= old(clock) + PlaceRequests(old(folderOf), u)
      ensures !result.Ok? ==> old(clock) < clock && NoFaults(old(clock), clock - 1)
      ensures !result.Ok? && NoFaults(old(clock), clock) ==> Stopped(old(folderOf), u, k, f, result)
    {
      var ids := UniqueInt64s(channelIds);
      u := ids;
      k := 0;
      ghost var m := folderOf;
      for i := 0 to |ids|
        invariant k == i && Valid() && old(clock) <= clock && NoFaults(old(clock), clock)
        invariant folderOf == Placed(m, u[..i], f) && AllFree(m, u[..i], f)
        invariant clock == old(clock) + PlaceRequests(m, u[..i])
      {
        NotYet(m, u, i, f);
        PlaceRequestsUpTo(m, u, i);
        result := PlaceChannel(ids[i], f);
        if !result.Ok? {
          return;
        }
        OneMore(m, u, i, f);
        k := k + 1;
      }
      assert u[..|u|] == u;
      result := Ok;
    }

    method ClearChannel(c: Id, f: Id) returns (result: Outcome)
      requires Valid()
      modifies this`clock, this`folderOf
      ensures Valid() && old(clock) < clock
      ensures result.Ok? ==> && NoFaults(old(clock), clock) && Free(old(folderOf), c, f)
                             && folderOf == old(folderOf)[c := None]
      ensures !result.Ok? ==> NoFaults(old(clock), clock - 1) && folderOf == old(folderOf)
      ensures !result.Ok? && NoFaults(old(clock), clock) ==>
                && !Free(folderOf, c, f)
                && result == if c in folderOf then Conflict(c, f, folderOf[c].value) else Failed
    {
      var folder := GetChannelById(c);
      if folder.None? {
        return Failed;
      }
      if folder.value.Some? {
        if folder.value.value != f {
          return Conflict(c, f, folder.value.value);
        }
        var ok := UpdateChannel(c, None);
        if !ok {
          return Failed;
        }
      }
      assert folderOf == old(folderOf)[c := None];
      return Ok;
    }

    method RemoveChannelsFromFolder(channelIds: seq<Id>, f: Id)
      returns (result: Outcome, ghost u: seq<Id>, ghost k: nat)
      requires Valid()
      modifies this`clock, this`folderOf
      ensures Valid() && old(clock) <= clock
      ensures Increasing(u) && SameIds(u, channelIds) && k <= |u|
      ensures folderOf == Cleared(old(folderOf), u[..k]) && AllFree(old(folderOf), u[..k], f)
      ensures result.Ok? ==> k == |u| && NoFaults(old(clock), clock)
      ensures !result.Ok? ==> old(clock) < clock && NoFaults(old(clock), clock - 1)
      ensures !result.Ok? && NoFaults(old(clock), clock) ==> Stopped(old(folderOf), u, k, f, result)
    {
      var ids := UniqueInt64s(channelIds);
      u := ids;
      k := 0;
      ghost var m := folderOf;
      for i := 0 to |ids|
        invariant k == i && Valid() && old(clock) <= clock && NoFaults(old(clock), clock)
        invariant folderOf == Cleared(m, u[..i]) && AllFree(m, u[..i], f)
      {
        NotYet(m, u, i, f);
        result := ClearChannel(ids[i], f);
        if !result.Ok? {
          return;
        }
        OneMore(m, u, i, f);
        k := k + 1;
      }
      assert u[..|u|] == u;
      result := Ok;
    }

    // ----- creating a group -------------------------------------------------

    method SubscribeUsersToChannels(channels: seq<Id>, users: seq<Id>) returns (ok: bool)
      modifies this`clock, this`subs
      ensures old(clock) <= clock
      ensures subs == if ok then old(subs) + Pairs(channels, users) else old(subs)
      ensures ok ==> AllKnown(folderOf, channels) && NoFaults(old(clock), clock) && clock == old(clock) + |channels| + 1
      ensures !ok ==> old(clock) < clock <= old(clock) + |channels| + 1 && NoFaults(old(clock), clock - 1)
      ensures NoFaults(old(clock), clock) && AllKnown(folderOf, channels) ==> ok
    {
      for i := 0 to |channels|
        invariant clock == old(clock) + i && subs == old(subs) && NoFaults(old(clock), clock)
        invariant forall j :: 0 <= j < i ==> channels[j] in folderOf
      {
        var channel := GetChannelById(channels[i]);
        if channel.None? {
          return false;
        }
      }
      ok := Request();
      if ok {
        subs := Step(subs, Remote.Request.Subscribe(channels, users));
      }
    }

    method Rollback(g: Id, folder: Option<Id>, channels: seq<Id>,
                    ghost m: FolderOf, ghost u: seq<Id>, ghost k: nat)
      requires Valid() && g in userGroups && Increasing(channels) && u == channels && k <= |u|
      requires folder.Some? ==> && folder.value in archived && !Holds(m, folder.value)
                                && AllFree(m, u[..k], folder.value) && folderOf == Placed(m, u[..k], folder.value)
      modifies this`clock, this`folderOf, this`archived, this`userGroups
      ensures Valid() && old(clock) <= clock
      ensures NoFaults(old(clock), clock) ==>
                && userGroups == old(userGroups)[g := false]
                && (if folder.Some? then
                      && folderOf == m
                      && archived == old(archived)[folder.value := true]
                    else folderOf == old(folderOf) && archived == old(archived))
    {
      if folder.Some? {
        RollbackCreatedChannelFolder(folder.value, channels, m, u, k);
      }
      var ok := Request();
      if ok {
        userGroups := userGroups[g := false];
      }
    }

    // The undo may stop early at a channel of another folder; by then every channel that was added is out.
    method RollbackCreatedChannelFolder(f: Id, channels: seq<Id>, ghost m: FolderOf, ghost u: seq<Id>, ghost k: nat)
      requires Valid() && f in archived && Increasing(channels) && u == channels && k <= |u|
      requires !Holds(m, f) && AllFree(m, u[..k], f) && folderOf == Placed(m, u[..k], f)
      modifies this`clock, this`folderOf, this`archived
      ensures Valid() && old(clock) <= clock
      ensures NoFaults(old(clock), clock) ==> folderOf == m && archived == old(archived)[f := true]
    {
      ghost var from := clock;
      if |channels| > 0 {
        var result, v, j := RemoveChannelsFromFolder(channels, f);
        IncreasingIsUnique(v, u);
        if NoFaults(from, clock) {
          if j < |u| {
            assert Stopped(Placed(m, u[..k], f), u, j, f, result);
          }
          UndoReaches(m, u, k, j, f);
          UndoRestores(m, u, k, j, f);
        }
      } else {
        assert Placed(m, u[..k], f) == m;
      }
      var ok := ArchiveChannelFolder(f);
    }

    // If the creation fails once the user group exists and no rollback request fails, then the channels'
    // folders and the rows are as before, a folder that was created is archived and empty, and the user
    // group is deactivated. Subscriptions made on the way stay: if no request fails before the rollback,
    // they are there exactly when every channel exists. The rollback starts with request `from`: only the
    // request before it, which ended the creation, can have failed until then. So if one request fails in
    // all, and the channels allow the creation, the rollback is free of failures.
    method CreateChannelGroup(g: Id, newFolder: Id, channelIds: seq<Id>, initial: seq<Id>, createFolder: bool)
      returns (ok: bool, ghost provisioned: bool, ghost folderCreated: bool, ghost from: nat)
      requires Valid() && g !in userGroups && g !in rows && newFolder !in archived
      modifies this
      ensures Valid() && (folderCreated ==> provisioned && createFolder)
      ensures provisioned <==> !fails(old(clock))
      ensures !provisioned ==> !ok && folderOf == old(folderOf) && archived == old(archived) && rows == old(rows)
                               && userGroups == old(userGroups) && subs == old(subs)
      ensures !ok && provisioned && NoFaults(from, clock) ==>
                && folderOf == old(folderOf)
                && rows == old(rows)
                && archived == (if folderCreated then old(archived)[newFolder := true] else old(archived))
                && !Holds(folderOf, newFolder)
                && userGroups == old(userGroups)[g := false]
      ensures ok ==> g in rows && Increasing(rows[g].channels) && SameIds(rows[g].channels, channelIds)
      ensures ok ==> rows == old(rows)[g := Row(rows[g].channels, if createFolder then Some(newFolder) else None)]
      ensures ok ==> userGroups == old(userGroups)[g := true]
      ensures ok ==> && folderOf == (if createFolder then Placed(old(folderOf), rows[g].channels, newFolder) else old(folderOf))
                     && archived == (if createFolder then old(archived)[newFolder := false] else old(archived))
      ensures subs == old(subs) || subs == old(subs) + Pairs(channelIds, initial)
      ensures ok ==> subs == old(subs) + Pairs(channelIds, initial)
      ensures provisioned && NoFaults(old(clock), from) ==>
                subs == if AllKnown(old(folderOf), channelIds) then old(subs) + Pairs(channelIds, initial) else old(subs)
      ensures old(clock) <= from <= clock
      ensures !ok && provisioned ==> old(clock) < from && NoFaults(old(clock), from - 1)
      ensures var folder := if createFolder then Some(newFolder) else None;
              && (ok ==> Fillable(old(folderOf), folder, channelIds, initial))
              && (provisioned && NoFaults(old(clock), from) ==>
                    (ok <==> Fillable(old(folderOf), folder, channelIds, initial)))
      ensures !ok && provisioned && AtMostOneFault()
              && Fillable(old(folderOf), if createFolder then Some(newFolder) else None, channelIds, initial) ==>
                NoFaults(from, clock) && folderOf == old(folderOf) && rows == old(rows)
    {
      ok, provisioned, folderCreated, from := false, false, false, clock;
      var channels := UniqueInt64s(channelIds);
      var created := Request();
      if created {
        provisioned := true;
        userGroups := userGroups[g := true];
        ok, folderCreated, from := ProvisionGroup(g, newFolder, channels, initial, createFolder);
        assert Pairs(channels, initial) == Pairs(channelIds, initial);
        assert forall f :: AllFree(old(folderOf), channels, f) <==> AllFree(old(folderOf), channelIds, f);
      }
    }

    method ProvisionGroup(g: Id, newFolder: Id, channels: seq<Id>, initial: seq<Id>, createFolder: bool)
      returns (ok: bool, ghost folderCreated: bool, ghost from: nat)
      requires Valid() && Increasing(channels) && g in userGroups && g !in rows && newFolder !in archived
      modifies this
      ensures Valid() && (folderCreated ==> createFolder)
      ensures subs == old(subs) || subs == old(subs) + Pairs(channels, initial)
      ensures ok ==> subs == old(subs) + Pairs(channels, initial)
      ensures old(clock) <= from <= clock
      ensures ok ==> from == clock && NoFaults(old(clock), clock)
      ensures !ok ==> old(clock) < from <= clock && NoFaults(old(clock), from - 1)
      ensures var folder := if createFolder then Some(newFolder) else None;
              && (ok ==> Fillable(old(folderOf), folder, channels, initial))
              && (NoFaults(old(clock), from) && Fillable(old(folderOf), folder, channels, initial) ==> ok)
      ensures NoFaults(old(clock), from) ==>
                subs == if AllKnown(old(folderOf), channels) then old(subs) + Pairs(channels, initial) else old(subs)
      ensures !ok && NoFaults(from, clock) ==>
                && folderOf == old(folderOf)
                && rows == old(rows)
                && archived == (if folderCreated then old(archived)[newFolder := true] else old(archived))
                && !Holds(folderOf, newFolder)
                && userGroups == old(userGroups)[g := false]
      ensures ok ==>
                && rows == old(rows)[g := Row(channels, if createFolder then Some(newFolder) else None)]
                && userGroups == old(userGroups)
                && folderOf == (if createFolder then Placed(old(folderOf), channels, newFolder) else old(folderOf))
                && archived == (if createFolder then old(archived)[newFolder := false] else old(archived))
    {
      ok, folderCreated, from := false, false, clock;
      var folder: Option<Id> := None;
      NothingPlaced(folderOf, channels, newFolder);
      assert !Holds(folderOf, newFolder);
      if createFolder {
        var created := Request();
        if !created {
          from := clock;
          Rollback(g, None, channels, folderOf, channels, 0);
          return;
        }
        archived := archived[newFolder := false];
        folder, folderCreated := Some(newFolder), true;
      }
      hide Placed, AllFree, Holds, Increasing, Fillable;
      ghost var k;
      ok, k := FillGroup(g, folder, channels, initial);
      from := clock;
      if !ok {
        Rollback(g, folder, channels, old(folderOf), channels, k);
      }
    }

    // The steps after the remote objects exist: subscribe, move the channels into the folder, write the row.
    method FillGroup(g: Id, folder: Option<Id>, channels: seq<Id>, initial: seq<Id>) returns (ok: bool, ghost k: nat)
      requires Valid() && Increasing(channels) && g !in rows && (folder.Some? ==> folder.value in archived)
      modifies this`clock, this`folderOf, this`rows, this`subs
      ensures Valid() && old(clock) <= clock && k <= |channels|
      ensures folder.Some? ==> && folderOf == Placed(old(folderOf), channels[..k], folder.value)
                               && AllFree(old(folderOf), channels[..k], folder.value)
      ensures folder.None? ==> folderOf == old(folderOf)
      ensures ok && folder.Some? ==> folderOf == Placed(old(folderOf), channels, folder.value)
      ensures ok ==> NoFaults(old(clock), clock) && Fillable(old(folderOf), folder, channels, initial)
      ensures !ok ==> old(clock) < clock && NoFaults(old(clock), clock - 1)
      ensures NoFaults(old(clock), clock) && Fillable(old(folderOf), folder, channels, initial) ==> ok
      ensures rows == if ok then old(rows)[g := Row(channels, folder)] else old(rows)
      ensures subs == old(subs) || subs == old(subs) + Pairs(channels, initial)
      ensures ok ==> subs == old(subs) + Pairs(channels, initial)
      ensures NoFaults(old(clock), clock) ==>
                subs == if AllKnown(old(folderOf), channels) then old(subs) + Pairs(channels, initial) else old(subs)
    {
      hide PlaceRequests, PlaceCost;
      k := 0;
      assert |channels| == 0 || |initial| == 0 ==> Pairs(channels, initial) == {};
      if folder.Some? {
        NothingPlaced(folderOf, channels, folder.value);
      }
      if |channels| > 0 && |initial| > 0 {
        var subscribed := SubscribeUsersToChannels(channels, initial);
        if !subscribed {
          return false, k;
        }
      }
      if folder.Some? {
        var result;
        ghost var u;
        result, u, k := AddChannelsToFolder(channels, folder.value);
        IncreasingIsUnique(u, channels);
        assert channels[..|channels|] == channels;
        if !result.Ok? {
          return false, k;
        }
      }
      ok := Request();
      if ok {
        rows := rows[g := Row(channels, folder)];
      }
    }

    // ----- updating a group's channels ---------------------------------------

    // The members are subscribed to the added channels, these are moved into the group's folder, the row is
    // written, and then members that have left meanwhile (`later` is the member list at that time) lose the
    // added channels again. A step that fails ends the update, and what was done before it stays. So a
    // failed update has written the row exactly when the failure is among the requests of the clean-up,
    // which start with request `from`; there are none unless a channel is new and there were members.
    method UpdateChannelGroupChannels(g: Id, addIds: Option<seq<Id>>, deleteIds: Option<seq<Id>>,
                                      members: seq<Id>, later: seq<Id>)
      returns (result: Outcome, ghost added: seq<Id>, ghost written: bool, ghost from: nat)
      requires Valid()
      modifies this`clock, this`folderOf, this`rows, this`subs
      ensures Valid() && old(clock) <= from <= clock
      ensures g in old(rows) && !fails(old(clock)) ==> IsAdded(old(rows)[g].channels, addIds, added)
      ensures written <==> && NoFaults(old(clock), from) && g in old(rows)
                           && Fillable(old(folderOf), old(rows)[g].folder, added, members)
      ensures !written ==> && !result.Ok? && rows == old(rows) && from == clock
                           && old(clock) < from && NoFaults(old(clock), from - 1)
                           && (subs == old(subs) || subs == old(subs) + Pairs(added, members))
      ensures written ==> (result.Ok? <==> NoFaults(from, from + CleanupRequests(added, members, later)))
      ensures written ==> result.Ok? || result.Failed?
      ensures written ==> (if result.Ok? then clock == from + CleanupRequests(added, members, later)
                           else from < clock <= from + CleanupRequests(added, members, later))
      ensures written ==> && g in old(rows) && g in rows
                          && rows == old(rows)[g := Row(rows[g].channels, old(rows)[g].folder)]
                          && IsUpdated(old(rows)[g].channels, addIds, deleteIds, rows[g].channels)
                          && (old(rows)[g].folder.Some? ==>
                                folderOf == Placed(old(folderOf), added, old(rows)[g].folder.value))
      ensures written ==> subs == old(subs) + Pairs(added, members)
                                  - if result.Ok? then LeftPairs(added, members, later) else {}
      ensures if HasFolder(old(rows), g) then MovesInto(old(folderOf), folderOf, added, old(rows)[g].folder.value)
              else folderOf == old(folderOf)
      ensures g in old(rows) ==>
                var requests := UpdateRequests(old(folderOf), old(rows)[g], added, deleteIds, members);
                && from <= old(clock) + requests
                && (written ==> from == old(clock) + requests)
    {
      var newIds, channels;
      result, newIds, channels := WriteUpdate(g, addIds, deleteIds, members);
      added, written, from := newIds, result.Ok?, clock;
      if result.Ok? {
        AddedStay(old(rows)[g].channels, addIds, deleteIds, newIds, channels, old(folderOf), folderOf,
                  old(rows)[g].folder, members);
        hide MovesInto, Placed, Fillable, Pairs, LeftPairs, CleanupRequests, Increasing, IsUpdated;
        var ok;
        ghost var listed;
        ok, listed := CleanupAddedChannels(newIds, members, later, channels);
        IncreasingIsUnique(listed, newIds);
        result := if ok then Ok else Failed;
      }
    }

    // Everything up to the row's transaction.
    method WriteUpdate(g: Id, addIds: Option<seq<Id>>, deleteIds: Option<seq<Id>>, members: seq<Id>)
      returns (result: Outcome, added: seq<Id>, channels: seq<Id>)
      requires Valid()
      modifies this`clock, this`folderOf, this`rows, this`subs
      ensures Valid() && old(clock) < clock
      ensures g in old(rows) && !fails(old(clock)) ==> IsAdded(old(rows)[g].channels, addIds, added)
      ensures result.Ok? <==> && NoFaults(old(clock), clock) && g in old(rows)
                              && Fillable(old(folderOf), old(rows)[g].folder, added, members)
      ensures !result.Ok? ==> && rows == old(rows) && NoFaults(old(clock), clock - 1)
                              && (subs == old(subs) || subs == old(subs) + Pairs(added, members))
      ensures result.Ok? ==> && g in old(rows)
                             && rows == old(rows)[g := Row(channels, old(rows)[g].folder)]
                             && IsUpdated(old(rows)[g].channels, addIds, deleteIds, channels)
                             && subs == old(subs) + Pairs(added, members)
                             && (old(rows)[g].folder.Some? ==>
                                   folderOf == Placed(old(folderOf), added, old(rows)[g].folder.value))
      ensures if HasFolder(old(rows), g) then MovesInto(old(folderOf), folderOf, added, old(rows)[g].folder.value)
              else folderOf == old(folderOf)
      ensures g in old(rows) ==>
                var requests := UpdateRequests(old(folderOf), old(rows)[g], added, deleteIds, members);
                && clock <= old(clock) + requests
                && (result.Ok? ==> clock == old(clock) + requests)
    {
      hide Placed, Pairs, Increasing, Fillable, IsUpdated;
      added, channels := [], [];
      var read := GetGroup(g);
      if read.None? {
        return Failed, added, channels;
      }
      var row := read.value;
      added := IdsToAdd(row.channels, addIds);
      var goneIds := IdsToDelete(row.channels, deleteIds);
      SomeGone(row.channels, deleteIds, goneIds);
      if |added| > 0 || |goneIds| > 0 {
        var listed := Request();
        if !listed {
          return Failed, added, channels;
        }
      }
      hide MovesInto;
      result, channels := JoinAndWrite(g, added, addIds, deleteIds, members);
    }

    method JoinAndWrite(g: Id, added: seq<Id>, addIds: Option<seq<Id>>, deleteIds: Option<seq<Id>>, members: seq<Id>)
      returns (result: Outcome, channels: seq<Id>)
      requires Valid() && g in rows && Increasing(added)
      modifies this`clock, this`folderOf, this`rows, this`subs
      ensures Valid() && old(clock) < clock
      ensures result.Ok? <==> && NoFaults(old(clock), clock)
                              && Fillable(old(folderOf), old(rows)[g].folder, added, members)
      ensures !result.Ok? ==> && rows == old(rows) && NoFaults(old(clock), clock - 1)
                              && (subs == old(subs) || subs == old(subs) + Pairs(added, members))
      ensures result.Ok? ==> && rows == old(rows)[g := Row(channels, old(rows)[g].folder)]
                             && IsUpdated(old(rows)[g].channels, addIds, deleteIds, channels)
                             && subs == old(subs) + Pairs(added, members)
                             && (old(rows)[g].folder.Some? ==>
                                   folderOf == Placed(old(folderOf), added, old(rows)[g].folder.value))
      ensures if HasFolder(old(rows), g) then MovesInto(old(folderOf), folderOf, added, old(rows)[g].folder.value)
              else folderOf == old(folderOf)
      ensures var requests := JoinRequests(old(folderOf), old(rows)[g].folder, added, members) + 1;
              && clock <= old(clock) + requests
              && (result.Ok? ==> clock == old(clock) + requests)
    {
      hide MovesInto, Placed, Pairs, Increasing, Fillable, IsUpdated;
      channels := [];
      var row := rows[g];
      result := JoinAdded(added, members, row.folder);
      if !result.Ok? {
        return;
      }
      var written := Request();
      if !written {
        return Failed, channels;
      }
      channels := UpdatedChannels(row.channels, addIds, deleteIds);
      rows := rows[g := Row(channels, row.folder)];
    }

    method JoinAdded(channelIds: seq<Id>, members: seq<Id>, folder: Option<Id>) returns (result: Outcome)
      requires Valid() && (folder.Some? ==> folder.value in archived) && Increasing(channelIds)
      modifies this`clock, this`folderOf, this`subs
      ensures Valid() && old(clock) <= clock
      ensures result.Ok? <==> NoFaults(old(clock), clock) && Fillable(old(folderOf), folder, channelIds, members)
      ensures !result.Ok? ==> old(clock) < clock && NoFaults(old(clock), clock - 1)
      ensures subs == old(subs) || subs == old(subs) + Pairs(channelIds, members)
      ensures if folder.Some? then MovesInto(old(folderOf), folderOf, channelIds, folder.value)
              else folderOf == old(folderOf)
      ensures result.Ok? ==> subs == old(subs) + Pairs(channelIds, members)
      ensures result.Ok? && folder.Some? ==> folderOf == Placed(old(folderOf), channelIds, folder.value)
      ensures clock <= old(clock) + JoinRequests(old(folderOf), folder, channelIds, members)
      ensures result.Ok? ==> clock == old(clock) + JoinRequests(old(folderOf), folder, channelIds, members)
    {
      assert |channelIds| == 0 || |members| == 0 ==> Pairs(channelIds, members) == {};
      assert forall f :: MovesInto(folderOf, folderOf, channelIds, f);
      if |channelIds| > 0 && |members| > 0 {
        var subscribed := SubscribeUsersToChannels(channelIds, members);
        if !subscribed {
          return Failed;
        }
      }
      result := Ok;
      if folder.Some? {
        result := PlaceAdded(channelIds, folder.value);
      }
    }

    method PlaceAdded(channelIds: seq<Id>, f: Id) returns (result: Outcome)
      requires Valid() && f in archived && Increasing(channelIds)
      modifies this`clock, this`folderOf
      ensures Valid() && old(clock) <= clock && MovesInto(old(folderOf), folderOf, channelIds, f)
      ensures clock <= old(clock) + PlaceRequests(old(folderOf), channelIds)
      ensures result.Ok? ==> clock == old(clock) + PlaceRequests(old(folderOf), channelIds)
      ensures result.Ok? <==> NoFaults(old(clock), clock) && AllFree(old(folderOf), channelIds, f)
      ensures !result.Ok? ==> old(clock) < clock && NoFaults(old(clock), clock - 1)
      ensures result.Ok? ==> folderOf == Placed(old(folderOf), channelIds, f)
    {
      ghost var u, k;
      result, u, k := AddChannelsToFolder(channelIds, f);
      WholeList(old(folderOf), u, k, channelIds, f);
      IncreasingIsUnique(u, channelIds);
    }

    method UnsubscribeUsersFromChannels(channels: seq<Id>, users: seq<Id>) returns (ok: bool)
      modifies this`clock, this`subs
      ensures old(clock) < clock <= old(clock) + |channels| + 1
      ensures subs == if ok then old(subs) - Pairs(channels, users) else old(subs)
      ensures ok ==> NoFaults(old(clock), clock) && clock == old(clock) + |channels| + 1
      ensures NoFaults(old(clock), clock) && AllKnown(folderOf, channels) ==> ok
    {
      for i := 0 to |channels|
        invariant clock == old(clock) + i && subs == old(subs) && NoFaults(old(clock), clock)
      {
        var channel := GetChannelById(channels[i]);
        if channel.None? {
          return false;
        }
      }
      ok := Request();
      if ok {
        subs := Step(subs, Unsubscribe(channels, users));
      }
    }

    // The users of the first list that are not on the second lose the added channels the row lists.
    method CleanupAddedChannels(added: seq<Id>, previous: seq<Id>, later: seq<Id>, current: seq<Id>)
      returns (ok: bool, ghost listed: seq<Id>)
      modifies this`clock, this`subs
      ensures Increasing(listed) && forall c :: c in listed <==> c in added && c in current
      ensures ok ==> NoFaults(old(clock), clock) && clock == old(clock) + CleanupRequests(listed, previous, later)
      ensures !ok ==> old(clock) < clock <= old(clock) + CleanupRequests(listed, previous, later)
      ensures NoFaults(old(clock), clock) && (|previous| > 0 ==> AllKnown(folderOf, listed)) ==> ok
      ensures subs == if ok then old(subs) - LeftPairs(listed, previous, later) else old(subs)
    {
      var clean := IdsToDelete(current, Some(added));
      ok, listed := true, clean;
      if |clean| == 0 || |previous| == 0 {
        return;
      }
      ok := Request();
      if !ok {
        return;
      }
      var stale := RemoveInt64s(previous, later);
      if |stale| == 0 {
        assert forall u :: u in previous && u !in later ==> u in stale;
        return;
      }
      assert stale[0] in previous && stale[0] !in later;
      ok := UnsubscribeUsersFromChannels(clean, stale);
      assert Pairs(clean, stale) == LeftPairs(clean, previous, later);
    }

    // ----- folder actions ---------------------------------------------------

    ghost function View(): FolderState
      reads this
    {
      FolderState(folderOf, archived, rows)
    }

    method GetGroup(g: Id) returns (row: Option<Row>)
      modifies this`clock
      ensures clock == old(clock) + 1
      ensures row == if !fails(old(clock)) && g in rows then Some(rows[g]) else None
    {
      var ok := Request();
      row := if ok && g in rows then Some(rows[g]) else None;
    }

    method AssignChannelGroupFolder(g: Id) returns (result: Outcome)
      requires Valid()
      modifies this`clock, this`folderOf
      ensures Valid() && Acts(old(View()), View(), g) && rows == old(rows) && archived == old(archived)
      ensures old(clock) <= clock
      ensures if HasFolder(rows, g) then MovesInto(old(folderOf), folderOf, rows[g].channels, rows[g].folder.value)
              else folderOf == old(folderOf)
      ensures result.Ok? <==> && NoFaults(old(clock), clock) && HasFolder(rows, g)
                              && AllFree(old(folderOf), rows[g].channels, rows[g].folder.value)
      ensures result.Ok? ==> folderOf == Placed(old(folderOf), rows[g].channels, rows[g].folder.value)
      ensures !result.Ok? ==> old(clock) < clock && NoFaults(old(clock), clock - 1)
      ensures !result.Ok? && HasFolder(rows, g) && NoFaults(old(clock), clock) ==>
                exists u, k :: StoppedOnTheWay(old(folderOf), folderOf, rows[g].channels, rows[g].folder.value, u, k, result)
    {
      var row := GetGroup(g);
      if row.None? || row.value.folder.None? {
        return Failed;
      }
      ghost var u, k;
      result, u, k := PlaceChannels(g, row.value.folder.value);
      ActsByOwn(old(View()), View(), g, row.value.folder.value, None);
    }

    method PlaceChannels(g: Id, f: Id) returns (result: Outcome, ghost u: seq<Id>, ghost k: nat)
      requires Valid() && g in rows && f in archived
      modifies this`clock, this`folderOf
      ensures Valid() && old(clock) <= clock && MovesInto(old(folderOf), folderOf, rows[g].channels, f)
      ensures result.Ok? ==> NoFaults(old(clock), clock)
      ensures !result.Ok? ==> old(clock) < clock && NoFaults(old(clock), clock - 1)
      ensures result.Ok? ==> && folderOf == Placed(old(folderOf), rows[g].channels, f)
                             && AllFree(old(folderOf), rows[g].channels, f)
      ensures !result.Ok? && NoFaults(old(clock), clock) ==>
                StoppedOnTheWay(old(folderOf), folderOf, rows[g].channels, f, u, k, result)
    {
      result, u, k := AddChannelsToFolder(rows[g].channels, f);
      WholeList(old(folderOf), u, k, rows[g].channels, f);
    }

    method ClearChannels(g: Id, f: Id) returns (result: Outcome)
      requires Valid() && g in rows
      modifies this`clock, this`folderOf
      ensures Valid() && old(clock) <= clock && MovesOutOf(old(folderOf), folderOf, rows[g].channels, f)
      ensures result.Ok? <==> NoFaults(old(clock), clock) && AllFree(old(folderOf), rows[g].channels, f)
      ensures result.Ok? ==> folderOf == Cleared(old(folderOf), rows[g].channels)
      ensures !result.Ok? ==> old(clock) < clock && NoFaults(old(clock), clock - 1)
      ensures !result.Ok? && NoFaults(old(clock), clock) ==>
                exists u, k :: StoppedClearing(old(folderOf), folderOf, rows[g].channels, f, u, k, result)
    {
      ghost var u, k;
      result, u, k := RemoveChannelsFromFolder(rows[g].channels, f);
      WholeList(old(folderOf), u, k, rows[g].channels, f);
      assert !result.Ok? && NoFaults(old(clock), clock) ==>
               StoppedClearing(old(folderOf), folderOf, rows[g].channels, f, u, k, result);
    }

    method UnassignChannelGroupFolder(g: Id) returns (result: Outcome)
      requires Valid()
      modifies this
      ensures Valid() && Acts(old(View()), View(), g) && rows == old(rows) && archived == old(archived)
      ensures if HasFolder(rows, g) then MovesOutOf(old(folderOf), folderOf, rows[g].channels, rows[g].folder.value)
              else folderOf == old(folderOf)
      ensures result.Ok? <==> && NoFaults(old(clock), clock) && g in rows
                              && (HasFolder(rows, g) ==> AllFree(old(folderOf), rows[g].channels, rows[g].folder.value))
      ensures result.Ok? ==> folderOf == (if HasFolder(rows, g) then Cleared(old(folderOf), rows[g].channels)
                                          else old(folderOf))
      ensures !result.Ok? ==> old(clock) < clock && NoFaults(old(clock), clock - 1)
      ensures !result.Ok? && HasFolder(rows, g) && NoFaults(old(clock), clock) ==>
                exists u, k :: StoppedClearing(old(folderOf), folderOf, rows[g].channels, rows[g].folder.value, u, k, result)
    {
      var row := GetGroup(g);
      if row.None? {
        return Failed;
      }
      if row.value.folder.None? {
        return Ok;
      }
      result := ClearChannels(g, row.value.folder.value);
      ActsByOwn(old(View()), View(), g, row.value.folder.value, None);
    }

    // Refuses to touch a folder that holds a channel of somebody else.
    method RejectChannelsOutsideGroupInFolder(channels: seq<Id>, f: Id) returns (result: Outcome)
      modifies this`clock
      ensures clock == old(clock) + 1
      ensures result.Ok? ==> forall c :: c in folderOf && folderOf[c] == Some(f) ==> c in channels
      ensures result.ExternalChannel? ==>
                && result.channel in folderOf && folderOf[result.channel] == Some(f) && result.channel !in channels
      ensures result.Ok? || result.ExternalChannel? <==> !fails(old(clock))
    {
      var ok := Request();
      if !ok {
        return Failed;
      }
      var pending := folderOf.Keys;
      while pending != {}
        invariant clock == old(clock) + 1 && pending <= folderOf.Keys
        invariant forall c :: c in folderOf && c !in pending && folderOf[c] == Some(f) ==> c in channels
        decreases pending
      {
        var c: Id :| c in pending;
        pending := pending - {c};
        if folderOf[c] == Some(f) {
          var inside := ContainsInt64(channels, c);
          if !inside {
            return ExternalChannel(c);
          }
        }
      }
      return Ok;
    }

    // A successful remove leaves the folder without channels, archived, and cleared from the row.
    method RemoveChannelGroupFolder(g: Id) returns (result: Outcome)
      requires Valid()
      modifies this
      ensures Valid() && Acts(old(View()), View(), g)
      ensures result.Ok? ==> g in rows && rows == old(rows)[g := old(rows)[g].(folder := None)]
      ensures result.Ok? && old(rows)[g].folder.Some? ==>
                var f := old(rows)[g].folder.value;
                && !Holds(folderOf, f)
                && archived == old(archived)[f := true]
                && folderOf == Cleared(old(folderOf), rows[g].channels)
      ensures !result.Ok? ==> rows == old(rows) && old(clock) < clock && NoFaults(old(clock), clock - 1)
      ensures result.Ok? <==> && NoFaults(old(clock), clock) && g in old(rows)
                              && (HasFolder(old(rows), g) ==>
                                    Removable(old(folderOf), old(rows)[g].channels, old(rows)[g].folder.value))
      ensures !result.Ok? && HasFolder(old(rows), g) && NoFaults(old(clock), clock) ==>
                RefusedRemove(old(folderOf), folderOf, old(rows)[g].channels, old(rows)[g].folder.value, result)
      ensures if HasFolder(old(rows), g)
              then MovesOutOf(old(folderOf), folderOf, old(rows)[g].channels, old(rows)[g].folder.value)
              else folderOf == old(folderOf)
    {
      var row := GetGroup(g);
      if row.None? {
        return Failed;
      }
      if row.value.folder.None? {
        ActsIdle(old(View()), View(), g);
        assert rows[g] == rows[g].(folder := None);
        return Ok;
      }
      result := RemoveFolder(g, row.value.folder.value);
      ActsByOwn(old(View()), View(), g, row.value.folder.value, None);
    }

    method RemoveFolder(g: Id, f: Id) returns (result: Outcome)
      requires Valid() && g in rows && rows[g].folder == Some(f)
      modifies this
      ensures Valid() && MovesOutOf(old(folderOf), folderOf, old(rows)[g].channels, f)
      ensures archived.Keys == old(archived).Keys && old(clock) < clock
      ensures result.Ok? <==> NoFaults(old(clock), clock) && Removable(old(folderOf), old(rows)[g].channels, f)
      ensures !result.Ok? ==> NoFaults(old(clock), clock - 1)
      ensures !result.Ok? && NoFaults(old(clock), clock) ==>
                RefusedRemove(old(folderOf), folderOf, old(rows)[g].channels, f, result)
      ensures rows == if result.Ok? then old(rows)[g := old(rows)[g].(folder := None)] else old(rows)
      ensures result.Ok? ==> && !Holds(folderOf, f)
                             && archived == old(archived)[f := true]
                             && folderOf == Cleared(old(folderOf), rows[g].channels)
    {
      result := RejectChannelsOutsideGroupInFolder(rows[g].channels, f);
      if !result.Ok? {
        return;
      }
      result := ClearChannels(g, f);
      if !result.Ok? {
        return;
      }
      hide MovesOutOf, AllFree, Cleared, Holds;
      var ok := ArchiveChannelFolder(f);
      if !ok {
        return Failed;
      }
      ok := SetChannelGroupFolder(g, None);
      if !ok {
        return Failed;
      }
    }

    // Adding a folder to a group that has none creates it, records it, and fills it. When that fails, the
    // record is taken back and the folder archived, but the channels are not taken out again: if no request
    // of the clean-up, which starts with request `from`, fails, then the folder ends up archived exactly
    // when it holds no channel. If no request fails before it, the add succeeds exactly when every channel
    // exists and has no folder, and otherwise leaves a channel behind exactly when this holds of the
    // smallest one.
    method AddChannelGroupFolder(g: Id, newFolder: Id)
      returns (result: Outcome, ghost created: bool, ghost from: nat, ghost u: seq<Id>, ghost k: nat)
      requires Valid() && newFolder !in archived
      modifies this`clock, this`folderOf, this`archived, this`rows
      ensures Valid() && Acts(old(View()), View(), g)
      ensures result.Ok? ==> && g in rows && rows[g].folder.Some?
                             && folderOf == Placed(old(folderOf), rows[g].channels, rows[g].folder.value)
                             && AllFree(old(folderOf), rows[g].channels, rows[g].folder.value)
                             && rows[g].folder == if created then Some(newFolder) else old(rows)[g].folder
      ensures created ==> g in old(rows) && old(rows)[g].folder == None && newFolder in archived
      ensures !result.Ok? && created && NoFaults(from, clock) ==>
                && rows == old(rows)
                && archived == old(archived)[newFolder := !Holds(folderOf, newFolder)]
      ensures !result.Ok? && created && NoFaults(old(clock), from) ==>
                StoppedOnTheWay(old(folderOf), folderOf, rows[g].channels, newFolder, u, k, result)
      ensures created <==> && g in old(rows) && old(rows)[g].folder.None? && g in userGroups
                           && NoFaults(old(clock), old(clock) + 3)
      ensures !created ==> (result.Ok? <==> && NoFaults(old(clock), clock) && HasFolder(old(rows), g)
                                            && AllFree(old(folderOf), old(rows)[g].channels, old(rows)[g].folder.value))
      ensures created && result.Ok? ==> from == clock && NoFaults(old(clock), clock)
      ensures created && NoFaults(old(clock), from) ==>
                (result.Ok? <==> AllFree(old(folderOf), old(rows)[g].channels, newFolder))
      ensures !result.Ok? && created && NoFaults(old(clock), from) ==>
                forall c :: Least(c, old(rows)[g].channels) ==>
                  var stranded := Free(old(folderOf), c, newFolder);
                  && (folderOf == old(folderOf) <==> !stranded)
                  && (stranded ==> c in folderOf && folderOf[c] == Some(newFolder))
                  && (NoFaults(from, clock) ==> archived == old(archived)[newFolder := !stranded])
      ensures !result.Ok? && created && AtMostOneFault() && AllFree(old(folderOf), old(rows)[g].channels, newFolder) ==>
                NoFaults(from, clock) && rows == old(rows)
      ensures old(clock) <= from <= clock
      ensures created && !result.Ok? ==> old(clock) < from && NoFaults(old(clock), from - 1)
      ensures if created then MovesInto(old(folderOf), folderOf, old(rows)[g].channels, newFolder)
              else if HasFolder(old(rows), g)
              then MovesInto(old(folderOf), folderOf, old(rows)[g].channels, old(rows)[g].folder.value)
              else folderOf == old(folderOf)
    {
      created, from, u, k := false, clock, [], 0;
      var row := GetGroup(g);
      if row.None? {
        ActsIdle(old(View()), View(), g);
        return Failed, created, from, u, k;
      }
      if row.value.folder.Some? {
        result := AssignChannelGroupFolder(g);
        return;
      }
      assert !Holds(folderOf, newFolder);
      result, created, from, u, k := CreateAndFill(g, newFolder);
      if !result.Ok? && created && NoFaults(old(clock), from) {
        hide Acts, StoppedOnTheWay, Holds, Least;
        FailedAdd(old(folderOf), folderOf, old(rows)[g].channels, newFolder, u, k, result);
      }
    }

    method CreateAndFill(g: Id, newFolder: Id)
      returns (result: Outcome, ghost created: bool, ghost from: nat, ghost u: seq<Id>, ghost k: nat)
      requires Valid() && newFolder !in archived && g in rows && rows[g].folder == None
      modifies this`clock, this`folderOf, this`archived, this`rows
      ensures Valid() && Acts(old(View()), View(), g)
      ensures result.Ok? ==> && created && rows == old(rows)[g := old(rows)[g].(folder := Some(newFolder))]
                             && folderOf == Placed(old(folderOf), rows[g].channels, newFolder)
                             && AllFree(old(folderOf), rows[g].channels, newFolder)
                             && archived == old(archived)[newFolder := false]
      ensures created ==> newFolder in archived && g in userGroups
      ensures !result.Ok? && created && NoFaults(from, clock) ==>
                && rows == old(rows)
                && archived == old(archived)[newFolder := !Holds(folderOf, newFolder)]
      ensures !result.Ok? && created && NoFaults(old(clock), from) ==>
                StoppedOnTheWay(old(folderOf), folderOf, rows[g].channels, newFolder, u, k, result)
      ensures created <==> g in userGroups && NoFaults(old(clock), old(clock) + 2)
      ensures !created ==> !result.Ok?
      ensures result.Ok? ==> from == clock && NoFaults(old(clock), clock)
      ensures old(clock) <= from <= clock && old(clock) < clock
      ensures created && !result.Ok? ==> old(clock) < from && NoFaults(old(clock), from - 1)
      ensures if created then MovesInto(old(folderOf), folderOf, old(rows)[g].channels, newFolder)
              else folderOf == old(folderOf)
    {
      created, from, u, k := false, clock, [], 0;
      ghost var a := View();
      var named := Request();
      if !named || g !in userGroups {
        ActsIdle(a, View(), g);
        return Failed, created, from, u, k;
      }
      var made := Request();
      if !made {
        ActsIdle(a, View(), g);
        return Failed, created, from, u, k;
      }
      assert !Holds(folderOf, newFolder);
      archived := archived[newFolder := false];
      created := true;
      hide MovesInto, AllFree, Placed, Acts, Holds, StoppedOnTheWay;
      result, from, u, k := RecordAndFill(g, newFolder);
      ActsByOwn(a, View(), g, newFolder, Some(newFolder));
    }

    method RecordAndFill(g: Id, f: Id) returns (result: Outcome, ghost from: nat, ghost u: seq<Id>, ghost k: nat)
      requires Valid() && g in rows && rows[g].folder == None && f in archived && !archived[f] && !Holds(folderOf, f)
      modifies this`clock, this`folderOf, this`archived, this`rows
      ensures Valid() && MovesInto(old(folderOf), folderOf, old(rows)[g].channels, f)
      ensures archived.Keys == old(archived).Keys
      ensures rows == old(rows) || rows == old(rows)[g := old(rows)[g].(folder := Some(f))]
      ensures result.Ok? ==> && rows == old(rows)[g := old(rows)[g].(folder := Some(f))]
                             && archived == old(archived)
                             && folderOf == Placed(old(folderOf), rows[g].channels, f)
                             && AllFree(old(folderOf), rows[g].channels, f)
      ensures !result.Ok? && NoFaults(from, clock) ==>
                && rows == old(rows)
                && archived == old(archived)[f := !Holds(folderOf, f)]
      ensures !result.Ok? && NoFaults(old(clock), from) ==>
                StoppedOnTheWay(old(folderOf), folderOf, rows[g].channels, f, u, k, result)
      ensures old(clock) <= from <= clock
      ensures !result.Ok? ==> old(clock) < from && NoFaults(old(clock), from - 1)
      ensures result.Ok? ==> from == clock && NoFaults(old(clock), clock)
    {
      u, k := [], 0;
      var recorded := SetChannelGroupFolder(g, Some(f));
      from := clock;
      if !recorded {
        var ok := ArchiveChannelFolder(f);
        return Failed, from, u, k;
      }
      result, from, u, k := FillRecordedFolder(g, f);
      assert old(rows)[g].(folder := None) == old(rows)[g];
    }

    method FillRecordedFolder(g: Id, f: Id) returns (result: Outcome, ghost from: nat, ghost u: seq<Id>, ghost k: nat)
      requires Valid() && g in rows && rows[g].folder == Some(f) && f in archived && !archived[f]
      modifies this`clock, this`folderOf, this`archived, this`rows
      ensures Valid() && MovesInto(old(folderOf), folderOf, old(rows)[g].channels, f)
      ensures archived.Keys == old(archived).Keys
      ensures rows == old(rows) || rows == old(rows)[g := old(rows)[g].(folder := None)]
      ensures result.Ok? ==> && rows == old(rows) && archived == old(archived)
                             && folderOf == Placed(old(folderOf), rows[g].channels, f)
                             && AllFree(old(folderOf), rows[g].channels, f)
      ensures !result.Ok? && NoFaults(from, clock) ==>
                && rows == old(rows)[g := old(rows)[g].(folder := None)]
                && archived == old(archived)[f := !Holds(folderOf, f)]
      ensures !result.Ok? && NoFaults(old(clock), from) ==>
                StoppedOnTheWay(old(folderOf), folderOf, old(rows)[g].channels, f, u, k, result)
      ensures old(clock) <= from <= clock
      ensures !result.Ok? ==> old(clock) < from && NoFaults(old(clock), from - 1)
      ensures result.Ok? ==> from == clock && NoFaults(old(clock), clock)
    {
      result, u, k := PlaceChannels(g, f);
      from := clock;
      if !result.Ok? {
        var unset := SetChannelGroupFolder(g, None);
        var ok := ArchiveChannelFolder(f);
      }
    }
  }

  // ----- what an update of the channels means --------------------------------

  predicate IsAdded(channels: seq<Id>, addIds: Option<seq<Id>>, added: seq<Id>) {
    && Increasing(added)
    && forall c :: c in added <==> Listed(addIds, c) && c !in channels
  }

  predicate IsUpdated(channels: seq<Id>, addIds: Option<seq<Id>>, deleteIds: Option<seq<Id>>, updated: seq<Id>) {
    && Increasing(updated)
    && forall c :: c in updated <==> Listed(addIds, c) || (c in channels && !Listed(deleteIds, c))
  }

  // What the users lose who are on the first list and not on the second.
  function LeftPairs(added: seq<Id>, members: seq<Id>, later: seq<Id>): set<Sub> {
    set u, c | u in members && u !in later && c in added :: Sub(u, c)
  }

  // The new channels' names and their subscription, if there are members; and their way into the folder.
  function JoinRequests(m: FolderOf, folder: Option<Id>, added: seq<Id>, members: seq<Id>): nat {
    (if |added| == 0 || |members| == 0 then 0 else |added| + 1)
    + if folder.Some? then PlaceRequests(m, added) else 0
  }

  // The group, its members if something changes, what the new channels take, and the row.
  function UpdateRequests(m: FolderOf, row: Row, added: seq<Id>, deleteIds: Option<seq<Id>>, members: seq<Id>): nat {
    2 + (if |added| > 0 || exists c :: c in row.channels && Listed(deleteIds, c) then 1 else 0)
    + JoinRequests(m, row.folder, added, members)
  }

  // The members again, and if one has left, the new channels' names and the request that unsubscribes.
  function CleanupRequests(added: seq<Id>, members: seq<Id>, later: seq<Id>): nat {
    if |added| == 0 || |members| == 0 then 0
    else if forall u :: u in members ==> u in later then 1
    else |added| + 2
  }

  lemma SomeGone(channels: seq<Id>, deleteIds: Option<seq<Id>>, gone: seq<Id>)
    requires forall c :: c in gone <==> Listed(deleteIds, c) && c in channels
    ensures |gone| > 0 <==> exists c :: c in channels && Listed(deleteIds, c)
  {
    if |gone| > 0 {
      assert gone[0] in channels && Listed(deleteIds, gone[0]);
    }
  }

  // The new channels are in the row, and if there were members, they exist.
  lemma AddedStay(channels: seq<Id>, addIds: Option<seq<Id>>, deleteIds: Option<seq<Id>>, added: seq<Id>,
                  updated: seq<Id>, m: FolderOf, m': FolderOf, folder: Option<Id>, members: seq<Id>)
    requires IsAdded(channels, addIds, added) && IsUpdated(channels, addIds, deleteIds, updated)
    requires Fillable(m, folder, added, members)
    requires if folder.Some? then MovesInto(m, m', added, folder.value) else m' == m
    ensures Increasing(added) && forall c :: c in added ==> c in updated
    ensures |members| > 0 ==> AllKnown(m', added)
  {
  }

  // Deletes first and adds afterwards.
  method UpdatedChannels(channels: seq<Id>, addIds: Option<seq<Id>>, deleteIds: Option<seq<Id>>)
    returns (updated: seq<Id>)
    ensures IsUpdated(channels, addIds, deleteIds, updated)
  {
    var kept := channels;
    if deleteIds.Some? {
      kept := RemoveInt64s(channels, deleteIds.value);
    }
    updated := UniqueInt64s(if addIds.Some? then kept + addIds.value else kept);
  }

  // ----- what an action may do to the channels' folders ----------------------

  datatype FolderState = FolderState(folderOf: FolderOf, archived: map<Id, bool>, rows: map<Id, Row>)

  // Channels of the list move from no folder into f; no other channel moves.
  ghost predicate MovesInto(m: FolderOf, m': FolderOf, cs: seq<Id>, f: Id) {
    && m.Keys == m'.Keys
    && forall c :: c in m ==> m'[c] == m[c] || (c in cs && m[c] == None && m'[c] == Some(f))
  }

  // Channels of the list move out of f; no other channel moves.
  ghost predicate MovesOutOf(m: FolderOf, m': FolderOf, cs: seq<Id>, f: Id) {
    && m.Keys == m'.Keys
    && forall c :: c in m ==> m'[c] == m[c] || (c in cs && m[c] == Some(f) && m'[c] == None)
  }

  ghost predicate Moves(m: FolderOf, m': FolderOf, cs: seq<Id>, f: Id) {
    MovesInto(m, m', cs, f) || MovesOutOf(m, m', cs, f)
  }

  // The folder recorded for the group, or one the action created for it.
  predicate OwnFolder(a: FolderState, b: FolderState, g: Id, f: Id)
    requires g in a.rows
  {
    if a.rows[g].folder.Some? then a.rows[g].folder == Some(f) else f !in a.archived && f in b.archived
  }

  ghost predicate Acts(a: FolderState, b: FolderState, g: Id) {
    && a.archived.Keys <= b.archived.Keys
    && a.rows.Keys == b.rows.Keys
    && (forall h :: h in a.rows ==> b.rows[h].channels == a.rows[h].channels && (h != g ==> b.rows[h] == a.rows[h]))
    && (b.folderOf == a.folderOf
        || (g in a.rows && exists f :: OwnFolder(a, b, g, f) && Moves(a.folderOf, b.folderOf, a.rows[g].channels, f)))
  }

  lemma ActsByOwn(a: FolderState, b: FolderState, g: Id, f: Id, folder: Option<Id>)
    requires g in a.rows && a.archived.Keys <= b.archived.Keys && OwnFolder(a, b, g, f)
    requires Moves(a.folderOf, b.folderOf, a.rows[g].channels, f)
    requires b.rows == a.rows || b.rows == a.rows[g := a.rows[g].(folder := folder)]
    ensures Acts(a, b, g)
  {
  }

  lemma ActsIdle(a: FolderState, b: FolderState, g: Id)
    requires b.folderOf == a.folderOf && b.rows == a.rows && a.archived.Keys <= b.archived.Keys
    ensures Acts(a, b, g)
  {
  }

  lemma FailedAdd(m: FolderOf, m': FolderOf, cs: seq<Id>, f: Id, u: seq<Id>, k: nat, result: Outcome)
    requires StoppedOnTheWay(m, m', cs, f, u, k, result) && !Holds(m, f)
    ensures !AllFree(m, cs, f)
    ensures forall c :: Least(c, cs) ==>
              && (m' == m <==> !Free(m, c, f))
              && (Holds(m', f) <==> Free(m, c, f))
              && (Free(m, c, f) ==> c in m' && m'[c] == Some(f))
  {
    assert u[k] in cs && u[0] in cs;
    assert Least(u[0], cs);
    forall c | Least(c, cs)
      ensures !AllFree(m, cs, f) && (m' == m <==> !Free(m, c, f)) && (Holds(m', f) <==> Free(m, c, f))
      ensures Free(m, c, f) ==> c in m' && m'[c] == Some(f)
    {
      StrandsIffFirstIsFree(m, m', cs, f, u, k, result, c);
    }
  }

  lemma WholeList(m: FolderOf, u: seq<Id>, k: nat, cs: seq<Id>, f: Id)
    requires Increasing(u) && SameIds(u, cs) && k <= |u| && AllFree(m, u[..k], f)
    ensures MovesInto(m, Placed(m, u[..k], f), cs, f) && MovesOutOf(m, Cleared(m, u[..k]), cs, f)
    ensures k == |u| ==> && Placed(m, u[..k], f) == Placed(m, cs, f)
                         && Cleared(m, u[..k]) == Cleared(m, cs)
                         && AllFree(m, cs, f)
  {
  }

  lemma NothingPlaced(m: FolderOf, cs: seq<Id>, f: Id)
    ensures Placed(m, cs[..0], f) == m && AllFree(m, cs[..0], f)
  {
  }

  // ----- serial runs --------------------------------------------------------

  ghost predicate ActsInTurn(states: seq<FolderState>, groups: seq<Id>) {
    && |states| == |groups| + 1
    && forall i :: 0 <= i < |groups| ==> Acts(states[i], states[i + 1], groups[i])
  }

  // The folder is the recorded one of a group that lists the channel.
  ghost predicate RecordedFor(s: FolderState, c: Id, f: Id) {
    exists g :: g in s.rows && c in s.rows[g].channels && s.rows[g].folder == Some(f)
  }

  lemma ActKeepsForeign(a: FolderState, b: FolderState, g: Id, c: Id, f: Id)
    requires Acts(a, b, g) && c in a.folderOf && f in a.archived && !RecordedFor(a, c, f)
    ensures c in b.folderOf && f in b.archived
    ensures b.folderOf[c] == Some(f) <==> a.folderOf[c] == Some(f)
  {
  }

  // Over any serial run of folder actions, failing ones included, a channel neither enters nor leaves a
  // folder that is never the recorded folder of a group listing it.
  lemma {:induction false} RunKeepsForeign(states: seq<FolderState>, groups: seq<Id>, n: nat, c: Id, f: Id)
    requires ActsInTurn(states, groups) && n < |states|
    requires c in states[0].folderOf && f in states[0].archived
    requires forall i :: 0 <= i < n ==> !RecordedFor(states[i], c, f)
    ensures c in states[n].folderOf && f in states[n].archived
    ensures states[n].folderOf[c] == Some(f) <==> states[0].folderOf[c] == Some(f)
  {
    if n > 0 {
      RunKeepsForeign(states, groups, n - 1, c, f);
      ActKeepsForeign(states[n - 1], states[n], groups[n - 1], c, f);
    }
  }

  // A channel never goes straight from one folder into another.
  lemma ActPassesThroughNone(a: FolderState, b: FolderState, g: Id, c: Id)
    requires Acts(a, b, g) && c in a.folderOf
    ensures c in b.folderOf && (b.folderOf[c] == a.folderOf[c] || b.folderOf[c] == None || a.folderOf[c] == None)
  {
  }

  lemma StrandedWalk(u: seq<Id>, k: nat, result: Outcome, m': FolderOf)
    requires StoppedOnTheWay(map[1 := None, 2 := Some(8)], m', [1, 2], 9, u, k, result)
    ensures result == Conflict(2, 9, 8) && m' == map[1 := Some(9), 2 := Some(8)]
  {
    IncreasingIsUnique(u, [1, 2]);
    assert u[..1] == [1];
    assert k == 1;
  }

  // Channel 1 has no folder, channel 2 is in folder 8. Adding a folder to a group of both stops at
  // channel 2, and channel 1 stays behind in folder 9, which no row records and which is not archived.
  method StrandedChannel() returns (result: Outcome, folderOf: FolderOf, archived: map<Id, bool>, row: Row)
    ensures (result, folderOf, archived, row)
            == (Conflict(2, 9, 8), map[1 := Some(9), 2 := Some(8)], map[8 := false, 9 := false], Row([1, 2], None))
  {
    var s := new FolderService(n => false, map[1 := None, 2 := Some(8)], map[8 := false]);
    s.rows, s.userGroups := map[5 := Row([1, 2], None)], map[5 := true];
    assert s.rows[5].channels[1] == 2 && !Free(s.folderOf, 2, 9);
    assert !AllFree(s.folderOf, s.rows[5].channels, 9);
    assert 5 in s.rows && s.rows[5].folder.None? && 5 in s.userGroups;
    hide MovesInto, Acts, Placed, StoppedOnTheWay;
    ghost var created, from, u, k;
    result, created, from, u, k := s.AddChannelGroupFolder(5, 9);
    assert created && !result.Ok?;
    StrandedWalk(u, k, result, s.folderOf);
    assert s.folderOf[1] == Some(9);
    folderOf, archived, row := s.folderOf, s.archived, s.rows[5];
    assert archived == map[8 := false, 9 := false];
  }

  // Channel 1 is in folder 8. Creating a group of it with a folder of its own fails, and user 7, who was
  // to be a member, stays subscribed to it; no request failed.
  method LeftSubscribed() returns (ok: bool, folderOf: FolderOf, rows: map<Id, Row>, userGroups: map<Id, bool>,
                                   subs: set<Sub>)
    ensures (ok, folderOf, rows, userGroups, subs) == (false, map[1 := Some(8)], map[], map[5 := false], {Sub(7, 1)})
  {
    var s := new FolderService(n => false, map[1 := Some(8)], map[8 := false]);
    ghost var provisioned, folderCreated, from;
    assert 1 in [1] && !Free(s.folderOf, 1, 9);
    ok, provisioned, folderCreated, from := s.CreateChannelGroup(5, 9, [1], [7], true);
    folderOf, rows, userGroups, subs := s.folderOf, s.rows, s.userGroups, s.subs;
    assert userGroups == map[5 := false];
    assert subs == Pairs([1], [7]) == {Sub(7, 1)};
  }

  // Channel 1 is added to a group whose one member is user 7. The sixth request, which reads the members
  // again, fails: the update fails, and the row lists the channel.
  method WrittenButFailed() returns (result: Outcome, row: Row, subs: set<Sub>)
    ensures (result, row, subs) == (Failed, Row([1], None), {Sub(7, 1)})
  {
    var s := new FolderService(n => n == 5, map[1 := None], map[]);
    s.rows := map[5 := Row([], None)];
    ghost var added, written, from;
    result, added, written, from := s.UpdateChannelGroupChannels(5, Some([1]), None, [7], [7]);
    IncreasingIsUnique(added, [1]);
    assert UpdateRequests(map[1 := None], Row([], None), added, None, [7]) == 5 && CleanupRequests(added, [7], [7]) == 1;
    assert written && from == 5;
    assert s.fails(5);
    assert !s.NoFaults(5, 6);
    IncreasingIsUnique(s.rows[5].channels, [1]);
    row, subs := s.rows[5], s.subs;
    assert subs == {Sub(7, 1)};
  }
}
