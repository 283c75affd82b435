/**
 * The channel-group service (channelgroup/api_channel_groups.go) driven by one caller at a time, with no request
 * failing. Each method follows the service's own sequence of reads, requests and
 * transactions and is proved to do exactly what GroupSpec says.
 */
module SerialGroups {
  import opened Collections
  import opened IdLists
  import opened Remote
  import opened GroupSpec
  import FanOut
  import SubscribeLoop

  // ----- lists and sets -----------------------------------------------------

  // The rows of a query, and the member lists of the server, come sorted.
  method Sorted(ids: set<Id>) returns (sorted: seq<Id>)
    ensures Increasing(sorted) && Elements(sorted) == ids
  {
    var list: seq<Id> := [];
    var pending := ids;
    while pending != {}
      invariant pending <= ids && forall x :: x in list <==> x in ids - pending
      decreases pending
    {
      var x: Id :| x in pending;
      list := list + [x];
      pending := pending - {x};
    }
    sorted := UniqueInt64s(list);
  }

  lemma PairsAreProduct(channels: seq<Id>, users: seq<Id>)
    ensures Pairs(channels, users) == Product(Elements(users), Elements(channels))
  {
  }

  function Requested(ids: Option<seq<Id>>): set<Id> {
    if ids.Some? then Elements(ids.value) else {}
  }

  method RowsOfGroup(group: Id, channels: seq<Id>) returns (others: seq<FanOut.OtherRow>)
    ensures forall row: FanOut.OtherRow :: row in others <==> row.group == group && row.channel in channels
  {
    others := [];
    for i := 0 to |channels|
      invariant forall row: FanOut.OtherRow :: row in others <==> row.group == group && row.channel in channels[..i]
    {
      others := others + [FanOut.OtherRow(channels[i], group)];
    }
    assert channels[..|channels|] == channels;
  }

  // ----- the service and the server -----------------------------------------

  class Service {
    var rows: map<Id, set<Id>>
    var members: map<Id, set<Id>>
    var deactivated: set<Id>
    var subs: set<Sub>

    ghost function View(): St
      reads this
    {
      St(rows, members, deactivated, subs)
    }

    constructor ()
      ensures View() == St(map[], map[], {}, {})
    {
      rows, members, deactivated, subs := map[], map[], {}, {};
    }

    method GetGroup(group: Id) returns (channels: Option<seq<Id>>)
      ensures channels.Some? <==> group in rows
      ensures channels.Some? ==> Increasing(channels.value) && Elements(channels.value) == rows[group]
    {
      if group !in rows {
        return None;
      }
      var list := Sorted(rows[group]);
      return Some(list);
    }

    method UserGroupMembers(group: Id) returns (users: Option<seq<Id>>)
      ensures users.Some? <==> group in members
      ensures users.Some? ==> Increasing(users.value) && Elements(users.value) == members[group]
    {
      if group !in members {
        return None;
      }
      var list := Sorted(members[group]);
      return Some(list);
    }

    method SubscribeUsersToChannels(channels: seq<Id>, users: seq<Id>)
      modifies this`subs
      ensures subs == old(subs) + Product(Elements(users), Elements(channels))
    {
      PairsAreProduct(channels, users);
      subs := Step(subs, Remote.Request.Subscribe(channels, users));
    }

    method UnsubscribeUsersFromChannels(channels: seq<Id>, users: seq<Id>)
      modifies this`subs
      ensures subs == old(subs) - Product(Elements(users), Elements(channels))
    {
      PairsAreProduct(channels, users);
      subs := Step(subs, Unsubscribe(channels, users));
    }

    method CreateChannelGroup(group: Id, channelIds: seq<Id>, initialSubscribers: seq<Id>)
      requires Possible(View(), Create(group, Elements(channelIds), Elements(initialSubscribers)))
      modifies this
      ensures View() == Next(old(View()), Create(group, Elements(channelIds), Elements(initialSubscribers)))
      ensures rows == old(rows)[group := Elements(channelIds)]
      ensures members == old(members)[group := Elements(initialSubscribers)]
      ensures forall u, c :: Sub(u, c) in subs <==>
                Sub(u, c) in old(subs) || (u in initialSubscribers && c in channelIds)
      ensures deactivated == old(deactivated)
    {
      var channels := UniqueInt64s(channelIds);
      var initial := UniqueInt64s(initialSubscribers);
      assert Elements(channels) == Elements(channelIds) && Elements(initial) == Elements(initialSubscribers);
      members := members[group := Elements(initial)];
      if |channels| > 0 && |initial| > 0 {
        SubscribeUsersToChannels(channels, initial);
      } else {
        assert Product(Elements(initial), Elements(channels)) == {};
      }
      rows := rows[group := Elements(channels)];
    }

    method ImportZulipUserGroup(group: Id)
      modifies this`rows
      ensures View() == Next(old(View()), Import(group))
      ensures rows == if group in old(rows) then old(rows) else old(rows)[group := {}]
    {
      if group !in rows {
        rows := rows[group := {}];
      }
    }

    method SubscribeToChannelGroup(group: Id, principals: seq<Id>) returns (ok: bool)
      modifies this
      ensures View() == Next(old(View()), Join(group, Elements(principals)))
      ensures ok <==> Succeeds(old(View()), Join(group, Elements(principals)))
      ensures ok <==> principals != [] && group in old(rows) && group in old(members)
      ensures members == if ok then old(members)[group := old(members)[group] + Elements(principals)] else old(members)
      ensures forall u, c :: Sub(u, c) in subs <==>
                               Sub(u, c) in old(subs) || (ok && u in principals && c in old(rows)[group])
      ensures rows == old(rows) && deactivated == old(deactivated)
    {
      var users := UniqueInt64s(principals);
      assert Elements(users) == Elements(principals);
      assert principals != [] ==> principals[0] in users;
      if |users| == 0 {
        assert Elements(users) == {};
        return false;
      }
      assert users[0] in Elements(users);
      var read := GetGroup(group);
      if read.None? || group !in members {
        return false;
      }
      members := members[group := members[group] + Elements(users)];
      LoopOverChannels(group, users);
      return true;
    }

    // With one caller at a time every read of the loop gives the same answer.
    method LoopOverChannels(group: Id, users: seq<Id>)
      requires group in rows && group in members && Elements(users) <= members[group]
      modifies this`subs
      ensures subs == old(subs) + Product(Elements(users), rows[group])
    {
      var channels := GetGroup(group);
      var current := UserGroupMembers(group);
      var ok, last, touched, active, trace, rounds :=
        SubscribeLoop.SubscribeUsersToCurrentChannelGroupChannels(
          users, k => channels, k => current, k => true, subs);
      assert forall u :: u in users ==> u in Elements(users);
      assert forall u :: u in current.value <==> u in Elements(current.value);
      assert forall c :: c in channels.value <==> c in rows[group];
      forall s: Sub
        ensures s in Apply(subs, trace) <==> s in subs || s in Product(Elements(users), rows[group])
      {
        assert s == Sub(s.user, s.channel);
      }
      subs := Apply(subs, trace);
    }

    // The query of the unsubscribe fan-out.
    method ListOtherChannelGroups(group: Id) returns (others: seq<FanOut.OtherRow>)
      ensures FanOut.QueryResult(rows, group, others)
    {
      others := [];
      var pending := if group in rows then rows.Keys - {group} else {};
      while pending != {}
        invariant pending <= rows.Keys - {group}
        invariant forall row: FanOut.OtherRow ::
                    row in others <==> && row.group in rows && row.group != group && row.group !in pending
                                       && row.channel in rows[row.group] && group in rows && row.channel in rows[group]
        decreases pending
      {
        var h: Id :| h in pending;
        var shared := Sorted(rows[h] * rows[group]);
        assert forall c :: c in shared <==> c in Elements(shared);
        var more := RowsOfGroup(h, shared);
        others := others + more;
        pending := pending - {h};
      }
    }

    method UnsubscribeFromChannelGroup(group: Id, principals: seq<Id>, keepChannels: bool) returns (ok: bool)
      modifies this
      ensures View() == Next(old(View()), Leave(group, Elements(principals), keepChannels))
      ensures ok <==> Succeeds(old(View()), Leave(group, Elements(principals), keepChannels))
      ensures var readable := forall h, c :: (&& h in old(rows) && h != group && group in old(rows)
                                              && c in old(rows)[h] && c in old(rows)[group]) ==> h in old(members);
              && (ok <==> && principals != [] && group in old(rows) && group in old(members)
                          && (keepChannels || readable))
              && (!ok ==> forall u, c :: Sub(u, c) in subs <==>
                            || Sub(u, c) in old(subs)
                            || (&& group in old(rows) && group !in old(members) && !keepChannels && readable
                                && u in principals && c in old(rows)[group]))
      ensures members == if ok then old(members)[group := old(members)[group] - Elements(principals)] else old(members)
      ensures ok ==> forall u, c :: Sub(u, c) in subs <==>
                && Sub(u, c) in old(subs)
                && (!keepChannels && u in principals && c in old(rows)[group] ==>
                      exists h :: h in old(rows) && h != group && c in old(rows)[h]
                               && h in old(members) && u in old(members)[h])
      ensures rows == old(rows) && deactivated == old(deactivated)
    {
      var read := GetGroup(group);
      if read.None? {
        return false;
      }
      var users := UniqueInt64s(principals);
      assert Elements(users) == Elements(principals);
      assert principals != [] ==> principals[0] in users;
      if |users| == 0 {
        assert Elements(users) == {};
        return false;
      }
      assert users[0] in Elements(users);
      var channels := read.value;
      ghost var st := View();
      ReadableSpelled(st, group);
      if !keepChannels && |channels| > 0 {
        var sent := FanOutLost(group, channels, users);
        if !sent {
          return false;
        }
      } else {
        assert !keepChannels ==> rows[group] == {} && !Unreadable(st, group) && Lost(st, group, Elements(users)) == {};
      }
      // No other caller ran, so no user's generation moved: all of them are deleted.
      if group !in members {
        if !keepChannels {
          SubscribeUsersToChannels(channels, users);
          assert Lost(st, group, Elements(users)) <= Product(Elements(users), rows[group]);
        }
        return false;
      }
      members := members[group := members[group] - Elements(users)];
      return true;
    }

    method FanOutLost(group: Id, channels: seq<Id>, users: seq<Id>) returns (ok: bool)
      requires group in rows && Elements(channels) == rows[group] && |channels| > 0 && |users| > 0
      modifies this`subs
      ensures ok <==> !Unreadable(old(View()), group)
      ensures subs == if ok then old(subs) - Lost(old(View()), group, Elements(users)) else old(subs)
    {
      var others := ListOtherChannelGroups(group);
      var current := MemberLists();
      var read: FanOut.Members := g => if g in current then Some(current[g]) else None;
      var trace;
      ok, trace := FanOut.UnsubscribeUsersFromChannelGroupChannels(Some(others), channels, users, read, k => true);
      ReadableMeans(View(), group, others, channels, read);
      forall s: Sub
        ensures s in Apply(subs, trace) <==> s in subs && !(ok && s in Lost(View(), group, Elements(users)))
      {
        LostMeans(View(), group, others, channels, users, read, s.user, s.channel);
        UnsubscribesRemoveSent(subs, trace, s.user, s.channel);
        assert s == Sub(s.user, s.channel);
      }
      subs := Apply(subs, trace);
    }

    method UpdateChannelGroupChannels(group: Id, addIds: Option<seq<Id>>, deleteIds: Option<seq<Id>>) returns (ok: bool)
      modifies this
      ensures View() == Next(old(View()), UpdateChannels(group, Requested(addIds), Requested(deleteIds)))
      ensures ok <==> Succeeds(old(View()), UpdateChannels(group, Requested(addIds), Requested(deleteIds)))
      ensures ok <==> && group in old(rows)
                      && (|| group in old(members)
                          || forall c :: (c in Requested(addIds) ==> c in old(rows)[group])
                                         && (c in Requested(deleteIds) ==> c !in old(rows)[group]))
      ensures rows == if ok then old(rows)[group := old(rows)[group] - Requested(deleteIds) + Requested(addIds)]
                      else old(rows)
      ensures forall u, c :: Sub(u, c) in subs <==>
                || Sub(u, c) in old(subs)
                || (&& ok && group in old(members) && u in old(members)[group]
                    && c in Requested(addIds) && c !in old(rows)[group])
      ensures members == old(members) && deactivated == old(deactivated)
    {
      var read := GetGroup(group);
      if read.None? {
        return false;
      }
      assert forall c :: c in read.value <==> c in rows[group];
      var added := IdsToAdd(read.value, addIds);
      var deleted := IdsToDelete(read.value, deleteIds);
      ghost var add, delete := Requested(addIds), Requested(deleteIds);
      assert Elements(added) == add - rows[group];
      assert Elements(deleted) == delete * rows[group];
      var users: seq<Id> := [];
      if |added| > 0 || |deleted| > 0 {
        assert added != [] ==> added[0] in Elements(added);
        assert deleted != [] ==> deleted[0] in Elements(deleted);
        var current := UserGroupMembers(group);
        if current.None? {
          return false;
        }
        users := current.value;
      }
      if |added| > 0 && |users| > 0 {
        SubscribeUsersToChannels(added, users);
      }
      ghost var joined := if group in members then members[group] else {};
      assert Product(Elements(users), Elements(added)) == Product(joined, add - rows[group]);
      assert subs == old(subs) + Product(joined, add - rows[group]);
      var final := UpdateGroupChannels(group, addIds, deleteIds);
      if final.None? {
        return false;
      }
      // With one caller at a time nobody left in between, so there is nothing to clean up.
      ok := CleanupAddedChannels(group, added, users, final.value);
    }

    method UpdateGroupChannels(group: Id, addIds: Option<seq<Id>>, deleteIds: Option<seq<Id>>)
      returns (final: Option<seq<Id>>)
      modifies this`rows
      ensures final.Some? <==> group in old(rows)
      ensures final.Some? ==> && rows == old(rows)[group := old(rows)[group] - Requested(deleteIds) + Requested(addIds)]
                              && Increasing(final.value) && Elements(final.value) == rows[group]
      ensures final.None? ==> rows == old(rows)
    {
      if group !in rows {
        return None;
      }
      var channels := rows[group];
      if deleteIds.Some? {
        var ids := UniqueInt64s(deleteIds.value);
        for i := 0 to |ids|
          invariant channels == rows[group] - Elements(ids[..i])
        {
          assert Elements(ids[..i + 1]) == Elements(ids[..i]) + {ids[i]};
          channels := channels - {ids[i]};
        }
        assert Elements(ids[..|ids|]) == Requested(deleteIds);
      }
      assert channels == rows[group] - Requested(deleteIds);
      if addIds.Some? {
        var ids := UniqueInt64s(addIds.value);
        ghost var kept := channels;
        for i := 0 to |ids|
          invariant channels == kept + Elements(ids[..i])
        {
          assert Elements(ids[..i + 1]) == Elements(ids[..i]) + {ids[i]};
          channels := channels + {ids[i]};
        }
        assert Elements(ids[..|ids|]) == Requested(addIds);
      }
      assert channels == rows[group] - Requested(deleteIds) + Requested(addIds);
      rows := rows[group := channels];
      final := GetGroup(group);
    }

    // Users that were members before and are not any more lose the added channels again. The members are
    // read only if there is something to clean.
    method CleanupAddedChannels(group: Id, added: seq<Id>, previous: seq<Id>, current: seq<Id>) returns (ok: bool)
      modifies this`subs
      ensures ok <==> group in members || previous == [] || Elements(added) !! Elements(current)
      ensures subs == old(subs) - if group !in members then {}
                                  else Product(Elements(previous) - members[group], Elements(added) * Elements(current))
    {
      var clean := IdsToDelete(current, Some(added));
      assert Elements(clean) == Elements(added) * Elements(current);
      if |clean| == 0 || |previous| == 0 {
        assert |clean| == 0 ==> Elements(clean) == {};
        return true;
      }
      assert clean[0] in Elements(clean);
      var users := UserGroupMembers(group);
      if users.None? {
        return false;
      }
      assert forall u :: u in users.value <==> u in Elements(users.value);
      var stale := RemoveInt64s(previous, users.value);
      assert Elements(stale) == Elements(previous) - members[group];
      if |stale| > 0 {
        UnsubscribeUsersFromChannels(clean, stale);
      } else {
        assert Elements(stale) == {};
      }
      ok := true;
    }

    method DeleteChannelGroup(group: Id) returns (ok: bool)
      modifies this
      ensures View() == Next(old(View()), Call.Delete(group))
      ensures ok <==> Succeeds(old(View()), Call.Delete(group))
      ensures ok <==> group in old(members)
      ensures ok ==> && rows == old(rows) - {group} && deactivated == old(deactivated) + {group}
                     && members == old(members)[group := {}]
      ensures !ok ==> rows == old(rows) && deactivated == old(deactivated) && members == old(members)
      ensures subs == old(subs)
    {
      var users := UserGroupMembers(group);
      if users.None? {
        return false;
      }
      if |users.value| > 0 {
        members := members[group := members[group] - Elements(users.value)];
      }
      assert members[group] == {};
      deactivated := deactivated + {group};
      rows := rows - {group};
      return true;
    }

    method RemoveChannelFromChannelGroups(channel: Id)
      modifies this`rows
      ensures View() == Next(old(View()), ChannelArchived(channel))
      ensures rows.Keys == old(rows).Keys
      ensures forall g, c :: g in rows ==> (c in rows[g] <==> c in old(rows)[g] && c != channel)
    {
      rows := map g | g in rows :: rows[g] - {channel};
    }

    method RemoveDeletedUserGroupChannelGroup(group: Id)
      modifies this`rows
      ensures View() == Next(old(View()), UserGroupRemoved(group))
      ensures rows == if group in members && group !in deactivated then old(rows) else old(rows) - {group}
    {
      if group in members && group !in deactivated {
        return;
      }
      rows := rows - {group};
    }

    // Startup: drop groups without an active user group, and channels the bot is not subscribed to.
    method InitializeChannelGroups(bot: Id)
      modifies this`rows
      ensures View() == Next(old(View()), Reconcile(bot))
      ensures forall g :: g in rows <==> g in old(rows) && g in members && g !in deactivated
      ensures forall g, c :: g in rows ==> (c in rows[g] <==> c in old(rows)[g] && Sub(bot, c) in subs)
    {
      var pending := rows.Keys;
      var mine := Subscribed(St(rows, members, deactivated, subs), bot);
      ghost var goal := Next(View(), Reconcile(bot)).rows;
      while pending != {}
        invariant pending <= old(rows).Keys
        invariant forall g :: g in pending ==> g in rows && rows[g] == old(rows)[g]
        invariant forall g :: g !in pending ==>
                                && (g in rows <==> g in goal)
                                && (g in rows ==> rows[g] == goal[g])
        decreases pending
      {
        var g: Id :| g in pending;
        pending := pending - {g};
        if g !in members || g in deactivated {
          rows := rows - {g};
        } else {
          RemoveStaleChannels(g, mine);
        }
      }
      assert rows == goal;
    }

    method RemoveStaleChannels(group: Id, mine: set<Id>)
      requires group in rows
      modifies this`rows
      ensures rows == old(rows)[group := old(rows)[group] * mine]
    {
      var channels := GetGroup(group);
      var list := channels.value;
      for i := 0 to |list|
        invariant group in rows
        invariant rows == old(rows)[group := rows[group]]
        invariant forall c :: c in rows[group] <==> c in old(rows)[group] && (c in mine || c in list[i..])
      {
        assert list[i..] == [list[i]] + list[i + 1..];
        assert list[i] !in list[i + 1..];
        if list[i] !in mine {
          rows := rows[group := rows[group] - {list[i]}];
        }
      }
      assert forall c :: c in list <==> c in Elements(list);
      assert rows[group] == old(rows)[group] * mine;
    }

    // Every group's members, as sorted lists.
    method MemberLists() returns (lists: map<Id, seq<Id>>)
      ensures ListsOf(members, lists)
    {
      lists := map[];
      var pending := members.Keys;
      while pending != {}
        invariant pending <= members.Keys && lists.Keys == members.Keys - pending
        invariant forall g :: g in lists ==> Elements(lists[g]) == members[g]
        decreases pending
      {
        var g: Id :| g in pending;
        var list := Sorted(members[g]);
        lists := lists[g := list];
        pending := pending - {g};
      }
    }
  }

  lemma ReadableSpelled(st: St, g: Id)
    requires g in st.rows
    ensures !Unreadable(st, g) <==>
              forall h, c :: h in st.rows && h != g && c in st.rows[h] && c in st.rows[g] ==> h in st.members
  {
    if h, c :| h in st.rows && h != g && c in st.rows[h] && c in st.rows[g] && h !in st.members {
      assert c in st.rows[h] * st.rows[g];
    }
    if Unreadable(st, g) {
      var h :| h in st.rows && h != g && h !in st.members && st.rows[h] * st.rows[g] != {};
      var c :| c in st.rows[h] * st.rows[g];
    }
  }

  ghost predicate ListsOf(members: map<Id, set<Id>>, lists: map<Id, seq<Id>>) {
    && lists.Keys == members.Keys
    && forall g :: g in lists ==> Elements(lists[g]) == members[g]
  }

  ghost predicate Reads(members: map<Id, set<Id>>, read: FanOut.Members) {
    forall g :: && (read(g).Some? <==> g in members)
                && (g in members ==> Elements(read(g).value) == members[g])
  }

  lemma ReadableMeans(st: St, g: Id, others: seq<FanOut.OtherRow>, channels: seq<Id>, read: FanOut.Members)
    requires g in st.rows && FanOut.QueryResult(st.rows, g, others) && Reads(st.members, read)
    requires Elements(channels) == st.rows[g]
    ensures FanOut.SharedRead(others, channels, read) <==> !Unreadable(st, g)
    ensures FanOut.AllRead(others, read) <==> !Unreadable(st, g)
  {
    if Unreadable(st, g) {
      var h :| h in st.rows && h != g && h !in st.members && st.rows[h] * st.rows[g] != {};
      var c :| c in st.rows[h] * st.rows[g];
      var row := FanOut.OtherRow(c, h);
      assert row in others;
      var k :| 0 <= k < |others| && others[k] == row;
      assert c in Elements(channels);
    } else {
      forall k | 0 <= k < |others|
        ensures read(others[k].group).Some?
      {
        assert others[k] in others;
        assert others[k].channel in st.rows[others[k].group] * st.rows[g];
      }
    }
  }

  lemma LostMeans(st: St, g: Id, others: seq<FanOut.OtherRow>, channels: seq<Id>, users: seq<Id>,
                  read: FanOut.Members, u: Id, c: Id)
    requires g in st.rows && FanOut.QueryResult(st.rows, g, others) && Reads(st.members, read)
    requires Elements(channels) == st.rows[g]
    ensures FanOut.ToSend(others, read, channels, users, u, c) <==> Sub(u, c) in Lost(st, g, Elements(users))
  {
    FanOut.CoveredMeans(st.rows, read, g, others, u, c);
    assert c in channels <==> c in Elements(channels);
    assert Sub(u, c) in Product(Elements(users), st.rows[g]) <==> u in users && c in st.rows[g];
    assert FanOut.OtherGroupCovers(st.rows, read, g, u, c) <==> CoveredByOther(st, g, u, c) by {
      forall h | h in st.members
        ensures FanOut.IsMember(read, h, u) <==> u in st.members[h]
      {
        assert u in read(h).value <==> u in Elements(read(h).value);
      }
    }
  }
}
