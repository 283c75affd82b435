/**
 * The loop that subscribes users to a group's channels (channelgroup/api_channel_groups.go,
 * subscribeUsersToCurrentChannelGroupChannels) while the group's
 * channels and members may change between any two of its reads. Round k reads
 * the channels as `rowAt(k)` and, after subscribing, the members as
 * `membersAt(k)`; any of these reads and any request may fail.
 */
module SubscribeLoop {
  import opened Collections
  import opened IdLists
  import opened Remote

  // ----- specification ------------------------------------------------------

  // A subscribe request of the trace mentions the pair.
  ghost predicate Touched(trace: seq<Request>, u: Id, c: Id) {
    exists i :: 0 <= i < |trace| && trace[i].Subscribe? && Mentions(trace[i], u, c)
  }

  // No channel is subscribed twice.
  ghost predicate NoRepeat(trace: seq<Request>) {
    forall i, j, c :: 0 <= i < j < |trace| && trace[i].Subscribe? && trace[j].Subscribe? && c in trace[i].channels ==>
                        c !in trace[j].channels
  }

  // The user's last request is an unsubscribe from every channel touched for it.
  ghost predicate EndsUnsubscribed(trace: seq<Request>, u: Id) {
    exists i :: 0 <= i < |trace| && EndsAt(trace, u, i)
  }

  ghost predicate EndsAt(trace: seq<Request>, u: Id, i: nat)
    requires i < |trace|
  {
    && trace[i].Unsubscribe? && u in trace[i].users
    && (forall j :: i < j < |trace| ==> u !in trace[j].users)
    && (forall c :: Touched(trace, u, c) ==> c in trace[i].channels)
  }

  // Subscriptions after the trace: touched pairs follow the user, all others are as before.
  ghost predicate Outcome(before: set<Sub>, trace: seq<Request>, active: seq<Id>) {
    forall u, c :: Sub(u, c) in Apply(before, trace) <==>
                     if Touched(trace, u, c) then u in active else Sub(u, c) in before
  }

  ghost predicate Progress(trace: seq<Request>, users: seq<Id>, active: seq<Id>, attempted: set<Id>) {
    && NoRepeat(trace)
    && (forall i, c :: 0 <= i < |trace| && c in trace[i].channels ==> c in attempted)
    && (forall i, u :: 0 <= i < |trace| && u in trace[i].users ==> u in users)
    && (forall u :: u in active ==> u in users)
    && (forall u, c :: u in active && c in attempted ==> Touched(trace, u, c))
    && (forall u :: u in users && u !in active ==> EndsUnsubscribed(trace, u))
  }

  // How many subscribe requests the trace holds: one for each round that found a channel to subscribe.
  function Rounds(trace: seq<Request>): nat {
    if trace == [] then 0 else Rounds(trace[..|trace| - 1]) + if trace[|trace| - 1].Subscribe? then 1 else 0
  }

  ghost predicate Subscribed(trace: seq<Request>, c: Id) {
    exists i :: 0 <= i < |trace| && trace[i].Subscribe? && c in trace[i].channels
  }

  // One of the first n reads of the row lists the channel.
  ghost predicate ReadBefore(rowAt: nat -> Option<seq<Id>>, n: nat, c: Id) {
    exists k :: 0 <= k < n && rowAt(k).Some? && c in rowAt(k).value
  }

  // The user was on each of the first n member lists.
  ghost predicate Stayed(membersAt: nat -> Option<seq<Id>>, n: nat, u: Id) {
    forall k :: 0 <= k < n ==> membersAt(k).Some? && u in membersAt(k).value
  }

  // The n-th read of the row lists these channels besides those already subscribed.
  ghost predicate FindsNew(rowAt: nat -> Option<seq<Id>>, sent: seq<Request>, n: nat, channels: seq<Id>) {
    && rowAt(n).Some? && channels != []
    && forall c :: c in channels <==> c in rowAt(n).value && !Subscribed(sent, c)
  }

  // What the request after `sent` has to be: a round's new channels for the users that have stayed so far, or
  // right after it all channels so far for the users that the round's member list has lost.
  ghost predicate Due(userIds: seq<Id>, rowAt: nat -> Option<seq<Id>>, membersAt: nat -> Option<seq<Id>>,
                      sent: seq<Request>, q: Request)
  {
    var n := Rounds(sent);
    match q
    case Subscribe(channels, users) =>
      && FindsNew(rowAt, sent, n, channels)
      && (forall u :: u in users <==> u in userIds && Stayed(membersAt, n, u))
    case Unsubscribe(channels, users) =>
      && sent != [] && sent[|sent| - 1].Subscribe? && users != []
      && (forall c :: c in channels <==> Subscribed(sent, c))
      && (forall u :: u in users <==> u in userIds && Stayed(membersAt, n - 1, u) && !Stayed(membersAt, n, u))
  }

  ghost predicate AllDue(userIds: seq<Id>, rowAt: nat -> Option<seq<Id>>, membersAt: nat -> Option<seq<Id>>,
                         trace: seq<Request>)
  {
    trace != [] ==>
      var sent := trace[..|trace| - 1];
      AllDue(userIds, rowAt, membersAt, sent) && Due(userIds, rowAt, membersAt, sent, trace[|trace| - 1])
  }

  // After n rounds: all reads were answered, every request was due and was accepted, and the active users
  // are those that stayed.
  ghost predicate OnCourse(userIds: seq<Id>, rowAt: nat -> Option<seq<Id>>, membersAt: nat -> Option<seq<Id>>,
                           accepts: nat -> bool, active: seq<Id>, trace: seq<Request>, n: nat)
  {
    && (forall k :: 0 <= k < n ==> rowAt(k).Some? && membersAt(k).Some?)
    && (forall i :: 0 <= i < |trace| ==> accepts(i))
    && AllDue(userIds, rowAt, membersAt, trace)
    && (forall u :: u in active <==> u in userIds && Stayed(membersAt, n, u))
  }

  // How the loop ends. The touched channels are those of the rows read before the subscribe requests. It
  // succeeds with the row of the round after the last of them, which lists no other channel; or with the
  // row of that round itself, when a clean-up takes the last user out. It fails in the round after the last
  // subscribe request, at the read of the row or at the subscribe request that is due, or in the round of
  // that request, at the read of the members or at the unsubscribe request that is due.
  ghost predicate Ended(userIds: seq<Id>, rowAt: nat -> Option<seq<Id>>, membersAt: nat -> Option<seq<Id>>,
                        accepts: nat -> bool, ok: bool, group: seq<Id>, touched: seq<Id>, active: seq<Id>,
                        trace: seq<Request>, rounds: nat)
  {
    && (forall c :: c in touched <==> Subscribed(trace, c))
    && (forall c :: c in touched <==> ReadBefore(rowAt, Rounds(trace), c))
    && (ok ==> && rowAt(rounds) == Some(group)
               && Rounds(trace) == rounds + (if active == [] && userIds != [] then 1 else 0)
               && forall c :: c in group ==> c in touched)
    && (!ok ==> && rounds <= Rounds(trace) <= rounds + 1
                && if Rounds(trace) == rounds then
                     rowAt(rounds).None? || (!accepts(|trace|) && exists c :: c in rowAt(rounds).value && c !in touched)
                   else
                     || membersAt(rounds).None?
                     || (!accepts(|trace|) && exists u :: u in active && u !in membersAt(rounds).value))
  }

  // ----- one request more ---------------------------------------------------

  lemma TouchedSnoc(trace: seq<Request>, q: Request, u: Id, c: Id)
    ensures Touched(trace + [q], u, c) <==> Touched(trace, u, c) || (q.Subscribe? && Mentions(q, u, c))
  {
    var t := trace + [q];
    assert t[|trace|] == q;
    if Touched(trace, u, c) {
      var i :| 0 <= i < |trace| && trace[i].Subscribe? && Mentions(trace[i], u, c);
      assert t[i] == trace[i];
    }
  }

  lemma SubscribedSnoc(trace: seq<Request>, q: Request, c: Id)
    ensures Subscribed(trace + [q], c) <==> Subscribed(trace, c) || (q.Subscribe? && c in q.channels)
    ensures Rounds(trace + [q]) == Rounds(trace) + if q.Subscribe? then 1 else 0
  {
    var t := trace + [q];
    assert t[|trace|] == q && t[..|trace|] == trace;
    if Subscribed(trace, c) {
      var i :| 0 <= i < |trace| && trace[i].Subscribe? && c in trace[i].channels;
      assert t[i] == trace[i];
    }
  }

  lemma ReadOneMore(rowAt: nat -> Option<seq<Id>>, n: nat, c: Id)
    ensures ReadBefore(rowAt, n + 1, c) <==> ReadBefore(rowAt, n, c) || (rowAt(n).Some? && c in rowAt(n).value)
  {
    if ReadBefore(rowAt, n, c) {
      var k :| 0 <= k < n && rowAt(k).Some? && c in rowAt(k).value;
      assert 0 <= k < n + 1;
    }
    if rowAt(n).Some? && c in rowAt(n).value {
      assert 0 <= n < n + 1;
    }
  }

  lemma Unsubscribing(trace: seq<Request>, channels: seq<Id>, users: seq<Id>)
    ensures forall c :: Subscribed(trace + [Unsubscribe(channels, users)], c) <==> Subscribed(trace, c)
    ensures Rounds(trace + [Unsubscribe(channels, users)]) == Rounds(trace)
  {
    SubscribedSnoc(trace, Unsubscribe(channels, users), 0);
    forall c
      ensures Subscribed(trace + [Unsubscribe(channels, users)], c) <==> Subscribed(trace, c)
    {
      SubscribedSnoc(trace, Unsubscribe(channels, users), c);
    }
  }

  lemma EndsSnoc(trace: seq<Request>, q: Request, u: Id)
    requires EndsUnsubscribed(trace, u) && u !in q.users
    ensures EndsUnsubscribed(trace + [q], u)
  {
    var i :| 0 <= i < |trace| && EndsAt(trace, u, i);
    var t := trace + [q];
    assert t[i] == trace[i];
    forall c | Touched(t, u, c)
      ensures c in t[i].channels
    {
      TouchedSnoc(trace, q, u, c);
    }
    assert EndsAt(t, u, i);
  }

  lemma SubscribeStep(before: set<Sub>, trace: seq<Request>, users: seq<Id>, active: seq<Id>, attempted: set<Id>,
                      channels: seq<Id>)
    requires Progress(trace, users, active, attempted) && Outcome(before, trace, active)
    requires forall c :: c in channels ==> c !in attempted
    ensures var q := Remote.Request.Subscribe(channels, active);
            && Progress(trace + [q], users, active, attempted + set c | c in channels)
            && Outcome(before, trace + [q], active)
  {
    var q := Remote.Request.Subscribe(channels, active);
    var t, attempted' := trace + [q], attempted + set c | c in channels;
    forall u, c
      ensures Touched(t, u, c) <==> Touched(trace, u, c) || (u in active && c in channels)
      ensures Sub(u, c) in Apply(before, t) <==> if Touched(t, u, c) then u in active else Sub(u, c) in before
    {
      TouchedSnoc(trace, q, u, c);
      ApplySnoc(before, trace, q);
      StepPair(Apply(before, trace), q, u, c);
    }
    assert NoRepeat(t);
    forall u | u in users && u !in active
      ensures EndsUnsubscribed(t, u)
    {
      EndsSnoc(trace, q, u);
    }
  }

  lemma UnsubscribeStep(before: set<Sub>, trace: seq<Request>, users: seq<Id>, active: seq<Id>, attempted: set<Id>,
                        touched: seq<Id>, stale: seq<Id>, active': seq<Id>)
    requires Progress(trace, users, active, attempted) && Outcome(before, trace, active)
    requires forall c :: c in touched <==> c in attempted
    requires forall u :: u in stale ==> u in active
    requires forall u :: u in active' <==> u in active && u !in stale
    ensures var q := Unsubscribe(touched, stale);
            Progress(trace + [q], users, active', attempted) && Outcome(before, trace + [q], active')
  {
    var q := Unsubscribe(touched, stale);
    var t := trace + [q];
    forall u, c
      ensures Touched(t, u, c) <==> Touched(trace, u, c)
      ensures Touched(trace, u, c) ==> c in attempted
      ensures Sub(u, c) in Apply(before, t) <==> if Touched(t, u, c) then u in active' else Sub(u, c) in before
    {
      TouchedSnoc(trace, q, u, c);
      ApplySnoc(before, trace, q);
      StepPair(Apply(before, trace), q, u, c);
    }
    forall u | u in users && u !in active'
      ensures EndsUnsubscribed(t, u)
    {
      if u in stale {
        assert t[|trace|] == q;
        assert EndsAt(t, u, |trace|);
      } else {
        EndsSnoc(trace, q, u);
      }
    }
    assert NoRepeat(t);
  }

  lemma OnCourseStart(userIds: seq<Id>, rowAt: nat -> Option<seq<Id>>, membersAt: nat -> Option<seq<Id>>,
                      accepts: nat -> bool)
    ensures OnCourse(userIds, rowAt, membersAt, accepts, userIds, [], 0)
  {
  }

  lemma OnCourseSnoc(userIds: seq<Id>, rowAt: nat -> Option<seq<Id>>, membersAt: nat -> Option<seq<Id>>,
                     accepts: nat -> bool, active: seq<Id>, trace: seq<Request>, n: nat, q: Request)
    requires OnCourse(userIds, rowAt, membersAt, accepts, active, trace, n)
    requires accepts(|trace|) && Due(userIds, rowAt, membersAt, trace, q)
    ensures OnCourse(userIds, rowAt, membersAt, accepts, active, trace + [q], n)
  {
    hide Due, Stayed;
    assert (trace + [q])[..|trace|] == trace;
  }

  lemma WhoIsActive(userIds: seq<Id>, rowAt: nat -> Option<seq<Id>>, membersAt: nat -> Option<seq<Id>>,
                    accepts: nat -> bool, active: seq<Id>, trace: seq<Request>, n: nat)
    requires OnCourse(userIds, rowAt, membersAt, accepts, active, trace, n)
    ensures forall u :: u in active <==> u in userIds && Stayed(membersAt, n, u)
  {
    hide AllDue, Stayed;
  }

  // The n-th member list lacks these of the active users.
  ghost predicate LosesUsers(membersAt: nat -> Option<seq<Id>>, n: nat, active: seq<Id>, stale: seq<Id>) {
    && membersAt(n).Some? && stale != []
    && forall u :: u in stale <==> u in active && u !in membersAt(n).value
  }

  lemma StayedOneMore(membersAt: nat -> Option<seq<Id>>, n: nat, u: Id)
    ensures Stayed(membersAt, n + 1, u) <==> Stayed(membersAt, n, u) && membersAt(n).Some? && u in membersAt(n).value
  {
  }

  // The round's subscribe request.
  lemma SubscribeDue(userIds: seq<Id>, rowAt: nat -> Option<seq<Id>>, membersAt: nat -> Option<seq<Id>>,
                     accepts: nat -> bool, active: seq<Id>, trace: seq<Request>, n: nat, channels: seq<Id>)
    requires OnCourse(userIds, rowAt, membersAt, accepts, active, trace, n) && accepts(|trace|)
    requires Rounds(trace) == n && FindsNew(rowAt, trace, n, channels)
    ensures OnCourse(userIds, rowAt, membersAt, accepts, active, trace + [Remote.Request.Subscribe(channels, active)], n)
  {
    hide Stayed, Subscribed, Rounds, OnCourse;
    WhoIsActive(userIds, rowAt, membersAt, accepts, active, trace, n);
    assert Due(userIds, rowAt, membersAt, trace, Remote.Request.Subscribe(channels, active));
    hide Due;
    OnCourseSnoc(userIds, rowAt, membersAt, accepts, active, trace, n, Remote.Request.Subscribe(channels, active));
  }

  // The round's member list.
  lemma RoundEnds(userIds: seq<Id>, rowAt: nat -> Option<seq<Id>>, membersAt: nat -> Option<seq<Id>>,
                  accepts: nat -> bool, active: seq<Id>, trace: seq<Request>, n: nat, active': seq<Id>)
    requires OnCourse(userIds, rowAt, membersAt, accepts, active, trace, n)
    requires rowAt(n).Some? && membersAt(n).Some?
    requires forall u :: u in active' <==> u in active && u in membersAt(n).value
    ensures OnCourse(userIds, rowAt, membersAt, accepts, active', trace, n + 1)
  {
    hide Due, Stayed;
    forall u
      ensures u in active' <==> u in userIds && Stayed(membersAt, n + 1, u)
    {
      StayedOneMore(membersAt, n, u);
    }
  }

  // The round's unsubscribe request.
  lemma UnsubscribeDue(userIds: seq<Id>, rowAt: nat -> Option<seq<Id>>, membersAt: nat -> Option<seq<Id>>,
                       accepts: nat -> bool, active: seq<Id>, trace: seq<Request>, n: nat, touched: seq<Id>, stale: seq<Id>)
    requires OnCourse(userIds, rowAt, membersAt, accepts, active, trace, n) && accepts(|trace|)
    requires Rounds(trace) == n + 1 && trace != [] && trace[|trace| - 1].Subscribe?
    requires LosesUsers(membersAt, n, active, stale) && forall c :: c in touched <==> Subscribed(trace, c)
    ensures OnCourse(userIds, rowAt, membersAt, accepts, active, trace + [Unsubscribe(touched, stale)], n)
  {
    hide Stayed, Subscribed, Rounds, OnCourse;
    WhoIsActive(userIds, rowAt, membersAt, accepts, active, trace, n);
    forall u
      ensures u in stale <==> u in userIds && Stayed(membersAt, n, u) && !Stayed(membersAt, n + 1, u)
    {
      StayedOneMore(membersAt, n, u);
    }
    assert Due(userIds, rowAt, membersAt, trace, Unsubscribe(touched, stale));
    hide Due;
    OnCourseSnoc(userIds, rowAt, membersAt, accepts, active, trace, n, Unsubscribe(touched, stale));
  }

  lemma AlwaysMember(userIds: seq<Id>, rowAt: nat -> Option<seq<Id>>, membersAt: nat -> Option<seq<Id>>,
                     accepts: nat -> bool, active: seq<Id>, trace: seq<Request>, n: nat)
    requires OnCourse(userIds, rowAt, membersAt, accepts, active, trace, n)
    ensures forall u :: u in userIds && (forall k :: membersAt(k).Some? ==> u in membersAt(k).value) ==> u in active
  {
  }

  lemma AtStart(before: set<Sub>, users: seq<Id>, rowAt: nat -> Option<seq<Id>>)
    ensures Progress([], users, users, {}) && Outcome(before, [], users)
    ensures forall u, c :: !Touched([], u, c)
    ensures Rounds([]) == 0 && forall c :: !Subscribed([], c) && !ReadBefore(rowAt, 0, c)
  {
  }

  // What the loop has kept so far, read at its end.
  lemma AtEnd(before: set<Sub>, trace: seq<Request>, users: seq<Id>, active: seq<Id>, attempted: set<Id>)
    requires Progress(trace, users, active, attempted) && Outcome(before, trace, active)
    ensures NoRepeat(trace) && (forall u :: u in active ==> u in users)
    ensures forall u :: u in users && u !in active ==> EndsUnsubscribed(trace, u)
    ensures forall u, c :: Touched(trace, u, c) ==> u in users && c in attempted
    ensures forall u, c :: u in active && c in attempted ==> Sub(u, c) in Apply(before, trace)
  {
  }

  // ----- the loop -----------------------------------------------------------

  function IdNumber(i: nat): Id
    requires i < 0x1_0000_0000_0000_0000
  {
    MIN_ID + i
  }

  // There are only finitely many 64-bit ids to attempt.
  ghost function AllIds(): set<Id> {
    set i: nat | i < 0x1_0000_0000_0000_0000 :: IdNumber(i)
  }

  method SubscribeUsersToCurrentChannelGroupChannels(
      userIds: seq<Id>, rowAt: nat -> Option<seq<Id>>, membersAt: nat -> Option<seq<Id>>, accepts: nat -> bool,
      ghost before: set<Sub>)
    returns (ok: bool, group: seq<Id>, touched: seq<Id>, active: seq<Id>, trace: seq<Request>, rounds: nat)
    ensures NoRepeat(trace) && Outcome(before, trace, active)
    ensures forall u :: u in active ==> u in userIds
    ensures forall u :: u in userIds && u !in active ==> EndsUnsubscribed(trace, u)
    ensures forall u, c :: Touched(trace, u, c) ==> u in userIds && c in touched
    ensures Ended(userIds, rowAt, membersAt, accepts, ok, group, touched, active, trace, rounds)
    ensures OnCourse(userIds, rowAt, membersAt, accepts, active, trace, if ok then Rounds(trace) else rounds)
    ensures ok ==> forall u, c :: u in active && c in group ==> Sub(u, c) in Apply(before, trace)
    ensures (forall k :: rowAt(k).Some? && membersAt(k).Some? && accepts(k)) ==> ok
    ensures forall u :: u in userIds && (forall k :: membersAt(k).Some? ==> u in membersAt(k).value) ==> u in active
  {
    hide Subscribed, ReadBefore, Rounds, Touched, EndsUnsubscribed, NoRepeat, Outcome, Progress, OnCourse;
    group, touched, trace, rounds := [], [], [], 0;
    active := userIds;
    AtStart(before, userIds, rowAt);
    OnCourseStart(userIds, rowAt, membersAt, accepts);
    var attempted: set<Id> := {};
    while true
      invariant Progress(trace, userIds, active, attempted) && Outcome(before, trace, active)
      invariant forall c :: c in touched <==> c in attempted
      invariant OnCourse(userIds, rowAt, membersAt, accepts, active, trace, rounds)
      invariant rounds == Rounds(trace) && (active == [] ==> userIds == [])
      invariant forall c :: c in touched <==> Subscribed(trace, c)
      invariant forall c :: c in touched <==> ReadBefore(rowAt, rounds, c)
      decreases AllIds() - attempted
    {
      AtEnd(before, trace, userIds, active, attempted);
      AlwaysMember(userIds, rowAt, membersAt, accepts, active, trace, rounds);
      var read := rowAt(rounds);
      if read.None? {
        return false, [], touched, active, trace, rounds;
      }
      group := read.value;
      var channels := RemoveAttemptedInt64s(group, attempted);
      if |channels| == 0 {
        return true, group, touched, active, trace, rounds;
      }
      assert channels[0] in read.value && channels[0] !in touched;
      if !accepts(|trace|) {
        return false, [], touched, active, trace, rounds;
      }
      SubscribeDue(userIds, rowAt, membersAt, accepts, active, trace, rounds, channels);
      SubscribeStep(before, trace, userIds, active, attempted, channels);
      SubscribedSnoc(trace, Remote.Request.Subscribe(channels, active), 0);
      ghost var earlier := trace;
      trace := trace + [Remote.Request.Subscribe(channels, active)];
      touched := UniqueInt64s(touched + channels);
      forall c
        ensures c in touched <==> Subscribed(trace, c)
        ensures c in touched <==> ReadBefore(rowAt, rounds + 1, c)
      {
        SubscribedSnoc(earlier, Remote.Request.Subscribe(channels, active), c);
        ReadOneMore(rowAt, rounds, c);
      }
      assert IdNumber(channels[0] - MIN_ID) in AllIds() - attempted;
      attempted := attempted + set c | c in channels;
      AtEnd(before, trace, userIds, active, attempted);
      var current := membersAt(rounds);
      if current.None? {
        return false, [], touched, active, trace, rounds;
      }
      var stale := RemoveInt64s(active, current.value);
      if |stale| == 0 {
        RoundEnds(userIds, rowAt, membersAt, accepts, active, trace, rounds, active);
      } else {
        assert stale[0] in active && stale[0] !in current.value;
        if !accepts(|trace|) {
          return false, [], touched, active, trace, rounds;
        }
        var remaining := RemoveInt64s(active, stale);
        UnsubscribeStep(before, trace, userIds, active, attempted, touched, stale, remaining);
        Unsubscribing(trace, touched, stale);
        UnsubscribeDue(userIds, rowAt, membersAt, accepts, active, trace, rounds, touched, stale);
        RoundEnds(userIds, rowAt, membersAt, accepts, active, trace + [Unsubscribe(touched, stale)], rounds, remaining);
        trace := trace + [Unsubscribe(touched, stale)];
        active := remaining;
        if |active| == 0 {
          AtEnd(before, trace, userIds, active, attempted);
          AlwaysMember(userIds, rowAt, membersAt, accepts, active, trace, rounds + 1);
          assert stale[0] in userIds;
          return true, group, touched, active, trace, rounds;
        }
      }
      rounds := rounds + 1;
    }
  }

  // A failed subscribe takes the users out of the member set, whoever else has added them meanwhile, and
  // out of every channel it touched, channels the users had before included, and of no other channel.
  // Neither request is retried; `deletes` says whether the server accepts the member delete. The requests
  // before the undo are `sent`.
  method SubscribeOrUndo(
      userIds: seq<Id>, rowAt: nat -> Option<seq<Id>>, membersAt: nat -> Option<seq<Id>>, accepts: nat -> bool,
      members: set<Id>, deletes: bool, ghost before: set<Sub>)
    returns (ok: bool, undone: bool, touched: seq<Id>, trace: seq<Request>, remaining: set<Id>,
             ghost sent: seq<Request>, ghost group: seq<Id>, ghost active: seq<Id>, ghost rounds: nat)
    ensures remaining == if !ok && deletes then members - (set u | u in userIds) else members
    ensures Ended(userIds, rowAt, membersAt, accepts, ok, group, touched, active, sent, rounds)
    ensures OnCourse(userIds, rowAt, membersAt, accepts, active, sent, if ok then Rounds(sent) else rounds)
    ensures forall u :: u in userIds && (forall k :: membersAt(k).Some? ==> u in membersAt(k).value) ==> u in active
    ensures trace == if undone then sent + [Unsubscribe(touched, userIds)] else sent
    ensures undone <==> !ok && accepts(|sent|)
    ensures !undone ==> Outcome(before, trace, active)
    ensures undone ==> forall u, c ::
              (Sub(u, c) in Apply(before, trace) <==> Sub(u, c) in before && !(u in userIds && c in touched))
    ensures forall u, c :: Touched(trace, u, c) ==> u in userIds && c in touched
    ensures forall c :: c in touched <==> Subscribed(trace, c)
  {
    var last, current, n;
    ok, last, touched, current, trace, n :=
      SubscribeUsersToCurrentChannelGroupChannels(userIds, rowAt, membersAt, accepts, before);
    sent, group, active, rounds := trace, last, current, n;
    undone, remaining := false, members;
    if !ok && deletes {
      remaining := members - (set u | u in userIds);
    }
    if !ok && accepts(|trace|) {
      var q := Unsubscribe(touched, userIds);
      forall u, c
        ensures Sub(u, c) in Apply(before, trace + [q]) <==> Sub(u, c) in before && !(u in userIds && c in touched)
        ensures Touched(trace + [q], u, c) <==> Touched(trace, u, c)
      {
        ApplySnoc(before, trace, q);
        StepPair(Apply(before, trace), q, u, c);
        TouchedSnoc(trace, q, u, c);
      }
      Unsubscribing(trace, touched, userIds);
      trace, undone := trace + [q], true;
    }
  }

  // User 7 has channel 1 before. Its subscribe to the group finds channel 1 in the row and cannot read the
  // row a second time: it fails, and the user loses the channel.
  method LosesEarlierSubscription() returns (ok: bool, remaining: set<Id>, trace: seq<Request>)
    ensures (ok, remaining, Apply({Sub(7, 1)}, trace)) == (false, {}, {})
  {
    var undone, touched;
    ghost var sent, group, active, rounds;
    var rowAt: nat -> Option<seq<Id>> := k => if k == 0 then Some([1]) else None;
    ok, undone, touched, trace, remaining, sent, group, active, rounds :=
      SubscribeOrUndo([7], rowAt, k => Some([7]), k => true, {7}, true, {Sub(7, 1)});
    assert 7 in [7] && 7 in active;
    assert !ReadBefore(rowAt, 0, 1) && 1 in [1];
    assert !ok;
    assert 1 in rowAt(0).value;
    assert ReadBefore(rowAt, Rounds(sent), 1);
    forall s: Sub
      ensures s !in Apply({Sub(7, 1)}, trace)
    {
      assert s == Sub(s.user, s.channel);
    }
    assert Apply({Sub(7, 1)}, trace) == {} && remaining == {};
  }
}
