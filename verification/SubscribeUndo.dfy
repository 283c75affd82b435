/**
 * Why linearizability needs its condition: the member delete that undoes a failed
 * Subscribe runs outside the lock and does not look at generations, so it can take
 * away the membership that another Subscribe of the same user has just been
 * promised. The condition is exact for users whom only subscribes touch; in general
 * such an undo must coincide with a call that removes the user anyway.
 */
module SubscribeUndo {
  import opened Collections
  import opened MemberGenerations
  import opened MembershipProtocol
  import opened GroupDeletion
  import opened MembershipHistory

  function Sub(pc: Pc): Thread {
    Thread(Subscribe({7}), pc)
  }

  // A thread takes all steps of its shared lock section.
  lemma AddSection(t: Tid, sh: Shared, threads: map<Tid, Thread>)
    requires t in threads && threads[t] == Sub(Start) && Reachable(State(sh, threads))
    requires sh.row && sh.readers == {} && sh.writer == None
    ensures Reachable(State(sh.(members := sh.members + {7}, gens := Bumped(sh.gens, {7})), threads[t := Sub(Looping)]))
  {
    hide Reachable, Bumped, SnapshotOf, UnchangedSince;
    var locked := sh.(readers := {t});
    var added := locked.(members := sh.members + {7});
    var bumped := added.(gens := Bumped(sh.gens, {7}));
    var s1 := State(locked, threads[t := Sub(AddLocked)]);
    var s2 := State(locked, threads[t := Sub(AddReady)]);
    var s3 := State(added, threads[t := Sub(Added)]);
    var s4 := State(bumped, threads[t := Sub(AddLeaving(true))]);
    ReachesNext(State(sh, threads), Act(t, true), s1);
    ReachesNext(s1, Act(t, true), s2);
    ReachesNext(s2, Act(t, true), s3);
    ReachesNext(s3, Act(t, true), s4);
    ReachesNext(s4, Act(t, true), State(bumped.(readers := {}), threads[t := Sub(Looping)]));
  }

  // ----- what every linearizable run must have ------------------------------

  lemma {:induction false} ReplayDiffers(h: seq<Entry>, k: nat, j: nat, b: bool)
    requires k <= |h| && Replay(h, k, j, b) != Replay(h, k, j + 1, b)
    ensures exists m :: 0 <= m < k && h[m].at == j + 1 && h[m].add == Replay(h, k, j + 1, b)
  {
    if h[k - 1].at > j + 1 {
      ReplayDiffers(h, k - 1, j, b);
    }
  }

  // A running call of the user's that adds or removes.
  ghost predicate CallRuns(r: Run, u: UserId, add: bool, i: nat) {
    exists t :: RunningAt(r, t, i) && Touches(r.states[i].threads[t].op, u)
                && (add <==> r.states[i].threads[t].op.Subscribe?)
  }

  // In a linearizable run the user's membership changes only in a step during which a call runs that
  // changes it that way: an undo that takes the user out coincides with a running Unsubscribe or
  // DeleteChannelGroup, a restore that puts the user back with a running Subscribe.
  lemma ChangeNeedsCall(r: Run, u: UserId, h: seq<Entry>, i: nat)
    requires IsRun(r) && Linearization(r, u, h) && i < |r.acts|
    requires (u in r.states[i].sh.members) != (u in r.states[i + 1].sh.members)
    ensures CallRuns(r, u, u in r.states[i + 1].sh.members, i)
  {
    var b := u in r.states[0].sh.members;
    assert u in r.states[i].sh.members <==> Replay(h, |h|, i, b);
    assert u in r.states[i + 1].sh.members <==> Replay(h, |h|, i + 1, b);
    ReplayDiffers(h, |h|, i, b);
    var m :| 0 <= m < |h| && h[m].at == i + 1 && h[m].add == Replay(h, |h|, i + 1, b);
    assert Placed(r, u, h[m]);
  }

  // A step that is not clean for the user changes the user's membership.
  lemma UncleanChanges(r: Run, u: UserId, i: nat)
    requires IsRun(r) && i < |r.acts| && !CleanAt(r.states[i], r.acts[i], u)
    ensures (u in r.states[i].sh.members) != (u in r.states[i + 1].sh.members)
    ensures var op := r.states[i].threads[r.acts[i].t].op;
            && Touches(op, u)
            && (op.Subscribe? <==> u in r.states[i].sh.members)
  {
    LockExcludes(r, i);
    DrainHolds(r, i);
    assert StepAt(r, i);
    var th := r.states[i].threads[r.acts[i].t];
    assert PcFits(th) && Drained(r.states[i].sh.members, th.pc);
  }

  lemma UncleanNeedsCall(r: Run, u: UserId, h: seq<Entry>, i: nat)
    requires IsRun(r) && Linearization(r, u, h) && i < |r.acts| && !CleanAt(r.states[i], r.acts[i], u)
    ensures CallRuns(r, u, r.states[i].threads[r.acts[i].t].pc.Restoring?, i)
  {
    UncleanChanges(r, u, i);
    ChangeNeedsCall(r, u, h, i);
    LockExcludes(r, i);
    assert PcFits(r.states[i].threads[r.acts[i].t]);
  }

  // Where only subscribes touch the user, the condition of Linearizable is exact.
  lemma SubscribesLinearizableIffClean(r: Run, u: UserId)
    requires IsRun(r)
    requires forall t :: t in r.states[|r.acts|].threads && Touches(r.states[|r.acts|].threads[t].op, u) ==>
                           r.states[|r.acts|].threads[t].op.Subscribe?
    ensures (exists h :: Linearization(r, u, h)) <==> Clean(r, u)
  {
    if Clean(r, u) {
      Linearizable(r, u);
    }
    if h :| Linearization(r, u, h) {
      forall i | 0 <= i < |r.acts|
        ensures CleanAt(r.states[i], r.acts[i], u)
      {
        if !CleanAt(r.states[i], r.acts[i], u) {
          UncleanChanges(r, u, i);
          ThreadsStay(r, i, |r.acts|, r.acts[i].t);
          ChangeNeedsCall(r, u, h, i);
          var t :| RunningAt(r, t, i) && Touches(r.states[i].threads[t].op, u)
                   && (u in r.states[i + 1].sh.members <==> r.states[i].threads[t].op.Subscribe?);
          ThreadsStay(r, i, |r.acts|, t);
          assert false;
        }
      }
    }
  }

  // A history of subscribes alone, one of them successful, ends with the user in the group.
  lemma OnlySubscribes(r: Run, u: UserId, h: seq<Entry>, t: Tid)
    requires IsRun(r) && Linearization(r, u, h)
    requires forall v :: v in r.states[|r.acts|].threads ==> r.states[|r.acts|].threads[v].op == Subscribe({u})
    requires t in r.states[|r.acts|].threads && r.states[|r.acts|].threads[t].pc == Done(true)
    ensures u in r.states[|r.acts|].sh.members
  {
    assert HasEntry(h, t);
    var e := h[|h| - 1];
    assert Placed(r, u, e);
    ThreadsStay(r, e.at - 1, |r.acts|, e.t);
    assert e.add;
  }

  function Both(pc1: Pc, pc2: Pc): map<Tid, Thread> {
    map[1 := Sub(pc1), 2 := Sub(pc2)]
  }

  lemma UndoRuns(sh: Shared)
    requires Reachable(State(sh, Both(Looping, Looping))) && sh.members == {7}
    ensures Reachable(State(sh.(members := {}), Both(Done(false), Done(true))))
  {
    hide Reachable;
    ReachesNext(State(sh, Both(Looping, Looping)), Act(2, true), State(sh, Both(Looping, Done(true))));
    ReachesNext(State(sh, Both(Looping, Done(true))), Act(1, false), State(sh, Both(Undoing, Done(true))));
    ReachesNext(State(sh, Both(Undoing, Done(true))), Act(1, true),
                State(sh.(members := {}), Both(Done(false), Done(true))));
  }

  // Both threads add user 7, then thread 2 succeeds, and thread 1 fails and undoes its add.
  lemma UndoReached() returns (gens: map<UserId, nat>)
    ensures Reachable(State(Shared({}, true, gens, {}, None), Both(Done(false), Done(true))))
  {
    var sh := Shared({}, true, map[], {}, None);
    assert IsRun(Run([State(sh, map[])], [])) && Last(Run([State(sh, map[])], [])) == State(sh, map[]);
    hide IsRun, Reachable, Bumped, SnapshotOf, UnchangedSince;
    ReachesNext(State(sh, map[]), Invoke(1, Subscribe({7})), State(sh, map[1 := Sub(Start)]));
    ReachesNext(State(sh, map[1 := Sub(Start)]), Invoke(2, Subscribe({7})), State(sh, Both(Start, Start)));
    AddSection(1, sh, Both(Start, Start));
    var sh1 := sh.(members := {7}, gens := Bumped(sh.gens, {7}));
    AddSection(2, sh1, Both(Looping, Start));
    var sh2 := sh1.(gens := Bumped(sh1.gens, {7}));
    assert Both(Start, Start)[1 := Sub(Looping)] == Both(Looping, Start);
    assert Both(Looping, Start)[2 := Sub(Looping)] == Both(Looping, Looping);
    gens := sh2.gens;
    UndoRuns(sh2);
  }

  // In this run the only calls on user 7 are two subscribes. Thread 2 succeeds, thread 1 fails
  // and undoes its add, and user 7 ends up outside the group: no history explains it.
  lemma UndoCanCancelAnotherSubscribe()
    ensures exists r :: && IsRun(r) && Last(r).threads == Both(Done(false), Done(true)) && 7 !in Last(r).sh.members
                        && forall h :: !Linearization(r, 7, h)
  {
    var gens := UndoReached();
    var r :| IsRun(r) && Last(r) == State(Shared({}, true, gens, {}, None), Both(Done(false), Done(true)));
    hide Linearization;
    forall h
      ensures !Linearization(r, 7, h)
    {
      if Linearization(r, 7, h) {
        OnlySubscribes(r, 7, h, 2);
        assert false;
      }
    }
  }
}
