/**
 * What a call of the membership protocol does when no request fails and no other thread
 * moves: from any state in which the lock is free, it ends successfully and has done what
 * it is for.
 */
module SoloCalls {
  import opened Collections
  import opened MemberGenerations
  import opened MembershipProtocol

  // The state after n successful steps of one thread, if it can take them.
  function Solo(s: State, t: Tid, n: nat): Option<State>
    decreases n
  {
    if n == 0 then Some(s)
    else if Enabled(s, Act(t, true)) then Solo(After(s, Act(t, true)), t, n - 1)
    else None
  }

  // The rest of the threads, and thread t at this point of its call.
  function With(sh: Shared, threads: map<Tid, Thread>, t: Tid, op: Op, pc: Pc): State {
    State(sh, threads[t := Thread(op, pc)])
  }

  lemma SoloStep(sh: Shared, threads: map<Tid, Thread>, t: Tid, op: Op, pc: Pc, n: nat, sh': Shared, pc': Pc)
    requires n > 0 && CanMove(sh, Thread(op, pc))
    requires NextShared(sh, t, Thread(op, pc), true) == sh' && NextPc(sh, Thread(op, pc), true) == pc'
    ensures Solo(With(sh, threads, t, op, pc), t, n) == Solo(With(sh', threads, t, op, pc'), t, n - 1)
  {
    hide NextShared, NextPc, CanMove;
    assert threads[t := Thread(op, pc)][t := Thread(op, pc')] == threads[t := Thread(op, pc')];
  }

  lemma SoloEnd(s: State, t: Tid)
    ensures Solo(s, t, 0) == Some(s)
  {
  }

  ghost predicate Free(sh: Shared) {
    sh.row && sh.writer == None && sh.readers == {}
  }

  // The users are members, and their counters have moved.
  lemma SubscribeAlone(sh: Shared, threads: map<Tid, Thread>, t: Tid, users: set<UserId>)
    requires Free(sh)
    ensures Solo(With(sh, threads, t, Subscribe(users), Start), t, 6)
         == Some(With(sh.(members := sh.members + users, gens := Bumped(sh.gens, users)),
                      threads, t, Subscribe(users), Done(true)))
  {
    hide With, Solo, Bumped, SnapshotOf, UnchangedSince;
    var op := Subscribe(users);
    var locked := sh.(readers := {t});
    var added := locked.(members := sh.members + users);
    var bumped := added.(gens := Bumped(sh.gens, users));
    var freed := bumped.(readers := {});
    SoloStep(sh, threads, t, op, Start, 6, locked, AddLocked);
    SoloStep(locked, threads, t, op, AddLocked, 5, locked, AddReady);
    SoloStep(locked, threads, t, op, AddReady, 4, added, Added);
    SoloStep(added, threads, t, op, Added, 3, bumped, AddLeaving(true));
    SoloStep(bumped, threads, t, op, AddLeaving(true), 2, freed, Looping);
    SoloStep(freed, threads, t, op, Looping, 1, freed, Done(true));
    SoloEnd(With(freed, threads, t, op, Done(true)), t);
  }

  lemma FreshSnapshot(gens: map<UserId, nat>, users: set<UserId>)
    ensures UnchangedSince(gens, users, SnapshotOf(gens, users)) == users
  {
  }

  // The users are no members any more.
  lemma UnsubscribeAlone(sh: Shared, threads: map<Tid, Thread>, t: Tid, users: set<UserId>)
    requires Free(sh)
    ensures Solo(With(sh, threads, t, Unsubscribe(users), Start), t, 10)
         == Some(With(sh.(members := sh.members - users), threads, t, Unsubscribe(users), Done(true)))
  {
    hide With, Solo, Bumped, SnapshotOf, UnchangedSince;
    var op, snap := Unsubscribe(users), SnapshotOf(sh.gens, users);
    var held := sh.(writer := Some(t));
    SoloStep(sh, threads, t, op, Start, 10, sh, RowRead);
    SoloStep(sh, threads, t, op, RowRead, 9, held, SnapLocked);
    SoloStep(held, threads, t, op, SnapLocked, 8, held, Snapped(snap));
    SoloStep(held, threads, t, op, Snapped(snap), 7, sh, FanOut(snap));
    SoloStep(sh, threads, t, op, FanOut(snap), 6, sh, AwaitDelete(snap));
    FreshSnapshot(sh.gens, users);
    DeleteAlone(sh, threads, t, users, snap);
  }

  lemma DeleteAlone(sh: Shared, threads: map<Tid, Thread>, t: Tid, users: set<UserId>, snap: map<UserId, nat>)
    requires Free(sh) && UnchangedSince(sh.gens, users, snap) == users
    ensures Solo(With(sh, threads, t, Unsubscribe(users), AwaitDelete(snap)), t, 5)
         == Some(With(sh.(members := sh.members - users), threads, t, Unsubscribe(users), Done(true)))
  {
    hide With, Solo, Bumped, SnapshotOf, UnchangedSince;
    var op := Unsubscribe(users);
    var held := sh.(writer := Some(t));
    var gone := held.(members := sh.members - users);
    var freed := gone.(writer := None);
    SoloStep(sh, threads, t, op, AwaitDelete(snap), 5, held, DeleteLocked(snap));
    SoloStep(held, threads, t, op, DeleteLocked(snap), 4, held, Checked(snap, users));
    SoloStep(held, threads, t, op, Checked(snap, users), 3, gone, Leaving(true));
    SoloStep(gone, threads, t, op, Leaving(true), 2, freed, Tail);
    SoloStep(freed, threads, t, op, Tail, 1, freed, Done(true));
    SoloEnd(With(freed, threads, t, op, Done(true)), t);
  }

  // The group has no members and no row.
  lemma DeletionAlone(sh: Shared, threads: map<Tid, Thread>, t: Tid)
    requires Free(sh)
    ensures Solo(With(sh, threads, t, Delete, Start), t, 6)
         == Some(With(sh.(members := {}, row := false), threads, t, Delete, Done(true)))
  {
    hide With, Solo, Bumped, SnapshotOf, UnchangedSince;
    var saved := sh.members;
    var held := sh.(writer := Some(t));
    var empty := held.(members := {});
    var gone := empty.(row := false);
    var freed := gone.(writer := None);
    SoloStep(sh, threads, t, Delete, Start, 6, held, DropLocked);
    SoloStep(held, threads, t, Delete, DropLocked, 5, held, Listed(saved));
    SoloStep(held, threads, t, Delete, Listed(saved), 4, empty, Emptied(saved));
    SoloStep(empty, threads, t, Delete, Emptied(saved), 3, empty, Deactivated);
    SoloStep(empty, threads, t, Delete, Deactivated, 2, gone, Leaving(true));
    SoloStep(gone, threads, t, Delete, Leaving(true), 1, freed, Done(true));
    SoloEnd(With(freed, threads, t, Delete, Done(true)), t);
  }
}
