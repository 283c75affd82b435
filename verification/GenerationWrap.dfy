/**
 * The generation counters wrap: a run in which 2^64 subscribes add a user between an
 * Unsubscribe's snapshot and its check, all of them finished, and the Unsubscribe
 * deletes the user all the same.
 */
module GenerationWrap {
  import opened Collections
  import opened MemberGenerations
  import opened MembershipProtocol
  import opened GenerationCheck

  const SNAP: nat := 3

  function Joins(pc: Pc): Thread {
    Thread(Subscribe({7}), pc)
  }

  function Leaves(pc: Pc): Thread {
    Thread(Unsubscribe({7}), pc)
  }

  // Thread 1 took its snapshot in step SNAP of the run, and n steps since then added user 7.
  ghost predicate Since(r: Run, n: nat) {
    && IsRun(r) && |r.acts| > SNAP
    && SnapsAt(r, 1, SNAP)
    && Adds(r, 7, SNAP, |r.acts|) == n
  }

  // Some such run ends in this state.
  ghost predicate Reaches(n: nat, s: State) {
    exists r :: Since(r, n) && Last(r) == s
  }

  lemma {:induction false} AddsOfLonger(r: Run, a: Action, i: nat, j: nat)
    requires IsRun(r) && Enabled(Last(r), a) && i <= j <= |r.acts|
    ensures Adds(Longer(r, a), 7, i, j) == Adds(r, 7, i, j)
  {
    if i < j {
      AddsOfLonger(r, a, i, j - 1);
    }
  }

  lemma OneStep(n: nat, s: State, a: Action, s': State)
    requires Reaches(n, s) && Enabled(s, a) && After(s, a) == s'
    ensures Reaches(if AddsUser(s, a, 7) then n + 1 else n, s')
  {
    var r :| Since(r, n) && Last(r) == s;
    hide After, Enabled, AddsUser, IsRun;
    var r' := Longer(r, a);
    LongerIsRun(r, a);
    AddsOfLonger(r, a, SNAP, |r.acts|);
    assert r'.acts[|r.acts|] == a && r'.states[|r.acts|] == s;
    assert Since(r', if AddsUser(s, a, 7) then n + 1 else n);
  }

  // ----- the snapshot -------------------------------------------------------

  const EMPTY_SNAP: map<UserId, nat> := map[7 := 0]

  lemma Snapshot(sh: Shared)
    requires sh == Shared({7}, true, map[], {}, None)
    ensures Reaches(0, State(sh, map[1 := Leaves(FanOut(EMPTY_SNAP))]))
  {
    BeforeSnapshot(sh);
    var r :| IsRun(r) && |r.acts| == SNAP && Last(r) == State(sh.(writer := Some(1)), map[1 := Leaves(SnapLocked)]);
    var r' := Longer(r, Act(1, true));
    LongerIsRun(r, Act(1, true));
    assert SnapshotOf(sh.gens, {7}) == EMPTY_SNAP;
    var s := State(sh.(writer := Some(1)), map[1 := Leaves(Snapped(EMPTY_SNAP))]);
    assert Last(r') == s;
    assert r'.acts[SNAP] == Act(1, true) && r'.states[SNAP] == Last(r);
    assert Adds(r', 7, SNAP, SNAP) == 0;
    assert Since(r', 0);
    hide Since, IsRun;
    OneStep(0, s, Act(1, true), State(sh, map[1 := Leaves(FanOut(EMPTY_SNAP))]));
  }

  lemma BeforeSnapshot(sh: Shared)
    requires sh == Shared({7}, true, map[], {}, None)
    ensures exists r :: IsRun(r) && |r.acts| == SNAP
                        && Last(r) == State(sh.(writer := Some(1)), map[1 := Leaves(SnapLocked)])
  {
    var r := Run([State(sh, map[])], []);
    assert IsRun(r);
    hide IsRun;
    LongerIsRun(r, Invoke(1, Unsubscribe({7})));
    r := Longer(r, Invoke(1, Unsubscribe({7})));
    LongerIsRun(r, Act(1, true));
    r := Longer(r, Act(1, true));
    LongerIsRun(r, Act(1, true));
    r := Longer(r, Act(1, true));
  }

  // ----- the subscribes -----------------------------------------------------

  lemma Enters(n: nat, t: Tid, sh: Shared, threads: map<Tid, Thread>)
    requires Reaches(n, State(sh, threads)) && t !in threads
    requires sh.row && sh.readers == {} && sh.writer == None
    ensures Reaches(n + 1, State(sh.(readers := {t}, members := sh.members + {7}), threads[t := Joins(Added)]))
  {
    hide Reaches, Bumped, SnapshotOf, UnchangedSince;
    var s1 := State(sh, threads[t := Joins(Start)]);
    var s2 := State(sh.(readers := {t}), threads[t := Joins(AddLocked)]);
    var s3 := State(sh.(readers := {t}), threads[t := Joins(AddReady)]);
    OneStep(n, State(sh, threads), Invoke(t, Subscribe({7})), s1);
    OneStep(n, s1, Act(t, true), s2);
    OneStep(n, s2, Act(t, true), s3);
    OneStep(n, s3, Act(t, true), State(sh.(readers := {t}, members := sh.members + {7}), threads[t := Joins(Added)]));
  }

  lemma Ends(n: nat, t: Tid, sh: Shared, threads: map<Tid, Thread>)
    requires Reaches(n, State(sh.(readers := {t}), threads[t := Joins(Added)])) && sh.readers == {}
    ensures Reaches(n, State(sh.(gens := Bumped(sh.gens, {7})), threads[t := Joins(Done(true))]))
  {
    hide Reaches, Bumped, SnapshotOf, UnchangedSince;
    var bumped := sh.(gens := Bumped(sh.gens, {7}));
    var s1 := State(bumped.(readers := {t}), threads[t := Joins(AddLeaving(true))]);
    var s2 := State(bumped, threads[t := Joins(Looping)]);
    OneStep(n, State(sh.(readers := {t}), threads[t := Joins(Added)]), Act(t, true), s1);
    OneStep(n, s1, Act(t, true), s2);
    OneStep(n, s2, Act(t, true), State(bumped, threads[t := Joins(Done(true))]));
  }

  // All calls but thread 1 are finished subscribes with ids below t, and the counter is at g.
  ghost predicate Quiet(s: State, g: nat, t: Tid) {
    && s.sh == Shared({7}, true, s.sh.gens, {}, None)
    && Gen(s.sh, 7) == g
    && 1 in s.threads && s.threads[1] == Leaves(FanOut(EMPTY_SNAP))
    && forall v :: v in s.threads && v != 1 ==> v < t && s.threads[v] == Joins(Done(true))
  }

  lemma {:induction false} ManySubscribes(n: nat)
    ensures exists s :: Reaches(n, s) && Quiet(s, n % GENERATIONS, n + 2)
  {
    if n == 0 {
      var sh := Shared({7}, true, map[], {}, None);
      Snapshot(sh);
      assert Quiet(State(sh, map[1 := Leaves(FanOut(EMPTY_SNAP))]), 0, 2);
    } else {
      ManySubscribes(n - 1);
      var s :| Reaches(n - 1, s) && Quiet(s, (n - 1) % GENERATIONS, n + 1);
      OneSubscribe(s, n, n + 1);
    }
  }

  // One more subscribe, from its call to its end.
  lemma OneSubscribe(s: State, n: nat, t: Tid)
    requires n > 0 && t > 1 && Reaches(n - 1, s) && Quiet(s, (n - 1) % GENERATIONS, t)
    ensures exists s' :: Reaches(n, s') && Quiet(s', n % GENERATIONS, t + 1)
  {
    hide Reaches;
    Enters(n - 1, t, s.sh, s.threads);
    assert s.sh.members + {7} == s.sh.members;
    Ends(n, t, s.sh, s.threads);
    var s' := State(s.sh.(gens := Bumped(s.sh.gens, {7})), s.threads[t := Joins(Done(true))]);
    assert Gen(s'.sh, 7) == ((n - 1) % GENERATIONS + 1) % GENERATIONS == n % GENERATIONS;
    assert Quiet(s', n % GENERATIONS, t + 1);
  }

  // ----- the check ----------------------------------------------------------

  // Nobody else moves any more: the unsubscribe takes the lock and checks.
  lemma Check(n: nat, sh: Shared, threads: map<Tid, Thread>)
    requires Reaches(n, State(sh, threads)) && Quiet(State(sh, threads), 0, n + 2)
    ensures Reaches(n, State(sh.(writer := Some(1)), threads[1 := Leaves(Checked(EMPTY_SNAP, {7}))]))
  {
    assert UnchangedSince(sh.gens, {7}, EMPTY_SNAP) == {7};
    hide Reaches, Bumped, SnapshotOf, UnchangedSince;
    var s1 := State(sh, threads[1 := Leaves(AwaitDelete(EMPTY_SNAP))]);
    var s2 := State(sh.(writer := Some(1)), threads[1 := Leaves(DeleteLocked(EMPTY_SNAP))]);
    OneStep(n, State(sh, threads), Act(1, true), s1);
    OneStep(n, s1, Act(1, true), s2);
    OneStep(n, s2, Act(1, true), State(s2.sh, threads[1 := Leaves(Checked(EMPTY_SNAP, {7}))]));
  }

  ghost predicate AtCheck(s: State) {
    && 7 in s.sh.members
    && 1 in s.threads && s.threads[1] == Leaves(Checked(EMPTY_SNAP, {7}))
    && forall t :: t in s.threads && t != 1 ==> s.threads[t] == Joins(Done(true))
  }

  lemma CheckReached()
    ensures exists s :: Reaches(GENERATIONS, s) && AtCheck(s)
  {
    ManySubscribes(GENERATIONS);
    var q :| Reaches(GENERATIONS, q) && Quiet(q, 0, GENERATIONS + 2);
    hide Reaches;
    Check(GENERATIONS, q.sh, q.threads);
    var s := State(q.sh.(writer := Some(1)), q.threads[1 := Leaves(Checked(EMPTY_SNAP, {7}))]);
    assert AtCheck(s);
  }

  // At step k the unsubscribe is about to delete user 7, whom 2^64 steps have added since its snapshot, every
  // subscribe being finished and successful; afterwards the user is out.
  ghost predicate Wrapped(r: Run, k: nat) {
    && IsRun(r) && SnapsAt(r, 1, SNAP) && SNAP < k < |r.acts|
    && AtCheck(r.states[k]) && Adds(r, 7, SNAP, k) == GENERATIONS
    && 7 !in r.states[k + 1].sh.members
  }

  lemma WrapDeletesReadded()
    ensures exists r, k :: Wrapped(r, k)
  {
    CheckReached();
    var s :| Reaches(GENERATIONS, s) && AtCheck(s);
    var checked :| Since(checked, GENERATIONS) && Last(checked) == s;
    var k := |checked.acts|;
    var r := Longer(checked, Act(1, true));
    LongerIsRun(checked, Act(1, true));
    AddsOfLonger(checked, Act(1, true), SNAP, k);
    hide IsRun, Adds;
    assert r.states[k] == s && r.states[k + 1] == Last(r);
    assert r.states[SNAP] == checked.states[SNAP] && r.acts[SNAP] == checked.acts[SNAP];
    assert Wrapped(r, k);
  }
}
