/**
 * DeleteChannelGroup against every interleaving of other deletions, subscribes
 * (with their undo requests, which run outside the lock) and unsubscribes: a
 * successful deletion leaves the member set empty until the group is imported
 * again, and a deletion that had to restore the members restores exactly the
 * ones it read.
 */
module GroupDeletion {
  import opened MemberGenerations
  import opened MembershipProtocol

  // From reading the members to giving up the lock, nothing is added behind the deletion's back.
  predicate Drained(members: set<UserId>, pc: Pc) {
    && (pc.Listed? ==> members <= pc.saved)
    && (pc.Emptied? || pc.Restoring? || pc.Deactivated? ==> members == {})
  }

  ghost predicate DrainInv(s: State) {
    forall t :: t in s.threads ==> Drained(s.sh.members, s.threads[t].pc)
  }

  lemma DrainStep(s: State, a: Action)
    requires LockInv(s) && DrainInv(s) && Enabled(s, a)
    ensures DrainInv(After(s, a))
  {
  }

  lemma {:induction false} DrainHolds(r: Run, n: nat)
    requires IsRun(r) && n < |r.states|
    ensures DrainInv(r.states[n])
  {
    if n > 0 {
      DrainHolds(r, n - 1);
      LockExcludes(r, n - 1);
      assert StepAt(r, n - 1);
      hide LockInv, DrainInv, After, Enabled;
      DrainStep(r.states[n - 1], r.acts[n - 1]);
    } else {
      assert DrainInv(r.states[0]);
    }
  }

  // ----- a successful deletion ----------------------------------------------

  // No one can add a member before the next import.
  predicate Quiet(s: State) {
    && !s.sh.row
    && s.sh.members == {}
    && forall t :: t in s.threads ==> Harmless(s.threads[t].pc)
  }

  predicate Harmless(pc: Pc) {
    && !pc.AddReady?
    && (pc.Listed? || pc.Emptied? || pc.Restoring? ==> pc.saved == {})
  }

  lemma QuietStep(s: State, a: Action)
    requires Quiet(s) && Enabled(s, a) && !a.Import?
    ensures Quiet(After(s, a))
  {
  }

  ghost predicate RowDeletedBy(r: Run, t: Tid, i: nat)
    requires |r.states| == |r.acts| + 1
  {
    && i < |r.acts|
    && r.acts[i] == Act(t, true)
    && t in r.states[i].threads
    && r.states[i].threads[t] == Thread(Delete, Deactivated)
  }

  lemma DeletionQuiets(r: Run, t: Tid, i: nat)
    requires IsRun(r) && RowDeletedBy(r, t, i)
    ensures Quiet(r.states[i + 1])
  {
    LockExcludes(r, i);
    DrainHolds(r, i);
    assert StepAt(r, i);
    var s, s' := r.states[i], r.states[i + 1];
    assert Drained(s.sh.members, s.threads[t].pc);
    forall v | v in s'.threads
      ensures Harmless(s'.threads[v].pc)
    {
      if v != t {
        assert !HoldsExclusive(s.threads[v].pc) && !HoldsShared(s.threads[v].pc);
      }
    }
  }

  lemma {:induction false} QuietUntilImport(r: Run, i: nat, m: nat)
    requires IsRun(r) && i <= m < |r.states| && Quiet(r.states[i])
    requires forall k :: i <= k < m ==> !r.acts[k].Import?
    ensures Quiet(r.states[m])
  {
    if i < m {
      QuietUntilImport(r, i, m - 1);
      assert StepAt(r, m - 1);
      hide Quiet, After, Enabled;
      QuietStep(r.states[m - 1], r.acts[m - 1]);
    }
  }

  lemma ReachedPc(sh: Shared, th: Thread, ok: bool)
    requires PcFits(th) && th.op == Delete && !th.pc.Done?
    ensures NextPc(sh, th, ok) == Done(true) ==> th.pc == Leaving(true)
    ensures NextPc(sh, th, ok) == Leaving(true) ==> th.pc == Deactivated && ok
  {
  }

  // A deletion that succeeded went through the row deletion.
  lemma {:induction false} SuccessDeletedRow(r: Run, t: Tid, n: nat)
    requires IsRun(r) && n < |r.states| && t in r.states[n].threads
    requires r.states[n].threads[t].op == Delete
    requires r.states[n].threads[t].pc in {Leaving(true), Done(true)}
    ensures exists i :: 0 <= i < n && RowDeletedBy(r, t, i)
    decreases n
  {
    assert n > 0;
    LockExcludes(r, n - 1);
    assert StepAt(r, n - 1);
    var s, a := r.states[n - 1], r.acts[n - 1];
    hide NextShared, CanMove;
    if a.Act? && a.t == t && s.threads[t].pc == Deactivated {
      ReachedPc(s.sh, s.threads[t], a.ok);
      assert RowDeletedBy(r, t, n - 1);
    } else {
      if a.Act? && a.t == t {
        ReachedPc(s.sh, s.threads[t], a.ok);
      }
      SuccessDeletedRow(r, t, n - 1);
    }
  }

  // Once DeleteChannelGroup has succeeded there is a step, its row deletion, after which the
  // member set stays empty and the row absent in every state up to the next import.
  lemma DeletedStaysEmpty(r: Run, t: Tid, n: nat)
    requires IsRun(r) && n < |r.states| && t in r.states[n].threads
    requires r.states[n].threads[t] == Thread(Delete, Done(true))
    ensures exists i :: 0 <= i < n && RowDeletedBy(r, t, i) && EmptyUntilImport(r, i + 1)
  {
    SuccessDeletedRow(r, t, n);
    var i :| 0 <= i < n && RowDeletedBy(r, t, i);
    DeletionQuiets(r, t, i);
    forall m | i + 1 <= m < |r.states| && (forall k :: i + 1 <= k < m ==> !r.acts[k].Import?)
      ensures r.states[m].sh.members == {} && !r.states[m].sh.row
    {
      QuietUntilImport(r, i + 1, m);
    }
  }

  ghost predicate EmptyUntilImport(r: Run, i: nat)
    requires |r.states| == |r.acts| + 1
  {
    forall m :: i <= m < |r.states| && (forall k :: i <= k < m ==> !r.acts[k].Import?) ==>
                  r.states[m].sh.members == {} && !r.states[m].sh.row
  }

  // ----- a deletion that could not deactivate the user group -----------------

  predicate Saves(pc: Pc) {
    pc.Listed? || pc.Emptied? || pc.Restoring?
  }

  lemma SavedPc(sh: Shared, th: Thread, ok: bool)
    requires !th.pc.Done?
    ensures var pc' := NextPc(sh, th, ok);
            Saves(pc') ==>
              || (th.pc == DropLocked && ok && pc'.saved == sh.members)
              || (Saves(th.pc) && th.pc.saved == pc'.saved)
  {
  }

  // What a deletion keeps for a restore is the member set of the state in which it read it.
  lemma {:induction false} SavedWasRead(r: Run, t: Tid, n: nat)
    requires IsRun(r) && n < |r.states| && t in r.states[n].threads && Saves(r.states[n].threads[t].pc)
    ensures ReadEarlier(r, t, n, r.states[n].threads[t].pc.saved)
  {
    assert n > 0;
    assert StepAt(r, n - 1);
    var s, a := r.states[n - 1], r.acts[n - 1];
    hide NextPc, NextShared;
    if a.Act? && a.t == t && s.threads[t].pc == DropLocked {
      SavedPc(s.sh, s.threads[t], a.ok);
      assert MembersReadBy(r, t, n - 1, r.states[n].threads[t].pc.saved);
    } else {
      if a.Act? && a.t == t {
        SavedPc(s.sh, s.threads[t], a.ok);
      }
      SavedWasRead(r, t, n - 1);
    }
  }

  ghost predicate MembersReadBy(r: Run, t: Tid, k: nat, saved: set<UserId>)
    requires |r.states| == |r.acts| + 1
  {
    && k < |r.acts|
    && r.acts[k] == Act(t, true)
    && t in r.states[k].threads && r.states[k].threads[t].pc == DropLocked
    && r.states[k].sh.members == saved
  }

  ghost predicate ReadEarlier(r: Run, t: Tid, n: nat, saved: set<UserId>)
    requires |r.states| == |r.acts| + 1
  {
    exists k :: 0 <= k < n && MembersReadBy(r, t, k, saved)
  }

  // If deactivation fails and the restore succeeds, the members are exactly those read at the
  // start, whatever undo requests of failed subscribes ran in between.
  lemma RestoreIsExact(r: Run, t: Tid, i: nat)
    requires IsRun(r) && i < |r.acts| && r.acts[i] == Act(t, true)
    requires t in r.states[i].threads && r.states[i].threads[t].pc.Restoring?
    ensures ReadEarlier(r, t, i, r.states[i + 1].sh.members)
  {
    DrainHolds(r, i);
    assert Drained(r.states[i].sh.members, r.states[i].threads[t].pc);
    assert StepAt(r, i);
    SavedWasRead(r, t, i);
    assert r.states[i + 1].sh.members == r.states[i].threads[t].pc.saved;
  }

  ghost predicate RestoreTried(r: Run, t: Tid, j: nat, saved: set<UserId>)
    requires |r.states| == |r.acts| + 1
  {
    && j < |r.acts| && r.acts[j].Act? && r.acts[j].t == t
    && t in r.states[j].threads && r.states[j].threads[t].pc == Restoring(saved)
  }

  // After a deactivation that failed, the deletion does not end before it has tried to put the members back.
  lemma {:induction false} RestoreIsTried(r: Run, t: Tid, i: nat, n: nat, saved: set<UserId>)
    requires IsRun(r) && i < n < |r.states| && r.acts[i] == Act(t, false)
    requires t in r.states[i].threads && r.states[i].threads[t].pc == Emptied(saved) && saved != {}
    ensures t in r.states[n].threads
    ensures r.states[n].threads[t].pc == Restoring(saved) || exists j :: i < j < n && RestoreTried(r, t, j, saved)
    decreases n
  {
    assert StepAt(r, n - 1);
    hide NextShared, CanMove;
    if n > i + 1 {
      RestoreIsTried(r, t, i, n - 1, saved);
      var a := r.acts[n - 1];
      if r.states[n - 1].threads[t].pc == Restoring(saved) && a.Act? && a.t == t {
        assert RestoreTried(r, t, n - 1, saved);
      }
    }
  }
}
