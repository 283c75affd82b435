/**
 * What the generation counters decide. In every run, undo requests included, an
 * Unsubscribe deletes a user exactly when the number of adds of that user since
 * its snapshot is a multiple of 2^64.
 */
module GenerationCheck {
  import opened MemberGenerations
  import opened MembershipProtocol

  // Does this step add the user to the group?
  predicate AddsUser(s: State, a: Action, u: UserId) {
    a.Act? && a.ok && a.t in s.threads && s.threads[a.t].pc.AddReady? && u in Users(s.threads[a.t].op)
  }

  // How many of the steps i, ..., j - 1 add the user.
  function Adds(r: Run, u: UserId, i: nat, j: nat): nat
    requires i <= j <= |r.acts| < |r.states|
  {
    if i == j then 0 else Adds(r, u, i, j - 1) + if AddsUser(r.states[j - 1], r.acts[j - 1], u) then 1 else 0
  }

  // The threads between adding the user and bumping the user's generation.
  function Pending(s: State, u: UserId): set<Tid> {
    set t | t in s.threads && Adding(s.threads[t], u)
  }

  predicate GensBounded(s: State) {
    forall u :: u in s.sh.gens ==> s.sh.gens[u] < GENERATIONS
  }

  lemma {:induction false} GensStayBounded(r: Run, n: nat)
    requires IsRun(r) && n < |r.states|
    ensures GensBounded(r.states[n])
  {
    if n > 0 {
      GensStayBounded(r, n - 1);
      assert StepAt(r, n - 1);
      hide NextPc;
    }
  }

  lemma BumpModulo(g: nat, p: nat)
    requires p > 0
    ensures ((g + 1) % GENERATIONS + (p - 1)) % GENERATIONS == (g + p) % GENERATIONS
  {
  }

  function Others(s: State, t: Tid, u: UserId): set<Tid> {
    set v | v in s.threads && v != t && Adding(s.threads[v], u)
  }

  lemma PendingSplit(s: State, t: Tid, u: UserId)
    requires t in s.threads
    ensures |Pending(s, u)| == |Others(s, t, u)| + if Adding(s.threads[t], u) then 1 else 0
  {
    hide Adding;
    if Adding(s.threads[t], u) {
      assert Pending(s, u) == Others(s, t, u) + {t};
    } else {
      assert Pending(s, u) == Others(s, t, u);
    }
  }

  lemma PendingActs(s: State, s': State, t: Tid, u: UserId)
    requires t in s.threads && t in s'.threads && s'.threads == s.threads[t := s'.threads[t]]
    ensures |Pending(s', u)| - |Pending(s, u)|
            == (if Adding(s'.threads[t], u) then 1 else 0) - (if Adding(s.threads[t], u) then 1 else 0)
    ensures Adding(s.threads[t], u) ==> |Pending(s, u)| > 0
  {
    PendingSplit(s, t, u);
    PendingSplit(s', t, u);
    hide Adding, Pending;
    assert Others(s, t, u) == Others(s', t, u);
  }

  // One step keeps generation plus pending adds in line with the adds made.
  lemma CountStep(s: State, a: Action, u: UserId)
    requires Enabled(s, a)
    ensures var s' := After(s, a);
            (Gen(s'.sh, u) + |Pending(s', u)|) % GENERATIONS
            == (Gen(s.sh, u) + |Pending(s, u)| + if AddsUser(s, a, u) then 1 else 0) % GENERATIONS
  {
    var s' := After(s, a);
    if a.Act? {
      var th := s.threads[a.t];
      GenStep(s.sh, a.t, th, a.ok, u);
      hide NextPc, NextShared, CanMove;
      PendingActs(s, s', a.t, u);
      hide Pending, AddsUser, Adding;
      if Adding(th, u) {
        BumpModulo(Gen(s.sh, u), |Pending(s, u)|);
      }
    } else {
      assert Pending(s', u) == Pending(s, u);
    }
  }

  lemma ModuloChain(x: nat, y: nat, z: nat, b: nat)
    requires x % GENERATIONS == (y + b) % GENERATIONS && y % GENERATIONS == z % GENERATIONS
    ensures x % GENERATIONS == (z + b) % GENERATIONS
  {
  }

  lemma {:induction false} CountHolds(r: Run, u: UserId, i: nat, j: nat)
    requires IsRun(r) && i <= j <= |r.acts|
    ensures (Gen(r.states[j].sh, u) + |Pending(r.states[j], u)|) % GENERATIONS
            == (Gen(r.states[i].sh, u) + |Pending(r.states[i], u)| + Adds(r, u, i, j)) % GENERATIONS
  {
    if i < j {
      CountHolds(r, u, i, j - 1);
      assert StepAt(r, j - 1);
      hide After, Enabled, Pending, AddsUser;
      var s, s' := r.states[j - 1], r.states[j];
      CountStep(s, r.acts[j - 1], u);
      ModuloChain(Gen(s'.sh, u) + |Pending(s', u)|, Gen(s.sh, u) + |Pending(s, u)|,
                  Gen(r.states[i].sh, u) + |Pending(r.states[i], u)| + Adds(r, u, i, j - 1),
                  if AddsUser(s, r.acts[j - 1], u) then 1 else 0);
    }
  }

  // A state in which someone holds the lock exclusively has no add pending.
  lemma NonePending(r: Run, n: nat, t: Tid, u: UserId)
    requires IsRun(r) && n < |r.states|
    requires t in r.states[n].threads && HoldsExclusive(r.states[n].threads[t].pc)
    ensures Pending(r.states[n], u) == {}
  {
    LockExcludes(r, n);
    forall v | v in r.states[n].threads
      ensures !Adding(r.states[n].threads[v], u)
    {
      assert v !in r.states[n].sh.readers;
    }
  }

  // ----- from the snapshot to the delete request ----------------------------

  ghost predicate SnapsAt(r: Run, t: Tid, i: nat)
    requires |r.states| == |r.acts| + 1
  {
    && i < |r.acts| && r.acts[i].Act? && r.acts[i].t == t
    && t in r.states[i].threads && r.states[i].threads[t].pc == SnapLocked
  }

  predicate SnapKept(sh: Shared, pc: Pc, u: UserId, g: nat) {
    && !pc.Start? && !pc.RowRead? && !pc.SnapLocked?
    && (HasSnap(pc) ==> u in pc.snap && pc.snap[u] == g)
    && (pc.Checked? ==> (u in pc.doomed <==> Gen(sh, u) == g))
  }

  lemma SnapKeptStep(sh: Shared, t: Tid, th: Thread, ok: bool, u: UserId, g: nat)
    requires SnapKept(sh, th.pc, u, g) && th.op.Unsubscribe? && PcFits(th) && u in Users(th.op) && !th.pc.Done?
    ensures SnapKept(NextShared(sh, t, th, ok), NextPc(sh, th, ok), u, g)
  {
  }

  lemma GensMoveUnderTheLock(sh: Shared, t: Tid, th: Thread, ok: bool)
    ensures HoldsShared(th.pc) || NextShared(sh, t, th, ok).gens == sh.gens
  {
  }

  lemma {:induction false} SnapHolds(r: Run, t: Tid, u: UserId, i: nat, n: nat)
    requires IsRun(r) && SnapsAt(r, t, i) && i < n < |r.states|
    requires u in Users(r.states[i].threads[t].op)
    ensures t in r.states[n].threads && r.states[n].threads[t].op == r.states[i].threads[t].op
    ensures SnapKept(r.states[n].sh, r.states[n].threads[t].pc, u, Gen(r.states[i].sh, u))
    decreases n
  {
    LockExcludes(r, n - 1);
    LockExcludes(r, i);
    assert StepAt(r, n - 1);
    assert PcFits(r.states[i].threads[t]);
    var s, a := r.states[n - 1], r.acts[n - 1];
    if n == i + 1 {
      assert r.states[n].threads[t].pc.snap[u] == Gen(r.states[i].sh, u);
    } else {
      SnapHolds(r, t, u, i, n - 1);
      if a.Act? {
        if a.t == t {
          SnapKeptStep(s.sh, t, s.threads[t], a.ok, u, Gen(r.states[i].sh, u));
        } else {
          GensMoveUnderTheLock(s.sh, a.t, s.threads[a.t], a.ok);
          assert HoldsExclusive(s.threads[t].pc) ==> a.t !in s.sh.readers;
          hide NextPc, NextShared, CanMove;
        }
      }
    }
  }

  lemma SameModulo(g: nat, h: nat, k: nat)
    requires g < GENERATIONS && h < GENERATIONS
    requires h % GENERATIONS == (g + k) % GENERATIONS
    ensures h == g <==> k % GENERATIONS == 0
  {
  }

  // At its delete request, an Unsubscribe deletes the user exactly when the adds of the user since
  // its snapshot are a multiple of 2^64; below that bound, exactly when there were none.
  lemma DeletesIffNotReadded(r: Run, t: Tid, u: UserId, i: nat, k: nat)
    requires IsRun(r) && SnapsAt(r, t, i) && i < k < |r.acts|
    requires t in r.states[k].threads && r.states[k].threads[t].pc.Checked?
    requires u in Users(r.states[k].threads[t].op)
    ensures u in r.states[k].threads[t].pc.doomed <==> Adds(r, u, i, k) % 0x1_0000_0000_0000_0000 == 0
    ensures Adds(r, u, i, k) < 0x1_0000_0000_0000_0000 ==>
              (u in r.states[k].threads[t].pc.doomed <==> Adds(r, u, i, k) == 0)
  {
    assert u in Users(r.states[i].threads[t].op) by { ThreadsStay(r, i, k, t); }
    SnapHolds(r, t, u, i, k);
    NonePending(r, i, t, u);
    NonePending(r, k, t, u);
    CountHolds(r, u, i, k);
    GensStayBounded(r, i);
    GensStayBounded(r, k);
    SameModulo(Gen(r.states[i].sh, u), Gen(r.states[k].sh, u), Adds(r, u, i, k));
  }
}
