/**
 * Linearizability of group membership, user by user: if no undo request takes the
 * user out and no restore puts the user back, the run is explained by one
 * sequential history of adds and removes, each placed inside its own call.
 */
module MembershipHistory {
  import opened MemberGenerations
  import opened MembershipProtocol
  import opened GroupDeletion

  // One call's effect on the user, at the step with number `at` (the step into state `at`).
  datatype Entry = Entry(t: Tid, add: bool, at: nat)

  ghost predicate RunningAt(r: Run, t: Tid, k: nat) {
    k < |r.states| && t in r.states[k].threads && !r.states[k].threads[t].pc.Done?
  }

  predicate Touches(op: Op, u: UserId) {
    op.Delete? || u in Users(op)
  }

  // The sequential specification: a set with add and remove. Membership after the first k entries,
  // counting those whose point is not after state j.
  function Replay(h: seq<Entry>, k: nat, j: nat, initially: bool): bool
    requires k <= |h|
  {
    if k == 0 then initially
    else if h[k - 1].at <= j then h[k - 1].add
    else Replay(h, k - 1, j, initially)
  }

  ghost predicate Ordered(h: seq<Entry>) {
    forall i, k :: 0 <= i < k < |h| ==> h[i].at <= h[k].at
  }

  ghost predicate OnePerCall(h: seq<Entry>) {
    forall i, k :: 0 <= i < k < |h| ==> h[i].t != h[k].t
  }

  // An entry is the effect of its own call and lies between the call's start and its end.
  ghost predicate Placed(r: Run, u: UserId, e: Entry) {
    && 0 < e.at < |r.states|
    && RunningAt(r, e.t, e.at - 1)
    && Touches(r.states[e.at - 1].threads[e.t].op, u)
    && (e.add <==> r.states[e.at - 1].threads[e.t].op.Subscribe?)
  }

  predicate HasEntry(h: seq<Entry>, t: Tid) {
    exists i :: 0 <= i < |h| && h[i].t == t
  }

  // At every moment the remote member set is what the history says.
  ghost predicate Explains(r: Run, u: UserId, h: seq<Entry>, n: nat)
    requires n < |r.states|
  {
    forall j :: 0 <= j <= n ==>
                  (u in r.states[j].sh.members <==> Replay(h, |h|, j, u in r.states[0].sh.members))
  }

  ghost predicate Linearization(r: Run, u: UserId, h: seq<Entry>)
    requires |r.states| == |r.acts| + 1
  {
    var last := r.states[|r.acts|];
    && Ordered(h)
    && OnePerCall(h)
    && (forall i :: 0 <= i < |h| ==> Placed(r, u, h[i]))
    && (forall t :: t in last.threads && last.threads[t].pc == Done(true) && Touches(last.threads[t].op, u) ==>
                      HasEntry(h, t))
    && Explains(r, u, h, |r.acts|)
  }

  // ----- building the history -----------------------------------------------

  datatype Effect = Nothing | AddNow | RemoveNow | RemoveBeforeAdd

  function EffectOf(th: Thread, ok: bool, u: UserId): Effect {
    match th.pc
    case AddReady => if ok && u in Users(th.op) then AddNow else Nothing
    case Listed(saved) => if ok || saved == {} then RemoveNow else Nothing
    case Checked(_, doomed) =>
      if (doomed == {} || ok) && u in Users(th.op) then
        if u in doomed then RemoveNow else RemoveBeforeAdd
      else Nothing
    case _ => Nothing
  }

  function Put(h: seq<Entry>, i: nat, e: Entry): (h': seq<Entry>)
    requires i <= |h|
    ensures |h'| == |h| + 1
    ensures forall k :: 0 <= k < |h'| ==> h'[k] == if k < i then h[k] else if k == i then e else h[k - 1]
  {
    h[..i] + [e] + h[i..]
  }

  function LastAdd(h: seq<Entry>, k: nat): (i: int)
    requires k <= |h|
    ensures -1 <= i < k
    ensures 0 <= i ==> h[i].add
    ensures forall m :: i < m < k ==> !h[m].add
  {
    if k == 0 then -1 else if h[k - 1].add then k - 1 else LastAdd(h, k - 1)
  }

  function Extend(h: seq<Entry>, t: Tid, effect: Effect, n: nat): seq<Entry> {
    match effect
    case Nothing => h
    case AddNow => Put(h, |h|, Entry(t, true, n))
    case RemoveNow => Put(h, |h|, Entry(t, false, n))
    case RemoveBeforeAdd =>
      var i := LastAdd(h, |h|);
      if i < 0 then h else Put(h, i, Entry(t, false, h[i].at))
  }

  ghost function Linearize(r: Run, u: UserId, n: nat): seq<Entry>
    requires n < |r.states| == |r.acts| + 1
  {
    if n == 0 then []
    else
      var h := Linearize(r, u, n - 1);
      var a := r.acts[n - 1];
      if a.Act? && a.t in r.states[n - 1].threads then
        Extend(h, a.t, EffectOf(r.states[n - 1].threads[a.t], a.ok, u), n)
      else h
  }

  // ----- replay of an extended history --------------------------------------

  lemma {:induction false} ReplayPut(h: seq<Entry>, i: nat, e: Entry, k: nat, j: nat, b: bool)
    requires i <= k <= |h|
    requires i < |h| ==> h[i].add && h[i].at == e.at
    ensures i < k ==> Replay(Put(h, i, e), k + 1, j, b) == Replay(h, k, j, b)
    ensures i == k ==> Replay(Put(h, i, e), k, j, b) == Replay(h, k, j, b)
    decreases k
  {
    if i < k {
      if k == i + 1 {
        ReplaySame(Put(h, i, e), h, i, j, b);
      } else {
        ReplayPut(h, i, e, k - 1, j, b);
      }
    } else {
      ReplaySame(Put(h, i, e), h, k, j, b);
    }
  }

  lemma {:induction false} ReplaySame(g: seq<Entry>, h: seq<Entry>, k: nat, j: nat, b: bool)
    requires k <= |g| && k <= |h| && forall m :: 0 <= m < k ==> g[m] == h[m]
    ensures Replay(g, k, j, b) == Replay(h, k, j, b)
  {
    if k > 0 {
      ReplaySame(g, h, k - 1, j, b);
    }
  }

  // ----- invariants ---------------------------------------------------------

  predicate Before(pc: Pc) {
    || pc.Start? || pc.AddLocked? || pc.AddReady? || pc.RowRead? || pc.SnapLocked? || HasSnap(pc)
    || pc.DropLocked? || pc.Listed?
  }

  predicate Past(pc: Pc) {
    || pc.Added? || pc == AddLeaving(true) || pc.Looping? || pc.Undoing? || pc == Leaving(true) || pc.Tail?
    || pc.Emptied? || pc.Restoring? || pc.Deactivated? || pc == Done(true)
  }

  ghost predicate AllPlaced(r: Run, u: UserId, n: nat, h: seq<Entry>) {
    forall i :: 0 <= i < |h| ==> Placed(r, u, h[i]) && h[i].at <= n
  }

  ghost predicate Accounted(s: State, u: UserId, h: seq<Entry>) {
    && (forall i :: 0 <= i < |h| ==> h[i].t in s.threads)
    && (forall t :: t in s.threads && Touches(s.threads[t].op, u) ==>
                      && (Before(s.threads[t].pc) ==> !HasEntry(h, t))
                      && (Past(s.threads[t].pc) ==> HasEntry(h, t)))
  }

  // The call is running and between its snapshot and its delete request.
  ghost predicate SnappedAt(r: Run, t: Tid, k: nat) {
    RunningAt(r, t, k) && HasSnap(r.states[k].threads[t].pc)
  }

  // The history holds an add of the user whose point lies inside t's call, after t's snapshot.
  ghost predicate SeenAdd(r: Run, h: seq<Entry>, t: Tid) {
    exists i :: 0 <= i < |h| && h[i].add && 0 < h[i].at && SnappedAt(r, t, h[i].at - 1)
  }

  predicate StillCurrent(sh: Shared, pc: Pc, u: UserId)
    requires HasSnap(pc)
  {
    if pc.Checked? then u in pc.doomed else u in pc.snap && pc.snap[u] == Gen(sh, u)
  }

  // A snapshot of the user goes stale only when such an add exists.
  ghost predicate Noticed(r: Run, s: State, u: UserId, h: seq<Entry>) {
    forall t :: t in s.threads && HasSnap(s.threads[t].pc) && u in Users(s.threads[t].op) ==>
                  NoticedBy(r, s, u, h, t)
  }

  ghost predicate NoticedBy(r: Run, s: State, u: UserId, h: seq<Entry>, t: Tid)
    requires t in s.threads && HasSnap(s.threads[t].pc)
  {
    && (StillCurrent(s.sh, s.threads[t].pc, u) || SeenAdd(r, h, t))
    && ((exists v :: v in s.threads && Adding(s.threads[v], u)) ==> SeenAdd(r, h, t))
  }

  // ----- one step, conjunct by conjunct -------------------------------------

  lemma EffectOnMembers(sh: Shared, t: Tid, th: Thread, ok: bool, u: UserId)
    requires PcFits(th) && Drained(sh.members, th.pc)
    requires SparesUser(sh, th, ok, u)
    ensures var effect, after := EffectOf(th, ok, u), NextShared(sh, t, th, ok).members;
            && (effect.AddNow? ==> u in after)
            && (effect.RemoveNow? ==> u !in after)
            && (effect.Nothing? || effect.RemoveBeforeAdd? ==> (u in after <==> u in sh.members))
  {
  }

  lemma EffectPhase(sh: Shared, th: Thread, ok: bool, u: UserId)
    requires PcFits(th) && !th.pc.Done? && Touches(th.op, u)
    ensures var pc' := NextPc(sh, th, ok);
            && (EffectOf(th, ok, u).Nothing? ==> (Before(pc') ==> Before(th.pc)) && (Past(pc') ==> Past(th.pc)))
            && (!EffectOf(th, ok, u).Nothing? ==> Before(th.pc) && !Before(pc'))
  {
  }

  lemma EffectKind(th: Thread, ok: bool, u: UserId)
    requires PcFits(th) && !EffectOf(th, ok, u).Nothing?
    ensures Touches(th.op, u)
    ensures EffectOf(th, ok, u).AddNow? <==> th.op.Subscribe?
    ensures EffectOf(th, ok, u).RemoveBeforeAdd? ==>
              u in Users(th.op) && HasSnap(th.pc) && th.pc.Checked? && u !in th.pc.doomed
  {
  }

  predicate SnapOver(pc: Pc) {
    pc.Leaving? || pc.Tail? || pc.Done?
  }

  lemma SnapPcStep(sh: Shared, th: Thread, ok: bool)
    requires PcFits(th) && th.op.Unsubscribe?
    ensures HasSnap(th.pc) ==> HasSnap(NextPc(sh, th, ok)) || SnapOver(NextPc(sh, th, ok))
    ensures SnapOver(th.pc) ==> SnapOver(NextPc(sh, th, ok))
  {
  }

  lemma {:induction false} SnapStays(r: Run, t: Tid, i: nat, k: nat)
    requires IsRun(r) && i <= k < |r.states| && t in r.states[i].threads
    requires r.states[i].threads[t].op.Unsubscribe?
    ensures t in r.states[k].threads
    ensures HasSnap(r.states[i].threads[t].pc) ==>
              HasSnap(r.states[k].threads[t].pc) || SnapOver(r.states[k].threads[t].pc)
    ensures SnapOver(r.states[i].threads[t].pc) ==> SnapOver(r.states[k].threads[t].pc)
  {
    if i < k {
      SnapStays(r, t, i, k - 1);
      ThreadsStay(r, i, k - 1, t);
      LockExcludes(r, k - 1);
      assert StepAt(r, k - 1);
      hide NextPc, NextShared, CanMove, PcFits;
      if r.acts[k - 1].Act? && r.acts[k - 1].t == t {
        SnapPcStep(r.states[k - 1].sh, r.states[k - 1].threads[t], r.acts[k - 1].ok);
      }
    }
  }

  lemma SnappedBetween(r: Run, t: Tid, i: nat, j: nat, k: nat)
    requires IsRun(r) && i <= j <= k && SnappedAt(r, t, i) && SnappedAt(r, t, k)
    ensures SnappedAt(r, t, j) && r.states[j].threads[t].op == r.states[k].threads[t].op
  {
    LockExcludes(r, i);
    assert PcFits(r.states[i].threads[t]);
    ThreadsStay(r, i, j, t);
    ThreadsStay(r, j, k, t);
    SnapStays(r, t, i, j);
    SnapStays(r, t, j, k);
  }

  // A stale snapshot's removal goes just before the last add, which lies inside the call, after its snapshot.
  lemma {:induction false} InsertionPoint(r: Run, u: UserId, n: nat, h: seq<Entry>, t: Tid)
    requires IsRun(r) && n < |r.states| && SnappedAt(r, t, n)
    requires Ordered(h) && AllPlaced(r, u, n, h) && SeenAdd(r, h, t)
    ensures var i := LastAdd(h, |h|);
            && 0 <= i
            && 0 < h[i].at
            && SnappedAt(r, t, h[i].at - 1)
            && r.states[h[i].at - 1].threads[t].op == r.states[n].threads[t].op
  {
    var i := LastAdd(h, |h|);
    var m :| 0 <= m < |h| && h[m].add && 0 < h[m].at && SnappedAt(r, t, h[m].at - 1);
    assert m <= i;
    assert h[m].at <= h[i].at;
    assert Placed(r, u, h[i]);
    SnappedBetween(r, t, h[m].at - 1, h[i].at - 1, n);
  }

  // Where and what the step inserts.
  ghost predicate Inserts(r: Run, h: seq<Entry>, h': seq<Entry>, i: nat, e: Entry, n: nat) {
    && i <= |h|
    && h' == Put(h, i, e)
    && e.at <= n
    && (if i == |h| then e.at == n else h[i].add && !e.add && e.at == h[i].at)
  }

  lemma OrderedStep(r: Run, u: UserId, h: seq<Entry>, h': seq<Entry>, i: nat, e: Entry, n: nat)
    requires Ordered(h) && (forall k :: 0 <= k < |h| ==> h[k].at <= n) && Inserts(r, h, h', i, e, n)
    ensures Ordered(h')
  {
  }

  lemma OnePerCallStep(r: Run, h: seq<Entry>, h': seq<Entry>, i: nat, e: Entry, n: nat)
    requires OnePerCall(h) && Inserts(r, h, h', i, e, n) && !HasEntry(h, e.t)
    ensures OnePerCall(h')
  {
  }

  lemma HasEntryStep(r: Run, h: seq<Entry>, h': seq<Entry>, i: nat, e: Entry, n: nat, t: Tid)
    requires Inserts(r, h, h', i, e, n)
    ensures HasEntry(h', t) <==> HasEntry(h, t) || t == e.t
  {
    assert h'[i] == e;
    if HasEntry(h, t) {
      var k :| 0 <= k < |h| && h[k].t == t;
      assert h'[if k < i then k else k + 1] == h[k];
    }
  }

  lemma SeenAddStep(r: Run, h: seq<Entry>, h': seq<Entry>, i: nat, e: Entry, n: nat, t: Tid)
    requires Inserts(r, h, h', i, e, n)
    ensures SeenAdd(r, h, t) ==> SeenAdd(r, h', t)
    ensures e.add && 0 < e.at && SnappedAt(r, t, e.at - 1) ==> SeenAdd(r, h', t)
  {
    assert h'[i] == e;
    if SeenAdd(r, h, t) {
      var k :| 0 <= k < |h| && h[k].add && 0 < h[k].at && SnappedAt(r, t, h[k].at - 1);
      assert h'[if k < i then k else k + 1] == h[k];
    }
  }

  lemma {:induction false} ReplayInserted(r: Run, h: seq<Entry>, h': seq<Entry>, i: nat, e: Entry, n: nat, j: nat, b: bool)
    requires 0 < n && j <= n && Inserts(r, h, h', i, e, n) && forall k :: 0 <= k < |h| ==> h[k].at < n
    ensures j < n || i < |h| ==> Replay(h', |h'|, j, b) == Replay(h, |h|, j, b)
    ensures j == n && i == |h| ==> Replay(h', |h'|, j, b) == e.add
  {
    hide Replay;
    ReplayPut(h, i, e, |h|, j, b);
    if i == |h| {
      ReplayLast(h', j, b);
    }
  }

  lemma {:induction false} ReplayLast(h: seq<Entry>, j: nat, b: bool)
    requires |h| > 0
    ensures Replay(h, |h|, j, b) == if h[|h| - 1].at <= j then h[|h| - 1].add else Replay(h, |h| - 1, j, b)
  {
  }

  // Entries whose point has passed count the same from then on.
  lemma {:induction false} ReplaySettled(h: seq<Entry>, n: nat, j: nat, b: bool)
    requires n <= j && forall k :: 0 <= k < |h| ==> h[k].at <= n
    ensures Replay(h, |h|, j, b) == Replay(h, |h|, n, b)
  {
  }

  ghost predicate HistInv(r: Run, u: UserId, n: nat, h: seq<Entry>)
    requires n < |r.states|
  {
    && Ordered(h)
    && OnePerCall(h)
    && AllPlaced(r, u, n, h)
    && Accounted(r.states[n], u, h)
    && Explains(r, u, h, n)
    && Noticed(r, r.states[n], u, h)
  }

  // Runs in which no undo of a subscribe takes the user out and no restore of a deletion puts the user back.
  ghost predicate Clean(r: Run, u: UserId)
    requires |r.states| == |r.acts| + 1
  {
    forall i :: 0 <= i < |r.acts| ==> CleanAt(r.states[i], r.acts[i], u)
  }

  predicate CleanAt(s: State, a: Action, u: UserId) {
    a.Act? && a.t in s.threads ==> SparesUser(s.sh, s.threads[a.t], a.ok, u)
  }

  predicate SparesUser(sh: Shared, th: Thread, ok: bool, u: UserId) {
    ok ==> && (th.pc.Undoing? ==> !(u in Users(th.op) && u in sh.members))
           && (th.pc.Restoring? ==> u !in th.pc.saved)
  }

  ghost predicate Stepping(r: Run, u: UserId, n: nat) {
    && IsRun(r) && Clean(r, u) && n < |r.acts|
    && LockInv(r.states[n]) && LockInv(r.states[n + 1]) && DrainInv(r.states[n])
  }

  // ----- steps without an effect on the user --------------------------------

  lemma QuietExplains(r: Run, u: UserId, n: nat, h: seq<Entry>)
    requires n + 1 < |r.states| && AllPlaced(r, u, n, h) && Explains(r, u, h, n)
    requires u in r.states[n + 1].sh.members <==> u in r.states[n].sh.members
    ensures Explains(r, u, h, n + 1)
  {
  }

  lemma InsertExplains(r: Run, u: UserId, n: nat, h: seq<Entry>, h': seq<Entry>, i: nat, e: Entry)
    requires n + 1 < |r.states| && AllPlaced(r, u, n, h) && Explains(r, u, h, n)
    requires Inserts(r, h, h', i, e, n + 1)
    requires i == |h| ==> (u in r.states[n + 1].sh.members <==> e.add)
    requires i < |h| ==> (u in r.states[n + 1].sh.members <==> u in r.states[n].sh.members)
    ensures Explains(r, u, h', n + 1)
  {
    var b := u in r.states[0].sh.members;
    forall j | 0 <= j <= n + 1
      ensures u in r.states[j].sh.members <==> Replay(h', |h'|, j, b)
    {
      ReplayInserted(r, h, h', i, e, n + 1, j, b);
      if j == n + 1 {
        ReplaySettled(h, n, n + 1, b);
      }
    }
  }

  // ----- snapshots ----------------------------------------------------------

  lemma AddEffect(th: Thread, ok: bool, u: UserId)
    requires ok && th.pc.AddReady? && u in Users(th.op)
    ensures EffectOf(th, ok, u) == AddNow
  {
  }

  lemma SnapStep(sh: Shared, t: Tid, th: Thread, ok: bool, u: UserId)
    requires PcFits(th) && HasSnap(NextPc(sh, th, ok)) && u in Users(th.op)
    ensures var pc', sh' := NextPc(sh, th, ok), NextShared(sh, t, th, ok);
            && (!HasSnap(th.pc) ==> HoldsExclusive(pc') && StillCurrent(sh', pc', u))
            && (HasSnap(th.pc) ==> (StillCurrent(sh, th.pc, u) ==> StillCurrent(sh', pc', u)))
  {
  }

  // The acting thread: a fresh snapshot is current and taken with no adder about; an older one is no staler.
  lemma NoticedByActor(r: Run, u: UserId, n: nat, h: seq<Entry>, h': seq<Entry>, t: Tid)
    requires Stepping(r, u, n) && Noticed(r, r.states[n], u, h)
    requires SeenAdd(r, h, t) ==> SeenAdd(r, h', t)
    requires r.acts[n].Act? && r.acts[n].t == t && t in r.states[n].threads
    requires t in r.states[n + 1].threads && HasSnap(r.states[n + 1].threads[t].pc)
    requires u in Users(r.states[n + 1].threads[t].op)
    ensures NoticedBy(r, r.states[n + 1], u, h', t)
  {
    assert StepAt(r, n);
    var s, s', th, ok := r.states[n], r.states[n + 1], r.states[n].threads[t], r.acts[n].ok;
    assert PcFits(th);
    SnapStep(s.sh, t, th, ok, u);
    hide NextPc, NextShared, CanMove;
    if HasSnap(th.pc) {
      assert NoticedBy(r, s, u, h, t);
      forall v | v in s'.threads && Adding(s'.threads[v], u)
        ensures v in s.threads && Adding(s.threads[v], u)
      {
        assert HasSnap(s'.threads[t].pc);
      }
    } else {
      forall v | v in s'.threads
        ensures !Adding(s'.threads[v], u)
      {
        assert HoldsExclusive(s'.threads[t].pc);
        assert v !in s'.sh.readers;
      }
    }
  }

  // Another thread: only an adder of the user makes its snapshot stale, and its add is already in the history.
  lemma NoticedByOther(r: Run, u: UserId, n: nat, h: seq<Entry>, h': seq<Entry>, t: Tid)
    requires Stepping(r, u, n) && Noticed(r, r.states[n], u, h)
    requires SeenAdd(r, h, t) ==> SeenAdd(r, h', t)
    requires t in r.states[n].threads && t in r.states[n + 1].threads
    requires r.states[n + 1].threads[t] == r.states[n].threads[t]
    requires HasSnap(r.states[n].threads[t].pc) && u in Users(r.states[n].threads[t].op)
    requires r.acts[n].Act? && r.acts[n].t in r.states[n].threads ==>
               (EffectOf(r.states[n].threads[r.acts[n].t], r.acts[n].ok, u) == AddNow ==> SeenAdd(r, h', t))
    ensures NoticedBy(r, r.states[n + 1], u, h', t)
  {
    assert StepAt(r, n);
    var s, s', a := r.states[n], r.states[n + 1], r.acts[n];
    assert NoticedBy(r, s, u, h, t);
    hide NextPc, NextShared, CanMove;
    if a.Act? {
      GenStep(s.sh, a.t, s.threads[a.t], a.ok, u);
    }
    if v :| v in s'.threads && Adding(s'.threads[v], u) {
      assert SeenAdd(r, h', t) by {
        if !(a.Act? && a.t == v) {
          assert v in s.threads && s.threads[v] == s'.threads[v];
        } else {
          assert s'.threads[v] == Thread(s.threads[v].op, NextPc(s.sh, s.threads[v], a.ok));
          AddEffect(s.threads[v], a.ok, u);
        }
      }
    }
  }

  lemma NoticedStep(r: Run, u: UserId, n: nat, h: seq<Entry>, h': seq<Entry>)
    requires Stepping(r, u, n) && Noticed(r, r.states[n], u, h)
    requires forall t :: SeenAdd(r, h, t) ==> SeenAdd(r, h', t)
    requires r.acts[n].Act? && r.acts[n].t in r.states[n].threads ==>
               (EffectOf(r.states[n].threads[r.acts[n].t], r.acts[n].ok, u) == AddNow ==>
                  forall t :: SnappedAt(r, t, n) ==> SeenAdd(r, h', t))
    ensures Noticed(r, r.states[n + 1], u, h')
  {
    assert StepAt(r, n);
    var s, s', a := r.states[n], r.states[n + 1], r.acts[n];
    hide NextPc, NextShared, CanMove, NoticedBy, SeenAdd;
    forall t | t in s'.threads && HasSnap(s'.threads[t].pc) && u in Users(s'.threads[t].op)
      ensures NoticedBy(r, s', u, h', t)
    {
      if a.Act? && a.t == t {
        NoticedByActor(r, u, n, h, h', t);
      } else {
        NoticedByOther(r, u, n, h, h', t);
      }
    }
  }

  // ----- which calls have their entry ---------------------------------------

  lemma AccountedStep(r: Run, u: UserId, n: nat, h: seq<Entry>, h': seq<Entry>)
    requires Stepping(r, u, n) && Accounted(r.states[n], u, h)
    requires forall i :: 0 <= i < |h'| ==> h'[i].t in r.states[n].threads
    requires r.acts[n].Act? && r.acts[n].t in r.states[n].threads ==>
               var effect := EffectOf(r.states[n].threads[r.acts[n].t], r.acts[n].ok, u);
               forall t :: HasEntry(h', t) <==> HasEntry(h, t) || (t == r.acts[n].t && !effect.Nothing?)
    requires !r.acts[n].Act? ==> h' == h
    ensures Accounted(r.states[n + 1], u, h')
  {
    assert StepAt(r, n);
    var s, s', a := r.states[n], r.states[n + 1], r.acts[n];
    hide NextPc, NextShared, CanMove;
    if a.Act? {
      var th := s.threads[a.t];
      assert PcFits(th) && !th.pc.Done? by {
        assert CanMove(s.sh, th);
        NotDone(s.sh, th);
      }
      if Touches(th.op, u) {
        EffectPhase(s.sh, th, a.ok, u);
      }
      hide EffectOf, PcFits;
      forall t | t in s'.threads && Touches(s'.threads[t].op, u)
        ensures Before(s'.threads[t].pc) ==> !HasEntry(h', t)
        ensures Past(s'.threads[t].pc) ==> HasEntry(h', t)
      {
        assert t in s.threads && s.threads[t].op == s'.threads[t].op;
        if t == a.t {
          assert s'.threads[t].pc == NextPc(s.sh, th, a.ok);
        } else {
          assert s'.threads[t] == s.threads[t];
        }
      }
    }
  }

  lemma NotDone(sh: Shared, th: Thread)
    requires CanMove(sh, th)
    ensures !th.pc.Done?
  {
  }

  // ----- assembly -----------------------------------------------------------

  // The step's effect on the user, if its actor has one.
  function StepEffect(s: State, a: Action, u: UserId): Effect {
    if a.Act? && a.t in s.threads then EffectOf(s.threads[a.t], a.ok, u) else Nothing
  }

  lemma StaleHasAdd(r: Run, u: UserId, n: nat, h: seq<Entry>)
    requires Stepping(r, u, n) && Noticed(r, r.states[n], u, h)
    requires StepEffect(r.states[n], r.acts[n], u).RemoveBeforeAdd?
    ensures SeenAdd(r, h, r.acts[n].t) && SnappedAt(r, r.acts[n].t, n)
  {
    assert StepAt(r, n);
    var s, a := r.states[n], r.acts[n];
    EffectKind(s.threads[a.t], a.ok, u);
    assert NoticedBy(r, s, u, h, a.t);
  }

  lemma ActorRuns(r: Run, u: UserId, n: nat)
    requires Stepping(r, u, n) && !StepEffect(r.states[n], r.acts[n], u).Nothing?
    ensures RunningAt(r, r.acts[n].t, n)
    ensures Touches(r.states[n].threads[r.acts[n].t].op, u)
    ensures r.states[n].threads[r.acts[n].t].op.Subscribe? <==> StepEffect(r.states[n], r.acts[n], u).AddNow?
  {
  }

  lemma EntryNow(r: Run, u: UserId, n: nat, e: Entry)
    requires Stepping(r, u, n) && !StepEffect(r.states[n], r.acts[n], u).Nothing?
    requires e == Entry(r.acts[n].t, StepEffect(r.states[n], r.acts[n], u).AddNow?, n + 1)
    ensures Placed(r, u, e)
  {
  }

  lemma EntryStale(r: Run, u: UserId, n: nat, h: seq<Entry>)
    requires Stepping(r, u, n) && HistInv(r, u, n, h)
    requires StepEffect(r.states[n], r.acts[n], u).RemoveBeforeAdd?
    ensures var i := LastAdd(h, |h|); 0 <= i && Placed(r, u, Entry(r.acts[n].t, false, h[i].at))
  {
    ActorRuns(r, u, n);
    StaleHasAdd(r, u, n, h);
    InsertionPoint(r, u, n, h, r.acts[n].t);
    assert Placed(r, u, h[LastAdd(h, |h|)]);
  }

  // The entry the step adds: its place keeps the order, and it lies inside the acting call.
  lemma EntryOfStep(r: Run, u: UserId, n: nat, h: seq<Entry>, h': seq<Entry>) returns (i: nat, e: Entry)
    requires Stepping(r, u, n) && HistInv(r, u, n, h)
    requires !StepEffect(r.states[n], r.acts[n], u).Nothing?
    requires h' == Extend(h, r.acts[n].t, StepEffect(r.states[n], r.acts[n], u), n + 1)
    ensures Inserts(r, h, h', i, e, n + 1)
    ensures e.t == r.acts[n].t && Placed(r, u, e)
    ensures i == |h| <==> !StepEffect(r.states[n], r.acts[n], u).RemoveBeforeAdd?
    ensures e.add <==> StepEffect(r.states[n], r.acts[n], u).AddNow?
  {
    assert |r.states| == |r.acts| + 1 && n < |r.acts| && r.acts[n].Act?;
    hide StepEffect, Stepping, Placed, Noticed, Accounted, Explains, OnePerCall, Ordered;
    if StepEffect(r.states[n], r.acts[n], u).RemoveBeforeAdd? {
      EntryStale(r, u, n, h);
      i := LastAdd(h, |h|);
      e := Entry(r.acts[n].t, false, h[i].at);
      assert h[i].at <= n;
    } else {
      i := |h|;
      e := Entry(r.acts[n].t, StepEffect(r.states[n], r.acts[n], u).AddNow?, n + 1);
      EntryNow(r, u, n, e);
    }
  }

  // The acting thread's step with its entry, as EntryOfStep gives it.
  ghost predicate EntryStep(r: Run, u: UserId, n: nat, h: seq<Entry>, h': seq<Entry>, i: nat, e: Entry) {
    && Stepping(r, u, n)
    && HistInv(r, u, n, h)
    && Inserts(r, h, h', i, e, n + 1)
    && r.acts[n].Act? && r.acts[n].t in r.states[n].threads
    && e.t == r.acts[n].t && Placed(r, u, e)
    && (i == |h| <==> !StepEffect(r.states[n], r.acts[n], u).RemoveBeforeAdd?)
    && (e.add <==> StepEffect(r.states[n], r.acts[n], u).AddNow?)
    && !StepEffect(r.states[n], r.acts[n], u).Nothing?
  }

  lemma EffectStepExplains(r: Run, u: UserId, n: nat, h: seq<Entry>, h': seq<Entry>, i: nat, e: Entry)
    requires EntryStep(r, u, n, h, h', i, e)
    ensures Explains(r, u, h', n + 1)
  {
    assert StepAt(r, n);
    var s, a := r.states[n], r.acts[n];
    assert CleanAt(s, a, u);
    assert Drained(s.sh.members, s.threads[a.t].pc);
    EffectOnMembers(s.sh, a.t, s.threads[a.t], a.ok, u);
    hide EffectOf, NextPc, NextShared, CanMove, PcFits, Placed, Noticed, Accounted, Drained;
    InsertExplains(r, u, n, h, h', i, e);
  }

  lemma NotEntered(r: Run, u: UserId, n: nat, h: seq<Entry>)
    requires Stepping(r, u, n) && Accounted(r.states[n], u, h)
    requires !StepEffect(r.states[n], r.acts[n], u).Nothing?
    ensures !HasEntry(h, r.acts[n].t)
  {
    assert StepAt(r, n);
    var th := r.states[n].threads[r.acts[n].t];
    NotDone(r.states[n].sh, th);
    EffectKind(th, r.acts[n].ok, u);
    EffectPhase(r.states[n].sh, th, r.acts[n].ok, u);
  }

  lemma EffectStepAccounted(r: Run, u: UserId, n: nat, h: seq<Entry>, h': seq<Entry>, i: nat, e: Entry)
    requires EntryStep(r, u, n, h, h', i, e)
    ensures Accounted(r.states[n + 1], u, h')
    ensures OnePerCall(h')
  {
    var a := r.acts[n];
    hide EffectOf, Placed, Noticed, Explains, Ordered, Accounted, IsRun, Clean, LockInv, DrainInv;
    NotEntered(r, u, n, h);
    EntriesKnown(r, u, n, h, h', i, e);
    OnePerCallStep(r, h, h', i, e, n + 1);
    forall t
      ensures HasEntry(h', t) <==> HasEntry(h, t) || t == a.t
    {
      HasEntryStep(r, h, h', i, e, n + 1, t);
    }
    AccountedStep(r, u, n, h, h');
  }

  lemma EntriesKnown(r: Run, u: UserId, n: nat, h: seq<Entry>, h': seq<Entry>, i: nat, e: Entry)
    requires EntryStep(r, u, n, h, h', i, e)
    ensures forall k :: 0 <= k < |h'| ==> h'[k].t in r.states[n].threads
  {
    hide EffectOf, Placed, Noticed, Explains, Ordered, IsRun, Clean, LockInv, DrainInv;
  }

  lemma EffectStepNoticed(r: Run, u: UserId, n: nat, h: seq<Entry>, h': seq<Entry>, i: nat, e: Entry)
    requires EntryStep(r, u, n, h, h', i, e)
    ensures Noticed(r, r.states[n + 1], u, h')
  {
    hide EffectOf, Placed, Noticed, Explains, Ordered, Accounted, LockInv, DrainInv, IsRun, Clean;
    forall t
      ensures SeenAdd(r, h, t) ==> SeenAdd(r, h', t)
      ensures e.add && SnappedAt(r, t, n) ==> SeenAdd(r, h', t)
    {
      SeenAddStep(r, h, h', i, e, n + 1, t);
    }
    NoticedStep(r, u, n, h, h');
  }

  lemma EffectStepPlaced(r: Run, u: UserId, n: nat, h: seq<Entry>, h': seq<Entry>, i: nat, e: Entry)
    requires EntryStep(r, u, n, h, h', i, e)
    ensures Ordered(h') && AllPlaced(r, u, n + 1, h')
  {
    hide StepEffect, EffectOf, Placed, Noticed, Explains, Accounted, OnePerCall, Stepping;
    assert forall k :: 0 <= k < |h| ==> h[k].at <= n;
    OrderedStep(r, u, h, h', i, e, n + 1);
  }

  lemma EffectStep(r: Run, u: UserId, n: nat, h: seq<Entry>, h': seq<Entry>)
    requires Stepping(r, u, n) && HistInv(r, u, n, h)
    requires !StepEffect(r.states[n], r.acts[n], u).Nothing?
    requires h' == Extend(h, r.acts[n].t, StepEffect(r.states[n], r.acts[n], u), n + 1)
    ensures HistInv(r, u, n + 1, h')
  {
    var i, e := EntryOfStep(r, u, n, h, h');
    assert r.acts[n].Act? && r.acts[n].t in r.states[n].threads;
    hide StepEffect, EffectOf, Extend, Placed, Noticed, Explains, Accounted, Stepping, Ordered, OnePerCall, AllPlaced,
      Inserts;
    assert EntryStep(r, u, n, h, h', i, e) by { hide HistInv; }
    EffectStepExplains(r, u, n, h, h', i, e);
    EffectStepAccounted(r, u, n, h, h', i, e);
    EffectStepNoticed(r, u, n, h, h', i, e);
    EffectStepPlaced(r, u, n, h, h', i, e);
  }

  lemma NoEffectStep(r: Run, u: UserId, n: nat, h: seq<Entry>)
    requires Stepping(r, u, n) && HistInv(r, u, n, h)
    requires StepEffect(r.states[n], r.acts[n], u).Nothing?
    ensures HistInv(r, u, n + 1, h)
  {
    assert StepAt(r, n);
    var s, a := r.states[n], r.acts[n];
    assert CleanAt(s, a, u);
    if a.Act? {
      assert Drained(s.sh.members, s.threads[a.t].pc);
      EffectOnMembers(s.sh, a.t, s.threads[a.t], a.ok, u);
    }
    hide EffectOf, NextPc, NextShared, CanMove, PcFits;
    assert Explains(r, u, h, n + 1) by { hide Placed, Noticed, Accounted; QuietExplains(r, u, n, h); }
    assert Accounted(r.states[n + 1], u, h) by { hide Placed, Noticed, Explains, Ordered; AccountedStep(r, u, n, h, h); }
    assert Noticed(r, r.states[n + 1], u, h) by {
      hide Placed, Noticed, Explains, Ordered, Accounted;
      NoticedStep(r, u, n, h, h);
    }
  }

  lemma {:induction false} LinearizeStep(r: Run, u: UserId, n: nat)
    requires n + 1 < |r.states| == |r.acts| + 1
    ensures var h, effect := Linearize(r, u, n), StepEffect(r.states[n], r.acts[n], u);
            Linearize(r, u, n + 1) == if effect.Nothing? then h else Extend(h, r.acts[n].t, effect, n + 1)
  {
  }

  lemma HistStart(r: Run, u: UserId)
    requires IsRun(r)
    ensures HistInv(r, u, 0, [])
  {
  }

  lemma {:induction false} HistStep(r: Run, u: UserId, n: nat)
    requires Stepping(r, u, n) && HistInv(r, u, n, Linearize(r, u, n))
    ensures HistInv(r, u, n + 1, Linearize(r, u, n + 1))
  {
    LinearizeStep(r, u, n);
    hide HistInv, LockInv, DrainInv, EffectOf, Extend, Linearize, StepEffect;
    if StepEffect(r.states[n], r.acts[n], u).Nothing? {
      NoEffectStep(r, u, n, Linearize(r, u, n));
    } else {
      EffectStep(r, u, n, Linearize(r, u, n), Linearize(r, u, n + 1));
    }
  }

  lemma {:induction false} HistHolds(r: Run, u: UserId, n: nat)
    requires IsRun(r) && Clean(r, u) && n < |r.states|
    ensures HistInv(r, u, n, Linearize(r, u, n))
  {
    hide HistInv, LockInv, DrainInv;
    if n == 0 {
      HistStart(r, u);
    } else {
      hide Linearize;
      HistHolds(r, u, n - 1);
      LockExcludes(r, n - 1);
      LockExcludes(r, n);
      DrainHolds(r, n - 1);
      HistStep(r, u, n - 1);
    }
  }

  // For every user, a run in which no undo takes the user out and no restore puts the user back is linearizable.
  lemma Linearizable(r: Run, u: UserId)
    requires IsRun(r) && Clean(r, u)
    ensures Linearization(r, u, Linearize(r, u, |r.acts|))
  {
    HistHolds(r, u, |r.acts|);
  }

  // A call that ended before another began also comes first in any such history.
  lemma RealTimeOrder(r: Run, u: UserId, h: seq<Entry>, i: nat, k: nat, m: nat)
    requires IsRun(r) && Linearization(r, u, h) && i < |h| && k < |h| && m < |r.states|
    requires h[i].t in r.states[m].threads && r.states[m].threads[h[i].t].pc.Done?
    requires h[k].t !in r.states[m].threads
    ensures i < k
  {
    assert Placed(r, u, h[i]) && Placed(r, u, h[k]);
    if m <= h[i].at - 1 {
      ThreadsStay(r, m, h[i].at - 1, h[i].t);
      assert false;
    }
    if h[k].at - 1 <= m {
      ThreadsStay(r, h[k].at - 1, m, h[k].t);
      assert false;
    }
    assert h[i].at < h[k].at;
  }
}
