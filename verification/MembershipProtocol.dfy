/**
 * The membership protocol of one channel group (channelgroup/api_channel_groups.go): Subscribe, Unsubscribe and
 * DeleteChannelGroup calls run in any number of threads, interleaved step by
 * step. Groups do not share a lock, a row or a member set, so one group is
 * modelled. The shared state is the remote member set, the local row, the
 * generation counters (64-bit, wrapping) and the group's read-write lock. Each
 * remote request, transaction, lock and unlock is one step; a request either
 * takes effect or fails without effect, as the `ok` flag of the step says.
 */
module MembershipProtocol {
  import opened Collections
  import opened MemberGenerations

  type Tid = int

  datatype Op = Subscribe(users: set<UserId>) | Unsubscribe(users: set<UserId>) | Delete

  datatype Pc =
    | Start
      // Subscribe: shared lock, read the row, add members, bump, release, then the channels
    | AddLocked
    | AddReady
    | Added
    | AddLeaving(added: bool)
    | Looping
    | Undoing
      // Unsubscribe: read the row, snapshot under the lock, fan out, check and delete under the lock
    | RowRead
    | SnapLocked
    | Snapped(snap: map<UserId, nat>)
    | FanOut(snap: map<UserId, nat>)
    | AwaitDelete(snap: map<UserId, nat>)
    | DeleteLocked(snap: map<UserId, nat>)
    | Checked(snap: map<UserId, nat>, doomed: set<UserId>)
    | Tail
      // DeleteChannelGroup: all under the lock
    | DropLocked
    | Listed(saved: set<UserId>)
    | Emptied(saved: set<UserId>)
    | Restoring(saved: set<UserId>)
    | Deactivated
      // Unsubscribe and DeleteChannelGroup, about to give the lock back
    | Leaving(deleted: bool)
    | Done(ok: bool)

  datatype Thread = Thread(op: Op, pc: Pc)

  datatype Shared = Shared(
    members: set<UserId>,
    row: bool,
    gens: map<UserId, nat>,
    readers: set<Tid>,
    writer: Option<Tid>)

  datatype State = State(sh: Shared, threads: map<Tid, Thread>)

  datatype Action = Invoke(t: Tid, op: Op) | Act(t: Tid, ok: bool) | Import | DropRow

  predicate Init(s: State) {
    s.sh.readers == {} && s.sh.writer == None && s.sh.gens == map[] && s.threads == map[]
  }

  function Users(op: Op): set<UserId> {
    match op
    case Subscribe(users) => users
    case Unsubscribe(users) => users
    case Delete => {}
  }

  function Gen(sh: Shared, u: UserId): nat {
    Count(sh.gens, u)
  }

  // Where a thread goes next.
  function NextPc(sh: Shared, th: Thread, ok: bool): Pc {
    match th.pc
    case Start =>
      (match th.op
       case Subscribe(_) => AddLocked
       case Unsubscribe(_) => if sh.row && ok then RowRead else Done(false)
       case Delete => DropLocked)
    case AddLocked => if sh.row && ok then AddReady else AddLeaving(false)
    case AddReady => if ok then Added else AddLeaving(false)
    case Added => AddLeaving(true)
    case AddLeaving(added) => if added then Looping else Done(false)
    case Looping => if ok then Done(true) else Undoing
    case Undoing => Done(false)
    case RowRead => SnapLocked
    case SnapLocked => Snapped(SnapshotOf(sh.gens, Users(th.op)))
    case Snapped(snap) => FanOut(snap)
    case FanOut(snap) => if ok then AwaitDelete(snap) else Done(false)
    case AwaitDelete(snap) => DeleteLocked(snap)
    case DeleteLocked(snap) => Checked(snap, UnchangedSince(sh.gens, Users(th.op), snap))
    case Checked(_, doomed) => Leaving(doomed == {} || ok)
    case Tail => Done(ok)
    case DropLocked => if ok then Listed(sh.members) else Leaving(false)
    case Listed(saved) => if saved == {} || ok then Emptied(saved) else Leaving(false)
    case Emptied(saved) => if ok then Deactivated else if saved == {} then Leaving(false) else Restoring(saved)
    case Restoring(_) => Leaving(false)
    case Deactivated => Leaving(ok)
    case Leaving(deleted) => if th.op.Unsubscribe? && deleted then Tail else Done(deleted)
    case Done(_) => th.pc
  }

  // What the step does to the remote member set, the row, the counters and the lock.
  function NextShared(sh: Shared, t: Tid, th: Thread, ok: bool): Shared {
    match th.pc
    case Start =>
      if th.op.Subscribe? then sh.(readers := sh.readers + {t})
      else if th.op.Delete? then sh.(writer := Some(t))
      else sh
    case AddReady => if ok then sh.(members := sh.members + Users(th.op)) else sh
    case Added => sh.(gens := Bumped(sh.gens, Users(th.op)))
    case AddLeaving(_) => sh.(readers := sh.readers - {t})
    case Undoing => if ok then sh.(members := sh.members - Users(th.op)) else sh
    case RowRead => sh.(writer := Some(t))
    case Snapped(_) => sh.(writer := None)
    case AwaitDelete(_) => sh.(writer := Some(t))
    case Checked(_, doomed) => if ok then sh.(members := sh.members - doomed) else sh
    case Listed(saved) => if ok then sh.(members := sh.members - saved) else sh
    case Restoring(saved) => if ok then sh.(members := sh.members + saved) else sh
    case Deactivated => if ok then sh.(row := false) else sh
    case Leaving(_) => sh.(writer := None)
    case _ => sh
  }

  predicate WantsShared(th: Thread) {
    th.pc == Start && th.op.Subscribe?
  }

  predicate WantsExclusive(th: Thread) {
    th.pc.RowRead? || th.pc.AwaitDelete? || (th.pc == Start && th.op.Delete?)
  }

  predicate CanMove(sh: Shared, th: Thread) {
    && !th.pc.Done?
    && (WantsShared(th) ==> sh.writer == None)
    && (WantsExclusive(th) ==> sh.writer == None && sh.readers == {})
  }

  predicate Enabled(s: State, a: Action) {
    match a
    case Invoke(t, _) => t !in s.threads
    case Act(t, _) => t in s.threads && CanMove(s.sh, s.threads[t])
    case Import => true
    case DropRow => true
  }

  function After(s: State, a: Action): State
    requires Enabled(s, a)
  {
    match a
    case Invoke(t, op) => s.(threads := s.threads[t := Thread(op, Start)])
    case Act(t, ok) =>
      var th := s.threads[t];
      State(NextShared(s.sh, t, th, ok), s.threads[t := Thread(th.op, NextPc(s.sh, th, ok))])
    case Import => s.(sh := s.sh.(row := true))
    case DropRow => s.(sh := s.sh.(row := false))
  }

  datatype Run = Run(states: seq<State>, acts: seq<Action>)

  ghost predicate StepAt(r: Run, i: nat)
    requires |r.states| == |r.acts| + 1 && i < |r.acts|
  {
    Enabled(r.states[i], r.acts[i]) && r.states[i + 1] == After(r.states[i], r.acts[i])
  }

  ghost predicate IsRun(r: Run) {
    && |r.states| == |r.acts| + 1
    && Init(r.states[0])
    && forall i :: 0 <= i < |r.acts| ==> StepAt(r, i)
  }

  ghost function Last(r: Run): State
    requires |r.states| == |r.acts| + 1
  {
    r.states[|r.acts|]
  }

  // A run goes on with any step its last state allows.
  ghost function Longer(r: Run, a: Action): (r': Run)
    requires IsRun(r) && Enabled(Last(r), a)
    ensures |r'.states| == |r'.acts| + 1
  {
    Run(r.states + [After(Last(r), a)], r.acts + [a])
  }

  lemma LongerIsRun(r: Run, a: Action)
    requires IsRun(r) && Enabled(Last(r), a)
    ensures IsRun(Longer(r, a))
  {
    forall i | 0 <= i < |r.acts| + 1
      ensures StepAt(Longer(r, a), i)
    {
      assert i < |r.acts| ==> StepAt(r, i);
    }
  }

  ghost predicate Reachable(s: State) {
    exists r :: IsRun(r) && Last(r) == s
  }

  lemma ReachesNext(s: State, a: Action, s': State)
    requires Reachable(s) && Enabled(s, a) && After(s, a) == s'
    ensures Reachable(s')
  {
    var r :| IsRun(r) && Last(r) == s;
    LongerIsRun(r, a);
    assert Last(Longer(r, a)) == s';
  }

  // ----- the lock -----------------------------------------------------------

  predicate HoldsShared(pc: Pc) {
    pc.AddLocked? || pc.AddReady? || pc.Added? || pc.AddLeaving?
  }

  predicate HoldsExclusive(pc: Pc) {
    || pc.SnapLocked? || pc.Snapped? || pc.DeleteLocked? || pc.Checked? || pc.Leaving?
    || pc.DropLocked? || pc.Listed? || pc.Emptied? || pc.Restoring? || pc.Deactivated?
  }

  predicate HasSnap(pc: Pc) {
    pc.Snapped? || pc.FanOut? || pc.AwaitDelete? || pc.DeleteLocked? || pc.Checked?
  }

  // A thread only reaches the program points of its own operation.
  predicate PcFits(th: Thread) {
    match th.op
    case Subscribe(_) =>
      th.pc.Start? || HoldsShared(th.pc) || th.pc.Looping? || th.pc.Undoing? || th.pc.Done?
    case Unsubscribe(users) =>
      && (|| th.pc.Start? || th.pc.RowRead? || th.pc.SnapLocked? || HasSnap(th.pc)
          || th.pc.Leaving? || th.pc.Tail? || th.pc.Done?)
      && (HasSnap(th.pc) ==> th.pc.snap.Keys == users)
      && (th.pc.Checked? ==> th.pc.doomed <= users)
    case Delete =>
      || th.pc.Start? || th.pc.DropLocked? || th.pc.Listed? || th.pc.Emptied? || th.pc.Restoring?
      || th.pc.Deactivated? || th.pc.Leaving? || th.pc.Done?
  }

  predicate LockInv(s: State) {
    && (s.sh.writer.Some? ==> s.sh.readers == {})
    && (forall t :: t in s.threads ==> PcFits(s.threads[t]))
    && (forall t :: t in s.threads ==> (HoldsExclusive(s.threads[t].pc) <==> s.sh.writer == Some(t)))
    && (forall t :: t in s.threads ==> (HoldsShared(s.threads[t].pc) <==> t in s.sh.readers))
    && (forall t :: t in s.sh.readers ==> t in s.threads)
    && (s.sh.writer.Some? ==> s.sh.writer.value in s.threads)
  }

  lemma PcStep(sh: Shared, t: Tid, th: Thread, ok: bool)
    requires PcFits(th)
    ensures PcFits(Thread(th.op, NextPc(sh, th, ok)))
  {
  }

  lemma LockPcStep(sh: Shared, t: Tid, th: Thread, ok: bool)
    requires PcFits(th) && CanMove(sh, th)
    requires sh.writer.Some? ==> sh.readers == {}
    requires HoldsExclusive(th.pc) <==> sh.writer == Some(t)
    requires HoldsShared(th.pc) <==> t in sh.readers
    ensures var sh', pc' := NextShared(sh, t, th, ok), NextPc(sh, th, ok);
            && (HoldsExclusive(pc') <==> sh'.writer == Some(t))
            && (HoldsShared(pc') <==> t in sh'.readers)
            && (sh'.writer.Some? ==> sh'.readers == {})
            && (forall v :: v != t ==> (v in sh'.readers <==> v in sh.readers))
            && (sh'.writer == sh.writer
                || (sh.writer == None && sh'.writer == Some(t))
                || (sh.writer == Some(t) && sh'.writer == None))
  {
  }

  lemma LockStep(s: State, a: Action)
    requires LockInv(s) && Enabled(s, a)
    ensures LockInv(After(s, a))
  {
    if a.Act? {
      hide NextPc, NextShared, PcFits, CanMove;
      PcStep(s.sh, a.t, s.threads[a.t], a.ok);
      LockPcStep(s.sh, a.t, s.threads[a.t], a.ok);
      var s' := After(s, a);
      forall t | t in s'.threads && t != a.t
        ensures t in s.threads && s'.threads[t] == s.threads[t]
        ensures t in s'.sh.readers <==> t in s.sh.readers
      {
      }
    }
  }

  // The lock excludes: whoever holds it exclusively holds it alone, in every reachable state.
  lemma {:induction false} LockExcludes(r: Run, n: nat)
    requires IsRun(r) && n < |r.states|
    ensures LockInv(r.states[n])
  {
    if n > 0 {
      LockExcludes(r, n - 1);
      assert StepAt(r, n - 1);
      hide LockInv, After, Enabled;
      LockStep(r.states[n - 1], r.acts[n - 1]);
    } else {
      assert LockInv(r.states[0]);
    }
  }

  // ----- facts about single threads -----------------------------------------

  // Between the add request and the bump of the user's generation.
  predicate Adding(th: Thread, u: UserId) {
    th.pc.Added? && u in Users(th.op)
  }

  lemma GenStep(sh: Shared, t: Tid, th: Thread, ok: bool, u: UserId)
    ensures Gen(NextShared(sh, t, th, ok), u) == if Adding(th, u) then (Gen(sh, u) + 1) % GENERATIONS else Gen(sh, u)
    ensures Adding(Thread(th.op, NextPc(sh, th, ok)), u) <==> ok && th.pc.AddReady? && u in Users(th.op)
  {
  }

  // Calls stay known, keep their operation, and stay finished.
  lemma {:induction false} ThreadsStay(r: Run, i: nat, k: nat, t: Tid)
    requires IsRun(r) && i <= k < |r.states| && t in r.states[i].threads
    ensures t in r.states[k].threads && r.states[k].threads[t].op == r.states[i].threads[t].op
    ensures r.states[i].threads[t].pc.Done? ==> r.states[k].threads[t] == r.states[i].threads[t]
  {
    if i < k {
      ThreadsStay(r, i, k - 1, t);
      assert StepAt(r, k - 1);
      hide NextPc, NextShared;
    }
  }
}
