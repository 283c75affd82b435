/** The event-patched cache behind zulipcache/user_groups.go and zulipcache/streams.go: an atomic pointer to an
    immutable snapshot, changed by Store, Swap and CompareAndSwap, while one event handler, any number of readers and
    any number of storing requests interleave. Every atomic access is one step. */
module SnapshotCache {
  import opened Collections

  /** What handling an event does before it reaches the retry loop: nothing, a plain invalidation, or the loop. */
  datatype Gate = Ignore | Drop | Mutate

  /** What the mutator makes of a loaded list: the `next` list, the loaded snapshot's own list afterwards (`shared`:
      slices inside its entries may be edited in place), and whether it invalidates the cache on the way. */
  datatype Edit<T> = Edit(next: seq<T>, shared: seq<T>, invalidates: bool)

  /** One kind of cache: how its events edit lists, and its JSON encoding. */
  datatype Rules<!T, !E, !B> = Rules(gate: E -> Gate,
                                     edit: (E, seq<T>) -> Edit<T>,
                                     encode: seq<T> -> B,
                                     decode: B -> Option<seq<T>>)

  datatype Snapshot<T, B> = Snapshot(expiresAt: nat, list: seq<T>, body: B)

  /** The event handler, inside `mutate`: about to load; about to invalidate and return (after a failed encoding, with
      the snapshot it ran the mutator over); about to check the expiry of snapshot `ptr`; about to run the mutator
      over it; about to compare and swap. */
  datatype Handler<T, E> =
    | Idle
    | Loading(event: E)
    | Dropping(event: E, dirty: Option<nat>)
    | Loaded(event: E, ptr: nat)
    | Checked(event: E, ptr: nat)
    | Edited(event: E, ptr: nat, next: seq<T>)

  /** A stored response and the time its expiry counts from. */
  datatype Stored<T> = Stored(list: seq<T>, at: nat)

  /** Where a snapshot comes from: which stored response, and which events were applied to it since. */
  datatype Origin<E> = Origin(store: nat, events: seq<E>)

  /** A body handed to a caller. */
  datatype Served<B> = Served(body: B, at: nat, ptr: nat)

  /** The pointer, what it can point to (pointers are indices: every allocation is new), and the threads; `stores`,
      `since`, `origins` and `served` record history: the responses stored, the events whose handling ended after the
      last of them, where each snapshot comes from, and what was served. */
  datatype State<T, E, B> = State(heap: seq<Snapshot<T, B>>,
                                  current: Option<nat>,
                                  handler: Handler<T, E>,
                                  readers: map<nat, nat>,
                                  now: nat,
                                  stores: seq<Stored<T>>,
                                  since: seq<E>,
                                  origins: seq<Origin<E>>,
                                  served: seq<Served<B>>)

  datatype Step<T, E, B> =
    | Handle(event: E)                            // HandleEvent is called
    | Load                                        // mutate: state.Load
    | CheckExpiry                                 // mutate: time.Now().After(current.expiresAt)
    | DropAndReturn                               // mutate: invalidate, return
    | RunMutator                                  // mutate: copy the list and run the mutator
    | MarshalFails                                // mutate: encoding fails
    | CompareAndSwap                              // mutate: publish, or go round again
    | Store(list: seq<T>, body: B, at: nat)       // storeResponse: state.Store, its expiry counted from `at`
    | Invalidate                                  // any other state.Swap(nil)
    | ReaderLoad(reader: nat)                     // cachedBody: state.Load
    | ReaderServe(reader: nat)                    // cachedBody: the expiry check; serve or invalidate
    | Tick                                        // time passes

  ghost predicate WellFormed<T, E, B>(s: State<T, E, B>) {
    && |s.origins| == |s.heap|
    && (s.current.Some? ==> s.current.value < |s.heap|)
    && (s.handler.Loaded? || s.handler.Checked? || s.handler.Edited? ==> s.handler.ptr < |s.heap|)
    && (forall r :: r in s.readers ==> s.readers[r] < |s.heap|)
  }

  ghost predicate Enabled<T, E, B>(rules: Rules<T, E, B>, s: State<T, E, B>, step: Step<T, E, B>) {
    match step
    case Handle(_) => s.handler.Idle?
    case Load => s.handler.Loading?
    case DropAndReturn => s.handler.Dropping?
    case CheckExpiry => s.handler.Loaded?
    case RunMutator => s.handler.Checked?
    case MarshalFails => s.handler.Edited?
    case CompareAndSwap => s.handler.Edited?
    case Store(list, body, at) => at <= s.now && rules.decode(body) == Some(list)
    case Invalidate => true
    case ReaderLoad(_) => true
    case ReaderServe(r) => r in s.readers
    case Tick => true
  }

  ghost function Finish<T, E, B>(s: State<T, E, B>, event: E): State<T, E, B> {
    s.(handler := Idle, since := s.since + [event])
  }

  ghost function Next<T, E, B>(rules: Rules<T, E, B>, ttl: nat, s: State<T, E, B>, step: Step<T, E, B>)
    : State<T, E, B>
    requires WellFormed(s) && Enabled(rules, s, step)
  {
    match step
    case Handle(e) =>
      (match rules.gate(e)
       case Ignore => s
       case Drop => s.(handler := Dropping(e, None))
       case Mutate => s.(handler := Loading(e)))
    case Load =>
      var e := s.handler.event;
      s.(handler := if s.current.None? then Dropping(e, None) else Loaded(e, s.current.value))
    case CheckExpiry =>
      var Loaded(e, p) := s.handler;
      s.(handler := if s.now > s.heap[p].expiresAt then Dropping(e, None) else Checked(e, p))
    case DropAndReturn => Finish(s.(current := None), s.handler.event)
    case RunMutator =>
      var Checked(e, p) := s.handler;
      var edit := rules.edit(e, s.heap[p].list);
      s.(heap := s.heap[p := s.heap[p].(list := edit.shared)],
         current := if edit.invalidates then None else s.current,
         handler := Edited(e, p, edit.next))
    case MarshalFails => s.(handler := Dropping(s.handler.event, Some(s.handler.ptr)))
    case CompareAndSwap =>
      var Edited(e, p, next) := s.handler;
      if s.current != Some(p) then s.(handler := Loading(e))
      else
        Finish(s.(heap := s.heap + [Snapshot(s.heap[p].expiresAt, next, rules.encode(next))],
                  current := Some(|s.heap|),
                  origins := s.origins + [Origin(s.origins[p].store, s.origins[p].events + [e])]), e)
    case Store(list, body, at) =>
      s.(heap := s.heap + [Snapshot(at + ttl, list, body)],
         current := Some(|s.heap|),
         origins := s.origins + [Origin(|s.stores|, [])],
         stores := s.stores + [Stored(list, at)],
         since := [])
    case Invalidate => s.(current := None)
    case ReaderLoad(r) => if s.current.None? then s else s.(readers := s.readers[r := s.current.value])
    case ReaderServe(r) =>
      var p := s.readers[r];
      var t := s.(readers := s.readers - {r});
      if s.now > s.heap[p].expiresAt then t.(current := None)
      else t.(served := s.served + [Served(s.heap[p].body, s.now, p)])
    case Tick => s.(now := s.now + 1)
  }

  ghost predicate Initial<T, E, B>(s: State<T, E, B>) {
    s == State([], None, Idle, map[], s.now, [], [], [], [])
  }

  // ---- What the cache should hold ----

  /** The reference: a stored response with events folded over it in order. */
  ghost function Fold<T, E, B>(rules: Rules<T, E, B>, base: seq<T>, events: seq<E>): seq<T> {
    if events == [] then base
    else rules.edit(events[|events| - 1], Fold(rules, base, events[..|events| - 1])).next
  }

  /** Every event can be applied to the list that the events before it make. */
  ghost predicate Applicable<T, E, B>(rules: Rules<T, E, B>, base: seq<T>, events: seq<E>) {
    events == []
    || (&& Applicable(rules, base, events[..|events| - 1])
        && !rules.edit(events[|events| - 1], Fold(rules, base, events[..|events| - 1])).invalidates)
  }

  lemma FoldSnoc<T, E, B>(rules: Rules<T, E, B>, base: seq<T>, events: seq<E>, e: E)
    ensures Fold(rules, base, events + [e]) == rules.edit(e, Fold(rules, base, events)).next
    ensures Applicable(rules, base, events + [e])
      <==> Applicable(rules, base, events) && !rules.edit(e, Fold(rules, base, events)).invalidates
  {
  }

  ghost predicate Faithful<T(!new), E, B>(rules: Rules<T, E, B>) {
    forall list :: rules.decode(rules.encode(list)) == Some(list)
  }

  /** The list that snapshot `p` stands for. */
  ghost function Meaning<T, E, B>(rules: Rules<T, E, B>, s: State<T, E, B>, p: nat): seq<T>
    requires p < |s.origins| && s.origins[p].store < |s.stores|
  {
    Fold(rules, s.stores[s.origins[p].store].list, s.origins[p].events)
  }

  /** The handler has run its mutator over `p` and has neither published nor dropped the result yet: only then may
      the entries of `p` have been written to. */
  ghost predicate Untouched<T, E, B>(s: State<T, E, B>, p: nat) {
    !(s.handler.Edited? && s.handler.ptr == p) && !(s.handler.Dropping? && s.handler.dirty == Some(p))
  }

  ghost predicate SnapshotOk<T, E, B>(rules: Rules<T, E, B>, ttl: nat, s: State<T, E, B>, p: nat)
    requires p < |s.heap| == |s.origins|
  {
    && s.origins[p].store < |s.stores|
    && s.heap[p].expiresAt == s.stores[s.origins[p].store].at + ttl
    && rules.decode(s.heap[p].body) == Some(Meaning(rules, s, p))
    && Applicable(rules, s.stores[s.origins[p].store].list, s.origins[p].events)
  }

  ghost predicate ServedOk<T, E, B>(rules: Rules<T, E, B>, ttl: nat, s: State<T, E, B>, x: Served<B>) {
    && x.ptr < |s.origins| && s.origins[x.ptr].store < |s.stores|
    && x.at <= s.stores[s.origins[x.ptr].store].at + ttl
    && rules.decode(x.body) == Some(Meaning(rules, s, x.ptr))
  }

  ghost predicate Inv<T, E, B>(rules: Rules<T, E, B>, ttl: nat, s: State<T, E, B>) {
    && WellFormed(s)
    && (forall p :: 0 <= p < |s.heap| ==> SnapshotOk(rules, ttl, s, p))
    && (s.current.Some? ==>
          && SnapshotOk(rules, ttl, s, s.current.value)
          && s.origins[s.current.value] == Origin(|s.stores| - 1, s.since)
          && (Untouched(s, s.current.value) ==> s.heap[s.current.value].list == Meaning(rules, s, s.current.value)))
    && (s.handler.Loaded? || s.handler.Checked? || s.handler.Edited? ==> SnapshotOk(rules, ttl, s, s.handler.ptr))
    && (s.handler.Loaded? || s.handler.Checked? ==> s.heap[s.handler.ptr].list == Meaning(rules, s, s.handler.ptr))
    && (s.handler.Edited? ==>
          var edit := rules.edit(s.handler.event, Meaning(rules, s, s.handler.ptr));
          s.handler.next == edit.next && (edit.invalidates ==> s.current != Some(s.handler.ptr)))
    && (forall i :: 0 <= i < |s.served| ==> ServedOk(rules, ttl, s, s.served[i]))
  }

  /** Histories only grow, so what snapshots and served bodies stand for never changes. */
  ghost predicate Grows<T, E, B>(s: State<T, E, B>, t: State<T, E, B>) {
    && |s.origins| <= |t.origins| && |s.stores| <= |t.stores|
    && (forall p :: 0 <= p < |s.origins| ==> t.origins[p] == s.origins[p])
    && (forall i :: 0 <= i < |s.stores| ==> t.stores[i] == s.stores[i])
  }

  lemma ServedStays<T, E, B>(rules: Rules<T, E, B>, ttl: nat, s: State<T, E, B>, t: State<T, E, B>)
    requires Grows(s, t)
    requires forall i :: 0 <= i < |s.served| ==> ServedOk(rules, ttl, s, s.served[i])
    ensures forall i :: 0 <= i < |s.served| ==> ServedOk(rules, ttl, t, s.served[i])
  {
  }

  /** Steps that leave the snapshots, the histories and the served bodies alone. */
  lemma InvQuiet<T, E, B>(rules: Rules<T, E, B>, ttl: nat, s: State<T, E, B>, step: Step<T, E, B>)
    requires Inv(rules, ttl, s) && Enabled(rules, s, step)
    requires step.Handle? || step.Load? || step.CheckExpiry? || step.DropAndReturn? || step.MarshalFails?
          || step.Invalidate? || step.ReaderLoad? || step.Tick?
    ensures Inv(rules, ttl, Next(rules, ttl, s, step))
  {
    hide Fold, Applicable;
    var t := Next(rules, ttl, s, step);
    forall p | 0 <= p < |t.heap| ensures SnapshotOk(rules, ttl, t, p) { assert SnapshotOk(rules, ttl, s, p); }
    ServedStays(rules, ttl, s, t);
  }

  lemma InvRunMutator<T, E, B>(rules: Rules<T, E, B>, ttl: nat, s: State<T, E, B>)
    requires Inv(rules, ttl, s) && s.handler.Checked?
    ensures Inv(rules, ttl, Next(rules, ttl, s, RunMutator))
  {
    hide Fold, Applicable;
    var t := Next(rules, ttl, s, RunMutator);
    forall p | 0 <= p < |t.heap| ensures SnapshotOk(rules, ttl, t, p) { assert SnapshotOk(rules, ttl, s, p); }
    ServedStays(rules, ttl, s, t);
  }

  lemma InvCompareAndSwap<T(!new), E, B>(rules: Rules<T, E, B>, ttl: nat, s: State<T, E, B>)
    requires Inv(rules, ttl, s) && Faithful(rules) && s.handler.Edited?
    ensures Inv(rules, ttl, Next(rules, ttl, s, CompareAndSwap))
  {
    hide Fold, Applicable;
    var t := Next(rules, ttl, s, CompareAndSwap);
    var Edited(e, q, next) := s.handler;
    FoldSnoc(rules, s.stores[s.origins[q].store].list, s.origins[q].events, e);
    forall p | 0 <= p < |t.heap| ensures SnapshotOk(rules, ttl, t, p) {
      if p < |s.heap| { assert SnapshotOk(rules, ttl, s, p); } else { assert SnapshotOk(rules, ttl, s, q); }
    }
    ServedStays(rules, ttl, s, t);
  }

  lemma InvStore<T, E, B>(rules: Rules<T, E, B>, ttl: nat, s: State<T, E, B>, list: seq<T>, body: B, at: nat)
    requires Inv(rules, ttl, s) && Enabled(rules, s, Store(list, body, at))
    ensures Inv(rules, ttl, Next(rules, ttl, s, Store(list, body, at)))
  {
    var t := Next(rules, ttl, s, Store(list, body, at));
    forall p | 0 <= p < |t.heap| ensures SnapshotOk(rules, ttl, t, p) {
      if p < |s.heap| { assert SnapshotOk(rules, ttl, s, p); }
    }
    ServedStays(rules, ttl, s, t);
  }

  lemma InvReaderServe<T, E, B>(rules: Rules<T, E, B>, ttl: nat, s: State<T, E, B>, r: nat)
    requires Inv(rules, ttl, s) && r in s.readers
    ensures Inv(rules, ttl, Next(rules, ttl, s, ReaderServe(r)))
  {
    hide Fold, Applicable;
    var t := Next(rules, ttl, s, ReaderServe(r));
    assert SnapshotOk(rules, ttl, s, s.readers[r]);
    forall p | 0 <= p < |t.heap| ensures SnapshotOk(rules, ttl, t, p) { assert SnapshotOk(rules, ttl, s, p); }
    ServedStays(rules, ttl, s, t);
  }

  lemma InvStep<T(!new), E, B>(rules: Rules<T, E, B>, ttl: nat, s: State<T, E, B>, step: Step<T, E, B>)
    requires Inv(rules, ttl, s) && Faithful(rules) && Enabled(rules, s, step)
    ensures Inv(rules, ttl, Next(rules, ttl, s, step))
  {
    match step
    case RunMutator => InvRunMutator(rules, ttl, s);
    case CompareAndSwap => InvCompareAndSwap(rules, ttl, s);
    case Store(list, body, at) => InvStore(rules, ttl, s, list, body, at);
    case ReaderServe(r) => InvReaderServe(rules, ttl, s, r);
    case _ => InvQuiet(rules, ttl, s, step);
  }

  // ---- Runs ----

  /** `states` is a run: each state follows from the one before it by the step of the same index. */
  ghost predicate IsRun<T, E, B>(rules: Rules<T, E, B>, ttl: nat, states: seq<State<T, E, B>>,
                                 steps: seq<Step<T, E, B>>) {
    && |states| == |steps| + 1
    && forall i {:trigger steps[i]} :: 0 <= i < |steps| ==>
         && WellFormed(states[i]) && Enabled(rules, states[i], steps[i])
         && states[i + 1] == Next(rules, ttl, states[i], steps[i])
  }

  lemma {:induction false} InvRun<T(!new), E, B>(rules: Rules<T, E, B>, ttl: nat, states: seq<State<T, E, B>>,
                                                 steps: seq<Step<T, E, B>>, i: nat)
    requires IsRun(rules, ttl, states, steps) && Initial(states[0]) && Faithful(rules) && i < |states|
    ensures Inv(rules, ttl, states[i])
  {
    if i > 0 {
      InvRun(rules, ttl, states, steps, i - 1);
      assert WellFormed(states[i - 1]) && Enabled(rules, states[i - 1], steps[i - 1]);
      InvStep(rules, ttl, states[i - 1], steps[i - 1]);
    }
  }

  /** In every state of every run, the cache is empty or its body decodes to the last stored response with all events
      handled since folded over it, in order, each of them applicable; so does its list, except between a mutator and
      its compare-and-swap. */
  lemma CacheAgrees<T(!new), E, B>(rules: Rules<T, E, B>, ttl: nat, states: seq<State<T, E, B>>,
                                   steps: seq<Step<T, E, B>>, i: nat)
    requires IsRun(rules, ttl, states, steps) && Initial(states[0]) && Faithful(rules) && i < |states|
    requires states[i].current.Some?
    ensures var s := states[i];
      var p := s.current.value;
      && s.stores != [] && p < |s.heap|
      && var list := Fold(rules, s.stores[|s.stores| - 1].list, s.since);
      && rules.decode(s.heap[p].body) == Some(list)
      && Applicable(rules, s.stores[|s.stores| - 1].list, s.since)
      && (Untouched(s, p) ==> s.heap[p].list == list)
      && s.heap[p].expiresAt == s.stores[|s.stores| - 1].at + ttl
  {
    InvRun(rules, ttl, states, steps, i);
    var s := states[i];
    assert SnapshotOk(rules, ttl, s, s.current.value);
  }

  /** No body is served later than its store time plus the TTL, however many events were folded into it, and each
      decodes to a stored response with a run of events folded over it. */
  lemma ServedInTime<T(!new), E, B>(rules: Rules<T, E, B>, ttl: nat, states: seq<State<T, E, B>>,
                                    steps: seq<Step<T, E, B>>, i: nat, k: nat)
    requires IsRun(rules, ttl, states, steps) && Initial(states[0]) && Faithful(rules) && i < |states|
    requires k < |states[i].served|
    ensures var s := states[i];
      var x := s.served[k];
      && x.ptr < |s.origins| && s.origins[x.ptr].store < |s.stores|
      && x.at <= s.stores[s.origins[x.ptr].store].at + ttl
      && rules.decode(x.body) == Some(Fold(rules, s.stores[s.origins[x.ptr].store].list, s.origins[x.ptr].events))
  {
    InvRun(rules, ttl, states, steps, i);
    assert ServedOk(rules, ttl, states[i], states[i].served[k]);
  }

  // ---- An event that cannot be applied ----

  /** Once the cache is empty, whatever it holds later was stored after that. */
  lemma {:induction false} EmptiedStays<T(!new), E, B>(rules: Rules<T, E, B>, ttl: nat, states: seq<State<T, E, B>>,
                                                       steps: seq<Step<T, E, B>>, i: nat, j: nat)
    requires IsRun(rules, ttl, states, steps) && Initial(states[0]) && Faithful(rules)
    requires i <= j < |states| && states[i].current.None?
    ensures |states[i].stores| <= |states[j].stores|
    ensures states[j].current.Some? ==>
      states[j].current.value < |states[j].origins|
      && |states[i].stores| <= states[j].origins[states[j].current.value].store
    decreases j
  {
    if i < j {
      EmptiedStays(rules, ttl, states, steps, i, j - 1);
      InvRun(rules, ttl, states, steps, j - 1);
      assert WellFormed(states[j - 1]) && Enabled(rules, states[j - 1], steps[j - 1]);
      assert states[j] == Next(rules, ttl, states[j - 1], steps[j - 1]);
    }
  }

  /** An event that the mutator cannot apply to the list it loaded empties the cache for good: the pre-event snapshot
      is never current again, and neither is anything derived from it; its compare-and-swap must fail. */
  lemma InapplicableEventDrops<T(!new), E, B>(rules: Rules<T, E, B>, ttl: nat, states: seq<State<T, E, B>>,
                                              steps: seq<Step<T, E, B>>, i: nat, j: nat)
    requires IsRun(rules, ttl, states, steps) && Initial(states[0]) && Faithful(rules)
    requires i < j < |states| && steps[i] == RunMutator
    requires states[i].handler.Checked? && states[i].handler.ptr < |states[i].heap|
    requires rules.edit(states[i].handler.event, states[i].heap[states[i].handler.ptr].list).invalidates
    ensures states[j].current != Some(states[i].handler.ptr)
    ensures states[j].current.Some? ==>
      var s := states[j];
      && states[i].handler.ptr < |s.origins| && s.current.value < |s.origins|
      && s.origins[states[i].handler.ptr].store < s.origins[s.current.value].store
  {
    InvRun(rules, ttl, states, steps, i);
    assert WellFormed(states[i]) && Enabled(rules, states[i], steps[i]);
    assert states[i + 1] == Next(rules, ttl, states[i], steps[i]);
    EmptiedStays(rules, ttl, states, steps, i + 1, j);
    GrowsRun(rules, ttl, states, steps, i, j);
    assert SnapshotOk(rules, ttl, states[i], states[i].handler.ptr);
  }

  lemma {:induction false} GrowsRun<T, E, B>(rules: Rules<T, E, B>, ttl: nat, states: seq<State<T, E, B>>,
                                             steps: seq<Step<T, E, B>>, i: nat, j: nat)
    requires IsRun(rules, ttl, states, steps) && i <= j < |states|
    ensures Grows(states[i], states[j])
    decreases j
  {
    if i < j {
      GrowsRun(rules, ttl, states, steps, i, j - 1);
      assert WellFormed(states[j - 1]) && Enabled(rules, states[j - 1], steps[j - 1]);
      assert states[j] == Next(rules, ttl, states[j - 1], steps[j - 1]);
      assert Grows(states[j - 1], states[j]);
    }
  }

  /** Every event whose handling has ended is either folded into the cached list or the cache is empty: a handler that
      returns leaves no list behind that misses its event. */
  lemma HandlingIsComplete<T(!new), E, B>(rules: Rules<T, E, B>, ttl: nat, states: seq<State<T, E, B>>,
                                          steps: seq<Step<T, E, B>>, i: nat)
    requires IsRun(rules, ttl, states, steps) && Initial(states[0]) && Faithful(rules) && i < |steps|
    requires !states[i].handler.Idle? && states[i + 1].handler.Idle?
    ensures var e := states[i].handler.event;
      var s := states[i + 1];
      && s.since == states[i].since + [e]
      && (s.current.Some? ==>
            && s.current.value < |s.origins|
            && s.origins[s.current.value].events == s.since)
  {
    InvRun(rules, ttl, states, steps, i);
    InvRun(rules, ttl, states, steps, i + 1);
    assert WellFormed(states[i]) && Enabled(rules, states[i], steps[i]);
    assert states[i + 1] == Next(rules, ttl, states[i], steps[i]);
  }

  // ---- Which events count ----

  /** Every event handed to the cache, in order. */
  ghost function Handed<T, E, B>(steps: seq<Step<T, E, B>>, i: nat): seq<E>
    requires i <= |steps|
  {
    if i == 0 then []
    else Handed(steps, i - 1) + if steps[i - 1].Handle? then [steps[i - 1].event] else []
  }

  /** The event whose handling the step ends, if any. */
  ghost function Ending<T, E, B>(s: State<T, E, B>, step: Step<T, E, B>, t: State<T, E, B>): seq<E> {
    if step.Handle? && t.handler.Idle? then [step.event]
    else if !s.handler.Idle? && t.handler.Idle? then [s.handler.event]
    else []
  }

  ghost function EndingAt<T, E, B>(states: seq<State<T, E, B>>, steps: seq<Step<T, E, B>>, i: nat): seq<E>
    requires |states| == |steps| + 1 && i < |steps|
  {
    Ending(states[i], steps[i], states[i + 1])
  }

  ghost function Ended<T, E, B>(states: seq<State<T, E, B>>, steps: seq<Step<T, E, B>>, i: nat): seq<E>
    requires |states| == |steps| + 1 && i <= |steps|
  {
    if i == 0 then [] else Ended(states, steps, i - 1) + EndingAt(states, steps, i - 1)
  }

  /** The same, counted from the last stored response on. */
  ghost function Heard<T, E, B>(states: seq<State<T, E, B>>, steps: seq<Step<T, E, B>>, i: nat): seq<E>
    requires |states| == |steps| + 1 && i <= |steps|
  {
    if i == 0 || steps[i - 1].Store? then [] else Heard(states, steps, i - 1) + EndingAt(states, steps, i - 1)
  }

  ghost function InFlight<T, E>(handler: Handler<T, E>): seq<E> {
    if handler.Idle? then [] else [handler.event]
  }

  /** Those that the gate lets through. */
  ghost function Unignored<T, E, B>(rules: Rules<T, E, B>, events: seq<E>): seq<E> {
    if events == [] then []
    else
      var last := events[|events| - 1];
      Unignored(rules, events[..|events| - 1]) + if rules.gate(last) == Ignore then [] else [last]
  }

  lemma UnignoredOne<T, E, B>(rules: Rules<T, E, B>, events: seq<E>, e: E)
    ensures Unignored(rules, events + [e]) == Unignored(rules, events) + if rules.gate(e) == Ignore then [] else [e]
    ensures Unignored(rules, events + []) == Unignored(rules, events)
  {
    assert events + [] == events;
    assert (events + [e])[..|events|] == events;
  }

  lemma EndingStep<T, E, B>(rules: Rules<T, E, B>, ttl: nat, s: State<T, E, B>, step: Step<T, E, B>)
    requires WellFormed(s) && Enabled(rules, s, step)
    requires !s.handler.Idle? ==> rules.gate(s.handler.event) != Ignore
    ensures var t := Next(rules, ttl, s, step);
      && InFlight(s.handler) + (if step.Handle? then [step.event] else []) == Ending(s, step, t) + InFlight(t.handler)
      && (!t.handler.Idle? ==> rules.gate(t.handler.event) != Ignore)
      && t.since == if step.Store? then [] else s.since + Unignored(rules, Ending(s, step, t))
  {
    hide WellFormed;
  }

  /** No event gets lost on the way: what was handed in has ended, in order, but for the one being handled. And the
      events a cached body reflects are those that ended since the last stored response, without the ignored ones. */
  lemma {:induction false} EveryEventEnds<T, E, B>(rules: Rules<T, E, B>, ttl: nat, states: seq<State<T, E, B>>,
                                                   steps: seq<Step<T, E, B>>, i: nat)
    requires IsRun(rules, ttl, states, steps) && Initial(states[0]) && i <= |steps|
    ensures Handed(steps, i) == Ended(states, steps, i) + InFlight(states[i].handler)
    ensures states[i].since == Unignored(rules, Heard(states, steps, i))
    ensures !states[i].handler.Idle? ==> rules.gate(states[i].handler.event) != Ignore
  {
    if i > 0 {
      EveryEventEnds(rules, ttl, states, steps, i - 1);
      assert WellFormed(states[i - 1]) && Enabled(rules, states[i - 1], steps[i - 1])
          && states[i] == Next(rules, ttl, states[i - 1], steps[i - 1]);
      hide WellFormed, Enabled, Next, IsRun, Unignored, Initial;
      EndingStep(rules, ttl, states[i - 1], steps[i - 1]);
      OneMoreEnds(rules, Handed(steps, i - 1), Ended(states, steps, i - 1), Heard(states, steps, i - 1),
                  states[i - 1], steps[i - 1], states[i]);
    }
  }

  lemma OneMoreEnds<T, E, B>(rules: Rules<T, E, B>, handed: seq<E>, ended: seq<E>, heard: seq<E>, s: State<T, E, B>,
                             step: Step<T, E, B>, t: State<T, E, B>)
    requires handed == ended + InFlight(s.handler) && s.since == Unignored(rules, heard)
    requires InFlight(s.handler) + (if step.Handle? then [step.event] else [])
          == Ending(s, step, t) + InFlight(t.handler)
    requires t.since == if step.Store? then [] else s.since + Unignored(rules, Ending(s, step, t))
    ensures handed + (if step.Handle? then [step.event] else []) == ended + Ending(s, step, t) + InFlight(t.handler)
    ensures t.since == Unignored(rules, if step.Store? then [] else heard + Ending(s, step, t))
  {
    var ending := Ending(s, step, t);
    calc {
      handed + (if step.Handle? then [step.event] else []);
      ended + (InFlight(s.handler) + (if step.Handle? then [step.event] else []));
      ended + ending + InFlight(t.handler);
    }
    if ending == [] {
      assert heard + [] == heard && s.since + [] == s.since;
    } else {
      UnignoredOne(rules, heard, ending[0]);
      UnignoredOne(rules, [], ending[0]);
      assert [] + [ending[0]] == ending;
    }
  }

  // ---- The cache is not empty without a reason ----

  lemma EmptiesOnlyFor<T, E, B>(rules: Rules<T, E, B>, ttl: nat, s: State<T, E, B>, step: Step<T, E, B>)
    requires WellFormed(s) && Enabled(rules, s, step)
    requires s.current.Some? && Next(rules, ttl, s, step).current.None?
    ensures match step
      case Invalidate => true
      case DropAndReturn => true
      case ReaderServe(r) => s.heap[s.readers[r]].expiresAt < s.now
      case RunMutator => rules.edit(s.handler.event, s.heap[s.handler.ptr].list).invalidates
      case _ => false
  {
  }

  lemma DropsOnlyFor<T, E, B>(rules: Rules<T, E, B>, ttl: nat, s: State<T, E, B>, step: Step<T, E, B>)
    requires WellFormed(s) && Enabled(rules, s, step)
    requires !s.handler.Dropping? && Next(rules, ttl, s, step).handler.Dropping?
    ensures match step
      case Handle(e) => rules.gate(e) == Drop
      case Load => s.current.None?
      case CheckExpiry => s.heap[s.handler.ptr].expiresAt < s.now
      case MarshalFails => true
      case _ => false
  {
  }

  /** A stored body is cached, and a reader that loads it gets it as long as it has not expired. */
  lemma StoredIsServed<T, E, B>(rules: Rules<T, E, B>, ttl: nat, s: State<T, E, B>, list: seq<T>, body: B, at: nat,
                                reader: nat)
    requires WellFormed(s) && Enabled(rules, s, Store(list, body, at)) && s.now <= at + ttl
    ensures var stored := Next(rules, ttl, s, Store(list, body, at));
      var loaded := Next(rules, ttl, stored, ReaderLoad(reader));
      var served := Next(rules, ttl, loaded, ReaderServe(reader)).served;
      && |served| == |s.served| + 1 && served[|s.served|].body == body && served[|s.served|].at == s.now
  {
  }

  /** An applicable event that meets a fresh snapshot and no other thread is folded into it. */
  lemma HandledAlone<T, E, B>(rules: Rules<T, E, B>, ttl: nat, s: State<T, E, B>, e: E)
    requires WellFormed(s) && s.handler.Idle? && s.current.Some? && rules.gate(e) == Mutate
    requires s.now <= s.heap[s.current.value].expiresAt
    requires !rules.edit(e, s.heap[s.current.value].list).invalidates
    ensures var s1 := Next(rules, ttl, s, Handle(e));
      var s2 := Next(rules, ttl, s1, Load);
      var s3 := Next(rules, ttl, s2, CheckExpiry);
      var s4 := Next(rules, ttl, s3, RunMutator);
      var t := Next(rules, ttl, s4, CompareAndSwap);
      var next := rules.edit(e, s.heap[s.current.value].list).next;
      && t.handler.Idle? && t.current.Some? && t.current.value < |t.heap|
      && t.heap[t.current.value] == Snapshot(s.heap[s.current.value].expiresAt, next, rules.encode(next))
  {
  }
}
