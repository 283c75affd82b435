/** Running a chain of commands (zulipbot/bot.go, dispatchChain), against left-associative short-circuit evaluation. */
module DispatchChain {
  import opened Collections
  import opened ChainScanner
  import opened CommandParser

  /** What dispatching one command yields: reply text, an optional after-response callback, and the chain status. */
  datatype Outcome<A> = Outcome(content: string, after: Option<A>, succeeded: bool)

  /** The reply to a whole chain; the callbacks run in order after it has been sent. */
  datatype Reply<A> = Reply(content: string, after: Option<seq<A>>)

  predicate ShouldDispatch(operator: ChainOperator, previousSucceeded: bool) {
    match operator
    case ChainAlways => true
    case ChainThen => true
    case ChainAnd => previousSucceeded
    case ChainOr => !previousSucceeded
  }

  /** `strings.Join(contents, "\n\n")`. */
  function JoinContents(contents: seq<string>): string {
    if contents == [] then ""
    else if |contents| == 1 then contents[0]
    else contents[0] + "\n\n" + JoinContents(contents[1..])
  }

  /** Joining is laying a blank line between any two stretches. */
  lemma {:induction false} JoinSplits(a: seq<string>, b: seq<string>)
    requires a != [] && b != []
    ensures JoinContents(a + b) == JoinContents(a) + "\n\n" + JoinContents(b)
    ensures |a| == 1 ==> JoinContents(a) == a[0]
  {
    assert (a + b)[0] == a[0] && (a + b)[1..] == a[1..] + b;
    if |a| > 1 { JoinSplits(a[1..], b); } else { assert a[1..] + b == b; }
  }

  // ---- The reference: an expression tree and its evaluation ----

  /** (((nothing op c1) op c2) op c3) ... as a tree that leans left; nothing to do counts as success. */
  datatype Expr =
    | Nothing
    | And(left: Expr, right: Invocation)
    | Or(left: Expr, right: Invocation)
    | Then(left: Expr, right: Invocation)

  /** The effect of an evaluation: the bot state it leaves, its truth value, the commands it dispatched in order,
      and the replies and callbacks they gave, in the same order. */
  datatype Effect<S, A> =
    Effect(state: S, value: bool, dispatched: seq<Invocation>, contents: seq<string>, afters: seq<A>)

  function Dispatched<S, A>(effect: Effect<S, A>, command: Invocation,
                            dispatch: (S, Invocation) -> (S, Outcome<A>)): Effect<S, A> {
    var (state, outcome) := dispatch(effect.state, command);
    Effect(state, outcome.succeeded,
           effect.dispatched + [command],
           if outcome.content != "" then effect.contents + [outcome.content] else effect.contents,
           if outcome.after.Some? then effect.afters + [outcome.after.value] else effect.afters)
  }

  function Eval<S, A>(expr: Expr, state: S, dispatch: (S, Invocation) -> (S, Outcome<A>)): Effect<S, A> {
    match expr
    case Nothing => Effect(state, true, [], [], [])
    case And(left, right) =>
      var effect := Eval(left, state, dispatch);
      if effect.value then Dispatched(effect, right, dispatch) else effect
    case Or(left, right) =>
      var effect := Eval(left, state, dispatch);
      if effect.value then effect else Dispatched(effect, right, dispatch)
    case Then(left, right) => Dispatched(Eval(left, state, dispatch), right, dispatch)
  }

  /** The expression that a chain spells. */
  function ToExpr(segments: seq<ChainSegment>): Expr {
    if segments == [] then Nothing
    else
      var last := segments[|segments| - 1];
      var left := ToExpr(segments[..|segments| - 1]);
      match last.operator
      case ChainAnd => And(left, last.invocation)
      case ChainOr => Or(left, last.invocation)
      case ChainThen => Then(left, last.invocation)
      case ChainAlways => Then(left, last.invocation)
  }

  /** One more segment on a chain evaluates on top of the chain before it. */
  lemma EvalSnoc<S, A>(segments: seq<ChainSegment>, n: nat, state: S, dispatch: (S, Invocation) -> (S, Outcome<A>))
    requires n < |segments|
    ensures var before := Eval(ToExpr(segments[..n]), state, dispatch);
      Eval(ToExpr(segments[..n + 1]), state, dispatch)
      == if ShouldDispatch(segments[n].operator, before.value)
         then Dispatched(before, segments[n].invocation, dispatch)
         else before
  {
    assert segments[..n + 1][..n] == segments[..n];
    assert segments[..n + 1][n] == segments[n];
  }

  // ---- The same, position by position ----

  /** Position j holds the last command before n that ran. */
  predicate LastRan(ran: seq<bool>, n: nat, j: int)
    requires n <= |ran|
  {
    0 <= j < n && ran[j] && forall k :: j < k < n ==> !ran[k]
  }

  /** Behind `&&` a command runs unless the last one that ran failed, behind `||` only if it failed; others always run.
      Position n leads from one state to the next. */
  ghost predicate TracedAt<S, A>(segments: seq<ChainSegment>, dispatch: (S, Invocation) -> (S, Outcome<A>),
                                 ran: seq<bool>, states: seq<S>, n: nat)
    requires n < |segments| == |ran| && |states| == |segments| + 1
  {
    && states[n + 1] == (if ran[n] then dispatch(states[n], segments[n].invocation).0 else states[n])
    && (ran[n] <==>
        match segments[n].operator
        case ChainAlways => true
        case ChainThen => true
        case ChainAnd => forall j :: LastRan(ran, n, j) ==> dispatch(states[j], segments[j].invocation).1.succeeded
        case ChainOr => exists j :: LastRan(ran, n, j) && !dispatch(states[j], segments[j].invocation).1.succeeded)
  }

  /** Which commands ran, and the states before and after each position. */
  ghost predicate Traced<S, A>(segments: seq<ChainSegment>, initial: S, dispatch: (S, Invocation) -> (S, Outcome<A>),
                               ran: seq<bool>, states: seq<S>) {
    && |ran| == |segments| && |states| == |segments| + 1 && states[0] == initial
    && forall n :: 0 <= n < |segments| ==> TracedAt(segments, dispatch, ran, states, n)
  }

  /** The commands that ran before position n, and what they yielded, in order. */
  ghost function Ran<S, A>(segments: seq<ChainSegment>, dispatch: (S, Invocation) -> (S, Outcome<A>), ran: seq<bool>,
                           states: seq<S>, n: nat): seq<(Invocation, Outcome<A>)>
    requires n <= |segments| && n <= |ran| && n <= |states|
  {
    if n == 0 then []
    else
      var before := Ran(segments, dispatch, ran, states, n - 1);
      var command := segments[n - 1].invocation;
      if ran[n - 1] then before + [(command, dispatch(states[n - 1], command).1)] else before
  }

  ghost function CommandsOf<A>(done: seq<(Invocation, Outcome<A>)>): seq<Invocation> {
    seq(|done|, i requires 0 <= i < |done| => done[i].0)
  }

  /** The replies that are not empty. */
  ghost function ContentsOf<A>(done: seq<(Invocation, Outcome<A>)>): seq<string> {
    if done == [] then []
    else
      var last := done[|done| - 1].1;
      ContentsOf(done[..|done| - 1]) + if last.content != "" then [last.content] else []
  }

  ghost function AftersOf<A>(done: seq<(Invocation, Outcome<A>)>): seq<A> {
    if done == [] then []
    else
      var last := done[|done| - 1].1;
      AftersOf(done[..|done| - 1]) + if last.after.Some? then [last.after.value] else []
  }

  /** `effect` is what the commands that ran before n yielded; its value is how the last of them ended. */
  ghost predicate Sums<S, A>(effect: Effect<S, A>, segments: seq<ChainSegment>,
                             dispatch: (S, Invocation) -> (S, Outcome<A>), ran: seq<bool>, states: seq<S>, n: nat)
    requires n <= |segments| && n <= |ran| && n < |states|
  {
    var done := Ran(segments, dispatch, ran, states, n);
    && effect.state == states[n]
    && effect.dispatched == CommandsOf(done)
    && effect.contents == ContentsOf(done)
    && effect.afters == AftersOf(done)
    && (effect.value <==>
        forall j :: LastRan(ran, n, j) ==> dispatch(states[j], segments[j].invocation).1.succeeded)
  }

  /** One position more: a command that runs is the last that ran, and one that does not leaves the last as it is. */
  lemma LastRanSnoc(ran: seq<bool>, n: nat, j: int)
    requires n < |ran|
    ensures LastRan(ran, n + 1, j) <==> if ran[n] then j == n else LastRan(ran, n, j)
  {
  }

  lemma RanSnoc<S, A>(segments: seq<ChainSegment>, dispatch: (S, Invocation) -> (S, Outcome<A>), ran: seq<bool>,
                      states: seq<S>, n: nat)
    requires n < |segments| && n < |ran| && n < |states|
    ensures var before, after := Ran(segments, dispatch, ran, states, n), Ran(segments, dispatch, ran, states, n + 1);
      var outcome := dispatch(states[n], segments[n].invocation).1;
      if ran[n] then
        && CommandsOf(after) == CommandsOf(before) + [segments[n].invocation]
        && ContentsOf(after) == ContentsOf(before) + (if outcome.content != "" then [outcome.content] else [])
        && AftersOf(after) == AftersOf(before) + (if outcome.after.Some? then [outcome.after.value] else [])
      else after == before
  {
    var before, after := Ran(segments, dispatch, ran, states, n), Ran(segments, dispatch, ran, states, n + 1);
    if ran[n] { assert after[..|after| - 1] == before; }
  }

  lemma SumsSnoc<S, A>(effect: Effect<S, A>, effect': Effect<S, A>, segments: seq<ChainSegment>,
                       dispatch: (S, Invocation) -> (S, Outcome<A>), ran: seq<bool>, states: seq<S>, n: nat)
    requires n < |segments| && n < |ran| && n + 1 < |states|
    requires Sums(effect, segments, dispatch, ran, states, n) && states[n + 1] == effect'.state
    requires effect' == if ran[n] then Dispatched(effect, segments[n].invocation, dispatch) else effect
    ensures Sums(effect', segments, dispatch, ran, states, n + 1)
  {
    RanSnoc(segments, dispatch, ran, states, n);
    forall j
      ensures LastRan(ran, n + 1, j) <==> if ran[n] then j == n else LastRan(ran, n, j)
    {
      LastRanSnoc(ran, n, j);
    }
    hide CommandsOf, ContentsOf, AftersOf, Ran, LastRan;
    if ran[n] { assert LastRan(ran, n + 1, n); }
  }

  /** The first n segments as the evaluation sees them. */
  function Upto<S, A>(segments: seq<ChainSegment>, initial: S, dispatch: (S, Invocation) -> (S, Outcome<A>), n: nat)
    : Effect<S, A>
    requires n <= |segments|
  {
    Eval(ToExpr(segments[..n]), initial, dispatch)
  }

  /** Which commands the evaluation runs, and its states. */
  ghost predicate FromEval<S, A>(segments: seq<ChainSegment>, initial: S, dispatch: (S, Invocation) -> (S, Outcome<A>),
                                 ran: seq<bool>, states: seq<S>) {
    && |ran| == |segments| && |states| == |segments| + 1
    && (forall i :: 0 <= i <= |segments| ==> states[i] == Upto(segments, initial, dispatch, i).state)
    && (forall i :: 0 <= i < |segments| ==>
          ran[i] == ShouldDispatch(segments[i].operator, Upto(segments, initial, dispatch, i).value))
  }

  lemma {:induction false} SumsUpto<S, A>(segments: seq<ChainSegment>, initial: S,
                                          dispatch: (S, Invocation) -> (S, Outcome<A>),
                                          ran: seq<bool>, states: seq<S>, n: nat)
    requires FromEval(segments, initial, dispatch, ran, states) && n <= |segments|
    ensures Sums(Upto(segments, initial, dispatch, n), segments, dispatch, ran, states, n)
  {
    if n == 0 {
      assert segments[..0] == [];
    } else {
      SumsUpto(segments, initial, dispatch, ran, states, n - 1);
      EvalSnoc(segments, n - 1, initial, dispatch);
      hide Sums, Dispatched, ToExpr, Eval;
      SumsSnoc(Upto(segments, initial, dispatch, n - 1), Upto(segments, initial, dispatch, n),
               segments, dispatch, ran, states, n - 1);
    }
  }

  lemma FromEvalAt<S, A>(segments: seq<ChainSegment>, initial: S, dispatch: (S, Invocation) -> (S, Outcome<A>),
                         ran: seq<bool>, states: seq<S>, n: nat)
    requires FromEval(segments, initial, dispatch, ran, states) && n < |segments|
    ensures TracedAt(segments, dispatch, ran, states, n)
  {
    hide Ran, LastRan, CommandsOf, ContentsOf, AftersOf, ToExpr, Eval;
    SumsUpto(segments, initial, dispatch, ran, states, n);
    EvalSnoc(segments, n, initial, dispatch);
    var before := Upto(segments, initial, dispatch, n);
    DispatchedMeans(before, segments[n].invocation, dispatch);
  }

  /** Left-associative short-circuit evaluation decides position by position. */
  lemma EvalTraced<S, A>(segments: seq<ChainSegment>, initial: S, dispatch: (S, Invocation) -> (S, Outcome<A>))
    returns (ran: seq<bool>, states: seq<S>)
    ensures Traced(segments, initial, dispatch, ran, states)
    ensures Sums(Eval(ToExpr(segments), initial, dispatch), segments, dispatch, ran, states, |segments|)
  {
    ran := seq(|segments|, i requires 0 <= i < |segments| =>
                             ShouldDispatch(segments[i].operator, Upto(segments, initial, dispatch, i).value));
    states := seq(|segments| + 1, i requires 0 <= i <= |segments| => Upto(segments, initial, dispatch, i).state);
    assert segments[..0] == [] && segments[..|segments|] == segments;
    EvalNothing(initial, dispatch);
    SumsUpto(segments, initial, dispatch, ran, states, |segments|);
    hide TracedAt, Sums, Eval, ToExpr;
    forall n | 0 <= n < |segments|
      ensures TracedAt(segments, dispatch, ran, states, n)
    {
      FromEvalAt(segments, initial, dispatch, ran, states, n);
    }
  }

  /** The loop over segments. The bot state stands for everything that a command may read or change. */
  method Dispatch<S, A>(segments: seq<ChainSegment>, initial: S, dispatch: (S, Invocation) -> (S, Outcome<A>))
    returns (reply: Reply<A>, state: S, log: seq<Invocation>, ghost ran: seq<bool>, ghost states: seq<S>)
    ensures Traced(segments, initial, dispatch, ran, states)
    ensures var done := Ran(segments, dispatch, ran, states, |segments|);
      && state == states[|segments|]
      && log == CommandsOf(done)
      && reply.content == JoinContents(ContentsOf(done))
      && reply.after == if AftersOf(done) == [] then None else Some(AftersOf(done))
    ensures
      var effect := Eval(ToExpr(segments), initial, dispatch);
      && state == effect.state
      && log == effect.dispatched
      && reply.content == JoinContents(effect.contents)
      && reply.after == if effect.afters == [] then None else Some(effect.afters)
  {
    hide Dispatched, JoinContents;
    var contents: seq<string> := [];
    var afters: seq<A> := [];
    var previousSucceeded := true;
    state, log := initial, [];
    var n := 0;
    while n < |segments|
      invariant 0 <= n <= |segments|
      invariant Eval(ToExpr(segments[..n]), initial, dispatch)
             == Effect(state, previousSucceeded, log, contents, afters)
    {
      var segment := segments[n];
      ghost var before := Effect(state, previousSucceeded, log, contents, afters);
      EvalSnoc(segments, n, initial, dispatch);
      if ShouldDispatch(segment.operator, previousSucceeded) {
        DispatchedMeans(before, segment.invocation, dispatch);
        var (next, outcome) := dispatch(state, segment.invocation);
        state, log := next, log + [segment.invocation];
        previousSucceeded := outcome.succeeded;
        if outcome.content != "" { contents := contents + [outcome.content]; }
        if outcome.after.Some? { afters := afters + [outcome.after.value]; }
      }
      n := n + 1;
    }
    assert segments[..|segments|] == segments;
    reply := Reply(JoinContents(contents), if afters == [] then None else Some(afters));
    ran, states := EvalTraced(segments, initial, dispatch);
  }

  lemma DispatchedMeans<S, A>(effect: Effect<S, A>, command: Invocation, dispatch: (S, Invocation) -> (S, Outcome<A>))
    ensures var (state, outcome) := dispatch(effect.state, command);
      && Dispatched(effect, command, dispatch).state == state
      && Dispatched(effect, command, dispatch).value == outcome.succeeded
      && Dispatched(effect, command, dispatch).dispatched == effect.dispatched + [command]
      && Dispatched(effect, command, dispatch).contents
         == (if outcome.content != "" then effect.contents + [outcome.content] else effect.contents)
      && Dispatched(effect, command, dispatch).afters
         == (if outcome.after.Some? then effect.afters + [outcome.after.value] else effect.afters)
  {
  }

  // ---- What short-circuit evaluation means for a chain ----

  /** How evaluations follow each other. */
  function Both<S, A>(first: Effect<S, A>, second: Effect<S, A>): Effect<S, A> {
    Effect(second.state, second.value, first.dispatched + second.dispatched,
           first.contents + second.contents, first.afters + second.afters)
  }

  lemma BothDispatched<S, A>(first: Effect<S, A>, second: Effect<S, A>, command: Invocation,
                             dispatch: (S, Invocation) -> (S, Outcome<A>))
    ensures Both(first, Dispatched(second, command, dispatch)) == Dispatched(Both(first, second), command, dispatch)
  {
  }

  /** `xs ; ys` runs xs, then ys from the state xs left, whatever xs came to: the value is that of ys. */
  lemma {:induction false} ThenSequences<S, A>(xs: seq<ChainSegment>, ys: seq<ChainSegment>, state: S,
                                               dispatch: (S, Invocation) -> (S, Outcome<A>))
    requires ys != [] && (ys[0].operator == ChainThen || ys[0].operator == ChainAlways)
    ensures var first := Eval(ToExpr(xs), state, dispatch);
      Eval(ToExpr(xs + ys), state, dispatch) == Both(first, Eval(ToExpr(ys), first.state, dispatch))
    decreases |ys|
  {
    hide Dispatched, Both, ToExpr;
    var first := Eval(ToExpr(xs), state, dispatch);
    var n := |ys| - 1;
    var all := xs + ys;
    EvalSnoc(all, |xs| + n, state, dispatch);
    EvalSnoc(ys, n, first.state, dispatch);
    assert all[..|xs| + n + 1] == all;
    assert all[..|xs| + n] == xs + ys[..n];
    assert ys[..n + 1] == ys;
    if n == 0 {
      assert xs + ys[..0] == xs && ys[..0] == [];
      EvalNothing(first.state, dispatch);
      BothNothing(first);
      BothDispatched(first, Effect(first.state, true, [], [], []), ys[0].invocation, dispatch);
      DispatchedIgnoresValue(first, first.(value := true), ys[0].invocation, dispatch);
    } else {
      ThenSequences(xs, ys[..n], state, dispatch);
      var second := Eval(ToExpr(ys[..n]), first.state, dispatch);
      BothDispatched(first, second, ys[n].invocation, dispatch);
      BothValue(first, second);
    }
  }

  lemma EvalNothing<S, A>(state: S, dispatch: (S, Invocation) -> (S, Outcome<A>))
    ensures Eval(ToExpr([]), state, dispatch) == Effect(state, true, [], [], [])
  {
  }

  lemma BothValue<S, A>(first: Effect<S, A>, second: Effect<S, A>)
    ensures Both(first, second).value == second.value
  {
  }

  lemma BothNothing<S, A>(first: Effect<S, A>)
    ensures Both(first, Effect(first.state, true, [], [], [])) == first.(value := true)
  {
  }

  lemma DispatchedIgnoresValue<S, A>(a: Effect<S, A>, b: Effect<S, A>, command: Invocation,
                                     dispatch: (S, Invocation) -> (S, Outcome<A>))
    requires a == b.(value := a.value)
    ensures Dispatched(a, command, dispatch) == Dispatched(b, command, dispatch)
  {
  }

  function Commands(segments: seq<ChainSegment>): (commands: seq<Invocation>)
    ensures |commands| == |segments|
  {
    seq(|segments|, i requires 0 <= i < |segments| => segments[i].invocation)
  }

  /** In a chain of `&&` only, the commands dispatched are a leading run that is not empty; every one but the last
      succeeded, and if the run is shorter than the chain, the last one failed. */
  lemma {:induction false} AndStopsAtFirstFailure<S, A>(segments: seq<ChainSegment>, state: S,
                                                        dispatch: (S, Invocation) -> (S, Outcome<A>)) returns (k: nat)
    requires segments != [] && segments[0].operator != ChainOr
    requires forall i :: 0 < i < |segments| ==> segments[i].operator == ChainAnd
    ensures 0 < k <= |segments|
    ensures var effect := Eval(ToExpr(segments), state, dispatch);
      && effect.dispatched == Commands(segments)[..k]
      && effect == Eval(ToExpr(segments[..k]), state, dispatch)
      && (k < |segments| ==> !effect.value)
    ensures forall j :: 0 < j < k ==> Eval(ToExpr(segments[..j]), state, dispatch).value
    decreases |segments|
  {
    hide Dispatched, ToExpr;
    var n := |segments| - 1;
    assert segments[..n + 1] == segments;
    if n == 0 {
      EvalSnoc(segments, 0, state, dispatch);
      EvalNothing(state, dispatch);
      assert segments[..0] == [];
      k := 1;
      DispatchedMeans(Effect(state, true, [], [], []), segments[0].invocation, dispatch);
      assert segments[..1] == segments;
      assert Commands(segments)[..1] == [segments[0].invocation];
    } else {
      EvalSnoc(segments, n, state, dispatch);
      var front := segments[..n];
      k := AndStopsAtFirstFailure(front, state, dispatch);
      assert front[..k] == segments[..k];
      assert Commands(front)[..k] == Commands(segments)[..k];
      assert forall j :: 0 < j < k ==> front[..j] == segments[..j];
      var before := Eval(ToExpr(front), state, dispatch);
      if before.value {
        assert k == n;
        k := n + 1;
        assert segments[..n + 1] == segments;
        DispatchedMeans(before, segments[n].invocation, dispatch);
        assert Commands(segments)[..n + 1] == Commands(segments)[..n] + [segments[n].invocation];
      }
    }
  }

  /** In a chain of `||` only, the commands dispatched are a leading run that is not empty; every one but the last
      failed, and if the run is shorter than the chain, the last one succeeded. */
  lemma {:induction false} OrStopsAtFirstSuccess<S, A>(segments: seq<ChainSegment>, state: S,
                                                       dispatch: (S, Invocation) -> (S, Outcome<A>)) returns (k: nat)
    requires segments != [] && segments[0].operator != ChainOr
    requires forall i :: 0 < i < |segments| ==> segments[i].operator == ChainOr
    ensures 0 < k <= |segments|
    ensures var effect := Eval(ToExpr(segments), state, dispatch);
      && effect.dispatched == Commands(segments)[..k]
      && effect == Eval(ToExpr(segments[..k]), state, dispatch)
      && (k < |segments| ==> effect.value)
    ensures forall j :: 0 < j < k ==> !Eval(ToExpr(segments[..j]), state, dispatch).value
    decreases |segments|
  {
    hide Dispatched, ToExpr;
    var n := |segments| - 1;
    assert segments[..n + 1] == segments;
    if n == 0 {
      EvalSnoc(segments, 0, state, dispatch);
      EvalNothing(state, dispatch);
      assert segments[..0] == [];
      k := 1;
      DispatchedMeans(Effect(state, true, [], [], []), segments[0].invocation, dispatch);
      assert segments[..1] == segments;
      assert Commands(segments)[..1] == [segments[0].invocation];
    } else {
      EvalSnoc(segments, n, state, dispatch);
      var front := segments[..n];
      k := OrStopsAtFirstSuccess(front, state, dispatch);
      assert front[..k] == segments[..k];
      assert Commands(front)[..k] == Commands(segments)[..k];
      assert forall j :: 0 < j < k ==> front[..j] == segments[..j];
      var before := Eval(ToExpr(front), state, dispatch);
      if !before.value {
        assert k == n;
        k := n + 1;
        assert segments[..n + 1] == segments;
        DispatchedMeans(before, segments[n].invocation, dispatch);
        assert Commands(segments)[..n + 1] == Commands(segments)[..n] + [segments[n].invocation];
      }
    }
  }
}
