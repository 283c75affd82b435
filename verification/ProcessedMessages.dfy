/** The record of processed messages and the order "reply, mark, then run the callback" (zulipbot/bot.go), across
    crashes, redelivery and cleanup. */
module ProcessedMessages {
  import opened Timestamps

  type MessageId = int

  /** The table `processed_messages`: when each message was marked. */
  type Rows = map<MessageId, Time>

  // ---- The SQL statements ----

  /** INSERT OR IGNORE: a row that exists keeps its time. */
  function MarkRow(rows: Rows, id: MessageId, now: Time): Rows {
    if id in rows then rows else rows[id := now]
  }

  /** DELETE ... WHERE processed_at < cutoff, comparing the stored texts. */
  function Expire(rows: Rows, cutoff: Time): Rows {
    map id | id in rows && !TextLess(FormatTime(rows[id]), FormatTime(cutoff)) :: rows[id]
  }

  /** The rows that ORDER BY processed_at DESC, message_id DESC puts in front of `id`. */
  function InFront(rows: Rows, id: MessageId): set<MessageId>
    requires id in rows
  {
    set j | j in rows && (TextLess(FormatTime(rows[id]), FormatTime(rows[j])) || (rows[j] == rows[id] && id < j))
  }

  /** DELETE ... WHERE message_id NOT IN (the first `maxRows` in that order). */
  function TrimRows(rows: Rows, maxRows: nat): Rows {
    map id | id in rows && |InFront(rows, id)| < maxRows :: rows[id]
  }

  /** A retention that is not positive sets no cutoff. */
  datatype Limit = NoCutoff | Cutoff(time: Time)

  /** A row limit of zero sets no limit. */
  function Cleanup(rows: Rows, limit: Limit, maxRows: nat): Rows {
    var kept := if limit.Cutoff? then Expire(rows, limit.time) else rows;
    if maxRows > 0 then TrimRows(kept, maxRows) else kept
  }

  /** Which rows a cleanup keeps, in terms of instants. A row marked before the cutoff goes unless its fraction digits
      begin the cutoff's within one second; a row marked after it stays unless, within one second, the cutoff's
      fraction digits begin its own. */
  lemma ExpiryKeeps(rows: Rows, cutoff: Time, id: MessageId)
    requires id in rows
    ensures id in Expire(rows, cutoff) <==>
      var t := rows[id];
      || t == cutoff
      || (cutoff.Before(t) && !(t.seconds == cutoff.seconds && FractionBegins(cutoff, t)))
      || (t.Before(cutoff) && t.seconds == cutoff.seconds && FractionBegins(t, cutoff))
  {
    var t := rows[id];
    if t.Before(cutoff) {
      TextOrder(t, cutoff);
    } else if cutoff.Before(t) {
      TextOrder(cutoff, t);
    } else {
      NotLessSelf(FormatTime(t));
    }
  }

  /** The order of two texts, in terms of their instants. */
  predicate SortsBefore(a: Time, b: Time) {
    || (a.Before(b) && !(a.seconds == b.seconds && FractionBegins(a, b)))
    || (b.Before(a) && a.seconds == b.seconds && FractionBegins(b, a))
  }

  lemma SortsBeforeMeans(a: Time, b: Time)
    ensures TextLess(FormatTime(a), FormatTime(b)) <==> SortsBefore(a, b)
  {
    if a.Before(b) {
      TextOrder(a, b);
    } else if b.Before(a) {
      TextOrder(b, a);
    } else {
      NotLessSelf(FormatTime(a));
    }
  }

  /** The row is not deleted by the expiry. */
  predicate Unexpired(rows: Rows, limit: Limit, id: MessageId) {
    id in rows && (limit.Cutoff? ==> !SortsBefore(rows[id], limit.time))
  }

  /** The unexpired rows marked after `id`, or at the same instant with a greater id. */
  function Newer(rows: Rows, limit: Limit, id: MessageId): set<MessageId>
    requires id in rows
  {
    set j | j in rows && Unexpired(rows, limit, j) &&
            (SortsBefore(rows[id], rows[j]) || (rows[j] == rows[id] && id < j))
  }

  /** A cleanup keeps, with its time, exactly each unexpired row with fewer than `maxRows` unexpired rows newer. */
  lemma CleanupExact(rows: Rows, limit: Limit, maxRows: nat, id: MessageId)
    ensures id in Cleanup(rows, limit, maxRows) <==>
      Unexpired(rows, limit, id) && (maxRows > 0 ==> |Newer(rows, limit, id)| < maxRows)
    ensures id in Cleanup(rows, limit, maxRows) ==> Cleanup(rows, limit, maxRows)[id] == rows[id]
  {
    hide FormatTime, TextLess, SortsBefore;
    var kept := if limit.Cutoff? then Expire(rows, limit.time) else rows;
    forall j
      ensures j in kept <==> Unexpired(rows, limit, j)
      ensures j in kept ==> kept[j] == rows[j]
    {
      if limit.Cutoff? && j in rows { SortsBeforeMeans(rows[j], limit.time); }
    }
    if id in kept {
      forall j
        ensures j in InFront(kept, id) <==> j in Newer(rows, limit, id)
      {
        if j in kept { SortsBeforeMeans(rows[id], rows[j]); }
      }
      assert InFront(kept, id) == Newer(rows, limit, id);
    }
  }

  /** A row in a later second than the cutoff, with fewer than `maxRows` rows marked in the same second or later. */
  predicate Protected(rows: Rows, limit: Limit, maxRows: nat, id: MessageId)
    requires id in rows
  {
    && (limit.Cutoff? ==> limit.time.seconds < rows[id].seconds)
    && (maxRows > 0 ==> |set j | j in rows && j != id && rows[id].seconds <= rows[j].seconds| < maxRows)
  }

  /** Such rows cannot be lost. */
  lemma CleanupKeeps(rows: Rows, limit: Limit, maxRows: nat, id: MessageId)
    requires id in rows && Protected(rows, limit, maxRows, id)
    ensures id in Cleanup(rows, limit, maxRows) && Cleanup(rows, limit, maxRows)[id] == rows[id]
  {
    if limit.Cutoff? { ExpiryKeeps(rows, limit.time, id); }
    var kept := if limit.Cutoff? then Expire(rows, limit.time) else rows;
    var late := set j | j in rows && j != id && rows[id].seconds <= rows[j].seconds;
    NotLessSelf(FormatTime(rows[id]));
    assert kept[id] == rows[id];
    forall j | j in InFront(kept, id)
      ensures j in late
    {
      assert j in rows && rows[j] == kept[j];
      if TextLess(FormatTime(rows[id]), FormatTime(rows[j])) { NotEarlier(rows[id], rows[j]); }
    }
    SubsetSize(InFront(kept, id), late);
  }

  lemma NotEarlier(a: Time, b: Time)
    requires TextLess(FormatTime(a), FormatTime(b))
    ensures a.seconds <= b.seconds
  {
  }

  lemma SubsetSize<T>(a: set<T>, b: set<T>)
    requires a <= b
    ensures |a| <= |b|
  {
    assert b == a + (b - a);
    assert |b| == |a| + |b - a|;
  }

  // ---- The bot as it runs ----

  /** What happens when one message is handled, as far as the record is concerned. */
  datatype Delivery = Delivery(id: MessageId, isCommand: bool, malformed: bool, hasEffect: bool)

  datatype Fault = NoFault | SendFails | MarkFails

  class Bot {
    var processed: Rows
    /** The messages whose after-response callback was run, in order. */
    var effects: seq<MessageId>

    constructor ()
      ensures processed == map[] && effects == []
    {
      processed, effects := map[], [];
    }

    method MessageProcessed(id: MessageId) returns (seen: bool)
      ensures seen <==> id in processed
    {
      seen := id in processed;
    }

    method MarkMessageProcessed(id: MessageId, now: Time)
      modifies this`processed
      ensures processed == if id <= 0 then old(processed) else MarkRow(old(processed), id, now)
      ensures processed == if id <= 0 || id in old(processed) then old(processed) else old(processed)[id := now]
    {
      if id <= 0 { return; }
      if id !in processed { processed := processed[id := now]; }
    }

    /** `handleMessage` without a crash: reply, mark, and only then the callback. */
    method HandleMessage(msg: Delivery, fault: Fault, now: Time) returns (ok: bool)
      modifies this
      ensures msg.id in old(processed) || !msg.isCommand || fault != NoFault ==>
        processed == old(processed) && effects == old(effects)
      ensures msg.id !in old(processed) && msg.isCommand && fault == NoFault ==>
        && processed == (if msg.id <= 0 then old(processed) else old(processed)[msg.id := now])
        && effects == (if msg.hasEffect && !msg.malformed then old(effects) + [msg.id] else old(effects))
      ensures ok <==> msg.id in old(processed) || !msg.isCommand || fault == NoFault
      ensures var before := State(old(processed), Idle, old(effects));
        var steps := StepsOf(msg.id in old(processed), msg, fault, now);
        Runnable(before, steps) && Run(before, steps) == State(processed, Idle, effects)
    {
      StepsLead(processed, effects, msg, fault, now);
      var seen := MessageProcessed(msg.id);
      if seen || !msg.isCommand { return true; }
      if fault == SendFails || fault == MarkFails { return false; }
      MarkMessageProcessed(msg.id, now);
      if msg.hasEffect && !msg.malformed { effects := effects + [msg.id]; }
      ok := true;
    }

    method CleanupProcessedMessages(limit: Limit, maxRows: nat)
      modifies this`processed
      ensures processed == Cleanup(old(processed), limit, maxRows)
      ensures forall id :: id in old(processed) && Protected(old(processed), limit, maxRows, id) ==> id in processed
    {
      ghost var before := processed;
      if limit.Cutoff? { processed := Expire(processed, limit.time); }
      if maxRows > 0 { processed := TrimRows(processed, maxRows); }
      forall id | id in before && Protected(before, limit, maxRows, id) ensures id in processed {
        CleanupKeeps(before, limit, maxRows, id);
      }
    }
  }

  // ---- Runs with crashes ----

  /** Where the one message loop stands: between messages; after the check and the reply; after the mark. */
  datatype Pc = Idle | Replied(id: MessageId) | Marked(id: MessageId)

  datatype State = State(rows: Rows, pc: Pc, effects: seq<MessageId>)

  datatype Step =
    | Deliver(id: MessageId)                    // a new or repeated delivery reaches the check
    | Mark(now: Time)                           // the mark commits
    | RunEffect                                 // the callback runs
    | Skip                                      // the message is done without a callback, or an error ends it
    | Crash                                     // the process dies and starts again
    | CleanUp(limit: Limit, maxRows: nat)         // cleanup at start-up

  predicate Enabled(s: State, step: Step) {
    match step
    case Deliver(_) => s.pc.Idle?
    case Mark(_) => s.pc.Replied?
    case RunEffect => s.pc.Marked?
    case Skip => true
    case Crash => true
    case CleanUp(_, _) => s.pc.Idle?
  }

  function Next(s: State, step: Step): State
    requires Enabled(s, step)
  {
    match step
    case Deliver(id) => if id in s.rows then s else s.(pc := Replied(id))
    case Mark(now) =>
      s.(rows := if s.pc.id <= 0 then s.rows else MarkRow(s.rows, s.pc.id, now), pc := Marked(s.pc.id))
    case RunEffect => s.(effects := s.effects + [s.pc.id], pc := Idle)
    case Skip => s.(pc := Idle)
    case Crash => s.(pc := Idle)
    case CleanUp(limit, maxRows) => s.(rows := Cleanup(s.rows, limit, maxRows))
  }

  /** What the message loop does with one message: the check and the reply, the mark, and only then the callback. */
  function StepsOf(seen: bool, msg: Delivery, fault: Fault, now: Time): seq<Step> {
    if seen then [Deliver(msg.id)]
    else if !msg.isCommand || fault != NoFault then [Deliver(msg.id), Skip]
    else [Deliver(msg.id), Mark(now), if msg.hasEffect && !msg.malformed then RunEffect else Skip]
  }

  /** Where these steps lead from between two messages. */
  lemma StepsLead(rows: Rows, effects: seq<MessageId>, msg: Delivery, fault: Fault, now: Time)
    ensures var seen := msg.id in rows;
      var handled := !seen && msg.isCommand && fault == NoFault;
      var s, steps := State(rows, Idle, effects), StepsOf(seen, msg, fault, now);
      && Runnable(s, steps)
      && Run(s, steps) == State(if handled && msg.id > 0 then rows[msg.id := now] else rows, Idle,
                                if handled && msg.hasEffect && !msg.malformed then effects + [msg.id] else effects)
  {
    hide Runnable, Run;
    var s := State(rows, Idle, effects);
    var steps := StepsOf(msg.id in rows, msg, fault, now);
    if |steps| == 1 {
      NoSteps(s);
      RunCons(s, steps[0], []);
      assert steps == [steps[0]] + [];
    } else if |steps| == 2 {
      NoSteps(s);
      RunCons(s.(pc := Replied(msg.id)), Skip, []);
      RunCons(s, steps[0], [Skip] + []);
      assert steps == [steps[0]] + ([Skip] + []);
    } else {
      var marked := Next(s.(pc := Replied(msg.id)), Mark(now));
      NoSteps(Next(marked, steps[2]));
      RunCons(marked, steps[2], []);
      RunCons(s.(pc := Replied(msg.id)), Mark(now), [steps[2]] + []);
      RunCons(s, steps[0], [Mark(now)] + ([steps[2]] + []));
      assert steps == [steps[0]] + ([Mark(now)] + ([steps[2]] + []));
    }
  }

  predicate Runnable(s: State, steps: seq<Step>)
    decreases |steps|
  {
    steps == [] || (Enabled(s, steps[0]) && Runnable(Next(s, steps[0]), steps[1..]))
  }

  function Run(s: State, steps: seq<Step>): State
    requires Runnable(s, steps)
    decreases |steps|
  {
    if steps == [] then s else Run(Next(s, steps[0]), steps[1..])
  }

  function Times(effects: seq<MessageId>, id: MessageId): nat {
    multiset(effects)[id]
  }

  /** How often a cleanup in the run deletes the row of `id`. */
  function Losses(s: State, steps: seq<Step>, id: MessageId): nat
    requires Runnable(s, steps)
    decreases |steps|
  {
    if steps == [] then 0
    else
      var next := Next(s, steps[0]);
      (if id in s.rows && id !in next.rows then 1 else 0) + Losses(next, steps[1..], id)
  }

  predicate Inv(s: State, id: MessageId, losses: nat) {
    && (s.pc == Replied(id) ==> id !in s.rows)
    && Times(s.effects, id) + (if s.pc == Marked(id) then 1 else 0) <= losses + (if id in s.rows then 1 else 0)
  }

  lemma InvStep(s: State, step: Step, id: MessageId, losses: nat)
    requires id > 0 && Enabled(s, step) && Inv(s, id, losses)
    ensures var next := Next(s, step);
      Inv(next, id, losses + if id in s.rows && id !in next.rows then 1 else 0)
  {
  }

  lemma {:induction false} InvRun(s: State, steps: seq<Step>, id: MessageId, losses: nat)
    requires id > 0 && Runnable(s, steps) && Inv(s, id, losses)
    ensures Inv(Run(s, steps), id, losses + Losses(s, steps, id))
    decreases |steps|
  {
    if steps != [] {
      var next := Next(s, steps[0]);
      InvStep(s, steps[0], id, losses);
      InvRun(next, steps[1..], id, losses + if id in s.rows && id !in next.rows then 1 else 0);
    }
  }

  const START := State(map[], Idle, [])

  /** Across any run with crashes and redeliveries, a message's callback runs at most once more often than its row is
      lost to a cleanup. */
  lemma EffectsBound(steps: seq<Step>, id: MessageId)
    requires id > 0 && Runnable(START, steps)
    ensures Times(Run(START, steps).effects, id) <= 1 + Losses(START, steps, id)
  {
    InvRun(START, steps, id, 0);
  }

  predicate Delivered(steps: seq<Step>, id: MessageId) {
    Deliver(id) in steps
  }

  /** Once a cleanup has deleted the message's row, the message is not delivered again. */
  predicate RedeliveredInTime(s: State, steps: seq<Step>, id: MessageId)
    requires Runnable(s, steps)
    decreases |steps|
  {
    steps == [] ||
    (var next := Next(s, steps[0]);
     if id in s.rows && id !in next.rows then !Delivered(steps[1..], id) else RedeliveredInTime(next, steps[1..], id))
  }

  /** A message that is not being handled and not delivered again has no further callback. */
  lemma {:induction false} NoFurtherEffect(s: State, steps: seq<Step>, id: MessageId)
    requires Runnable(s, steps) && s.pc != Replied(id) && s.pc != Marked(id) && !Delivered(steps, id)
    ensures Times(Run(s, steps).effects, id) == Times(s.effects, id)
    decreases |steps|
  {
    if steps != [] {
      assert steps[0] in steps;
      assert forall x :: x in steps[1..] ==> x in steps;
      NoFurtherEffect(Next(s, steps[0]), steps[1..], id);
    }
  }

  lemma {:induction false} InTimeBound(s: State, steps: seq<Step>, id: MessageId)
    requires id > 0 && Runnable(s, steps) && Inv(s, id, 0) && RedeliveredInTime(s, steps, id)
    ensures Times(Run(s, steps).effects, id) <= 1
    decreases |steps|
  {
    if steps != [] {
      hide Cleanup;
      var next := Next(s, steps[0]);
      InvStep(s, steps[0], id, 0);
      if id in s.rows && id !in next.rows {
        NoFurtherEffect(next, steps[1..], id);
      } else {
        InTimeBound(next, steps[1..], id);
      }
    }
  }

  /** At most once: unless a message is delivered again after a cleanup has deleted its row, its callback never runs
      twice, whatever crashes and however often the message is delivered. */
  lemma EffectAtMostOnce(steps: seq<Step>, id: MessageId)
    requires id > 0 && Runnable(START, steps) && RedeliveredInTime(START, steps, id)
    ensures Times(Run(START, steps).effects, id) <= 1
  {
    InTimeBound(START, steps, id);
  }

  /** Every cleanup that a delivery of the message still follows finds the message, if marked, in a later second than
      its cutoff and among the newest `maxRows` rows. */
  predicate Retained(s: State, steps: seq<Step>, id: MessageId)
    requires Runnable(s, steps)
    decreases |steps|
  {
    steps == [] ||
    (&& (steps[0].CleanUp? && id in s.rows && Delivered(steps[1..], id) ==>
           Protected(s.rows, steps[0].limit, steps[0].maxRows, id))
     && Retained(Next(s, steps[0]), steps[1..], id))
  }

  /** Redelivery within the retention period and among the newest rows comes in time. */
  lemma {:induction false} RetainedInTime(s: State, steps: seq<Step>, id: MessageId)
    requires Runnable(s, steps) && Retained(s, steps, id)
    ensures RedeliveredInTime(s, steps, id)
    decreases |steps|
  {
    if steps != [] {
      hide Cleanup;
      if steps[0].CleanUp? && id in s.rows && Delivered(steps[1..], id) {
        CleanupKeeps(s.rows, steps[0].limit, steps[0].maxRows, id);
      }
      RetainedInTime(Next(s, steps[0]), steps[1..], id);
    }
  }

  lemma RunCons(s: State, step: Step, rest: seq<Step>)
    requires Enabled(s, step) && Runnable(Next(s, step), rest)
    ensures Runnable(s, [step] + rest) && Run(s, [step] + rest) == Run(Next(s, step), rest)
  {
  }

  /** From an idle state that does not know message 7: delivered, marked, callback run. */
  lemma HandledOnce(s: State, now: Time, rest: seq<Step>)
    requires 7 !in s.rows && s.pc.Idle?
    requires Runnable(State(s.rows[7 := now], Idle, s.effects + [7]), rest)
    ensures var steps := [Deliver(7)] + ([Mark(now)] + ([RunEffect] + rest));
      Runnable(s, steps) && Run(s, steps) == Run(State(s.rows[7 := now], Idle, s.effects + [7]), rest)
  {
    RunCons(State(s.rows[7 := now], Marked(7), s.effects), RunEffect, rest);
    RunCons(State(s.rows, Replied(7), s.effects), Mark(now), [RunEffect] + rest);
    RunCons(s, Deliver(7), [Mark(now)] + ([RunEffect] + rest));
  }

  /** The whole second in `Retained` is needed: a row half a second younger than the cutoff is deleted, and the
      callback of a redelivered message runs again. */
  lemma SubSecondLoss(s: nat)
    ensures var steps := [Deliver(7), Mark(Instant(s, 500_000_000)), RunEffect,
                          CleanUp(Cutoff(Instant(s, 0)), 100_000),
                          Deliver(7), Mark(Instant(s + 1, 0)), RunEffect];
      Runnable(START, steps) && Times(Run(START, steps).effects, 7) == 2
  {
    hide Runnable, Run, Next;
    var early: Time, cutoff: Time, late: Time := Instant(s, 500_000_000), Instant(s, 0), Instant(s + 1, 0);
    var lost := State(map[], Idle, [7]);
    assert Runnable(State(map[][7 := late], Idle, [7] + [7]), []) by { NoSteps(State(map[][7 := late], Idle, [7] + [7])); }
    HandledOnce(lost, late, []);
    var second := [Deliver(7)] + ([Mark(late)] + ([RunEffect] + []));
    var marked := State(map[][7 := early], Idle, [] + [7]);
    CleanedUp(marked, early, cutoff);
    RunCons(marked, CleanUp(Cutoff(cutoff), 100_000), second);
    HandledOnce(START, early, [CleanUp(Cutoff(cutoff), 100_000)] + second);
    NoSteps(State(map[][7 := late], Idle, [7] + [7]));
    assert [Deliver(7)] + ([Mark(early)] + ([RunEffect] + ([CleanUp(Cutoff(cutoff), 100_000)] + second)))
        == [Deliver(7), Mark(early), RunEffect, CleanUp(Cutoff(cutoff), 100_000), Deliver(7), Mark(late), RunEffect];
  }

  lemma CleanedUp(marked: State, early: Time, cutoff: Time)
    requires marked == State(map[7 := early], Idle, [7])
    requires cutoff.nanos == 0 && early == Instant(cutoff.seconds, 500_000_000)
    ensures Next(marked, CleanUp(Cutoff(cutoff), 100_000)) == State(map[], Idle, [7])
  {
    HalfSecondSortsFirst(cutoff.seconds);
    assert Expire(marked.rows, cutoff) == map[];
  }

  lemma NoSteps(s: State)
    ensures Runnable(s, []) && Run(s, []) == s
  {
  }

  /** Messages without a positive id are never marked: their callback runs at every delivery. */
  lemma UnmarkedRepeats(id: MessageId, now: Time)
    requires id <= 0
    ensures var once := Next(Next(Next(START, Deliver(id)), Mark(now)), RunEffect);
      && Enabled(once, Deliver(id))
      && Times(Next(Next(Next(once, Deliver(id)), Mark(now)), RunEffect).effects, id) == 2
  {
  }
}
