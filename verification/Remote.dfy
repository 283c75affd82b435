/**
 * What the remote server keeps about channels (zulipmock/client.go): which user is subscribed to which
 * channel. Operations reach it as a trace of subscribe and unsubscribe requests,
 * each of them an all-or-nothing union or difference.
 */
module Remote {
  import opened IdLists

  datatype Request =
    | Subscribe(channels: seq<Id>, users: seq<Id>)
    | Unsubscribe(channels: seq<Id>, users: seq<Id>)

  datatype Sub = Sub(user: Id, channel: Id)

  predicate Mentions(q: Request, u: Id, c: Id) {
    u in q.users && c in q.channels
  }

  function Pairs(channels: seq<Id>, users: seq<Id>): set<Sub> {
    set u, c | u in users && c in channels :: Sub(u, c)
  }

  function Step(subs: set<Sub>, q: Request): set<Sub> {
    match q
    case Subscribe(channels, users) => subs + Pairs(channels, users)
    case Unsubscribe(channels, users) => subs - Pairs(channels, users)
  }

  function Apply(subs: set<Sub>, trace: seq<Request>): set<Sub> {
    if trace == [] then subs else Step(Apply(subs, trace[..|trace| - 1]), trace[|trace| - 1])
  }

  lemma ApplySnoc(subs: set<Sub>, trace: seq<Request>, q: Request)
    ensures Apply(subs, trace + [q]) == Step(Apply(subs, trace), q)
  {
  }

  lemma StepPair(subs: set<Sub>, q: Request, u: Id, c: Id)
    ensures Sub(u, c) in Step(subs, q) <==>
              if Mentions(q, u, c) then q.Subscribe? else Sub(u, c) in subs
  {
  }

  // How many unsubscribe requests of the trace mention the pair.
  function Sent(trace: seq<Request>, u: Id, c: Id): nat {
    if trace == [] then 0
    else
      var q := trace[|trace| - 1];
      Sent(trace[..|trace| - 1], u, c) + if q.Unsubscribe? && Mentions(q, u, c) then 1 else 0
  }

  lemma SentSnoc(trace: seq<Request>, q: Request, u: Id, c: Id)
    ensures Sent(trace + [q], u, c) == Sent(trace, u, c) + if q.Unsubscribe? && Mentions(q, u, c) then 1 else 0
  {
  }

  // A trace of unsubscribes alone removes exactly the pairs it mentions.
  lemma {:induction false} UnsubscribesRemoveSent(subs: set<Sub>, trace: seq<Request>, u: Id, c: Id)
    requires forall i :: 0 <= i < |trace| ==> trace[i].Unsubscribe?
    ensures Sub(u, c) in Apply(subs, trace) <==> Sub(u, c) in subs && Sent(trace, u, c) == 0
  {
    if trace != [] {
      UnsubscribesRemoveSent(subs, trace[..|trace| - 1], u, c);
      StepPair(Apply(subs, trace[..|trace| - 1]), trace[|trace| - 1], u, c);
    }
  }
}
