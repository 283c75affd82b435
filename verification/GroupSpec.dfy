/**
 * What one call after another does to the channel groups, on sets: the local
 * rows, the remote member sets, and who is subscribed to what. The invariant is
 * that every member of a group is subscribed to every channel of that group,
 * channels that several groups share included.
 */
module GroupSpec {
  import opened IdLists
  import opened Remote

  datatype St = St(rows: map<Id, set<Id>>, members: map<Id, set<Id>>, deactivated: set<Id>, subs: set<Sub>)

  datatype Call =
    | Create(group: Id, channels: set<Id>, initial: set<Id>)
    | Import(group: Id)
    | Join(group: Id, users: set<Id>)
    | Leave(group: Id, users: set<Id>, keepChannels: bool)
    | UpdateChannels(group: Id, add: set<Id>, delete: set<Id>)
    | Delete(group: Id)
    | ChannelArchived(channel: Id)
    | UserGroupRemoved(group: Id)
    | Reconcile(bot: Id)

  function Product(users: set<Id>, channels: set<Id>): set<Sub> {
    set u, c | u in users && c in channels :: Sub(u, c)
  }

  ghost predicate Agree(st: St) {
    forall g :: g in st.rows && g in st.members ==> Product(st.members[g], st.rows[g]) <= st.subs
  }

  // Another group that lists the channel has the user.
  predicate CoveredByOther(st: St, g: Id, u: Id, c: Id) {
    exists h :: h in st.rows && h != g && c in st.rows[h] && h in st.members && u in st.members[h]
  }

  // The members of another group sharing a channel cannot be read.
  predicate Unreadable(st: St, g: Id)
    requires g in st.rows
  {
    exists h :: h in st.rows && h != g && h !in st.members && st.rows[h] * st.rows[g] != {}
  }

  function Lost(st: St, g: Id, users: set<Id>): set<Sub>
    requires g in st.rows
  {
    set s | s in Product(users, st.rows[g]) && !CoveredByOther(st, g, s.user, s.channel)
  }

  function Subscribed(st: St, user: Id): set<Id> {
    set s | s in st.subs && s.user == user :: s.channel
  }

  // The server gives a new user group an id nobody has used.
  predicate Possible(st: St, call: Call) {
    call.Create? ==> call.group !in st.members && call.group !in st.rows
  }

  // Does the call report success?
  predicate Succeeds(st: St, call: Call) {
    match call
    case Join(g, users) => users != {} && g in st.rows && g in st.members
    case Leave(g, users, keep) =>
      users != {} && g in st.rows && g in st.members && (keep || !Unreadable(st, g))
    case UpdateChannels(g, add, delete) =>
      g in st.rows && (g in st.members || (add <= st.rows[g] && delete !! st.rows[g]))
    case Delete(g) => g in st.members
    case _ => true
  }

  function Next(st: St, call: Call): St {
    match call
    case Create(g, channels, initial) =>
      st.(rows := st.rows[g := channels], members := st.members[g := initial], subs := st.subs + Product(initial, channels))
    case Import(g) => if g in st.rows then st else st.(rows := st.rows[g := {}])
    case Join(g, users) =>
      if Succeeds(st, call) then
        st.(members := st.members[g := st.members[g] + users], subs := st.subs + Product(users, st.rows[g]))
      else st
    case Leave(g, users, keep) =>
      if Succeeds(st, call) then
        st.(members := st.members[g := st.members[g] - users],
            subs := if keep then st.subs else st.subs - Lost(st, g, users))
      else if users != {} && g in st.rows && g !in st.members && !keep && !Unreadable(st, g) then
        // the member delete fails; the users get the group's channels back
        st.(subs := st.subs + Product(users, st.rows[g]))
      else st
    case UpdateChannels(g, add, delete) =>
      if Succeeds(st, call) then
        st.(rows := st.rows[g := st.rows[g] - delete + add],
            subs := st.subs + Product(if g in st.members then st.members[g] else {}, add - st.rows[g]))
      else st
    case Delete(g) =>
      if Succeeds(st, call) then
        st.(rows := st.rows - {g}, members := st.members[g := {}], deactivated := st.deactivated + {g})
      else st
    case ChannelArchived(c) => st.(rows := map g | g in st.rows :: st.rows[g] - {c})
    case UserGroupRemoved(g) =>
      if g in st.members && g !in st.deactivated then st else st.(rows := st.rows - {g})
    case Reconcile(bot) =>
      st.(rows := map g | g in st.rows && g in st.members && g !in st.deactivated :: st.rows[g] * Subscribed(st, bot))
  }

  function Run(st: St, calls: seq<Call>): St {
    if calls == [] then st else Next(Run(st, calls[..|calls| - 1]), calls[|calls| - 1])
  }

  ghost predicate PossibleRun(st: St, calls: seq<Call>) {
    forall n :: 0 <= n < |calls| ==> Possible(Run(st, calls[..n]), calls[n])
  }

  // ----- the invariant ------------------------------------------------------

  lemma CallKeepsAgreement(st: St, call: Call)
    requires Agree(st) && Possible(st, call)
    ensures Agree(Next(st, call))
  {
  }

  // Over any serial run, every member of a group stays subscribed to every channel of the group.
  lemma {:induction false} RunKeepsAgreement(st: St, calls: seq<Call>)
    requires Agree(st) && PossibleRun(st, calls)
    ensures Agree(Run(st, calls))
  {
    if calls != [] {
      var before := calls[..|calls| - 1];
      forall n | 0 <= n < |before|
        ensures Possible(Run(st, before[..n]), before[n])
      {
        assert before[..n] == calls[..n];
      }
      RunKeepsAgreement(st, before);
      CallKeepsAgreement(Run(st, before), calls[|calls| - 1]);
    }
  }

  // After leaving with its channels, a user keeps exactly those channels of the group that another
  // group of the user lists.
  lemma LeaveKeepsExactlyCovered(st: St, g: Id, users: set<Id>, u: Id, c: Id)
    requires Agree(st) && Succeeds(st, Leave(g, users, false)) && u in users && c in st.rows[g]
    ensures Sub(u, c) in Next(st, Leave(g, users, false)).subs <==> CoveredByOther(st, g, u, c)
  {
  }
}
