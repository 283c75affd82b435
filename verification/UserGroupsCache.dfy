/** The user-group cache (zulipcache/user_groups.go): how its events edit a list of groups, in place where the source
    does, and what that means for the groups as a map from ids. */
module UserGroupsCache {
  import opened Collections
  import opened KeyedLists
  import opened SnapshotCache

  /** The six permission settings of a group; their values are opaque here. */
  datatype Settings = Settings(addMembers: int, join: int, leave: int, manage: int, mention: int, removeMembers: int)

  datatype Group = Group(id: int, name: string, description: string, deactivated: bool, members: seq<int>,
                         subgroups: seq<int>, settings: Settings)

  datatype SettingsPatch = SettingsPatch(addMembers: Option<int>, join: Option<int>, leave: Option<int>,
                                         manage: Option<int>, mention: Option<int>, removeMembers: Option<int>)

  datatype Patch = Patch(deactivated: Option<bool>, name: Option<string>, description: Option<string>,
                         settings: SettingsPatch)

  /** The operation of a members or subgroups event; `OtherOp` is one the cache does not know. */
  datatype Op = AddOp | RemoveOp | OtherOp

  datatype Event =
    | GroupAdd(group: Group)
    | GroupRemove(id: int)
    | GroupUpdate(id: int, patch: Patch)
    | GroupMembers(id: int, op: Option<Op>, userIds: seq<int>)
    | GroupSubgroups(id: int, op: Option<Op>, subgroupIds: seq<int>)

  // ---- Integer lists ----

  /** `removeInt64s`: the values that are not removed, in order. */
  function Kept(values: seq<int>, removed: seq<int>): (kept: seq<int>)
    ensures |kept| <= |values|
  {
    if values == [] then []
    else
      var front := Kept(values[..|values| - 1], removed);
      var last := values[|values| - 1];
      if last in removed then front else front + [last]
  }

  /** `appendMissingInt64s`: the added values that are not there yet, each at its first occurrence, at the end. */
  function Merged(values: seq<int>, added: seq<int>): seq<int> {
    if added == [] then values
    else
      var front := Merged(values, added[..|added| - 1]);
      var last := added[|added| - 1];
      if last in front then front else front + [last]
  }

  lemma NothingKept(removed: seq<int>)
    ensures Kept([], removed) == []
  {
  }

  lemma KeptSnoc(values: seq<int>, i: nat, removed: seq<int>)
    requires i < |values|
    ensures Kept(values[..i + 1], removed)
      == if values[i] in removed then Kept(values[..i], removed) else Kept(values[..i], removed) + [values[i]]
  {
    assert values[..i + 1][..i] == values[..i];
  }

  predicate Distinct(values: seq<int>) {
    forall i, j :: 0 <= i < j < |values| ==> values[i] != values[j]
  }

  lemma {:induction false} KeptIsDifference(values: seq<int>, removed: seq<int>)
    ensures forall x :: x in Kept(values, removed) <==> x in values && x !in removed
    ensures Distinct(values) ==> Distinct(Kept(values, removed))
  {
    if values != [] {
      var front, last := values[..|values| - 1], values[|values| - 1];
      KeptIsDifference(front, removed);
      assert values == front + [last];
    }
  }

  lemma {:induction false} MergedIsUnion(values: seq<int>, added: seq<int>)
    ensures forall x :: x in Merged(values, added) <==> x in values || x in added
    ensures Distinct(values) ==> Distinct(Merged(values, added))
    ensures values <= Merged(values, added)
  {
    if added != [] {
      var front, last := added[..|added| - 1], added[|added| - 1];
      MergedIsUnion(values, front);
      assert added == front + [last];
    }
  }

  /** Filters `a[..n]` in place: the kept values move to the front of the shared backing array, and what lies behind
      them keeps its old contents. */
  method RemoveInt64s(a: array<int>, n: nat, removed: seq<int>) returns (k: nat)
    requires n <= a.Length
    modifies a
    ensures k <= n && a[..k] == Kept(old(a[..n]), removed)
    ensures a[k..] == old(a[k..])
    ensures a[..n] == Scribbled(old(a[..n]), removed)
  {
    ghost var was := a[..n];
    hide Kept;
    k := 0;
    NothingKept(removed);
    for i := 0 to n
      invariant k <= i
      invariant a[..k] == Kept(was[..i], removed)
      invariant forall j :: k <= j < a.Length ==> a[j] == old(a[j])
    {
      KeptSnoc(was, i, removed);
      var value := a[i];
      if value !in removed {
        a[k] := value;
        k := k + 1;
        assert a[..k] == a[..k - 1] + [value];
      }
    }
    assert was[..n] == was;
    assert a[k..] == old(a[k..]);
    assert a[..n] == a[..k] + was[k..];
  }

  /** What an in-place removal makes of the slice it was given, seen through the old slice header. */
  function Scribbled(values: seq<int>, removed: seq<int>): (s: seq<int>)
    ensures |s| == |values|
  {
    Kept(values, removed) + values[|Kept(values, removed)|..]
  }

  lemma {:induction false} KeptOfAppended(a: seq<int>, b: seq<int>, removed: seq<int>)
    ensures Kept(a + b, removed) == Kept(a, removed) + Kept(b, removed)
  {
    if b == [] {
      assert a + b == a;
    } else {
      KeptOfAppended(a, b[..|b| - 1], removed);
      assert (a + b)[..|a + b| - 1] == a + b[..|b| - 1];
    }
  }

  lemma {:induction false} NothingRemoved(values: seq<int>, removed: seq<int>)
    requires forall i :: 0 <= i < |values| ==> values[i] !in removed
    ensures Kept(values, removed) == values
  {
    if values != [] {
      NothingRemoved(values[..|values| - 1], removed);
    }
  }

  ghost predicate RemovedBeforeKept(values: seq<int>, removed: seq<int>) {
    exists i, j :: 0 <= i < j < |values| && values[i] in removed && values[j] !in removed
  }

  lemma KeptFromFirstRemoved(values: seq<int>, removed: seq<int>) returns (p: nat)
    ensures p <= |values| && (forall i :: 0 <= i < p ==> values[i] !in removed)
    ensures p < |values| ==> values[p] in removed
    ensures Kept(values, removed) == values[..p] + Kept(values[p..], removed)
  {
    p := 0;
    while p < |values| && values[p] !in removed
      invariant p <= |values| && forall i :: 0 <= i < p ==> values[i] !in removed
    {
      p := p + 1;
    }
    hide Kept;
    KeptOfAppended(values[..p], values[p..], removed);
    NothingRemoved(values[..p], removed);
    assert values == values[..p] + values[p..];
  }

  /** The old slice still shows the old values exactly when no removed value stands before a kept one. */
  lemma ScribbledIffRemovedBeforeKept(values: seq<int>, removed: seq<int>)
    ensures Scribbled(values, removed) != values <==> RemovedBeforeKept(values, removed)
  {
    var p := KeptFromFirstRemoved(values, removed);
    hide Kept;
    var rest := values[p..];
    KeptIsDifference(rest, removed);
    var kept := Kept(rest, removed);
    if kept == [] {
      forall j | p <= j < |values|
        ensures values[j] in removed
      {
        assert values[j] == rest[j - p];
      }
      assert Scribbled(values, removed) == values;
    } else {
      assert kept[0] in kept;
      var j :| 0 <= j < |rest| && rest[j] == kept[0];
      assert values[p] == rest[0] && values[p + j] == rest[j];
      assert Scribbled(values, removed)[p] == kept[0];
    }
  }

  method AppendMissingInt64s(values: seq<int>, added: seq<int>) returns (result: seq<int>)
    ensures result == Merged(values, added)
  {
    result := values;
    for i := 0 to |added|
      invariant result == Merged(values, added[..i])
    {
      var found := false;
      for j := 0 to |result|
        invariant found <==> added[i] in result[..j]
      {
        if result[j] == added[i] {
          found := true;
          break;
        }
      }
      assert result[..|result|] == result;
      assert added[..i + 1][..i] == added[..i];
      if !found { result := result + [added[i]]; }
    }
    assert added[..|added|] == added;
  }

  // ---- The mutators ----

  const GROUP_ID: Group -> int := (g: Group) => g.id

  function Patched<T>(option: Option<T>, value: T): T {
    if option.Some? then option.value else value
  }

  function PatchGroup(g: Group, patch: Patch): Group {
    g.(deactivated := if patch.deactivated.Some? then false else g.deactivated,
       name := Patched(patch.name, g.name),
       description := Patched(patch.description, g.description),
       settings := Settings(Patched(patch.settings.addMembers, g.settings.addMembers),
                            Patched(patch.settings.join, g.settings.join),
                            Patched(patch.settings.leave, g.settings.leave),
                            Patched(patch.settings.manage, g.settings.manage),
                            Patched(patch.settings.mention, g.settings.mention),
                            Patched(patch.settings.removeMembers, g.settings.removeMembers)))
  }

  /** What `update`'s and its siblings' mutators make of a list. Only removals write into shared slices. */
  function EditGroups(e: Event, groups: seq<Group>): Edit<Group> {
    var id := if e.GroupAdd? then e.group.id else e.id;
    var i := IndexOf(groups, GROUP_ID, id);
    if i == |groups| then
      if e.GroupAdd? && !e.group.deactivated then Edit(groups + [e.group], groups, false) else Edit(groups, groups, false)
    else
      var g := groups[i];
      match e
      case GroupAdd(group) =>
        Edit(if group.deactivated then Without(groups, i) else groups[i := group], groups, false)
      case GroupRemove(_) => Edit(Without(groups, i), groups, false)
      case GroupUpdate(_, patch) =>
        Edit(if patch.deactivated == Some(true) then Without(groups, i) else groups[i := PatchGroup(g, patch)], groups, false)
      case GroupMembers(_, op, ids) =>
        (match op
         case Some(AddOp) => Edit(groups[i := g.(members := Merged(g.members, ids))], groups, false)
         case Some(RemoveOp) =>
           Edit(groups[i := g.(members := Kept(g.members, ids))],
                groups[i := g.(members := Scribbled(g.members, ids))], false)
         case _ => Edit(groups, groups, true))
      case GroupSubgroups(_, op, ids) =>
        (match op
         case Some(AddOp) => Edit(groups[i := g.(subgroups := Merged(g.subgroups, ids))], groups, false)
         case Some(RemoveOp) =>
           Edit(groups[i := g.(subgroups := Kept(g.subgroups, ids))],
                groups[i := g.(subgroups := Scribbled(g.subgroups, ids))], false)
         case _ => Edit(groups, groups, true))
  }

  /** What happens before the retry loop: an add or removal without an id does nothing (a deactivated group is removed),
      and an event without an operation invalidates at once. */
  function GateOf(e: Event): Gate {
    match e
    case GroupAdd(group) => if group.id == 0 then Ignore else Mutate
    case GroupRemove(id) => if id == 0 then Ignore else Mutate
    case GroupUpdate(_, _) => Mutate
    case GroupMembers(_, op, _) => if op.None? then Drop else Mutate
    case GroupSubgroups(_, op, _) => if op.None? then Drop else Mutate
  }

  /** An addition or a removal that names no group. */
  predicate NamesNoGroup(e: Event) {
    match e
    case GroupAdd(group) => group.id == 0
    case GroupRemove(id) => id == 0
    case _ => false
  }

  /** Which events the cache ignores, which invalidate it at once, and which it applies. */
  lemma GateMeans(e: Event)
    ensures GateOf(e) == Ignore <==> NamesNoGroup(e)
    ensures GateOf(e) == Drop <==> (e.GroupMembers? || e.GroupSubgroups?) && e.op == None
  {
  }

  /** One run of a mutator over the copied list. The members of the group it edits are a slice over an array that the
      loaded snapshot shares; `left` is what that slice shows afterwards. */
  method RunMutator(e: Event, copied: seq<Group>) returns (edit: Edit<Group>)
    requires GateOf(e) == Mutate
    ensures edit == EditGroups(e, copied)
  {
    var groups := copied;
    match e
    case GroupAdd(group) =>
      var i := FindEntry(groups, GROUP_ID, group.id);
      if group.deactivated {
        if i < |groups| { groups := groups[..i] + groups[i + 1..]; }
      } else if i < |groups| {
        groups := groups[i := group];
      } else {
        groups := groups + [group];
      }
      edit := Edit(groups, copied, false);
    case GroupRemove(id) =>
      var i := FindEntry(groups, GROUP_ID, id);
      if i < |groups| { groups := groups[..i] + groups[i + 1..]; }
      edit := Edit(groups, copied, false);
    case GroupUpdate(id, patch) =>
      var i := FindEntry(groups, GROUP_ID, id);
      if i < |groups| {
        if patch.deactivated == Some(true) {
          groups := groups[..i] + groups[i + 1..];
        } else {
          groups := groups[i := PatchGroup(groups[i], patch)];
        }
      }
      edit := Edit(groups, copied, false);
    case GroupMembers(id, op, ids) =>
      var i := FindEntry(groups, GROUP_ID, id);
      edit := Edit(groups, copied, false);
      if i < |groups| {
        match op.value
        case AddOp =>
          var members := AppendMissingInt64s(groups[i].members, ids);
          edit := Edit(groups[i := groups[i].(members := members)], copied, false);
        case RemoveOp =>
          var members, left := RemoveShared(groups[i].members, ids);
          edit := Edit(groups[i := groups[i].(members := members)], copied[i := copied[i].(members := left)], false);
        case OtherOp => edit := Edit(groups, copied, true);
      }
    case GroupSubgroups(id, op, ids) =>
      var i := FindEntry(groups, GROUP_ID, id);
      edit := Edit(groups, copied, false);
      if i < |groups| {
        match op.value
        case AddOp =>
          var subgroups := AppendMissingInt64s(groups[i].subgroups, ids);
          edit := Edit(groups[i := groups[i].(subgroups := subgroups)], copied, false);
        case RemoveOp =>
          var subgroups, left := RemoveShared(groups[i].subgroups, ids);
          edit := Edit(groups[i := groups[i].(subgroups := subgroups)], copied[i := copied[i].(subgroups := left)], false);
        case OtherOp => edit := Edit(groups, copied, true);
      }
  }

  /** Removal through a slice over its backing array: the new slice, and what the old one shows. */
  method RemoveShared(values: seq<int>, removed: seq<int>) returns (kept: seq<int>, left: seq<int>)
    ensures kept == Kept(values, removed) && left == Scribbled(values, removed)
  {
    var backing := new int[|values|](i requires 0 <= i < |values| => values[i]);
    assert backing[..|values|] == values;
    var k := RemoveInt64s(backing, |values|, removed);
    kept, left := backing[..k], backing[..|values|];
  }

  // ---- Groups as a map ----

  predicate DistinctIds(groups: seq<Group>) {
    DistinctKeys(groups, GROUP_ID)
  }

  /** A group without the order of its members and subgroups. */
  datatype GroupView = GroupView(name: string, description: string, deactivated: bool, members: set<int>,
                                 subgroups: set<int>, settings: Settings)

  function ViewOf(g: Group): GroupView {
    GroupView(g.name, g.description, g.deactivated, Elements(g.members), Elements(g.subgroups), g.settings)
  }

  /** The groups by id. */
  function View(groups: seq<Group>): map<int, GroupView> {
    var byId := ByKey(groups, GROUP_ID);
    map id | id in byId :: ViewOf(byId[id])
  }

  /** What an update leaves, field by field: what it names is replaced, everything else stays, and a group whose
      activity is reported is active. */
  function Updated(v: GroupView, patch: Patch): GroupView {
    var from, to := v.settings, patch.settings;
    GroupView(if patch.name.Some? then patch.name.value else v.name,
              if patch.description.Some? then patch.description.value else v.description,
              v.deactivated && patch.deactivated.None?,
              v.members,
              v.subgroups,
              Settings(if to.addMembers.Some? then to.addMembers.value else from.addMembers,
                       if to.join.Some? then to.join.value else from.join,
                       if to.leave.Some? then to.leave.value else from.leave,
                       if to.manage.Some? then to.manage.value else from.manage,
                       if to.mention.Some? then to.mention.value else from.mention,
                       if to.removeMembers.Some? then to.removeMembers.value else from.removeMembers))
  }

  /** What an event means for the groups as a map; `None` when the cache cannot say. */
  function Apply(e: Event, view: map<int, GroupView>): Option<map<int, GroupView>> {
    match e
    case GroupAdd(group) => Some(if group.deactivated then view - {group.id} else view[group.id := ViewOf(group)])
    case GroupRemove(id) => Some(view - {id})
    case GroupUpdate(id, patch) =>
      if id !in view then Some(view)
      else if patch.deactivated == Some(true) then Some(view - {id})
      else Some(view[id := Updated(view[id], patch)])
    case GroupMembers(id, op, ids) =>
      if id !in view then Some(view)
      else
        (match op
         case Some(AddOp) => Some(view[id := view[id].(members := view[id].members + Elements(ids))])
         case Some(RemoveOp) => Some(view[id := view[id].(members := view[id].members - Elements(ids))])
         case _ => None)
    case GroupSubgroups(id, op, ids) =>
      if id !in view then Some(view)
      else
        (match op
         case Some(AddOp) => Some(view[id := view[id].(subgroups := view[id].subgroups + Elements(ids))])
         case Some(RemoveOp) => Some(view[id := view[id].(subgroups := view[id].subgroups - Elements(ids))])
         case _ => None)
  }

  lemma ViewHas(groups: seq<Group>, id: int)
    ensures id in View(groups) <==> IndexOf(groups, GROUP_ID, id) < |groups|
    ensures id in View(groups) ==> View(groups)[id] == ViewOf(groups[IndexOf(groups, GROUP_ID, id)])
  {
  }

  lemma ViewReplace(groups: seq<Group>, i: nat, g: Group)
    requires DistinctIds(groups) && i < |groups| && g.id == groups[i].id
    ensures DistinctIds(groups[i := g]) && View(groups[i := g]) == View(groups)[g.id := ViewOf(g)]
  {
    hide ByKey, IndexOf, ViewOf, DistinctKeys;
    ReplaceByKey(groups, GROUP_ID, i, g);
  }

  lemma ViewWithout(groups: seq<Group>, i: nat)
    requires DistinctIds(groups) && i < |groups|
    ensures DistinctIds(Without(groups, i)) && View(Without(groups, i)) == View(groups) - {groups[i].id}
  {
    hide ByKey, IndexOf, ViewOf, DistinctKeys;
    WithoutByKey(groups, GROUP_ID, i);
  }

  lemma ViewAppend(groups: seq<Group>, g: Group)
    requires DistinctIds(groups) && IndexOf(groups, GROUP_ID, g.id) == |groups|
    ensures DistinctIds(groups + [g]) && View(groups + [g]) == View(groups)[g.id := ViewOf(g)]
  {
    hide ByKey, IndexOf, ViewOf, DistinctKeys;
    AppendByKey(groups, GROUP_ID, g);
  }

  lemma ViewsOfEdits(g: Group, ids: seq<int>)
    ensures ViewOf(g.(members := Merged(g.members, ids))) == ViewOf(g).(members := Elements(g.members) + Elements(ids))
    ensures ViewOf(g.(members := Kept(g.members, ids))) == ViewOf(g).(members := Elements(g.members) - Elements(ids))
    ensures ViewOf(g.(subgroups := Merged(g.subgroups, ids)))
      == ViewOf(g).(subgroups := Elements(g.subgroups) + Elements(ids))
    ensures ViewOf(g.(subgroups := Kept(g.subgroups, ids)))
      == ViewOf(g).(subgroups := Elements(g.subgroups) - Elements(ids))
  {
    hide Elements;
    ElementsOfEdits(g.members, ids);
    ElementsOfEdits(g.subgroups, ids);
  }

  lemma ElementsOfEdits(values: seq<int>, ids: seq<int>)
    ensures Elements(Merged(values, ids)) == Elements(values) + Elements(ids)
    ensures Elements(Kept(values, ids)) == Elements(values) - Elements(ids)
  {
    hide Merged, Kept;
    MergedIsUnion(values, ids);
    KeptIsDifference(values, ids);
    var merged, kept := Merged(values, ids), Kept(values, ids);
    forall x ensures x in Elements(merged) <==> x in Elements(values) + Elements(ids) {
      assert x in merged <==> x in values || x in ids;
    }
    forall x ensures x in Elements(kept) <==> x in Elements(values) - Elements(ids) {
      assert x in kept <==> x in values && x !in ids;
    }
  }

  /** The list edit of an event is its map update: ids stay distinct, and exactly the events that have no meaning for
      the cached groups invalidate. */
  lemma EditRefinesApply(e: Event, groups: seq<Group>)
    requires DistinctIds(groups)
    ensures DistinctIds(EditGroups(e, groups).next)
    ensures EditGroups(e, groups).invalidates <==> Apply(e, View(groups)).None?
    ensures !EditGroups(e, groups).invalidates ==> Some(View(EditGroups(e, groups).next)) == Apply(e, View(groups))
  {
    hide View, ViewOf, IndexOf, DistinctIds, Without, Merged, Kept, Scribbled, Elements;
    var id := if e.GroupAdd? then e.group.id else e.id;
    var i := IndexOf(groups, GROUP_ID, id);
    ViewHas(groups, id);
    if i == |groups| {
      assert View(groups) - {id} == View(groups);
      if e.GroupAdd? { ViewAppend(groups, e.group); }
    } else {
      var g := groups[i];
      ViewWithout(groups, i);
      match e
      case GroupAdd(group) => ViewReplace(groups, i, group);
      case GroupRemove(_) =>
      case GroupUpdate(_, patch) =>
        ViewReplace(groups, i, PatchGroup(g, patch));
        PatchView(g, patch);
      case GroupMembers(_, op, ids) =>
        ViewReplace(groups, i, g.(members := Merged(g.members, ids)));
        ViewReplace(groups, i, g.(members := Kept(g.members, ids)));
        ViewsOfEdits(g, ids);
        ViewFields(g);
      case GroupSubgroups(_, op, ids) =>
        ViewReplace(groups, i, g.(subgroups := Merged(g.subgroups, ids)));
        ViewReplace(groups, i, g.(subgroups := Kept(g.subgroups, ids)));
        ViewsOfEdits(g, ids);
        ViewFields(g);
    }
  }

  lemma ViewFields(g: Group)
    ensures ViewOf(g).members == Elements(g.members) && ViewOf(g).subgroups == Elements(g.subgroups)
  {
  }

  lemma PatchView(g: Group, patch: Patch)
    ensures ViewOf(PatchGroup(g, patch)) == Updated(ViewOf(g), patch)
  {
  }

  // ---- The cache as a whole ----

  function GroupRules<B>(encode: seq<Group> -> B, decode: B -> Option<seq<Group>>): Rules<Group, Event, B> {
    Rules(e => GateOf(e), (e, groups) => EditGroups(e, groups), encode, decode)
  }

  /** The reference on maps: events applied one after the other. */
  function ApplyAll(view: map<int, GroupView>, events: seq<Event>): Option<map<int, GroupView>> {
    if events == [] then Some(view)
    else
      match ApplyAll(view, events[..|events| - 1])
      case None => None
      case Some(before) => Apply(events[|events| - 1], before)
  }

  lemma {:induction false} FoldRefinesApplyAll<B>(rules: Rules<Group, Event, B>, base: seq<Group>, events: seq<Event>)
    requires DistinctIds(base) && forall e, groups :: rules.edit(e, groups) == EditGroups(e, groups)
    ensures DistinctIds(Fold(rules, base, events))
    ensures Applicable(rules, base, events) ==>
      Some(View(Fold(rules, base, events))) == ApplyAll(View(base), events)
    decreases |events|
  {
    hide View, Apply, EditGroups, DistinctIds;
    if events != [] {
      FoldRefinesApplyAll(rules, base, events[..|events| - 1]);
      EditRefinesApply(events[|events| - 1], Fold(rules, base, events[..|events| - 1]));
    }
  }

  /** The events without the additions and removals that name no group. */
  function NamingGroups(events: seq<Event>): seq<Event> {
    if events == [] then []
    else
      var last := events[|events| - 1];
      NamingGroups(events[..|events| - 1]) + if NamesNoGroup(last) then [] else [last]
  }

  lemma {:induction false} UnignoredNamesGroup<B>(rules: Rules<Group, Event, B>, events: seq<Event>)
    requires forall e :: rules.gate(e) == GateOf(e)
    ensures Unignored(rules, events) == NamingGroups(events)
    decreases |events|
  {
    if events != [] {
      UnignoredNamesGroup(rules, events[..|events| - 1]);
      GateMeans(events[|events| - 1]);
    }
  }

  /** In every state of every run, a cached body decodes to a list with distinct ids that stands for the last stored
      groups with all events whose handling has ended since then applied to them as map updates, but for additions and
      removals that name no group. */
  lemma CachedGroupsAgree<B>(encode: seq<Group> -> B, decode: B -> Option<seq<Group>>, ttl: nat,
                             states: seq<State<Group, Event, B>>, steps: seq<Step<Group, Event, B>>, i: nat)
    requires var rules := GroupRules(encode, decode);
      IsRun(rules, ttl, states, steps) && Initial(states[0]) && Faithful(rules)
    requires i < |states| && states[i].current.Some? && states[i].stores != []
    requires DistinctIds(states[i].stores[|states[i].stores| - 1].list)
    ensures var s := states[i];
      && s.current.value < |s.heap|
      && decode(s.heap[s.current.value].body).Some?
      && var list := decode(s.heap[s.current.value].body).value;
      var base := View(s.stores[|s.stores| - 1].list);
      && DistinctIds(list)
      && Some(View(list)) == ApplyAll(base, NamingGroups(Heard(states, steps, i)))
      && s.since == NamingGroups(Heard(states, steps, i))
  {
    hide View, Apply, EditGroups, DistinctIds, ApplyAll, GateOf, NamingGroups, Unignored;
    var rules := GroupRules(encode, decode);
    CacheAgrees(rules, ttl, states, steps, i);
    EveryEventEnds(rules, ttl, states, steps, i);
    UnignoredNamesGroup(rules, Heard(states, steps, i));
    FoldRefinesApplyAll(rules, states[i].stores[|states[i].stores| - 1].list, states[i].since);
  }

  /** The member or subgroup list from which the event removes ids. */
  predicate RemovesFrom(e: Event, groups: seq<Group>, values: seq<int>, ids: seq<int>) {
    && (e.GroupMembers? || e.GroupSubgroups?) && e.op == Some(RemoveOp)
    && var i := IndexOf(groups, GROUP_ID, e.id);
    && i < |groups|
    && if e.GroupMembers? then values == groups[i].members && ids == e.userIds
       else values == groups[i].subgroups && ids == e.subgroupIds
  }

  /** An event disturbs the published list exactly when it removes ids from a list in which one of them stands before
      an id that stays. */
  lemma ScribblesIff(e: Event, groups: seq<Group>)
    ensures EditGroups(e, groups).shared != groups <==>
              exists values, ids :: RemovesFrom(e, groups, values, ids) && RemovedBeforeKept(values, ids)
  {
    hide Scribbled, RemovedBeforeKept, Kept, Merged;
    var i := IndexOf(groups, GROUP_ID, if e.GroupAdd? then e.group.id else e.id);
    if i < |groups| {
      if e.GroupMembers? && e.op == Some(RemoveOp) {
        ScribbledIffRemovedBeforeKept(groups[i].members, e.userIds);
        assert RemovesFrom(e, groups, groups[i].members, e.userIds);
      } else if e.GroupSubgroups? && e.op == Some(RemoveOp) {
        ScribbledIffRemovedBeforeKept(groups[i].subgroups, e.subgroupIds);
        assert RemovesFrom(e, groups, groups[i].subgroups, e.subgroupIds);
      }
    }
  }

  /** Between a mutator and its compare-and-swap the published list can be off, because a removal writes through the
      slice it shares with it; the body never is. */
  lemma RemovalScribblesOnPublishedList()
    ensures var g := Group(1, "g", "", false, [4, 5, 6], [], Settings(0, 0, 0, 0, 0, 0));
      var edit := EditGroups(GroupMembers(1, Some(RemoveOp), [4]), [g]);
      edit.next == [g.(members := [5, 6])] && edit.shared == [g.(members := [5, 6, 6])]
  {
    var g := Group(1, "g", "", false, [4, 5, 6], [], Settings(0, 0, 0, 0, 0, 0));
    assert [4, 5, 6][..2] == [4, 5] && [4, 5][..1] == [4] && [4][..0] == [];
    assert Kept([4], [4]) == [];
    assert Kept([4, 5], [4]) == [] + [5] == [5];
    assert Kept([4, 5, 6], [4]) == [5] + [6] == [5, 6];
    assert [5, 6] + [4, 5, 6][2..] == [5, 6, 6];
    assert IndexOf([g], GROUP_ID, 1) == 0;
  }
}
