/** The channel cache (zulipcache/streams.go): how its events edit a list of channels, and what that means for the
    channels as a map from ids. */
module StreamsCache {
  import opened Collections
  import opened KeyedLists
  import opened SnapshotCache

  datatype Channel = Channel(id: int, name: string, description: string, renderedDescription: string,
                             folderId: Option<int>, isArchived: bool)

  /** The value of a channel update event; `OtherValue` is one with none of the fields the cache reads. */
  datatype Value = IntValue(i: int) | StringValue(s: string) | BoolValue(b: bool) | OtherValue

  datatype Event =
    | ChannelCreate(channels: seq<Channel>)
    | ChannelDelete(ids: seq<int>)
    | ChannelUpdate(id: int, property: string, name: string, value: Option<Value>, rendered: Option<string>)

  const CHANNEL_ID: Channel -> int := (c: Channel) => c.id

  // ---- The mutators ----

  function UpsertOne(list: seq<Channel>, channel: Channel): seq<Channel> {
    var i := IndexOf(list, CHANNEL_ID, channel.id);
    if channel.id == 0 then list
    else if i < |list| then list[i := channel]
    else list + [channel]
  }

  function UpsertAll(list: seq<Channel>, channels: seq<Channel>): seq<Channel> {
    if channels == [] then list else UpsertOne(UpsertAll(list, channels[..|channels| - 1]), channels[|channels| - 1])
  }

  method Upsert(list: seq<Channel>, channels: seq<Channel>) returns (current: seq<Channel>)
    ensures current == UpsertAll(list, channels)
  {
    current := list;
    for k := 0 to |channels|
      invariant current == UpsertAll(list, channels[..k])
    {
      assert channels[..k + 1][..k] == channels[..k];
      var channel := channels[k];
      if channel.id == 0 { continue; }
      var replaced := false;
      var i := FindEntry(current, CHANNEL_ID, channel.id);
      if i < |current| {
        current := current[i := channel];
        replaced := true;
      }
      if !replaced { current := current + [channel]; }
    }
    assert channels[..|channels|] == channels;
  }

  /** The channels whose id is not in `ids`, in order. */
  function KeepOthers(list: seq<Channel>, ids: seq<int>): (kept: seq<Channel>)
    ensures |kept| <= |list|
  {
    if list == [] then []
    else
      var front := KeepOthers(list[..|list| - 1], ids);
      var last := list[|list| - 1];
      if last.id in ids then front else front + [last]
  }

  /** Filters the copied slice in place. */
  method RemoveIn(a: array<Channel>, ids: seq<int>) returns (k: nat)
    modifies a
    ensures k <= a.Length && a[..k] == KeepOthers(old(a[..]), ids)
  {
    ghost var was := a[..];
    k := 0;
    for i := 0 to a.Length
      invariant k <= i
      invariant a[..k] == KeepOthers(was[..i], ids)
      invariant a[i..] == was[i..]
    {
      var stream := a[i];
      assert stream == a[i..][0] == was[i];
      assert was[..i + 1][..i] == was[..i];
      assert a[i..][1..] == a[i + 1..] && was[i..][1..] == was[i + 1..];
      if stream.id !in ids {
        a[k] := stream;
        k := k + 1;
      }
    }
    assert was[..a.Length] == was;
  }

  function UpdateOne(c: Channel, e: Event): (r: (Channel, bool))
    requires e.ChannelUpdate?
  {
    var c := if e.name != "" then c.(name := e.name) else c;
    if e.property == "is_archived" then (c.(isArchived := false), true)
    else if e.property == "folder_id" && e.value.None? then (c.(folderId := None), true)
    else if e.property == "folder_id" && e.value.value.IntValue? then (c.(folderId := Some(e.value.value.i)), true)
    else if e.property == "description" && e.value.Some? && e.value.value.StringValue? then
      (c.(description := e.value.value.s,
          renderedDescription := if e.rendered.Some? then e.rendered.value else c.renderedDescription), true)
    else (c, false)
  }

  /** The ids that an event removes: a delete event's, or the one of a channel that becomes archived. */
  function RemovedIds(e: Event): Option<seq<int>> {
    match e
    case ChannelDelete(ids) => Some(ids)
    case ChannelUpdate(id, property, _, value, _) =>
      if property == "is_archived" && value == Some(BoolValue(true)) then Some([id]) else None
    case _ => None
  }

  function EditChannels(e: Event, list: seq<Channel>): Edit<Channel> {
    if e.ChannelCreate? then Edit(UpsertAll(list, e.channels), list, false)
    else if RemovedIds(e).Some? then Edit(KeepOthers(list, RemovedIds(e).value), list, false)
    else
      var i := IndexOf(list, CHANNEL_ID, e.id);
      if i == |list| then Edit(list, list, false)
      else
        var (c, applied) := UpdateOne(list[i], e);
        Edit(list[i := c], list, !applied)
  }

  function GateOf(e: Event): Gate {
    match e
    case ChannelCreate(_) => Mutate
    case ChannelDelete(ids) => if ids == [] then Ignore else Mutate
    case ChannelUpdate(id, property, _, value, _) =>
      if id == 0 then Drop
      else if property == "is_archived" && !(value.Some? && value.value.BoolValue?) then Drop
      else Mutate
  }

  /** Which events the cache ignores, which invalidate it at once, and which it applies. */
  lemma GateMeans(e: Event)
    ensures GateOf(e) == Ignore <==> e == ChannelDelete([])
    ensures GateOf(e) == Drop <==>
      && e.ChannelUpdate?
      && (e.id == 0
          || (e.property == "is_archived" && e.value != Some(BoolValue(true)) && e.value != Some(BoolValue(false))))
  {
  }

  /** One run of a mutator over the copied list. */
  method RunMutator(e: Event, copied: seq<Channel>) returns (edit: Edit<Channel>)
    requires GateOf(e) == Mutate
    ensures edit == EditChannels(e, copied)
  {
    if e.ChannelCreate? {
      var current := Upsert(copied, e.channels);
      return Edit(current, copied, false);
    }
    if e.ChannelDelete? || (e.property == "is_archived" && e.value == Some(BoolValue(true))) {
      var ids := if e.ChannelDelete? then e.ids else [e.id];
      var a := new Channel[|copied|](i requires 0 <= i < |copied| => copied[i]);
      assert a[..] == copied;
      var k := RemoveIn(a, ids);
      return Edit(a[..k], copied, false);
    }
    var i := FindEntry(copied, CHANNEL_ID, e.id);
    if i == |copied| { return Edit(copied, copied, false); }
    var c := copied[i];
    if e.name != "" { c := c.(name := e.name); }
    if e.property == "is_archived" {
      return Edit(copied[i := c.(isArchived := false)], copied, false);
    }
    if e.property == "folder_id" {
      if e.value.None? { return Edit(copied[i := c.(folderId := None)], copied, false); }
      if e.value.value.IntValue? {
        return Edit(copied[i := c.(folderId := Some(e.value.value.i))], copied, false);
      }
    }
    if e.property == "description" && e.value.Some? && e.value.value.StringValue? {
      c := c.(description := e.value.value.s);
      if e.rendered.Some? { c := c.(renderedDescription := e.rendered.value); }
      return Edit(copied[i := c], copied, false);
    }
    return Edit(copied[i := c], copied, true);
  }

  // ---- Channels as a map ----

  predicate DistinctIds(list: seq<Channel>) {
    DistinctKeys(list, CHANNEL_ID)
  }

  function View(list: seq<Channel>): map<int, Channel> {
    ByKey(list, CHANNEL_ID)
  }

  function PutAll(view: map<int, Channel>, channels: seq<Channel>): map<int, Channel> {
    if channels == [] then view
    else
      var before := PutAll(view, channels[..|channels| - 1]);
      var last := channels[|channels| - 1];
      if last.id == 0 then before else before[last.id := last]
  }

  /** What an update leaves of its channel, `None` when the cache cannot say: a name that is not empty is taken over,
      and of the other fields the one the event names. */
  function Updated(c: Channel, property: string, name: string, value: Option<Value>, rendered: Option<string>)
    : Option<Channel>
  {
    var title := if name == "" then c.name else name;
    match property
    case "is_archived" => Some(Channel(c.id, title, c.description, c.renderedDescription, c.folderId, false))
    case "folder_id" =>
      (match value
       case None => Some(Channel(c.id, title, c.description, c.renderedDescription, None, c.isArchived))
       case Some(IntValue(i)) => Some(Channel(c.id, title, c.description, c.renderedDescription, Some(i), c.isArchived))
       case _ => None)
    case "description" =>
      (match value
       case Some(StringValue(text)) =>
         var html := match rendered case Some(h) => h case None => c.renderedDescription;
         Some(Channel(c.id, title, text, html, c.folderId, c.isArchived))
       case _ => None)
    case _ => None
  }

  /** What an event means for the channels as a map; `None` when the cache cannot say. An archived channel goes. */
  function Apply(e: Event, view: map<int, Channel>): Option<map<int, Channel>> {
    match e
    case ChannelCreate(channels) => Some(PutAll(view, channels))
    case ChannelDelete(ids) => Some(view - set id | id in ids)
    case ChannelUpdate(id, property, name, value, rendered) =>
      if id !in view then Some(view)
      else if property == "is_archived" && value == Some(BoolValue(true)) then Some(view - {id})
      else
        match Updated(view[id], property, name, value, rendered)
        case None => None
        case Some(c) => Some(view[id := c])
  }

  lemma UpdateMeans(c: Channel, e: Event)
    requires e.ChannelUpdate?
    ensures var updated := Updated(c, e.property, e.name, e.value, e.rendered);
      && (UpdateOne(c, e).1 <==> updated.Some?)
      && (updated.Some? ==> UpdateOne(c, e).0 == updated.value)
  {
  }

  lemma UpsertOneByKey(list: seq<Channel>, channel: Channel)
    requires DistinctIds(list)
    ensures DistinctIds(UpsertOne(list, channel))
    ensures View(UpsertOne(list, channel)) == if channel.id == 0 then View(list) else View(list)[channel.id := channel]
  {
    hide IndexOf, ByKey, DistinctKeys;
    var i := IndexOf(list, CHANNEL_ID, channel.id);
    if i < |list| { ReplaceByKey(list, CHANNEL_ID, i, channel); } else { AppendByKey(list, CHANNEL_ID, channel); }
  }

  lemma {:induction false} UpsertAllByKey(list: seq<Channel>, channels: seq<Channel>)
    requires DistinctIds(list)
    ensures DistinctIds(UpsertAll(list, channels))
    ensures View(UpsertAll(list, channels)) == PutAll(View(list), channels)
    decreases |channels|
  {
    hide UpsertOne, View, DistinctIds;
    if channels != [] {
      var front := channels[..|channels| - 1];
      UpsertAllByKey(list, front);
      UpsertOneByKey(UpsertAll(list, front), channels[|channels| - 1]);
    }
  }

  lemma {:induction false} KeptAreOld(list: seq<Channel>, ids: seq<int>)
    ensures forall c :: c in KeepOthers(list, ids) ==> c in list
    decreases |list|
  {
    if list != [] { KeptAreOld(list[..|list| - 1], ids); }
  }

  lemma {:induction false} KeepOthersByKey(list: seq<Channel>, ids: seq<int>)
    requires DistinctIds(list)
    ensures DistinctIds(KeepOthers(list, ids))
    ensures View(KeepOthers(list, ids)) == View(list) - set id | id in ids
    decreases |list|
  {
    hide IndexOf, ByKey;
    if list == [] {
      NothingByKey();
    } else {
      var front, last := list[..|list| - 1], list[|list| - 1];
      var kept := KeepOthers(front, ids);
      assert list == front + [last];
      assert DistinctIds(front);
      KeepOthersByKey(front, ids);
      NotIn(front, last.id);
      AppendByKey(front, CHANNEL_ID, last);
      KeptAreOld(front, ids);
      forall j | 0 <= j < |kept| ensures kept[j].id != last.id { assert kept[j] in front; }
      NotIn(kept, last.id);
      AppendByKey(kept, CHANNEL_ID, last);
      assert View(list) == View(front)[last.id := last];
      assert View(kept + [last]) == View(kept)[last.id := last];
    }
  }

  lemma NothingByKey()
    ensures ByKey([], CHANNEL_ID) == map[]
  {
    forall id ensures id !in ByKey([], CHANNEL_ID) { ByKeyHas([], CHANNEL_ID, id); }
  }

  lemma NotIn(list: seq<Channel>, id: int)
    requires forall j :: 0 <= j < |list| ==> list[j].id != id
    ensures IndexOf(list, CHANNEL_ID, id) == |list|
  {
  }

  lemma UpdateKeepsId(c: Channel, e: Event)
    requires e.ChannelUpdate?
    ensures UpdateOne(c, e).0.id == c.id
  {
  }

  /** The list edit of an event is its map update: ids stay distinct, and exactly the events that have no meaning for
      the cached channels invalidate. */
  lemma EditRefinesApply(e: Event, list: seq<Channel>)
    requires DistinctIds(list)
    ensures DistinctIds(EditChannels(e, list).next)
    ensures EditChannels(e, list).invalidates <==> Apply(e, View(list)).None?
    ensures !EditChannels(e, list).invalidates ==> Some(View(EditChannels(e, list).next)) == Apply(e, View(list))
  {
    hide IndexOf, ByKey, DistinctKeys, UpsertAll, PutAll, KeepOthers, UpdateOne, Updated;
    if e.ChannelCreate? {
      UpsertAllByKey(list, e.channels);
    } else if RemovedIds(e).Some? {
      KeepOthersByKey(list, RemovedIds(e).value);
      if e.ChannelUpdate? {
        assert (set id | id in RemovedIds(e).value) == {e.id};
        assert e.id !in View(list) ==> View(list) - {e.id} == View(list);
      }
    } else {
      var i := IndexOf(list, CHANNEL_ID, e.id);
      ByKeyHas(list, CHANNEL_ID, e.id);
      if i < |list| {
        UpdateMeans(list[i], e);
        UpdateKeepsId(list[i], e);
        ReplaceByKey(list, CHANNEL_ID, i, UpdateOne(list[i], e).0);
      }
    }
  }

  // ---- The cache as a whole ----

  function ChannelRules<B>(encode: seq<Channel> -> B, decode: B -> Option<seq<Channel>>): Rules<Channel, Event, B> {
    Rules(e => GateOf(e), (e, list) => EditChannels(e, list), encode, decode)
  }

  function ApplyAll(view: map<int, Channel>, events: seq<Event>): Option<map<int, Channel>> {
    if events == [] then Some(view)
    else
      match ApplyAll(view, events[..|events| - 1])
      case None => None
      case Some(before) => Apply(events[|events| - 1], before)
  }

  lemma {:induction false} FoldRefinesApplyAll<B>(rules: Rules<Channel, Event, B>, base: seq<Channel>,
                                                   events: seq<Event>)
    requires DistinctIds(base) && forall e, list :: rules.edit(e, list) == EditChannels(e, list)
    ensures DistinctIds(Fold(rules, base, events))
    ensures Applicable(rules, base, events) ==>
      Some(View(Fold(rules, base, events))) == ApplyAll(View(base), events)
    decreases |events|
  {
    hide View, Apply, EditChannels, DistinctIds;
    if events != [] {
      FoldRefinesApplyAll(rules, base, events[..|events| - 1]);
      EditRefinesApply(events[|events| - 1], Fold(rules, base, events[..|events| - 1]));
    }
  }

  /** A deletion of no channels changes nothing, so ignoring it loses nothing. */
  lemma {:induction false} IgnoredChangeNothing<B>(rules: Rules<Channel, Event, B>, view: map<int, Channel>,
                                                    events: seq<Event>)
    requires forall e :: rules.gate(e) == GateOf(e)
    ensures ApplyAll(view, Unignored(rules, events)) == ApplyAll(view, events)
    decreases |events|
  {
    if events != [] {
      var front, last := events[..|events| - 1], events[|events| - 1];
      IgnoredChangeNothing(rules, view, front);
      GateMeans(last);
      hide GateOf;
      if last == ChannelDelete([]) {
        forall v: map<int, Channel>
          ensures Apply(last, v) == Some(v)
        {
          assert v - (set id | id in []) == v;
        }
        assert Unignored(rules, front) + [] == Unignored(rules, front);
      } else {
        assert (Unignored(rules, front) + [last])[..|Unignored(rules, front)|] == Unignored(rules, front);
      }
    }
  }

  /** In every state of every run, a cached body decodes to a list with distinct ids that stands for the last stored
      channels with all events whose handling has ended since then applied to them as map updates. */
  lemma CachedChannelsAgree<B>(encode: seq<Channel> -> B, decode: B -> Option<seq<Channel>>, ttl: nat,
                               states: seq<State<Channel, Event, B>>, steps: seq<Step<Channel, Event, B>>, i: nat)
    requires var rules := ChannelRules(encode, decode);
      IsRun(rules, ttl, states, steps) && Initial(states[0]) && Faithful(rules)
    requires i < |states| && states[i].current.Some? && states[i].stores != []
    requires DistinctIds(states[i].stores[|states[i].stores| - 1].list)
    ensures var s := states[i];
      && s.current.value < |s.heap|
      && decode(s.heap[s.current.value].body).Some?
      && var list := decode(s.heap[s.current.value].body).value;
      var base := View(s.stores[|s.stores| - 1].list);
      && DistinctIds(list)
      && Some(View(list)) == ApplyAll(base, Heard(states, steps, i))
  {
    hide View, Apply, EditChannels, DistinctIds, ApplyAll, GateOf, Unignored;
    var rules := ChannelRules(encode, decode);
    CacheAgrees(rules, ttl, states, steps, i);
    EveryEventEnds(rules, ttl, states, steps, i);
    IgnoredChangeNothing(rules, View(states[i].stores[|states[i].stores| - 1].list), Heard(states, steps, i));
    FoldRefinesApplyAll(rules, states[i].stores[|states[i].stores| - 1].list, states[i].since);
  }

  /** A renamed channel whose property the cache does not know is not patched half-way: the event invalidates. */
  lemma UnknownPropertyInvalidates(list: seq<Channel>, e: Event)
    requires e.ChannelUpdate? && e.id in View(list)
    requires e.property != "is_archived" && e.property != "folder_id" && e.property != "description"
    ensures EditChannels(e, list).invalidates
  {
  }
}
