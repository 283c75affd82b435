/** Subcommand trees with role restrictions (command/args.go, command/argparser.go) and the order in which the
    dispatcher authorizes, filters and parses (zulipbot/bot.go, parseCommandArgs). */
module ArgSpecs {
  import opened Collections
  import opened ArgFields

  /** Zulip roles: a smaller number is more powerful; 0 asks for nothing. */
  type Role = int

  const PERM_OPEN: Role := 0

  /** A nil spec expects no tokens; a struct spec lists its fields. */
  datatype Spec =
    | Nil
    | Struct(fields: seq<Field>)
    | Subcmd(subs: map<string, Spec>)
    | Restricted(permission: Role, spec: Spec)

  function StricterPermission(a: Role, b: Role): Role {
    if a == PERM_OPEN then b
    else if b == PERM_OPEN then a
    else if a < b then a
    else b
  }

  /** The strictest restriction on the path that `rawArgs` selects, together with those already met. */
  function Required(spec: Spec, rawArgs: seq<string>, permission: Role): Role
    decreases spec
  {
    match spec
    case Restricted(p, inner) => Required(inner, rawArgs, StricterPermission(permission, p))
    case Subcmd(subs) =>
      var key := if rawArgs == [] then "" else rawArgs[0];
      if key in subs then Required(subs[key], if rawArgs == [] then [] else rawArgs[1..], permission)
      else permission
    case _ => permission
  }

  /** The loop that walks down the tree, consuming a token at each subcommand. */
  method RequiredPermission(root: Spec, args: seq<string>) returns (permission: Role)
    ensures permission == Required(root, args, PERM_OPEN)
    ensures permission == PERM_OPEN || permission in Path(root, args)
    ensures forall p :: p in Path(root, args) && p != PERM_OPEN ==> permission != PERM_OPEN && permission <= p
  {
    RequiredIsStrictest(root, args, PERM_OPEN);
    permission := PERM_OPEN;
    var spec, rawArgs := root, args;
    while true
      invariant Required(root, args, PERM_OPEN) == Required(spec, rawArgs, permission)
      decreases spec
    {
      if spec.Restricted? {
        permission := StricterPermission(permission, spec.permission);
        spec := spec.spec;
        continue;
      }
      if !spec.Subcmd? { return; }
      if rawArgs == [] {
        if "" !in spec.subs { return; }
        spec := spec.subs[""];
        continue;
      }
      if rawArgs[0] !in spec.subs { return; }
      spec, rawArgs := spec.subs[rawArgs[0]], rawArgs[1..];
    }
  }

  /** The part of a tree that a role may see; `None` when a restriction at its root hides all of it. */
  function Filter(spec: Spec, allowed: Role -> bool): Option<Spec> {
    match spec
    case Restricted(p, inner) => if allowed(p) then Filter(inner, allowed) else None
    case Subcmd(subs) =>
      Some(Subcmd(map key | key in subs && Filter(subs[key], allowed).Some? :: Filter(subs[key], allowed).value))
    case _ => Some(spec)
  }

  /** The recursion that copies the visible subcommands into a fresh map, in any order. */
  method FilterArgSpec(spec: Spec, allowed: Role -> bool) returns (filtered: Option<Spec>)
    ensures filtered == Filter(spec, allowed)
    decreases spec
  {
    match spec
    case Restricted(p, inner) =>
      if !allowed(p) { return None; }
      filtered := FilterArgSpec(inner, allowed);
    case Subcmd(subs) =>
      var visible: map<string, Spec> := map[];
      var keys := subs.Keys;
      while keys != {}
        invariant keys <= subs.Keys
        invariant visible == map key | key in subs.Keys - keys && Filter(subs[key], allowed).Some?
                                     :: Filter(subs[key], allowed).value
        decreases |keys|
      {
        var key :| key in keys;
        var nested := FilterArgSpec(subs[key], allowed);
        if nested.Some? { visible := visible[key := nested.value]; }
        keys := keys - {key};
      }
      assert visible == map key | key in subs && Filter(subs[key], allowed).Some? :: Filter(subs[key], allowed).value;
      filtered := Some(Subcmd(visible));
    case _ =>
      filtered := Some(spec);
  }

  /** `FilterArgSpec` proper: a tree hidden at its root turns into the nil spec. */
  function Visible(spec: Spec, allowed: Role -> bool): Spec {
    match Filter(spec, allowed) case None => Nil case Some(filtered) => filtered
  }

  // ---- Parsing ----

  datatype SpecError<E> = NoSubcommand | UnknownSubcommand(token: string) | Fields(error: FieldError<E>)

  datatype Parsed<V> = NoArgs | Filled(fields: seq<Field>, values: seq<Value<V>>)

  function Parse<V, E>(spec: Spec, rawArgs: seq<string>, resolve: Resolver<V, E>)
    : Outcome<Parsed<V>, SpecError<E>>
    decreases spec
  {
    match spec
    case Nil => if rawArgs == [] then Ok(NoArgs) else Err(Fields(Unexpected(rawArgs)))
    case Restricted(_, inner) => Parse(inner, rawArgs, resolve)
    case Struct(fields) =>
      (match ParseFields(fields, rawArgs, resolve)
       case Ok(values) => Ok(Filled(fields, values))
       case Err(e) => Err(Fields(e)))
    case Subcmd(subs) =>
      if rawArgs == [] then
        if "" in subs then Parse(subs[""], [], resolve) else Err(NoSubcommand)
      else if rawArgs[0] in subs then Parse(subs[rawArgs[0]], rawArgs[1..], resolve)
      else Err(UnknownSubcommand(rawArgs[0]))
  }

  /** The leaf that `rawArgs` selects and the tokens left for it. */
  function Leaf(spec: Spec, rawArgs: seq<string>): Option<(Spec, seq<string>)>
    decreases spec
  {
    match spec
    case Restricted(_, inner) => Leaf(inner, rawArgs)
    case Subcmd(subs) =>
      var key := if rawArgs == [] then "" else rawArgs[0];
      if key in subs then Leaf(subs[key], if rawArgs == [] then [] else rawArgs[1..]) else None
    case _ => Some((spec, rawArgs))
  }

  // ---- Roles ----

  /** What is known about the actor: a role, or nothing. */
  datatype RoleState = RoleState(role: Role, available: bool) {
    predicate Allows(permission: Role) {
      permission == PERM_OPEN || (available && RoleAllows(role, permission))
    }
  }

  predicate RoleAllows(actorRole: Role, requiredRole: Role) {
    requiredRole == 0 || actorRole <= requiredRole
  }

  /** Meeting the stricter of two restrictions is meeting both. */
  lemma StricterIsBoth(state: RoleState, a: Role, b: Role)
    ensures state.Allows(StricterPermission(a, b)) <==> state.Allows(a) && state.Allows(b)
  {
  }

  /** The restrictions passed on the way are met when the strictest one is. */
  lemma {:induction false} RequiredMonotone(spec: Spec, rawArgs: seq<string>, permission: Role, state: RoleState)
    ensures state.Allows(Required(spec, rawArgs, permission))
      <==> state.Allows(permission) && state.Allows(Required(spec, rawArgs, PERM_OPEN))
    decreases spec
  {
    match spec
    case Restricted(p, inner) =>
      RequiredMonotone(inner, rawArgs, StricterPermission(permission, p), state);
      RequiredMonotone(inner, rawArgs, StricterPermission(PERM_OPEN, p), state);
      StricterIsBoth(state, permission, p);
    case Subcmd(subs) =>
      var key := if rawArgs == [] then "" else rawArgs[0];
      if key in subs {
        RequiredMonotone(subs[key], if rawArgs == [] then [] else rawArgs[1..], permission, state);
      }
    case _ =>
  }

  /** A tree is hidden exactly when a restriction at its root is not met. */
  predicate RootAllowed(spec: Spec, state: RoleState) {
    match spec
    case Restricted(p, inner) => state.Allows(p) && RootAllowed(inner, state)
    case _ => true
  }

  lemma {:induction false} FilterRoot(spec: Spec, state: RoleState)
    ensures Filter(spec, p => state.Allows(p)).Some? <==> RootAllowed(spec, state)
  {
    match spec
    case Restricted(_, inner) => FilterRoot(inner, state);
    case _ =>
  }

  /** A role that meets every restriction on the selected path parses the filtered tree exactly as the full one, up
      to the wording of a refusal; a filtered tree selects a leaf only where every restriction on its path is met. */
  lemma {:induction false} FilteredParse<V, E>(spec: Spec, rawArgs: seq<string>, state: RoleState,
                                               resolve: Resolver<V, E>)
    requires RootAllowed(spec, state)
    ensures var visible := Visible(spec, p => state.Allows(p));
      && (state.Allows(Required(spec, rawArgs, PERM_OPEN)) ==>
            Parse(visible, rawArgs, resolve) == Parse(spec, rawArgs, resolve)
            && Leaf(visible, rawArgs) == Leaf(spec, rawArgs))
      && (Leaf(visible, rawArgs).Some? ==>
            state.Allows(Required(spec, rawArgs, PERM_OPEN)) && Leaf(visible, rawArgs) == Leaf(spec, rawArgs))
    decreases spec
  {
    FilterRoot(spec, state);
    match spec
    case Restricted(p, inner) =>
      FilteredParse(inner, rawArgs, state, resolve);
      RequiredMonotone(inner, rawArgs, StricterPermission(PERM_OPEN, p), state);
    case Subcmd(subs) =>
      var key := if rawArgs == [] then "" else rawArgs[0];
      var rest := if rawArgs == [] then [] else rawArgs[1..];
      if key in subs {
        FilterRoot(subs[key], state);
        if RootAllowed(subs[key], state) {
          FilteredParse(subs[key], rest, state, resolve);
        } else {
          HiddenIsDenied(subs[key], rest, state);
        }
      }
    case _ =>
  }

  /** A tree hidden at its root requires, on every path, a role that is not met. */
  lemma {:induction false} HiddenIsDenied(spec: Spec, rawArgs: seq<string>, state: RoleState)
    requires !RootAllowed(spec, state)
    ensures !state.Allows(Required(spec, rawArgs, PERM_OPEN))
    decreases spec
  {
    var inner := spec.spec;
    RequiredMonotone(inner, rawArgs, StricterPermission(PERM_OPEN, spec.permission), state);
    if !RootAllowed(inner, state) { HiddenIsDenied(inner, rawArgs, state); }
  }

  // ---- The restrictions on a path ----

  /** The restrictions met on the way that `rawArgs` selects, from the root down. */
  function Path(spec: Spec, rawArgs: seq<string>): seq<Role>
    decreases spec
  {
    match spec
    case Restricted(p, inner) => [p] + Path(inner, rawArgs)
    case Subcmd(subs) =>
      var key := if rawArgs == [] then "" else rawArgs[0];
      if key in subs then Path(subs[key], if rawArgs == [] then [] else rawArgs[1..]) else []
    case _ => []
  }

  /** A role meets the required permission exactly when it meets every restriction on the path. */
  lemma {:induction false} RequiredIsEveryRestriction(spec: Spec, rawArgs: seq<string>, state: RoleState)
    ensures state.Allows(Required(spec, rawArgs, PERM_OPEN)) <==>
      forall p :: p in Path(spec, rawArgs) ==> state.Allows(p)
    decreases spec
  {
    match spec
    case Restricted(p, inner) =>
      RequiredIsEveryRestriction(inner, rawArgs, state);
      RequiredMonotone(inner, rawArgs, StricterPermission(PERM_OPEN, p), state);
      StricterIsBoth(state, PERM_OPEN, p);
    case Subcmd(subs) =>
      var key := if rawArgs == [] then "" else rawArgs[0];
      if key in subs {
        RequiredIsEveryRestriction(subs[key], if rawArgs == [] then [] else rawArgs[1..], state);
      }
    case _ =>
  }

  /** It is one of them, or open if all are open, and none of them is stricter. */
  lemma {:induction false} RequiredIsStrictest(spec: Spec, rawArgs: seq<string>, permission: Role)
    ensures var required := Required(spec, rawArgs, permission);
      && (required == permission || required in Path(spec, rawArgs))
      && (permission != PERM_OPEN ==> required != PERM_OPEN && required <= permission)
      && (forall p :: p in Path(spec, rawArgs) && p != PERM_OPEN ==> required != PERM_OPEN && required <= p)
    decreases spec
  {
    match spec
    case Restricted(p, inner) => RequiredIsStrictest(inner, rawArgs, StricterPermission(permission, p));
    case Subcmd(subs) =>
      var key := if rawArgs == [] then "" else rawArgs[0];
      if key in subs {
        RequiredIsStrictest(subs[key], if rawArgs == [] then [] else rawArgs[1..], permission);
      }
    case _ =>
  }

  /** Parsing is filling the fields of the leaf that the arguments select from the tokens left for it; a path that ends
      before a leaf is a missing or an unknown subcommand. */
  lemma {:induction false} ParseIsLeaf<V, E>(spec: Spec, rawArgs: seq<string>, resolve: Resolver<V, E>)
    ensures Parse(spec, rawArgs, resolve)
      == match Leaf(spec, rawArgs)
         case None => Err(Lost(spec, rawArgs))
         case Some((leaf, rest)) =>
           if leaf.Nil? then if rest == [] then Ok(NoArgs) else Err(Fields(Unexpected(rest)))
           else if leaf.Struct? then
             match ParseFields(leaf.fields, rest, resolve)
             case Ok(values) => Ok(Filled(leaf.fields, values))
             case Err(e) => Err(Fields(e))
           else Err(NoSubcommand)
    ensures Leaf(spec, rawArgs).Some? ==> Leaf(spec, rawArgs).value.0.Nil? || Leaf(spec, rawArgs).value.0.Struct?
    decreases spec
  {
    match spec
    case Restricted(_, inner) => ParseIsLeaf(inner, rawArgs, resolve);
    case Subcmd(subs) =>
      var key := if rawArgs == [] then "" else rawArgs[0];
      if key in subs { ParseIsLeaf(subs[key], if rawArgs == [] then [] else rawArgs[1..], resolve); }
    case _ =>
  }

  /** The error at the subcommand where the path ends. */
  function Lost<E>(spec: Spec, rawArgs: seq<string>): SpecError<E>
    decreases spec
  {
    match spec
    case Restricted(_, inner) => Lost(inner, rawArgs)
    case Subcmd(subs) =>
      if rawArgs == [] then if "" in subs then Lost(subs[""], []) else NoSubcommand
      else if rawArgs[0] in subs then Lost(subs[rawArgs[0]], rawArgs[1..])
      else UnknownSubcommand(rawArgs[0])
    case _ => NoSubcommand
  }

  lemma {:induction false} ParseNeedsLeaf<V, E>(spec: Spec, rawArgs: seq<string>, resolve: Resolver<V, E>)
    requires Parse(spec, rawArgs, resolve).Ok?
    ensures Leaf(spec, rawArgs).Some?
    decreases spec
  {
    match spec
    case Restricted(_, inner) => ParseNeedsLeaf(inner, rawArgs, resolve);
    case Subcmd(subs) =>
      if rawArgs == [] { ParseNeedsLeaf(subs[""], [], resolve); }
      else { ParseNeedsLeaf(subs[rawArgs[0]], rawArgs[1..], resolve); }
    case _ =>
  }

  /** For a root that is not restricted, parsing the filtered tree reaches a leaf, and so succeeds, only if the role
      meets every restriction on the path. */
  lemma FilteredParseIsAllowed<V, E>(spec: Spec, rawArgs: seq<string>, state: RoleState, resolve: Resolver<V, E>)
    requires RootAllowed(spec, state)
    requires var visible := Visible(spec, p => state.Allows(p));
      Leaf(visible, rawArgs).Some? || Parse(visible, rawArgs, resolve).Ok?
    ensures forall p :: p in Path(spec, rawArgs) ==> state.Allows(p)
  {
    var visible := Visible(spec, p => state.Allows(p));
    if Parse(visible, rawArgs, resolve).Ok? { ParseNeedsLeaf(visible, rawArgs, resolve); }
    FilteredParse(spec, rawArgs, state, resolve);
    RequiredIsEveryRestriction(spec, rawArgs, state);
  }

  /** Filtering alone is no authorization: a tree hidden at its root parses as a command without arguments. */
  lemma HiddenRootParsesAsNoArgs<V, E>(spec: Spec, state: RoleState, resolve: Resolver<V, E>)
    requires !RootAllowed(spec, state)
    ensures Parse(Visible(spec, p => state.Allows(p)), [], resolve) == Ok(NoArgs)
    ensures !state.Allows(Required(spec, [], PERM_OPEN))
  {
    FilterRoot(spec, state);
    HiddenIsDenied(spec, [], state);
  }

  /** Filtering and parsing alone accept a command that the role may not give exactly when the tree is hidden at its
      root and there are no arguments. */
  lemma FilteringAloneAdmitsIff<V, E>(spec: Spec, rawArgs: seq<string>, state: RoleState, resolve: Resolver<V, E>)
    ensures Parse(Visible(spec, p => state.Allows(p)), rawArgs, resolve).Ok?
            && !state.Allows(Required(spec, rawArgs, PERM_OPEN))
        <==> !RootAllowed(spec, state) && rawArgs == []
  {
    if RootAllowed(spec, state) {
      if Parse(Visible(spec, p => state.Allows(p)), rawArgs, resolve).Ok? {
        FilteredParseIsAllowed(spec, rawArgs, state, resolve);
        RequiredIsEveryRestriction(spec, rawArgs, state);
      }
    } else {
      FilterRoot(spec, state);
      HiddenIsDenied(spec, rawArgs, state);
    }
  }

  // ---- The dispatcher ----

  datatype ArgsResult<V, E> = Accepted(value: Parsed<V>) | Denied | Unavailable | Refused(error: SpecError<E>)

  /** Authorize the selected path, then filter the tree and parse. `lookup` is the role that asking the server gives,
      if asking succeeds; a role already known is not asked for again. */
  method ParseCommandArgs<V, E>(spec: Spec, args: seq<string>, known: RoleState, lookup: Option<Role>,
                                resolve: Resolver<V, E>) returns (r: ArgsResult<V, E>)
    ensures var state := if !known.available && lookup.Some? then RoleState(lookup.value, true) else known;
      var restricted := exists p :: p in Path(spec, args) && p != 0;
      var met := forall p :: p in Path(spec, args) && p != 0 ==> state.available && state.role <= p;
      && (r.Accepted? <==> met && Parse(spec, args, resolve).Ok?)
      && (r.Accepted? ==> r.value == Parse(spec, args, resolve).value)
      && (r.Refused? <==> met && Parse(spec, args, resolve).Err?)
      && (r.Refused? ==> r.error == Parse(spec, args, resolve).error)
      && (r.Unavailable? <==> restricted && !state.available)
      && (r.Denied? <==> state.available && exists p :: p in Path(spec, args) && p != 0 && p < state.role)
  {
    var required := RequiredPermission(spec, args);
    var state := known;
    if !state.available && lookup.Some? { state := RoleState(lookup.value, true); }
    RequiredIsEveryRestriction(spec, args, state);
    if required != PERM_OPEN {
      if !state.available { return Unavailable; }
      if !RoleAllows(state.role, required) { return Denied; }
    }
    if !RootAllowed(spec, state) { HiddenIsDenied(spec, args, state); }
    FilterRoot(spec, state);
    FilteredParse(spec, args, state, resolve);
    var visible := FilterArgSpec(spec, p => state.Allows(p));
    var parsed := Parse(if visible.Some? then visible.value else Nil, args, resolve);
    r := if parsed.Ok? then Accepted(parsed.value) else Refused(parsed.error);
  }
}
