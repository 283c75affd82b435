/** Filling an argument struct from tokens (command/argparser.go, parseStruct, extractFlags, fillPositional). The
    struct is a list of field descriptors; converting one token is left to a resolver. */
module ArgFields {

  /** A bool field with an `arg` tag that starts with "-" is a flag; a bool field without one is never filled. */
  datatype Kind = Flag(flag: string) | PlainBool | Positional(optional: bool)

  datatype Field = Field(name: string, kind: Kind)

  datatype Value<V> = Zero | True | Token(value: V)

  datatype FieldError<E> = Usage | Unexpected(extra: seq<string>) | Conversion(error: E)

  datatype Outcome<T, E> = Ok(value: T) | Err(error: E)

  type Resolver<!V, !E> = (Field, string) -> Outcome<V, E>

  // ---- Flags ----

  /** `tokens` without the first occurrence of `flag`. */
  function Without(tokens: seq<string>, flag: string): (rest: seq<string>) {
    if tokens == [] then []
    else if tokens[0] == flag then tokens[1..]
    else [tokens[0]] + Without(tokens[1..], flag)
  }

  /** What the flags of `fields` leave of `tokens`. */
  function Remaining(fields: seq<Field>, tokens: seq<string>): seq<string> {
    if fields == [] then tokens
    else if fields[0].kind.Flag? then Remaining(fields[1..], Without(tokens, fields[0].kind.flag))
    else Remaining(fields[1..], tokens)
  }

  /** Which fields are flags found among `tokens`. */
  function FlagsFound(fields: seq<Field>, tokens: seq<string>): (found: seq<bool>)
    ensures |found| == |fields|
  {
    if fields == [] then []
    else if fields[0].kind.Flag? then
      [fields[0].kind.flag in tokens] + FlagsFound(fields[1..], Without(tokens, fields[0].kind.flag))
    else [false] + FlagsFound(fields[1..], tokens)
  }

  lemma {:induction false} WithoutAbsent(tokens: seq<string>, flag: string)
    requires flag !in tokens
    ensures Without(tokens, flag) == tokens
  {
    if tokens != [] {
      assert tokens == [tokens[0]] + tokens[1..];
      WithoutAbsent(tokens[1..], flag);
    }
  }

  lemma {:induction false} WithoutSnoc(front: seq<string>, last: string, flag: string)
    ensures Without(front + [last], flag) ==
      if flag in front then Without(front, flag) + [last] else if last == flag then front else front + [last]
  {
    if front == [] {
      assert [] + [last] == [last] && [last][1..] == [];
    } else {
      assert (front + [last])[1..] == front[1..] + [last];
      WithoutSnoc(front[1..], last, flag);
      if front[0] != flag { assert front == [front[0]] + front[1..]; }
    }
  }

  /** Filters the tokens in `a[..n]` in place, as the inner loop of `extractFlags` does. */
  method RemoveFirst(a: array<string>, n: nat, flag: string) returns (m: nat, found: bool)
    requires n <= a.Length
    modifies a
    ensures m <= n && a[..m] == Without(old(a[..n]), flag)
    ensures found <==> flag in old(a[..n])
    ensures a[n..] == old(a[n..])
  {
    found, m := false, 0;
    ghost var was := a[..n];
    hide Without;
    WithoutAbsent([], flag);
    for i := 0 to n
      invariant m == (if found then i - 1 else i)
      invariant found <==> flag in was[..i]
      invariant a[..m] == Without(was[..i], flag)
      invariant forall j :: i <= j < a.Length ==> a[j] == old(a[j])
    {
      var arg := a[i];
      assert was[..i + 1] == was[..i] + [arg];
      WithoutSnoc(was[..i], arg, flag);
      if !found { WithoutAbsent(was[..i], flag); }
      if arg == flag && !found {
        found := true;
      } else {
        a[m] := arg;
        m := m + 1;
        assert a[..m] == a[..m - 1] + [arg];
      }
    }
    assert was[..n] == was;
  }

  /** What the flag of one field does to the tokens still there. */
  lemma ExtractStep(fields: seq<Field>, i: nat, tokens: seq<string>, found: seq<bool>)
    requires i < |fields|
    ensures var kind := fields[i].kind;
      var rest := if kind.Flag? then Without(tokens, kind.flag) else tokens;
      && Remaining(fields[i..], tokens) == Remaining(fields[i + 1..], rest)
      && found + FlagsFound(fields[i..], tokens)
         == found + [kind.Flag? && kind.flag in tokens] + FlagsFound(fields[i + 1..], rest)
  {
  }

  /** The loop over fields, filtering one cloned slice for each flag in turn. */
  method ExtractFlags(fields: seq<Field>, rawArgs: seq<string>) returns (remaining: seq<string>, found: seq<bool>)
    ensures remaining == Remaining(fields, rawArgs)
    ensures found == FlagsFound(fields, rawArgs)
  {
    hide Without;
    var a := new string[|rawArgs|](i requires 0 <= i < |rawArgs| => rawArgs[i]);
    var n := |rawArgs|;
    assert a[..n] == rawArgs;
    found := [];
    assert fields[0..] == fields && [] + FlagsFound(fields, rawArgs) == FlagsFound(fields, rawArgs);
    var i := 0;
    while i < |fields|
      invariant 0 <= i <= |fields|
      invariant 0 <= n <= a.Length
      invariant Remaining(fields, rawArgs) == Remaining(fields[i..], a[..n])
      invariant FlagsFound(fields, rawArgs) == found + FlagsFound(fields[i..], a[..n])
    {
      hide Remaining, FlagsFound;
      ExtractStep(fields, i, a[..n], found);
      var hit := false;
      if fields[i].kind.Flag? {
        n, hit := RemoveFirst(a, n, fields[i].kind.flag);
      }
      found := found + [hit];
      i := i + 1;
    }
    assert found + [] == found;
    remaining := a[..n];
  }

  // ---- Positional fields ----

  /** The values of `fields` from the tokens at `pos` on, and the position reached. */
  function Fill<V, E>(fields: seq<Field>, found: seq<bool>, tokens: seq<string>, pos: nat, resolve: Resolver<V, E>)
    : (r: Outcome<(seq<Value<V>>, nat), FieldError<E>>)
    requires |found| == |fields| && pos <= |tokens|
    ensures r.Ok? ==> |r.value.0| == |fields| && pos <= r.value.1 <= |tokens|
  {
    if fields == [] then Ok(([], pos))
    else if !fields[0].kind.Positional? then
      Ahead(if found[0] then True else Zero, Fill(fields[1..], found[1..], tokens, pos, resolve))
    else if pos >= |tokens| then
      if fields[0].kind.optional then Ahead(Zero, Fill(fields[1..], found[1..], tokens, pos, resolve))
      else Err(Usage)
    else
      match resolve(fields[0], tokens[pos])
      case Err(e) => Err(Conversion(e))
      case Ok(v) => Ahead(Token(v), Fill(fields[1..], found[1..], tokens, pos + 1, resolve))
  }

  function Ahead<V, E>(value: Value<V>, rest: Outcome<(seq<Value<V>>, nat), FieldError<E>>)
    : Outcome<(seq<Value<V>>, nat), FieldError<E>>
  {
    match rest
    case Err(e) => Err(e)
    case Ok((values, pos)) => Ok(([value] + values, pos))
  }

  function Over<V, E>(done: seq<Value<V>>, rest: Outcome<(seq<Value<V>>, nat), FieldError<E>>)
    : Outcome<(seq<Value<V>>, nat), FieldError<E>>
  {
    match rest
    case Err(e) => Err(e)
    case Ok((values, pos)) => Ok((done + values, pos))
  }

  lemma OverAhead<V, E>(done: seq<Value<V>>, value: Value<V>, rest: Outcome<(seq<Value<V>>, nat), FieldError<E>>)
    ensures Over(done, Ahead(value, rest)) == Over(done + [value], rest)
  {
    if rest.Ok? { assert done + ([value] + rest.value.0) == done + [value] + rest.value.0; }
  }

  // ---- What filling means ----

  /** How many of the first `i` fields are positional: the index of the token that field `i` would take. */
  function Before(fields: seq<Field>, i: nat): nat
    requires i <= |fields|
  {
    if i == 0 then 0 else (if fields[0].kind.Positional? then 1 else 0) + Before(fields[1..], i - 1)
  }

  /** Field `i` is positional and there is a token for it, counting from `pos`. */
  predicate Takes(fields: seq<Field>, tokens: seq<string>, pos: nat, i: nat)
    requires i < |fields|
  {
    fields[i].kind.Positional? && pos + Before(fields, i) < |tokens|
  }

  function TakenBy<V, E>(fields: seq<Field>, tokens: seq<string>, pos: nat, resolve: Resolver<V, E>, i: nat)
    : Outcome<V, E>
    requires i < |fields| && Takes(fields, tokens, pos, i)
  {
    resolve(fields[i], tokens[pos + Before(fields, i)])
  }

  /** Every field before `n` that takes a token converts it. */
  ghost predicate Converts<V, E>(fields: seq<Field>, tokens: seq<string>, pos: nat, resolve: Resolver<V, E>, n: nat)
    requires n <= |fields|
  {
    forall i :: 0 <= i < n && Takes(fields, tokens, pos, i) ==> TakenBy(fields, tokens, pos, resolve, i).Ok?
  }

  /** Some required field is left without a token. */
  ghost predicate Missing(fields: seq<Field>, tokens: seq<string>, pos: nat) {
    exists i :: 0 <= i < |fields| && fields[i].kind == Positional(false) && !Takes(fields, tokens, pos, i)
  }

  ghost predicate FirstFailure<V, E>(fields: seq<Field>, tokens: seq<string>, pos: nat, resolve: Resolver<V, E>,
                                     i: nat, e: E)
  {
    i < |fields| && Takes(fields, tokens, pos, i) && TakenBy(fields, tokens, pos, resolve, i) == Err(e)
    && Converts(fields, tokens, pos, resolve, i)
  }

  /** The k-th positional field holds the conversion of the k-th token, fields past the tokens stay zero, and flags
      hold whether they were found. */
  ghost predicate HasValues<V, E>(fields: seq<Field>, found: seq<bool>, tokens: seq<string>, pos: nat,
                                  resolve: Resolver<V, E>, values: seq<Value<V>>)
    requires |found| == |fields|
  {
    |values| == |fields|
    && forall i :: 0 <= i < |fields| ==>
      values[i] == if Takes(fields, tokens, pos, i) then
                     (match TakenBy(fields, tokens, pos, resolve, i) case Ok(v) => Token(v) case Err(_) => Zero)
                   else if found[i] && !fields[i].kind.Positional? then True
                   else Zero
  }

  lemma BeforeTail(fields: seq<Field>, tokens: seq<string>, pos: nat, i: nat)
    requires 0 < i <= |fields|
    ensures var taken := if fields[0].kind.Positional? then 1 else 0;
      && Before(fields, i) == taken + Before(fields[1..], i - 1)
      && (i < |fields| ==>
            (Takes(fields, tokens, pos, i) <==> Takes(fields[1..], tokens, pos + taken, i - 1)))
  {
  }

  /** The tail seen from the head: its fields take the same tokens. */
  lemma TailAgrees<V, E>(fields: seq<Field>, tokens: seq<string>, pos: nat, pos': nat, resolve: Resolver<V, E>)
    requires fields != []
    requires fields[0].kind.Positional? && pos < |tokens| ==> pos' == pos + 1
    requires !(fields[0].kind.Positional? && pos < |tokens|) ==> pos' == pos
    ensures forall i :: 0 < i < |fields| ==>
      && (Takes(fields, tokens, pos, i) <==> Takes(fields[1..], tokens, pos', i - 1))
      && (Takes(fields, tokens, pos, i) ==>
            TakenBy(fields, tokens, pos, resolve, i) == TakenBy(fields[1..], tokens, pos', resolve, i - 1))
  {
    forall i | 0 < i < |fields|
      ensures Takes(fields, tokens, pos, i) <==> Takes(fields[1..], tokens, pos', i - 1)
      ensures Takes(fields, tokens, pos, i) ==>
        TakenBy(fields, tokens, pos, resolve, i) == TakenBy(fields[1..], tokens, pos', resolve, i - 1)
    {
      BeforeTail(fields, tokens, pos, i);
    }
  }

  /** What `Fill` makes of the fields, outcome by outcome. */
  ghost predicate Filled<V, E>(fields: seq<Field>, found: seq<bool>, tokens: seq<string>, pos: nat,
                               resolve: Resolver<V, E>, r: Outcome<(seq<Value<V>>, nat), FieldError<E>>)
    requires |found| == |fields|
  {
    var all := Converts(fields, tokens, pos, resolve, |fields|);
    match r
    case Ok((values, end)) =>
      && all && !Missing(fields, tokens, pos)
      && HasValues(fields, found, tokens, pos, resolve, values)
      && end == (if pos + Before(fields, |fields|) < |tokens| then pos + Before(fields, |fields|) else |tokens|)
    case Err(Usage) => all && Missing(fields, tokens, pos)
    case Err(Conversion(e)) => exists i :: FirstFailure(fields, tokens, pos, resolve, i, e)
    case Err(Unexpected(_)) => false
  }

  lemma {:induction false} FillMeans<V, E>(fields: seq<Field>, found: seq<bool>, tokens: seq<string>, pos: nat,
                                           resolve: Resolver<V, E>)
    requires |found| == |fields| && pos <= |tokens|
    ensures Filled(fields, found, tokens, pos, resolve, Fill(fields, found, tokens, pos, resolve))
    decreases |fields|
  {
    if fields != [] {
      var takes := fields[0].kind.Positional? && pos < |tokens|;
      var pos' := if takes then pos + 1 else pos;
      TailAgrees(fields, tokens, pos, pos', resolve);
      BeforeTail(fields, tokens, pos, |fields|);
      assert Takes(fields, tokens, pos, 0) <==> takes;
      FillMeans(fields[1..], found[1..], tokens, pos', resolve);
      var head, rest := fields[0], Fill(fields[1..], found[1..], tokens, pos', resolve);
      if takes && resolve(head, tokens[pos]).Err? {
        assert FirstFailure(fields, tokens, pos, resolve, 0, resolve(head, tokens[pos]).error);
      } else if rest.Err? && rest.error.Conversion? && Fill(fields, found, tokens, pos, resolve) == Err(rest.error) {
        var e := rest.error.error;
        var i :| FirstFailure(fields[1..], tokens, pos', resolve, i, e);
        FailureTail(fields, tokens, pos, pos', resolve, i, e);
      }
    }
  }

  lemma FailureTail<V, E>(fields: seq<Field>, tokens: seq<string>, pos: nat, pos': nat, resolve: Resolver<V, E>,
                          i: nat, e: E)
    requires fields != [] && pos <= |tokens|
    requires pos' == if fields[0].kind.Positional? && pos < |tokens| then pos + 1 else pos
    requires FirstFailure(fields[1..], tokens, pos', resolve, i, e)
    requires Takes(fields, tokens, pos, 0) ==> TakenBy(fields, tokens, pos, resolve, 0).Ok?
    ensures FirstFailure(fields, tokens, pos, resolve, i + 1, e)
  {
    TailAgrees(fields, tokens, pos, pos', resolve);
  }

  /** The loop over fields with its position counter. */
  method FillPositional<V, E>(fields: seq<Field>, found: seq<bool>, remaining: seq<string>, resolve: Resolver<V, E>)
    returns (r: Outcome<(seq<Value<V>>, nat), FieldError<E>>)
    requires |found| == |fields|
    ensures r == Fill(fields, found, remaining, 0, resolve)
    ensures Filled(fields, found, remaining, 0, resolve, r)
  {
    hide Ahead, Filled;
    FillMeans(fields, found, remaining, 0, resolve);
    var values: seq<Value<V>> := [];
    var posIdx := 0;
    var i := 0;
    assert fields[0..] == fields && found[0..] == found;
    OverNothing(Fill(fields, found, remaining, 0, resolve));
    while i < |fields|
      invariant 0 <= i <= |fields| && posIdx <= |remaining|
      invariant Fill(fields, found, remaining, 0, resolve)
        == Over(values, Fill(fields[i..], found[i..], remaining, posIdx, resolve))
    {
      assert fields[i..][1..] == fields[i + 1..] && found[i..][1..] == found[i + 1..];
      var field := fields[i];
      var value: Value<V> := Zero;
      if !field.kind.Positional? {
        if found[i] { value := True; }
      } else if posIdx >= |remaining| {
        if !field.kind.optional { return Err(Usage); }
      } else {
        var converted := resolve(field, remaining[posIdx]);
        if converted.Err? { return Err(Conversion(converted.error)); }
        value := Token(converted.value);
        posIdx := posIdx + 1;
      }
      OverAhead(values, value, Fill(fields[i + 1..], found[i + 1..], remaining, posIdx, resolve));
      values := values + [value];
      i := i + 1;
    }
    assert values + [] == values;
    r := Ok((values, posIdx));
  }

  lemma OverNothing<V, E>(rest: Outcome<(seq<Value<V>>, nat), FieldError<E>>)
    ensures Over([], rest) == rest
  {
    if rest.Ok? { assert [] + rest.value.0 == rest.value.0; }
  }

  function ParseFields<V, E>(fields: seq<Field>, tokens: seq<string>, resolve: Resolver<V, E>)
    : Outcome<seq<Value<V>>, FieldError<E>>
  {
    var remaining := Remaining(fields, tokens);
    match Fill(fields, FlagsFound(fields, tokens), remaining, 0, resolve)
    case Err(e) => Err(e)
    case Ok((values, pos)) => if pos < |remaining| then Err(Unexpected(remaining[pos..])) else Ok(values)
  }

  method ParseStruct<V, E>(fields: seq<Field>, rawArgs: seq<string>, resolve: Resolver<V, E>)
    returns (r: Outcome<seq<Value<V>>, FieldError<E>>)
    ensures r == ParseFields(fields, rawArgs, resolve)
  {
    var remaining, found := ExtractFlags(fields, rawArgs);
    var filled := FillPositional(fields, found, remaining, resolve);
    if filled.Err? { return Err(filled.error); }
    var (values, posIdx) := filled.value;
    if posIdx < |remaining| { return Err(Unexpected(remaining[posIdx..])); }
    return Ok(values);
  }

  // ---- Flags are position-independent ----

  function FlagNames(fields: seq<Field>): set<string> {
    set i | 0 <= i < |fields| && fields[i].kind.Flag? :: fields[i].kind.flag
  }

  predicate DistinctFlags(fields: seq<Field>) {
    forall i, j :: 0 <= i < j < |fields| && fields[i].kind.Flag? && fields[j].kind.Flag? ==>
      fields[i].kind.flag != fields[j].kind.flag
  }

  /** The tokens without the first copy of each flag, in order. */
  function Drop(flags: set<string>, tokens: seq<string>): (rest: seq<string>)
    ensures forall t :: t in rest ==> t in tokens
  {
    if tokens == [] then []
    else
      var front, last := tokens[..|tokens| - 1], tokens[|tokens| - 1];
      if last in flags && last !in front then Drop(flags, front) else Drop(flags, front) + [last]
  }

  lemma {:induction false} DropNone(tokens: seq<string>)
    ensures Drop({}, tokens) == tokens
  {
    if tokens != [] {
      DropNone(tokens[..|tokens| - 1]);
      assert tokens == tokens[..|tokens| - 1] + [tokens[|tokens| - 1]];
    }
  }

  lemma DropSnoc(flags: set<string>, front: seq<string>, last: string)
    ensures Drop(flags, front + [last]) == Drop(flags, front) + if last in flags && last !in front then [] else [last]
  {
    assert (front + [last])[..|front|] == front;
  }

  /** Taking out one flag first and the others afterwards drops the same tokens. */
  lemma {:induction false} DropWithout(flags: set<string>, flag: string, tokens: seq<string>)
    requires flag !in flags
    ensures Drop(flags, Without(tokens, flag)) == Drop(flags + {flag}, tokens)
    ensures forall t :: t != flag ==> (t in Without(tokens, flag) <==> t in tokens)
    decreases |tokens|
  {
    if tokens != [] {
      var front, last := tokens[..|tokens| - 1], tokens[|tokens| - 1];
      assert tokens == front + [last];
      DropWithout(flags, flag, front);
      WithoutSnoc(front, last, flag);
      hide Drop, Without;
      DropSnoc(flags + {flag}, front, last);
      DropSnoc(flags, Without(front, flag), last);
      if flag !in front { WithoutAbsent(front, flag); }
    }
  }

  lemma FlagNamesTail(fields: seq<Field>)
    requires fields != [] && DistinctFlags(fields)
    ensures DistinctFlags(fields[1..])
    ensures fields[0].kind.Flag? ==>
      fields[0].kind.flag !in FlagNames(fields[1..]) && FlagNames(fields) == FlagNames(fields[1..]) + {fields[0].kind.flag}
    ensures !fields[0].kind.Flag? ==> FlagNames(fields) == FlagNames(fields[1..])
  {
  }

  /** For distinct flags and any tokens, the loop drops exactly the first copy of each flag and finds exactly the flags
      that were given. */
  lemma {:induction false} RemainingIsDrop(fields: seq<Field>, tokens: seq<string>)
    requires DistinctFlags(fields)
    ensures Remaining(fields, tokens) == Drop(FlagNames(fields), tokens)
    ensures forall i :: 0 <= i < |fields| ==>
      (FlagsFound(fields, tokens)[i] <==> fields[i].kind.Flag? && fields[i].kind.flag in tokens)
    decreases |fields|
  {
    hide Drop, Without;
    if fields == [] {
      assert FlagNames(fields) == {};
      DropNone(tokens);
    } else {
      FlagNamesTail(fields);
      var rest := fields[1..];
      if fields[0].kind.Flag? {
        var flag := fields[0].kind.flag;
        DropWithout(FlagNames(rest), flag, tokens);
        RemainingIsDrop(rest, Without(tokens, flag));
        forall i | 0 < i < |fields| && fields[i].kind.Flag?
          ensures fields[i].kind.flag in Without(tokens, flag) <==> fields[i].kind.flag in tokens
        {
          assert rest[i - 1] == fields[i];
        }
      } else {
        RemainingIsDrop(rest, tokens);
      }
    }
  }

  /** Token lists with the same flags and the same tokens but for the first copy of each flag give the same value or
      failure. */
  lemma SameDropParsesAlike<V, E>(fields: seq<Field>, xs: seq<string>, ys: seq<string>, resolve: Resolver<V, E>)
    requires DistinctFlags(fields)
    requires Drop(FlagNames(fields), xs) == Drop(FlagNames(fields), ys)
    requires forall f :: f in FlagNames(fields) ==> (f in xs <==> f in ys)
    ensures ParseFields(fields, xs, resolve) == ParseFields(fields, ys, resolve)
  {
    hide Drop, Remaining, FlagsFound, Fill;
    RemainingIsDrop(fields, xs);
    RemainingIsDrop(fields, ys);
    forall i | 0 <= i < |fields| ensures FlagsFound(fields, xs)[i] == FlagsFound(fields, ys)[i] {
      if fields[i].kind.Flag? { assert fields[i].kind.flag in FlagNames(fields); }
    }
    assert FlagsFound(fields, xs) == FlagsFound(fields, ys);
  }

  // ---- Flags given at most once ----

  /** The tokens that are no flag of the list, in order. */
  function Plain(flags: set<string>, tokens: seq<string>): seq<string> {
    if tokens == [] then []
    else
      var front, last := tokens[..|tokens| - 1], tokens[|tokens| - 1];
      if last in flags then Plain(flags, front) else Plain(flags, front) + [last]
  }

  predicate AtMostOnce(flags: set<string>, tokens: seq<string>) {
    forall i, j :: 0 <= i < j < |tokens| && tokens[i] in flags ==> tokens[i] != tokens[j]
  }

  /** Without repetition, the first copies are all copies; with repetition, some copy is left. */
  lemma {:induction false} DropIsPlain(flags: set<string>, tokens: seq<string>)
    ensures Drop(flags, tokens) == Plain(flags, tokens) <==> AtMostOnce(flags, tokens)
    ensures |Drop(flags, tokens)| >= |Plain(flags, tokens)|
    ensures !AtMostOnce(flags, tokens) ==> |Drop(flags, tokens)| > |Plain(flags, tokens)|
    decreases |tokens|
  {
    if tokens != [] {
      var front, last := tokens[..|tokens| - 1], tokens[|tokens| - 1];
      DropIsPlain(flags, front);
      assert forall i :: 0 <= i < |front| ==> front[i] == tokens[i];
      if last in flags && last in front {
        var k :| 0 <= k < |front| && front[k] == last;
        assert tokens[k] == tokens[|tokens| - 1];
      }
    }
  }

  /** Exactly with each flag at most once, the flags leave just the plain tokens, in order. */
  lemma RemainingIsPlain(fields: seq<Field>, tokens: seq<string>)
    requires DistinctFlags(fields)
    ensures Remaining(fields, tokens) == Plain(FlagNames(fields), tokens) <==> AtMostOnce(FlagNames(fields), tokens)
  {
    RemainingIsDrop(fields, tokens);
    DropIsPlain(FlagNames(fields), tokens);
  }

  /** Moving flags that are given at most once to any positions changes neither the value nor the failure of a parse. */
  lemma FlagsArePositionIndependent<V, E>(fields: seq<Field>, xs: seq<string>, ys: seq<string>,
                                          resolve: Resolver<V, E>)
    requires DistinctFlags(fields)
    requires AtMostOnce(FlagNames(fields), xs) && AtMostOnce(FlagNames(fields), ys)
    requires Plain(FlagNames(fields), xs) == Plain(FlagNames(fields), ys)
    requires forall f :: f in FlagNames(fields) ==> (f in xs <==> f in ys)
    ensures ParseFields(fields, xs, resolve) == ParseFields(fields, ys, resolve)
  {
    hide Drop, Plain, AtMostOnce;
    DropIsPlain(FlagNames(fields), xs);
    DropIsPlain(FlagNames(fields), ys);
    SameDropParsesAlike(fields, xs, ys, resolve);
  }

  // ---- What a parse means ----

  /** A struct is filled exactly when every token taken converts, no required field lacks a token and no token is left
      over; tokens left over are the error only when nothing else is wrong. */
  lemma ParseFieldsMeans<V, E>(fields: seq<Field>, tokens: seq<string>, resolve: Resolver<V, E>)
    requires DistinctFlags(fields)
    ensures var r := ParseFields(fields, tokens, resolve);
      var rest := Drop(FlagNames(fields), tokens);
      var n := Before(fields, |fields|);
      var filled := Converts(fields, rest, 0, resolve, |fields|) && !Missing(fields, rest, 0);
      && (r.Ok? <==> filled && |rest| <= n)
      && (r.Ok? ==> HasValues(fields, FlagsFound(fields, tokens), rest, 0, resolve, r.value))
      && (r.Err? && r.error.Unexpected? <==> filled && n < |rest|)
      && (r.Err? && r.error.Unexpected? ==> n < |rest| && r.error.extra == rest[n..])
      && (r == Err(Usage) <==> Converts(fields, rest, 0, resolve, |fields|) && Missing(fields, rest, 0))
      && (r.Err? && r.error.Conversion? ==> exists i :: FirstFailure(fields, rest, 0, resolve, i, r.error.error))
  {
    RemainingIsDrop(fields, tokens);
    var rest := Drop(FlagNames(fields), tokens);
    FillMeans(fields, FlagsFound(fields, tokens), rest, 0, resolve);
    hide Drop, Remaining, FlagsFound, Fill, Before, Takes;
    var r := ParseFields(fields, tokens, resolve);
    if r.Err? && r.error.Conversion? {
      var i :| FirstFailure(fields, rest, 0, resolve, i, r.error.error);
      assert !Converts(fields, rest, 0, resolve, |fields|);
    }
  }

  /** A flag given twice is taken once; the other copy fills a positional field, and its place counts. */
  lemma RepeatedFlagIsPositional()
    ensures var fields := [Field("Keep", Flag("-k")), Field("Name", Positional(false)), Field("Other", Positional(false))];
      var echo: Resolver<string, string> := (field, token) => Ok(token);
      && ParseFields(fields, ["-k", "-k", "a"], echo) == Ok([True, Token("-k"), Token("a")])
      && ParseFields(fields, ["-k", "a", "-k"], echo) == Ok([True, Token("a"), Token("-k")])
  {
    KeepNameOther(["-k", "-k", "a"], "-k", "a") by { WithoutSnoc(["-k", "-k"], "a", "-k"); }
    KeepNameOther(["-k", "a", "-k"], "a", "-k") by { WithoutSnoc(["-k", "a"], "-k", "-k"); }
  }

  lemma FillOne<V, E>(field: Field, fields: seq<Field>, found: seq<bool>, values: seq<Value<V>>, tokens: seq<string>,
                      pos: nat, resolve: Resolver<V, E>)
    requires |found| == 1 + |fields| && pos < |tokens|
    requires field.kind.Positional? && resolve(field, tokens[pos]).Ok?
    requires Fill(fields, found[1..], tokens, pos + 1, resolve) == Ok((values, |tokens|))
    ensures Fill([field] + fields, found, tokens, pos, resolve)
      == Ok(([Token(resolve(field, tokens[pos]).value)] + values, |tokens|))
  {
    assert ([field] + fields)[1..] == fields;
  }

  lemma KeepNameOther(tokens: seq<string>, x: string, y: string)
    requires "-k" in tokens && Without(tokens, "-k") == [x, y]
    ensures var fields := [Field("Keep", Flag("-k")), Field("Name", Positional(false)), Field("Other", Positional(false))];
      var echo: Resolver<string, string> := (field, token) => Ok(token);
      ParseFields(fields, tokens, echo) == Ok([True, Token(x), Token(y)])
  {
    hide Without;
    var fields := [Field("Keep", Flag("-k")), Field("Name", Positional(false)), Field("Other", Positional(false))];
    var echo: Resolver<string, string> := (field, token) => Ok(token);
    var rest := [x, y];
    assert fields[1..] == [fields[1]] + fields[2..] && fields[2..] == [fields[2]] + [] && fields[2..][1..] == [];
    assert fields[1..][1..] == fields[2..];
    assert Remaining(fields[2..], rest) == rest;
    assert Remaining(fields[1..], rest) == rest;
    var found := FlagsFound(fields, tokens);
    assert found[1..][1..] == found[2..] && found[2..][1..] == [];
    var last: seq<Value<string>> := [Token(y)];
    FillOne(fields[2], [], found[2..], [], rest, 1, echo);
    assert last + [] == last;
    FillOne(fields[1], fields[2..], found[1..], last, rest, 0, echo);
    assert [True] + ([Token(x)] + last) == [True, Token(x), Token(y)];
  }
}
