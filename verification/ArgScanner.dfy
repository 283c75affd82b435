/** The scanner that cuts one command into arguments (command/parser.go, splitArgs and the mention helpers). */
module ArgScanner {
  import opened Text
  import opened ChainScanner

  method HasRunesAt(runes: string, start: nat, value: string) returns (has: bool)
    ensures has <==> At(runes, start, value)
  {
    if start + |value| > |runes| { return false; }
    for i := 0 to |value|
      invariant forall p {:trigger runes[p]} :: start <= p < start + i ==> runes[p] == value[p - start]
    {
      if runes[start + i] != value[i] { return false; }
    }
    return true;
  }

  /** The least index from `start` on at which `value` stands, or |runes| when there is none. */
  function IndexFrom(runes: string, start: nat, value: string): (k: nat)
    requires start <= |runes|
    ensures start <= k <= |runes|
    ensures k < |runes| ==> At(runes, k, value)
    ensures forall j {:trigger At(runes, j, value)} :: start <= j < k ==> !At(runes, j, value)
    decreases |runes| - start
  {
    if start == |runes| || At(runes, start, value) then start else IndexFrom(runes, start + 1, value)
  }

  method FindRunes(runes: string, start: nat, value: string) returns (k: nat, ok: bool)
    requires start <= |runes|
    ensures ok <==> IndexFrom(runes, start, value) < |runes|
    ensures ok ==> k == IndexFrom(runes, start, value)
  {
    k := start;
    while k < |runes|
      invariant start <= k <= |runes|
      invariant IndexFrom(runes, start, value) == IndexFrom(runes, k, value)
    {
      var here := HasRunesAt(runes, k, value);
      if here { return k, true; }
      k := k + 1;
    }
    return 0, false;
  }

  /** The end of the text delimited by `delimiter` whose content begins at `contentStart`; `start` when it is open. */
  function DelimitedEnd(runes: string, start: nat, contentStart: nat, delimiter: string): (e: nat)
    requires start < contentStart <= |runes| && delimiter != ""
    ensures e == start || start < e <= |runes|
  {
    var k := IndexFrom(runes, contentStart, delimiter);
    if k < |runes| then k + |delimiter| else start
  }

  /** The end of the Zulip mention that begins at `start`; `start` itself when none does. */
  function MentionEnd(runes: string, start: nat): (e: nat)
    requires start < |runes|
    ensures e == start || start < e <= |runes|
    ensures start < e ==> runes[start] == '@' || runes[start] == '#'
  {
    var i := if start + 1 < |runes| && runes[start + 1] == '_' then start + 2 else start + 1;
    if runes[start] == '@' && At(runes, i, "**") then DelimitedEnd(runes, start, i + 2, "**")
    else if runes[start] == '@' && At(runes, i, "*") then DelimitedEnd(runes, start, i + 1, "*")
    else if runes[start] == '#' && At(runes, i, "**") then DelimitedEnd(runes, start, i + 2, "**")
    else start
  }

  method ScanZulipMentionToken(runes: string, start: nat) returns (token: string, next: nat, ok: bool)
    requires start < |runes|
    ensures ok <==> start < MentionEnd(runes, start)
    ensures ok ==> next == MentionEnd(runes, start) && token == runes[start..next]
  {
    var c := runes[start];
    if c != '@' && c != '#' { return "", start, false; }
    var i := start + 1;
    if i < |runes| && runes[i] == '_' { i := i + 1; }
    var double := HasRunesAt(runes, i, "**");
    if double {
      token, next, ok := ScanDelimitedMention(runes, start, i + 2, "**");
      return;
    }
    var single := HasRunesAt(runes, i, "*");
    if c == '@' && single {
      token, next, ok := ScanDelimitedMention(runes, start, i + 1, "*");
      return;
    }
    return "", start, false;
  }

  method ScanDelimitedMention(runes: string, start: nat, contentStart: nat, delimiter: string)
    returns (token: string, next: nat, ok: bool)
    requires start < contentStart <= |runes| && delimiter != ""
    ensures ok <==> start < DelimitedEnd(runes, start, contentStart, delimiter)
    ensures ok ==> next == DelimitedEnd(runes, start, contentStart, delimiter) && token == runes[start..next]
  {
    var end, found := FindRunes(runes, contentStart, delimiter);
    if !found { return "", start, false; }
    next := end + |delimiter|;
    return runes[start..next], next, true;
  }

  /** What the scanner remembers between characters. */
  datatype ArgState = ArgState(current: string, quote: char, escaped: bool, inToken: bool)

  const BETWEEN := ArgState("", '\0', false, false)

  /** The arguments in `s[i..]` when the scanner arrives at `i` in state `st`. */
  function Args(s: string, i: nat, st: ArgState): (r: Result<seq<string>>)
    requires i <= |s|
    decreases |s| - i
  {
    if i == |s| then
      if st.escaped then Err(TrailingEscape)
      else if st.quote != '\0' then Err(UnterminatedQuote)
      else Ok(if st.inToken then [st.current] else [])
    else
      var c := s[i];
      if st.escaped then Args(s, i + 1, ArgState(st.current + [c], st.quote, false, true))
      else if c == '\\' then Args(s, i + 1, ArgState(st.current, st.quote, true, true))
      else if st.quote != '\0' then
        if c == st.quote then Args(s, i + 1, st.(quote := '\0'))
        else Args(s, i + 1, ArgState(st.current + [c], st.quote, false, true))
      else if !st.inToken && i < MentionEnd(s, i) then
        Args(s, MentionEnd(s, i), ArgState(st.current + s[i..MentionEnd(s, i)], '\0', false, true))
      else if c == '\'' || c == '"' then Args(s, i + 1, ArgState(st.current, c, false, true))
      else if IsSpace(c) then
        if st.inToken then Prepend(st.current, Args(s, i + 1, BETWEEN)) else Args(s, i + 1, st)
      else Args(s, i + 1, ArgState(st.current + [c], '\0', false, true))
  }

  function Prepend(arg: string, rest: Result<seq<string>>): Result<seq<string>> {
    match rest
    case Err(e) => Err(e)
    case Ok(args) => Ok([arg] + args)
  }

  function Join(done: seq<string>, rest: Result<seq<string>>): Result<seq<string>> {
    match rest
    case Err(e) => Err(e)
    case Ok(args) => Ok(done + args)
  }

  lemma JoinPrepend(done: seq<string>, arg: string, rest: Result<seq<string>>)
    ensures Join(done, Prepend(arg, rest)) == Join(done + [arg], rest)
  {
    if rest.Ok? { assert done + ([arg] + rest.value) == done + [arg] + rest.value; }
  }

  lemma JoinNothing(rest: Result<seq<string>>)
    ensures Join([], rest) == rest
  {
    if rest.Ok? { assert [] + rest.value == rest.value; }
  }

  /** The index loop over runes, jumping over mentions that begin a token. */
  method SplitArgs(value: string) returns (r: Result<seq<string>>)
    ensures r == Args(value, 0, BETWEEN)
  {
    hide MentionEnd, IsSpace, Join, Prepend;
    var args: seq<string> := [];
    var current := "";
    var quote := '\0';
    var escaped := false;
    var inToken := false;
    JoinNothing(Args(value, 0, BETWEEN));
    var i := 0;
    while i < |value|
      invariant 0 <= i <= |value|
      invariant !inToken ==> current == "" && quote == '\0' && !escaped
      invariant Args(value, 0, BETWEEN) == Join(args, Args(value, i, ArgState(current, quote, escaped, inToken)))
    {
      var c := value[i];
      if escaped {
        current := current + [c];
        escaped := false;
        inToken := true;
        i := i + 1;
        continue;
      }
      if c == '\\' {
        escaped := true;
        inToken := true;
        i := i + 1;
        continue;
      }
      if quote != '\0' {
        if c == quote {
          quote := '\0';
          i := i + 1;
          continue;
        }
        current := current + [c];
        inToken := true;
        i := i + 1;
        continue;
      }
      if !inToken {
        var token, next, ok := ScanZulipMentionToken(value, i);
        if ok {
          current := current + token;
          inToken := true;
          i := next;
          continue;
        }
      }
      if c == '\'' || c == '"' {
        quote := c;
        inToken := true;
        i := i + 1;
        continue;
      }
      if IsSpace(c) {
        if inToken {
          JoinPrepend(args, current, Args(value, i + 1, BETWEEN));
          args := args + [current];
          current := "";
          inToken := false;
        }
        i := i + 1;
        continue;
      }
      current := current + [c];
      inToken := true;
      i := i + 1;
    }
    JoinErr(args, TrailingEscape);
    JoinErr(args, UnterminatedQuote);
    if escaped { return Err(TrailingEscape); }
    if quote != '\0' { return Err(UnterminatedQuote); }
    JoinEnd(args, [current]);
    JoinEnd(args, []);
    if inToken {
      args := args + [current];
    }
    return Ok(args);
  }

  lemma JoinErr(args: seq<string>, e: ScanError)
    ensures Join(args, Err(e)) == Err(e)
  {
  }

  lemma JoinEnd(args: seq<string>, last: seq<string>)
    ensures Join(args, Ok(last)) == Ok(args + last)
    ensures last == [] ==> args + last == args
  {
  }

  /** How a mention opens and closes: users and groups, silent or not, in two styles, and channels. */
  predicate MentionForm(opener: string, delimiter: string) {
    || (delimiter == "**" && (opener == "@**" || opener == "@_**" || opener == "#**" || opener == "#_**"))
    || (delimiter == "*" && (opener == "@*" || opener == "@_*"))
  }

  /** A name without asterisks; the single-asterisk style needs one that is not empty. */
  predicate MentionName(name: string, delimiter: string) {
    (forall i :: 0 <= i < |name| ==> name[i] != '*') && (delimiter == "*" ==> name != "")
  }

  lemma DelimiterAfterName(s: string, i: nat, name: string, delimiter: string)
    requires MentionName(name, delimiter) && (delimiter == "*" || delimiter == "**")
    requires At(s, i, name) && At(s, i + |name|, delimiter)
    ensures i + |name| < |s| && IndexFrom(s, i, delimiter) == i + |name|
  {
    forall j | i <= j < i + |name|
      ensures !At(s, j, delimiter)
    {
      assert s[j] == name[j - i];
    }
  }

  /** How long the opener is without its asterisks. */
  function Lead(opener: string): nat {
    if |opener| > 1 && opener[1] == '_' then 2 else 1
  }

  lemma OpenerShape(s: string, i: nat, opener: string, delimiter: string)
    requires MentionForm(opener, delimiter) && At(s, i, opener)
    ensures |opener| == Lead(opener) + |delimiter| && i + |opener| <= |s|
    ensures At(s, i + Lead(opener), delimiter)
    ensures s[i] == opener[0] && (s[i] == '@' || s[i] == '#') && (delimiter == "*" ==> s[i] == '@')
    ensures (i + 1 < |s| && s[i + 1] == '_') <==> Lead(opener) == 2
    ensures s[i] != '\\'
  {
    assert forall j :: 0 <= j < |opener| ==> s[i + j] == opener[j];
  }

  /** Wherever a mention stands, the scanner recognizes it up to its closing delimiter. */
  lemma MentionEnds(s: string, i: nat, opener: string, name: string, delimiter: string)
    requires MentionForm(opener, delimiter) && MentionName(name, delimiter)
    requires At(s, i, opener + (name + delimiter))
    ensures i < |s| && MentionEnd(s, i) == i + |opener| + |name| + |delimiter|
    ensures s[i] != '\\'
  {
    assert delimiter == "*" || delimiter == "**";
    hide IndexFrom, MentionForm, MentionName, At;
    var k := i + |opener|;
    AtConcat(s, i, opener, name + delimiter);
    AtConcat(s, k, name, delimiter);
    OpenerShape(s, i, opener, delimiter);
    DelimiterAfterName(s, k, name, delimiter);
    SingleIsNotDouble(s, k, name, delimiter);
  }

  lemma SingleIsNotDouble(s: string, k: nat, name: string, delimiter: string)
    requires MentionName(name, delimiter) && At(s, k, name) && 0 < k
    ensures delimiter == "*" ==> !At(s, k - 1, "**")
  {
    if name != "" { assert s[k] == name[0]; }
  }

  lemma SpaceIsPlain(c: char)
    requires IsSpace(c)
    ensures c != '\\' && c != '\'' && c != '"' && c != '@' && c != '#'
  {
  }

  lemma ArgsAtMention(s: string, i: nat)
    requires i < |s| && i < MentionEnd(s, i) && s[i] != '\\'
    ensures Args(s, i, BETWEEN) == Args(s, MentionEnd(s, i), ArgState(s[i..MentionEnd(s, i)], '\0', false, true))
  {
    hide MentionEnd, IsSpace;
    assert "" + s[i..MentionEnd(s, i)] == s[i..MentionEnd(s, i)];
  }

  lemma ArgsEndToken(s: string, i: nat, current: string)
    requires i <= |s|
    ensures i == |s| ==> Args(s, i, ArgState(current, '\0', false, true)) == Ok([current])
    ensures i < |s| && IsSpace(s[i]) ==>
      Args(s, i, ArgState(current, '\0', false, true)) == Prepend(current, Args(s, i + 1, BETWEEN))
  {
    if i < |s| && IsSpace(s[i]) {
      SpaceIsPlain(s[i]);
      hide MentionEnd, IsSpace;
      assert Args(s, i, ArgState(current, '\0', false, true)) == Prepend(current, Args(s, i + 1, BETWEEN));
    }
  }

  /** Where an argument begins, a mention followed by white space or the end is one argument, taken as written: no
      space, quote or backslash inside it is acted on, and the scan goes on behind it. */
  lemma {:induction false} MentionIsOneArgument(s: string, i: nat, opener: string, name: string, delimiter: string)
    requires MentionForm(opener, delimiter) && MentionName(name, delimiter)
    requires At(s, i, opener + (name + delimiter))
    ensures var mention := opener + (name + delimiter);
      var end := i + |mention|;
      && end <= |s|
      && (end == |s| ==> Args(s, i, BETWEEN) == Ok([mention]))
      && (end < |s| && IsSpace(s[end]) ==> Args(s, i, BETWEEN) == Prepend(mention, Args(s, end + 1, BETWEEN)))
  {
    hide Args, MentionEnd, IsSpace;
    var mention := opener + (name + delimiter);
    MentionEnds(s, i, opener, name, delimiter);
    AtSlice(s, i, mention);
    ArgsAtMention(s, i);
    ArgsEndToken(s, i + |mention|, mention);
  }
}
