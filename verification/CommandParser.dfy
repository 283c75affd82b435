/** Parsing a message into a chain of invocations (command/parser.go, Parse and ParseChain), and its round trip. */
module CommandParser {
  import opened Text
  import opened ChainScanner
  import opened ArgScanner

  datatype Invocation = Invocation(name: string, args: seq<string>, rawArgs: string)

  datatype ChainSegment = ChainSegment(operator: ChainOperator, invocation: Invocation)

  datatype ParseError = NotCommand | Malformed(cause: ScanError)

  datatype Parsed<T> = Parsed(value: T) | Rejected(error: ParseError)

  predicate NameChar(c: char) {
    || 'a' <= c <= 'z'
    || '0' <= c <= '9'
    || c == '-'
    || c == '_'
  }

  predicate ValidCommandName(name: string) {
    && name != ""
    && (forall i :: 0 <= i < |name| ==> NameChar(name[i]))
    && name[0] != '-' && name[0] != '_'
  }

  function TrimPrefix(s: string, prefix: string): string {
    if At(s, 0, prefix) then s[|prefix|..] else s
  }

  /** One command, for a message or for one part of a chain. */
  function ParseText(lower: char -> char, content: string): Parsed<Invocation> {
    var trimmed := Trim(content);
    if trimmed == "" then Rejected(NotCommand)
    else
      match Args(trimmed, 0, BETWEEN)
      case Err(e) => Rejected(Malformed(e))
      case Ok(parts) =>
        if parts == [] then Rejected(NotCommand)
        else
          var name := ToLower(lower, parts[0]);
          if !ValidCommandName(name) then Rejected(Malformed(InvalidName(parts[0])))
          else Parsed(Invocation(name, parts[1..], Trim(TrimPrefix(trimmed, parts[0]))))
  }

  /** A word that names a command once it is lower-cased. */
  predicate NamesCommand(lower: char -> char, word: string) {
    && word != ""
    && forall i :: 0 <= i < |word| ==>
         var c := lower(word[i]);
         'a' <= c <= 'z' || '0' <= c <= '9' || (i > 0 && (c == '-' || c == '_'))
  }

  lemma NamesMeans(lower: char -> char, word: string)
    ensures ValidCommandName(ToLower(lower, word)) <==> NamesCommand(lower, word)
  {
    var name := ToLower(lower, word);
    assert forall i :: 0 <= i < |word| ==> name[i] == lower(word[i]);
  }

  method Parse(lower: char -> char, content: string) returns (r: Parsed<Invocation>)
    ensures r == ParseText(lower, content)
    ensures var text := Trim(content);
      var scanned := Args(text, 0, BETWEEN);
      && (text == "" || scanned == Ok([]) ==> r == Rejected(NotCommand))
      && (text != "" && scanned.Err? ==> r == Rejected(Malformed(scanned.error)))
      && (text != "" && scanned.Ok? && scanned.value != [] ==>
            var word := scanned.value[0];
            if !NamesCommand(lower, word) then r == Rejected(Malformed(InvalidName(word)))
            else
              && r.Parsed? && |r.value.name| == |word|
              && (forall i :: 0 <= i < |word| ==> r.value.name[i] == lower(word[i]))
              && r.value.args == scanned.value[1..]
              && r.value.rawArgs == Trim(if word <= text then text[|word|..] else text))
  {
    var trimmed := Trim(content);
    if trimmed == "" { return Rejected(NotCommand); }
    var parts := SplitArgs(trimmed);
    if parts.Err? { return Rejected(Malformed(parts.error)); }
    if parts.value == [] { return Rejected(NotCommand); }
    var name := ToLower(lower, parts.value[0]);
    NamesMeans(lower, parts.value[0]);
    if !ValidCommandName(name) { return Rejected(Malformed(InvalidName(parts.value[0]))); }
    var rawArgs := Trim(TrimPrefix(trimmed, parts.value[0]));
    assert At(trimmed, 0, parts.value[0]) <==> parts.value[0] <= trimmed;
    return Parsed(Invocation(name, parts.value[1..], rawArgs));
  }

  /** The parts of a chain in order, up to the first that is no command. */
  function ParseParts(lower: char -> char, parts: seq<ChainPart>): Parsed<seq<ChainSegment>> {
    if parts == [] then Parsed([])
    else
      match ParseText(lower, parts[0].content)
      case Rejected(e) => Rejected(e)
      case Parsed(invocation) =>
        match ParseParts(lower, parts[1..])
        case Rejected(e) => Rejected(e)
        case Parsed(rest) => Parsed([ChainSegment(parts[0].operator, invocation)] + rest)
  }

  function ParseChainText(lower: char -> char, content: string): Parsed<seq<ChainSegment>> {
    match SplitValue(content)
    case Err(e) => Rejected(Malformed(e))
    case Ok(parts) => if parts == [] then Rejected(NotCommand) else ParseParts(lower, parts)
  }

  function Behind(done: seq<ChainSegment>, rest: Parsed<seq<ChainSegment>>): Parsed<seq<ChainSegment>> {
    match rest
    case Rejected(e) => Rejected(e)
    case Parsed(segments) => Parsed(done + segments)
  }

  lemma BehindStep(lower: char -> char, done: seq<ChainSegment>, parts: seq<ChainPart>)
    requires parts != []
    ensures Behind(done, ParseParts(lower, parts))
      == match ParseText(lower, parts[0].content)
         case Rejected(e) => Rejected(e)
         case Parsed(invocation) =>
           Behind(done + [ChainSegment(parts[0].operator, invocation)], ParseParts(lower, parts[1..]))
  {
    hide ParseText;
    var first := ParseText(lower, parts[0].content);
    var rest := ParseParts(lower, parts[1..]);
    if first.Parsed? && rest.Parsed? {
      var segment := ChainSegment(parts[0].operator, first.value);
      assert done + ([segment] + rest.value) == done + [segment] + rest.value;
    }
  }

  method ParseChain(lower: char -> char, content: string) returns (r: Parsed<seq<ChainSegment>>)
    ensures r == ParseChainText(lower, content)
  {
    hide ParseText, SplitValue;
    var parts := SplitChain(content);
    if parts.Err? { return Rejected(Malformed(parts.error)); }
    if parts.value == [] { return Rejected(NotCommand); }
    FirstIsAlways(content);
    var segments: seq<ChainSegment> := [];
    var i := 0;
    assert parts.value[0..] == parts.value;
    BehindNothing(ParseParts(lower, parts.value));
    while i < |parts.value|
      invariant 0 <= i <= |parts.value|
      invariant Behind(segments, ParseParts(lower, parts.value[i..])) == ParseParts(lower, parts.value)
    {
      var part := parts.value[i];
      BehindStep(lower, segments, parts.value[i..]);
      assert parts.value[i..][1..] == parts.value[i + 1..];
      var invocation := Parse(lower, part.content);
      if invocation.Rejected? { return Rejected(invocation.error); }
      if i == 0 { part := part.(operator := ChainAlways); }
      segments := segments + [ChainSegment(part.operator, invocation.value)];
      i := i + 1;
    }
    assert segments + [] == segments;
    return Parsed(segments);
  }

  lemma BehindNothing(rest: Parsed<seq<ChainSegment>>)
    ensures Behind([], rest) == rest
  {
    if rest.Parsed? { assert [] + rest.value == rest.value; }
  }

  /** The first part of a split never carries an operator. */
  lemma {:induction false} FirstIsAlways(content: string)
    requires SplitValue(content).Ok? && SplitValue(content).value != []
    ensures SplitValue(content).value[0].operator == ChainAlways
  {
  }

  // ---- Printing ----

  /** A command to print: the operator before it, its name and its arguments. */
  datatype Command = Command(operator: ChainOperator, name: string, args: seq<string>)

  /** One argument character as it is written between quotes. */
  function Written(c: char): string {
    if c == '\\' || c == '"' then ['\\', c] else [c]
  }

  function Escape(arg: string): string {
    if arg == "" then "" else Written(arg[0]) + Escape(arg[1..])
  }

  /** An argument in double quotes, with `\` and `"` backslash-escaped. */
  function Quote(arg: string): string {
    "\"" + (Escape(arg) + "\"")
  }

  function PrintArgs(args: seq<string>): string {
    if args == [] then "" else " " + (Quote(args[0]) + PrintArgs(args[1..]))
  }

  function PrintCommand(command: Command): string {
    command.name + PrintArgs(command.args)
  }

  /** The commands after the first, each behind its operator. */
  function PrintRest(commands: seq<Command>): string {
    if commands == [] then ""
    else " " + (OperatorText(commands[0].operator) + (" " + (PrintCommand(commands[0]) + PrintRest(commands[1..]))))
  }

  function Print(commands: seq<Command>): string
    requires commands != []
  {
    PrintCommand(commands[0]) + PrintRest(commands[1..])
  }

  predicate ValidChain(commands: seq<Command>) {
    && commands != []
    && (forall i :: 0 <= i < |commands| ==> ValidCommandName(commands[i].name))
    && commands[0].operator == ChainAlways
    && (forall i :: 0 < i < |commands| ==> commands[i].operator != ChainAlways)
  }

  /** What reading a printed command back must give; its raw arguments are the printed ones without the first space. */
  function Expected(command: Command): ChainSegment {
    var raw := PrintArgs(command.args);
    ChainSegment(command.operator,
                 Invocation(command.name, command.args, if raw == "" then "" else raw[1..]))
  }

  function ExpectedAll(commands: seq<Command>): seq<ChainSegment> {
    if commands == [] then [] else [Expected(commands[0])] + ExpectedAll(commands[1..])
  }

  function PrintedParts(commands: seq<Command>): seq<ChainPart> {
    if commands == [] then []
    else [ChainPart(commands[0].operator, PrintCommand(commands[0]))] + PrintedParts(commands[1..])
  }

  // ---- The chain scanner over printed text ----

  lemma {:induction false} FindOverName(s: string, i: nat, name: string)
    requires At(s, i, name) && forall p :: 0 <= p < |name| ==> NameChar(name[p])
    ensures FindOperator(s, i, CLEAN) == FindOperator(s, i + |name|, CLEAN)
    decreases |name|
  {
    if name != "" {
      assert s[i] == name[0];
      assert forall p {:trigger s[p]} :: i + 1 <= p < i + |name| ==> s[p] == name[1..][p - (i + 1)];
      FindOverName(s, i + 1, name[1..]);
    }
  }

  lemma EscapeCons(arg: string)
    requires arg != ""
    ensures Escape(arg) == Written(arg[0]) + Escape(arg[1..])
  {
  }

  lemma FindOverWritten(s: string, i: nat, c: char)
    requires At(s, i, Written(c))
    ensures i + |Written(c)| <= |s|
    ensures FindOperator(s, i, Lex('"', false)) == FindOperator(s, i + |Written(c)|, Lex('"', false))
  {
    hide OperatorAt;
    assert s[i] == Written(c)[0];
    if |Written(c)| == 2 { assert s[i + 1] == Written(c)[1]; }
  }

  lemma {:induction false} FindOverEscaped(s: string, i: nat, arg: string)
    requires At(s, i, Escape(arg))
    ensures FindOperator(s, i, Lex('"', false)) == FindOperator(s, i + |Escape(arg)|, Lex('"', false))
    decreases |arg|
  {
    hide Written, FindOperator, At;
    if arg != "" {
      EscapeCons(arg);
      hide Escape;
      AtConcat(s, i, Written(arg[0]), Escape(arg[1..]));
      FindOverWritten(s, i, arg[0]);
      FindOverEscaped(s, i + |Written(arg[0])|, arg[1..]);
    }
  }

  lemma FindOverQuote(s: string, i: nat, arg: string)
    requires At(s, i, Quote(arg))
    ensures FindOperator(s, i, CLEAN) == FindOperator(s, i + |Quote(arg)|, CLEAN)
  {
    hide Escape;
    AtConcat(s, i, "\"", Escape(arg) + "\"");
    AtConcat(s, i + 1, Escape(arg), "\"");
    assert s[i] == '"' && s[i + 1 + |Escape(arg)|] == '"';
    FindOverEscaped(s, i + 1, arg);
  }

  lemma PrintArgsMeans(args: seq<string>)
    ensures PrintArgs(args) == if args == [] then "" else " " + (Quote(args[0]) + PrintArgs(args[1..]))
  {
  }

  lemma {:induction false} FindOverArgs(s: string, i: nat, args: seq<string>)
    requires At(s, i, PrintArgs(args))
    ensures FindOperator(s, i, CLEAN) == FindOperator(s, i + |PrintArgs(args)|, CLEAN)
    decreases |args|
  {
    hide Quote, At, FindOperator, PrintArgs;
    AtSlice(s, i, PrintArgs(args));
    PrintArgsMeans(args);
    if args != [] {
      AtConcat(s, i, " ", Quote(args[0]) + PrintArgs(args[1..]));
      AtConcat(s, i + 1, Quote(args[0]), PrintArgs(args[1..]));
      AtChar(s, i, ' ');
      FindOverSpace(s, i, 1);
      FindOverQuote(s, i + 1, args[0]);
      FindOverArgs(s, i + 1 + |Quote(args[0])|, args[1..]);
    }
  }

  lemma FindOverCommand(s: string, i: nat, command: Command)
    requires At(s, i, PrintCommand(command)) && ValidCommandName(command.name)
    ensures FindOperator(s, i, CLEAN) == FindOperator(s, i + |PrintCommand(command)|, CLEAN)
  {
    hide FindOperator, PrintArgs;
    AtConcat(s, i, command.name, PrintArgs(command.args));
    FindOverName(s, i, command.name);
    FindOverArgs(s, i + |command.name|, command.args);
  }

  lemma {:induction false} ArgsEndInQuote(args: seq<string>)
    requires args != []
    ensures |PrintArgs(args)| > 2
    ensures PrintArgs(args)[0] == ' ' && PrintArgs(args)[|PrintArgs(args)| - 1] == '"'
    ensures PrintArgs(args)[1] == '"'
  {
    hide Escape;
    if |args| > 1 { ArgsEndInQuote(args[1..]); }
  }

  lemma CommandTrimmed(command: Command)
    requires ValidCommandName(command.name)
    ensures PrintCommand(command) != "" && Trimmed(PrintCommand(command))
  {
    hide PrintArgs;
    var t := PrintCommand(command);
    assert t[0] == command.name[0] && NameChar(command.name[0]);
    if command.args != [] {
      ArgsEndInQuote(command.args);
      assert t[|t| - 1] == PrintArgs(command.args)[|PrintArgs(command.args)| - 1];
    } else {
      assert PrintArgs([]) == "" by { PrintNoArgs(); }
      assert t == command.name && NameChar(t[|t| - 1]);
    }
  }

  lemma PrintNoArgs()
    ensures PrintArgs([]) == ""
  {
  }

  /** Trimming one printed command out of its surroundings, a space or nothing on either side. */
  lemma CommandContent(s: string, start: nat, lead: nat, i: nat, k: nat, command: Command)
    requires ValidCommandName(command.name)
    requires start + lead == i && At(s, i, PrintCommand(command))
    requires i + |PrintCommand(command)| <= k <= |s|
    requires forall p {:trigger s[p]} :: start <= p < i || i + |PrintCommand(command)| <= p < k ==> s[p] == ' '
    ensures Trim(s[start..k]) == PrintCommand(command)
  {
    hide PrintCommand, Trim;
    var t := PrintCommand(command);
    CommandTrimmed(command);
    AtSlice(s, i, t);
    assert s[start..k] == s[start..i] + t + s[i + |t|..k];
    TrimPads(s[start..i], t, s[i + |t|..k]);
  }

  ghost predicate PrintedAt(s: string, start: nat, lead: nat, commands: seq<Command>) {
    && commands != []
    && (forall i :: 0 <= i < |commands| ==> ValidCommandName(commands[i].name))
    && (forall i :: 0 < i < |commands| ==> commands[i].operator != ChainAlways)
    && lead <= 1 && (lead == 1 ==> start < |s| && s[start] == ' ')
    && At(s, start + lead, Print(commands)) && start + lead + |Print(commands)| == |s|
  }

  /** The first command's text, with the search for the next operator brought to its end. */
  lemma PrintedFirst(s: string, start: nat, lead: nat, commands: seq<Command>)
    requires PrintedAt(s, start, lead, commands)
    ensures var i, t := start + lead, PrintCommand(commands[0]);
      && i + |t| <= |s| && At(s, i, t) && At(s, i + |t|, PrintRest(commands[1..]))
      && i + |t| + |PrintRest(commands[1..])| == |s|
      && FindOperator(s, start, CLEAN) == FindOperator(s, i + |t|, CLEAN)
  {
    hide FindOperator, PrintCommand, ValidCommandName, At, PrintRest;
    var i := start + lead;
    AtConcat(s, i, PrintCommand(commands[0]), PrintRest(commands[1..]));
    FindOverSpace(s, start, lead);
    FindOverCommand(s, i, commands[0]);
  }

  /** Splitting the printed chain from the place where a command's text begins. */
  lemma {:induction false} SplitPrinted(s: string, start: nat, lead: nat, commands: seq<Command>)
    requires PrintedAt(s, start, lead, commands)
    ensures Split(s, start, commands[0].operator) == Ok(PrintedParts(commands))
    decreases |commands|
  {
    hide FindOperator, PrintCommand, Trim, OperatorAt, OperatorText, ValidCommandName, At;
    var command := commands[0];
    var rest := commands[1..];
    var i := start + lead;
    var j := i + |PrintCommand(command)|;
    PrintedFirst(s, start, lead, commands);
    CommandTrimmed(command);
    if rest == [] {
      FindAtEnd(s);
      CommandContent(s, start, lead, i, j, command);
      assert [ChainPart(command.operator, PrintCommand(command))] + PrintedParts([])
          == [ChainPart(command.operator, PrintCommand(command))];
    } else {
      assert rest[0] == commands[1];
      var n := RestStart(s, j, rest);
      CommandContent(s, start, lead, i, j + 1, command);
      SplitPrinted(s, n, 1, rest);
    }
  }

  lemma FindAtEnd(s: string)
    ensures FindOperator(s, |s|, CLEAN) == (|s|, CLEAN)
  {
  }

  lemma FindOverSpace(s: string, start: nat, lead: nat)
    requires lead <= 1 && start + lead <= |s| && (lead == 1 ==> start < |s| && s[start] == ' ')
    ensures FindOperator(s, start, CLEAN) == FindOperator(s, start + lead, CLEAN)
  {
  }

  lemma RestMeans(rest: seq<Command>)
    requires rest != []
    ensures PrintRest(rest) == " " + (OperatorText(rest[0].operator) + (" " + Print(rest)))
  {
  }

  /** Behind a command: a space, the operator at once after it, a space, and the next command. */
  lemma {:induction false} RestStart(s: string, j: nat, rest: seq<Command>) returns (n: nat)
    requires rest != [] && At(s, j, PrintRest(rest)) && rest[0].operator != ChainAlways
    requires j + |PrintRest(rest)| == |s|
    ensures j + 1 < n < |s| && s[j] == ' ' && s[n] == ' '
    ensures OperatorAt(s, j + 1) == rest[0].operator && n == j + 1 + Width(rest[0].operator)
    ensures FindOperator(s, j, CLEAN) == (j + 1, CLEAN)
    ensures At(s, n + 1, Print(rest)) && n + 1 + |Print(rest)| == |s|
  {
    hide PrintCommand, PrintRest;
    RestMeans(rest);
    var op := rest[0].operator;
    AtConcat(s, j, " ", OperatorText(op) + (" " + Print(rest)));
    AtConcat(s, j + 1, OperatorText(op), " " + Print(rest));
    n := j + 1 + Width(op);
    AtConcat(s, n, " ", Print(rest));
    assert s[j] == ' ' && s[n] == ' ';
    assert s[j + 1] == OperatorText(op)[0];
    if Width(op) == 2 { assert s[j + 2] == OperatorText(op)[1]; }
  }

  // ---- The argument scanner over printed text ----

  lemma {:induction false} ArgsOverName(s: string, i: nat, name: string, current: string, inToken: bool)
    requires At(s, i, name) && forall p :: 0 <= p < |name| ==> NameChar(name[p])
    requires name != "" || inToken
    ensures Args(s, i, ArgState(current, '\0', false, inToken))
      == Args(s, i + |name|, ArgState(current + name, '\0', false, true))
    decreases |name|
  {
    hide MentionEnd;
    if name == "" {
      assert current + name == current;
    } else {
      assert s[i] == name[0] && NameChar(name[0]);
      assert forall p {:trigger s[p]} :: i + 1 <= p < i + |name| ==> s[p] == name[1..][p - (i + 1)];
      ArgsOverName(s, i + 1, name[1..], current + [name[0]], true);
      assert current + [name[0]] + name[1..] == current + name;
    }
  }

  lemma ArgsOverWritten(s: string, i: nat, c: char, current: string)
    requires At(s, i, Written(c))
    ensures i + |Written(c)| <= |s|
    ensures Args(s, i, ArgState(current, '"', false, true))
      == Args(s, i + |Written(c)|, ArgState(current + [c], '"', false, true))
  {
    hide MentionEnd, IsSpace;
    assert s[i] == Written(c)[0];
    if |Written(c)| == 2 { assert s[i + 1] == Written(c)[1]; }
  }

  lemma {:induction false} ArgsOverEscaped(s: string, i: nat, arg: string, current: string)
    requires At(s, i, Escape(arg))
    ensures Args(s, i, ArgState(current, '"', false, true))
      == Args(s, i + |Escape(arg)|, ArgState(current + arg, '"', false, true))
    decreases |arg|
  {
    if arg == "" {
      assert current + arg == current;
    } else {
      EscapeCons(arg);
      hide Escape, Written, Args;
      AtConcat(s, i, Written(arg[0]), Escape(arg[1..]));
      ArgsOverWritten(s, i, arg[0], current);
      ArgsOverEscaped(s, i + |Written(arg[0])|, arg[1..], current + [arg[0]]);
      assert current + [arg[0]] + arg[1..] == current + arg;
    }
  }

  lemma ArgsOverQuote(s: string, i: nat, arg: string)
    requires At(s, i, Quote(arg))
    ensures Args(s, i, BETWEEN) == Args(s, i + |Quote(arg)|, ArgState(arg, '\0', false, true))
  {
    hide Escape, IsSpace, At;
    AtConcat(s, i, "\"", Escape(arg) + "\"");
    AtConcat(s, i + 1, Escape(arg), "\"");
    AtChar(s, i, '"');
    AtChar(s, i + 1 + |Escape(arg)|, '"');
    ArgsOverEscaped(s, i + 1, arg, "");
    assert "" + arg == arg;
  }

  /** Arguments printed after a token are read back one by one, to the end of the text. */
  lemma {:induction false} ArgsOverPrinted(s: string, i: nat, current: string, args: seq<string>)
    requires At(s, i, PrintArgs(args)) && i + |PrintArgs(args)| == |s|
    ensures Args(s, i, ArgState(current, '\0', false, true)) == Ok([current] + args)
    decreases |args|
  {
    hide Quote, MentionEnd, At;
    if args == [] {
      assert [current] + args == [current];
    } else {
      AtConcat(s, i, " ", Quote(args[0]) + PrintArgs(args[1..]));
      AtConcat(s, i + 1, Quote(args[0]), PrintArgs(args[1..]));
      AtChar(s, i, ' ');
      AtSlice(s, i + 1, Quote(args[0]));
      ArgsOverQuote(s, i + 1, args[0]);
      ArgsOverPrinted(s, i + 1 + |Quote(args[0])|, args[0], args[1..]);
      assert [args[0]] + args[1..] == args;
      assert Args(s, i, ArgState(current, '\0', false, true)) == Prepend(current, Args(s, i + 1, BETWEEN));
    }
  }

  lemma {:induction false} ArgsOfCommand(command: Command)
    requires ValidCommandName(command.name)
    ensures Args(PrintCommand(command), 0, BETWEEN) == Ok([command.name] + command.args)
  {
    hide Args, PrintArgs;
    var s := PrintCommand(command);
    AtConcat(s, 0, command.name, PrintArgs(command.args));
    ArgsOverName(s, 0, command.name, "", false);
    assert "" + command.name == command.name;
    ArgsOverPrinted(s, |command.name|, command.name, command.args);
  }

  lemma {:induction false} RawArgsOfCommand(command: Command)
    requires ValidCommandName(command.name)
    ensures Trim(TrimPrefix(PrintCommand(command), command.name)) == Expected(command).invocation.rawArgs
  {
    hide Trim, PrintArgs, ValidCommandName, At;
    var s := PrintCommand(command);
    AtWhole(s);
    var raw := PrintArgs(command.args);
    AtConcat(s, 0, command.name, raw);
    assert s[|command.name|..] == raw;
    if command.args == [] {
      PrintNoArgs();
      TrimFixed("");
    } else {
      ArgsEndInQuote(command.args);
      assert raw == " " + raw[1..] + "";
      TrimPads(" ", raw[1..], "");
    }
  }

  /** A mapping that leaves the characters of command names alone, as Unicode lower-casing does. */
  ghost predicate KeepsNames(lower: char -> char) {
    forall c :: NameChar(c) ==> lower(c) == c
  }

  lemma {:induction false} ParsePrintedCommand(lower: char -> char, command: Command)
    requires KeepsNames(lower) && ValidCommandName(command.name)
    ensures ParseText(lower, PrintCommand(command)) == Parsed(Expected(command).invocation)
  {
    hide Trim, Args, PrintCommand, TrimPrefix;
    CommandTrimmed(command);
    TrimFixed(PrintCommand(command));
    ArgsOfCommand(command);
    RawArgsOfCommand(command);
    assert ToLower(lower, command.name) == command.name;
    assert ([command.name] + command.args)[1..] == command.args;
  }

  lemma {:induction false} ParsePrintedParts(lower: char -> char, commands: seq<Command>)
    requires KeepsNames(lower) && forall i :: 0 <= i < |commands| ==> ValidCommandName(commands[i].name)
    ensures ParseParts(lower, PrintedParts(commands)) == Parsed(ExpectedAll(commands))
  {
    hide ParseText, ValidCommandName, PrintCommand, PrintArgs, KeepsNames;
    if commands != [] {
      ParsePrintedCommand(lower, commands[0]);
      ParsePrintedParts(lower, commands[1..]);
      assert PrintedParts(commands)[1..] == PrintedParts(commands[1..]);
    }
  }

  /** Round trip: a chain of valid names, arbitrary arguments and any operators, printed with its arguments in
      double quotes, is read back with the same operators, names, arguments and raw arguments. */
  lemma {:induction false} ParseChainRoundTrip(lower: char -> char, commands: seq<Command>)
    requires KeepsNames(lower) && ValidChain(commands)
    ensures ParseChainText(lower, Print(commands)) == Parsed(ExpectedAll(commands))
  {
    hide Split, ParseParts, PrintedParts, Print, Trim;
    var s := Print(commands);
    PrintTrimmed(commands);
    TrimFixed(s);
    SplitPrinted(s, 0, 0, commands);
    ParsePrintedParts(lower, commands);
    assert PrintedParts(commands) != [] by { PrintedNonEmpty(commands); }
  }

  lemma PrintedNonEmpty(commands: seq<Command>)
    requires commands != []
    ensures PrintedParts(commands) != []
  {
  }

  lemma {:induction false} RestEndsTrimmed(rest: seq<Command>)
    requires rest != [] && forall i :: 0 <= i < |rest| ==> ValidCommandName(rest[i].name)
    ensures PrintRest(rest) != "" && !IsSpace(PrintRest(rest)[|PrintRest(rest)| - 1])
  {
    hide PrintCommand, OperatorText, IsSpace, ValidCommandName;
    var t := PrintCommand(rest[0]);
    CommandTrimmed(rest[0]);
    if |rest| > 1 {
      RestEndsTrimmed(rest[1..]);
      assert PrintRest(rest)[|PrintRest(rest)| - 1] == PrintRest(rest[1..])[|PrintRest(rest[1..])| - 1];
    } else {
      assert PrintRest(rest[1..]) == "";
      assert PrintRest(rest)[|PrintRest(rest)| - 1] == t[|t| - 1];
    }
  }

  lemma PrintTrimmed(commands: seq<Command>)
    requires ValidChain(commands)
    ensures Print(commands) != "" && Trimmed(Print(commands)) && At(Print(commands), 0, Print(commands))
  {
    hide PrintCommand, PrintRest, IsSpace, ValidCommandName;
    var rest := commands[1..];
    var t := PrintCommand(commands[0]);
    CommandTrimmed(commands[0]);
    assert Print(commands)[0] == t[0];
    if rest != [] {
      RestEndsTrimmed(rest);
    } else {
      PrintNoRest();
    }
  }

  lemma PrintNoRest()
    ensures PrintRest([]) == ""
  {
  }
}
