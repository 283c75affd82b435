/** The quote- and escape-aware scanner that cuts a message into chained commands (command/parser.go, splitChain). */
module ChainScanner {
  import opened Text

  datatype ChainOperator = ChainAlways | ChainAnd | ChainOr | ChainThen

  datatype ChainPart = ChainPart(operator: ChainOperator, content: string)

  datatype ScanError = EmptyCommand | TrailingEscape | UnterminatedQuote | InvalidName(name: string)

  datatype Result<T> = Ok(value: T) | Err(error: ScanError)

  /** The text of an operator in a message; `ChainAlways` is written as nothing. */
  function OperatorText(op: ChainOperator): string {
    match op
    case ChainAlways => ""
    case ChainAnd => "&&"
    case ChainOr => "||"
    case ChainThen => ";"
  }

  function Width(op: ChainOperator): (w: nat)
    ensures w == |OperatorText(op)|
  {
    match op
    case ChainAlways => 0
    case ChainAnd => 2
    case ChainOr => 2
    case ChainThen => 1
  }

  /** The operator spelled at index `i`, or `ChainAlways` where there is none. */
  function OperatorAt(s: string, i: nat): (op: ChainOperator)
    requires i < |s|
    ensures i + Width(op) <= |s|
    ensures op != ChainAlways ==> 0 < Width(op)
  {
    if s[i] == '&' && i + 1 < |s| && s[i + 1] == '&' then ChainAnd
    else if s[i] == '|' && i + 1 < |s| && s[i + 1] == '|' then ChainOr
    else if s[i] == ';' then ChainThen
    else ChainAlways
  }

  /** What the scanner remembers between characters. A `quote` of '\0' means: outside quotes. */
  datatype Lex = Lex(quote: char, escaped: bool)

  const CLEAN := Lex('\0', false)

  function Next(lex: Lex, c: char): Lex {
    if lex.escaped then Lex(lex.quote, false)
    else if c == '\\' then Lex(lex.quote, true)
    else if lex.quote != '\0' then (if c == lex.quote then CLEAN else lex)
    else if c == '\'' || c == '"' then Lex(c, false)
    else lex
  }

  /** The index of the first operator outside quotes and escapes at or after `i`, and the scanner state there. */
  function FindOperator(s: string, i: nat, lex: Lex): (r: (nat, Lex))
    requires i <= |s|
    ensures i <= r.0 <= |s|
    ensures r.0 < |s| ==> r.1 == CLEAN && OperatorAt(s, r.0) != ChainAlways
    decreases |s| - i
  {
    if i == |s| then (i, lex)
    else if lex == CLEAN && OperatorAt(s, i) != ChainAlways then (i, lex)
    else FindOperator(s, i + 1, Next(lex, s[i]))
  }

  /** One command of the chain as written, before trimming. */
  datatype Raw = Raw(operator: ChainOperator, text: string)

  /** The whole cut of `s[start..]`, white space included. */
  function Raws(s: string, start: nat, op: ChainOperator): (raws: seq<Raw>)
    requires start <= |s|
    ensures raws != []
    decreases |s| - start
  {
    var k := FindOperator(s, start, CLEAN).0;
    if k == |s| then [Raw(op, s[start..k])]
    else [Raw(op, s[start..k])] + Raws(s, k + Width(OperatorAt(s, k)), OperatorAt(s, k))
  }

  /** What the scanner returns for `s[start..]`, errors in the order in which it meets them. */
  function Split(s: string, start: nat, op: ChainOperator): (r: Result<seq<ChainPart>>)
    requires start <= |s|
    decreases |s| - start
  {
    var (k, lex) := FindOperator(s, start, CLEAN);
    var content := Trim(s[start..k]);
    if k == |s| then
      if lex.escaped then Err(TrailingEscape)
      else if lex.quote != '\0' then Err(UnterminatedQuote)
      else if content == "" then Err(EmptyCommand)
      else Ok([ChainPart(op, content)])
    else if content == "" then Err(EmptyCommand)
    else After([ChainPart(op, content)], Split(s, k + Width(OperatorAt(s, k)), OperatorAt(s, k)))
  }

  function After(done: seq<ChainPart>, rest: Result<seq<ChainPart>>): Result<seq<ChainPart>> {
    match rest
    case Err(e) => Err(e)
    case Ok(parts) => Ok(done + parts)
  }

  function SplitValue(value: string): Result<seq<ChainPart>> {
    if Trim(value) == "" then Ok([]) else Split(Trim(value), 0, ChainAlways)
  }

  lemma AfterNothing(rest: Result<seq<ChainPart>>)
    ensures After([], rest) == rest
  {
    if rest.Ok? { assert [] + rest.value == rest.value; }
  }

  lemma AfterAfter(a: seq<ChainPart>, b: seq<ChainPart>, rest: Result<seq<ChainPart>>)
    ensures After(a, After(b, rest)) == After(a + b, rest)
  {
    if rest.Ok? { assert a + (b + rest.value) == a + b + rest.value; }
  }

  /** What flushing does to the commands read so far, at an operator. */
  lemma FlushAtOperator(s: string, start: nat, i: nat, op: ChainOperator, parts: seq<ChainPart>)
    requires start <= |s| && FindOperator(s, start, CLEAN) == (i, CLEAN) && i < |s|
    ensures var next := OperatorAt(s, i);
      After(parts, Split(s, start, op))
      == if Trim(s[start..i]) == "" then Err(EmptyCommand)
         else After(parts + [ChainPart(op, Trim(s[start..i]))], Split(s, i + Width(next), next))
  {
    hide FindOperator, OperatorAt, Trim;
    var next := OperatorAt(s, i);
    AfterAfter(parts, [ChainPart(op, Trim(s[start..i]))], Split(s, i + Width(next), next));
  }

  /** What flushing does at the end of the input, when the flags are clear. */
  lemma FlushAtEnd(s: string, start: nat, lex: Lex, op: ChainOperator, parts: seq<ChainPart>)
    requires start <= |s| && FindOperator(s, start, CLEAN) == (|s|, lex)
    ensures After(parts, Split(s, start, op))
      == if lex.escaped then Err(TrailingEscape)
         else if lex.quote != '\0' then Err(UnterminatedQuote)
         else if Trim(s[start..]) == "" then Err(EmptyCommand)
         else Ok(parts + [ChainPart(op, Trim(s[start..]))])
  {
    hide FindOperator, OperatorAt, Trim;
    assert s[start..|s|] == s[start..];
  }

  /** The index loop over runes with its builder, quote and escape flags. */
  method SplitChain(value: string) returns (r: Result<seq<ChainPart>>)
    ensures r == SplitValue(value)
  {
    hide Trim, Split, After;
    var runes := Trim(value);
    if runes == "" { return Ok([]); }
    var parts: seq<ChainPart> := [];
    var current := "";
    var operator := ChainAlways;
    var quote := '\0';
    var escaped := false;
    ghost var start := 0;
    AfterNothing(Split(runes, start, operator));
    var i := 0;
    while i < |runes|
      invariant 0 <= start <= i <= |runes|
      invariant current == runes[start..i]
      invariant SplitValue(value) == After(parts, Split(runes, start, operator))
      invariant FindOperator(runes, start, CLEAN) == FindOperator(runes, i, Lex(quote, escaped))
    {
      var c := runes[i];
      var skip := 0;
      if escaped {
        current := current + [c];
        escaped := false;
      } else if c == '\\' {
        current := current + [c];
        escaped := true;
      } else if quote != '\0' {
        current := current + [c];
        if c == quote { quote := '\0'; }
      } else if c == '\'' || c == '"' {
        current := current + [c];
        quote := c;
      } else if OperatorAt(runes, i) == ChainAlways {
        current := current + [c];
      } else {
        var next := OperatorAt(runes, i);
        var content := Trim(current);
        FlushAtOperator(runes, start, i, operator, parts);
        if content == "" { return Err(EmptyCommand); }
        parts := parts + [ChainPart(operator, content)];
        current := "";
        operator := next;
        start := i + Width(next);
        skip := Width(next) - 1;
      }
      i := i + 1 + skip;
    }
    FlushAtEnd(runes, start, Lex(quote, escaped), operator, parts);
    assert current == runes[start..];
    if escaped { return Err(TrailingEscape); }
    if quote != '\0' { return Err(UnterminatedQuote); }
    var content := Trim(current);
    if content == "" { return Err(EmptyCommand); }
    r := Ok(parts + [ChainPart(operator, content)]);
  }

  // ---- Nothing is lost ----

  /** Writes a cut back: each operator followed by the raw text after it. */
  function Render(raws: seq<Raw>): string {
    if raws == [] then "" else OperatorText(raws[0].operator) + raws[0].text + Render(raws[1..])
  }

  function TrimAll(raws: seq<Raw>): (parts: seq<ChainPart>)
    ensures |parts| == |raws|
  {
    if raws == [] then [] else [ChainPart(raws[0].operator, Trim(raws[0].text))] + TrimAll(raws[1..])
  }

  lemma {:induction false} TrimAllAt(raws: seq<Raw>, i: nat)
    requires i < |raws|
    ensures TrimAll(raws)[i] == ChainPart(raws[i].operator, Trim(raws[i].text))
  {
    if |raws| > 1 { TrimAllAt(raws[1..], if i == 0 then 0 else i - 1); }
  }

  lemma OperatorAtText(s: string, k: nat)
    requires k < |s|
    ensures s[k..k + Width(OperatorAt(s, k))] == OperatorText(OperatorAt(s, k))
  {
  }

  lemma Rejoin(head: string, s: string, start: nat, k: nat, n: nat)
    requires start <= k <= n <= |s|
    ensures head + s[start..] == head + s[start..k] + (s[k..n] + s[n..])
  {
  }

  lemma RenderCons(raw: Raw, rest: seq<Raw>)
    ensures Render([raw] + rest) == OperatorText(raw.operator) + raw.text + Render(rest)
  {
  }

  lemma {:induction false} RawsRender(s: string, start: nat, op: ChainOperator)
    requires start <= |s|
    ensures Render(Raws(s, start, op)) == OperatorText(op) + s[start..]
    ensures Raws(s, start, op)[0].operator == op
    decreases |s| - start
  {
    hide FindOperator, OperatorAt, Render, OperatorText;
    var k := FindOperator(s, start, CLEAN).0;
    var raw := Raw(op, s[start..k]);
    if k < |s| {
      var next := OperatorAt(s, k);
      var n := k + Width(next);
      RawsRender(s, n, next);
      RenderCons(raw, Raws(s, n, next));
      OperatorAtText(s, k);
      Rejoin(OperatorText(op), s, start, k, n);
    } else {
      assert s[start..k] == s[start..];
      RenderCons(raw, []);
      assert [raw] + [] == [raw];
      RenderNothing();
      assert OperatorText(op) + s[start..] + "" == OperatorText(op) + s[start..];
    }
  }

  lemma RenderNothing()
    ensures Render([]) == ""
  {
  }

  lemma {:induction false} SplitTrimsRaws(s: string, start: nat, op: ChainOperator)
    requires start <= |s| && Split(s, start, op).Ok?
    ensures Split(s, start, op).value == TrimAll(Raws(s, start, op))
    decreases |s| - start
  {
    hide FindOperator, OperatorAt, Trim, SkipSpace, DropSpace;
    var k := FindOperator(s, start, CLEAN).0;
    var raws := Raws(s, start, op);
    if k < |s| {
      SplitTrimsRaws(s, k + Width(OperatorAt(s, k)), OperatorAt(s, k));
      assert raws[1..] == Raws(s, k + Width(OperatorAt(s, k)), OperatorAt(s, k));
    } else {
      assert TrimAll(raws[1..]) == [];
    }
  }

  /** A raw text is not blank, holds no operator outside quotes and escapes, and leaves the scanner clean. */
  predicate GoodRaw(text: string) {
    Trim(text) != "" && FindOperator(text, 0, CLEAN) == (|text|, CLEAN)
  }

  lemma {:induction false} RawsAreGood(s: string, start: nat, op: ChainOperator, i: nat)
    requires start <= |s| && Split(s, start, op).Ok? && i < |Raws(s, start, op)|
    ensures GoodRaw(Raws(s, start, op)[i].text)
    ensures 0 < i ==> Raws(s, start, op)[i].operator != ChainAlways
    decreases |s| - start
  {
    hide OperatorAt, Trim, SkipSpace, DropSpace, FindOperator;
    var k := FindOperator(s, start, CLEAN).0;
    FindRuns(s, start, CLEAN);
    FindAgree(s, start, k, s[start..k], start, CLEAN);
    if 0 < i {
      var next := OperatorAt(s, k);
      RawsAreGood(s, k + Width(next), next, i - 1);
      RawsRender(s, k + Width(next), next);
    }
  }

  /** A cut of the value: raw0 op1 raw1 ... opN rawN, where no raw text holds an operator outside quotes and escapes
      or is blank. */
  ghost predicate Cut(value: string, raws: seq<Raw>) {
    && Trim(value) == Render(raws)
    && raws != [] && raws[0].operator == ChainAlways
    && (forall i :: 0 < i < |raws| ==> raws[i].operator != ChainAlways)
    && (forall i :: 0 <= i < |raws| ==> GoodRaw(raws[i].text))
  }

  /** Lossless: on success the trimmed input is a cut whose raw texts, trimmed and never empty, are exactly the parts
      returned. */
  lemma {:induction false} SplitChainLossless(value: string)
    requires SplitValue(value).Ok? && SplitValue(value).value != []
    ensures exists raws :: Cut(value, raws) && SplitValue(value).value == TrimAll(raws)
  {
    var s := Trim(value);
    var raws := Raws(s, 0, ChainAlways);
    SplitTrimsRaws(s, 0, ChainAlways);
    RawsRender(s, 0, ChainAlways);
    forall i | 0 <= i < |raws|
      ensures GoodRaw(raws[i].text) && (0 < i ==> raws[i].operator != ChainAlways)
    {
      RawsAreGood(s, 0, ChainAlways, i);
    }
    hide Trim, TrimAll, Render, GoodRaw, Raws;
    assert Cut(value, raws) && SplitValue(value).value == TrimAll(raws);
  }

  // ---- Splitting a part again ----

  /** The scanner state after reading `s[i..k]` from state `lex`. */
  function Run(s: string, i: nat, k: nat, lex: Lex): Lex
    requires i <= k <= |s|
    decreases k - i
  {
    if i == k then lex else Run(s, i + 1, k, Next(lex, s[i]))
  }

  lemma {:induction false} RunSnoc(s: string, i: nat, k: nat, lex: Lex)
    requires i <= k < |s|
    ensures Run(s, i, k + 1, lex) == Next(Run(s, i, k, lex), s[k])
    decreases k - i
  {
    if i < k { RunSnoc(s, i + 1, k, Next(lex, s[i])); }
  }

  lemma {:induction false} FindRuns(s: string, i: nat, lex: Lex)
    requires i <= |s|
    ensures FindOperator(s, i, lex).1 == Run(s, i, FindOperator(s, i, lex).0, lex)
    decreases |s| - i
  {
    if FindOperator(s, i, lex).0 != i { FindRuns(s, i + 1, Next(lex, s[i])); }
  }

  /** Searching on from a point before the first operator finds the same operator. */
  lemma {:induction false} FindThrough(s: string, i: nat, k: nat, lex: Lex)
    requires i <= k <= |s| && k <= FindOperator(s, i, lex).0
    ensures FindOperator(s, i, lex) == FindOperator(s, k, Run(s, i, k, lex))
    decreases k - i
  {
    if i < k { FindThrough(s, i + 1, k, Next(lex, s[i])); }
  }

  /** A text that ends where `s[i..k]` does and agrees with it is read like it, if no operator starts in it. */
  lemma {:induction false} FindAgree(s: string, i: nat, k: nat, t: string, d: int, lex: Lex)
    requires i <= k <= |s| && 0 <= i - d && k - d == |t|
    requires forall p {:trigger s[p]} :: i <= p < k ==> s[p] == t[p - d]
    requires k <= FindOperator(s, i, lex).0
    ensures FindOperator(t, i - d, lex) == (|t|, Run(s, i, k, lex))
    decreases k - i
  {
    if i < k {
      assert s[i] == t[i - d];
      if lex == CLEAN {
        assert OperatorAt(s, i) == ChainAlways;
        if i + 1 < k { assert s[i + 1] == t[i + 1 - d]; }
      }
      FindAgree(s, i + 1, k, t, d, Next(lex, s[i]));
    }
  }

  lemma {:induction false} SpaceKeepsClean(s: string, k: nat)
    requires k <= |s| && AllSpace(s[..k])
    ensures Run(s, 0, k, CLEAN) == CLEAN
  {
    if 0 < k {
      assert IsSpace(s[..k][k - 1]);
      assert AllSpace(s[..k - 1]) by {
        assert forall j :: 0 <= j < k - 1 ==> s[..k - 1][j] == s[..k][j];
      }
      SpaceKeepsClean(s, k - 1);
      RunSnoc(s, 0, k - 1, CLEAN);
    }
  }

  predicate QuoteMark(c: char) {
    c == '\0' || c == '\'' || c == '"'
  }

  /** White space cannot close a quote: reading it to the clean state started outside quotes. */
  lemma {:induction false} SpaceEndsClean(s: string, i: nat, lex: Lex)
    requires i <= |s| && Run(s, i, |s|, lex) == CLEAN && QuoteMark(lex.quote)
    requires forall j :: i <= j < |s| ==> IsSpace(s[j])
    ensures lex.quote == '\0'
    decreases |s| - i
  {
    if i < |s| {
      assert IsSpace(s[i]);
      SpaceEndsClean(s, i + 1, Next(lex, s[i]));
    }
  }

  lemma {:induction false} RunQuote(s: string, i: nat, k: nat, lex: Lex)
    requires i <= k <= |s| && QuoteMark(lex.quote)
    ensures QuoteMark(Run(s, i, k, lex).quote)
    decreases k - i
  {
    if i < k { RunQuote(s, i + 1, k, Next(lex, s[i])); }
  }

  lemma {:induction false} RunSplit(s: string, i: nat, m: nat, k: nat, lex: Lex)
    requires i <= m <= k <= |s|
    ensures Run(s, i, k, lex) == Run(s, m, k, Run(s, i, m, lex))
    decreases m - i
  {
    if i < m { RunSplit(s, i + 1, m, k, Next(lex, s[i])); }
  }

  /** The number of backslashes that `s[..k]` ends with. */
  function Backslashes(s: string, k: nat): nat
    requires k <= |s|
  {
    if 0 < k && s[k - 1] == '\\' then 1 + Backslashes(s, k - 1) else 0
  }

  /** The escape flag counts trailing backslashes modulo two, whatever the quotes. */
  lemma {:induction false} EscapedIsOdd(s: string, k: nat)
    requires k <= |s|
    ensures Run(s, 0, k, CLEAN).escaped <==> Backslashes(s, k) % 2 == 1
  {
    if 0 < k {
      EscapedIsOdd(s, k - 1);
      RunSnoc(s, 0, k - 1, CLEAN);
    }
  }

  /** Trimming a raw text leaves it free of operators and outside quotes; only the escape flag may be left set. */
  lemma TrimmedRawScan(raw: string)
    requires GoodRaw(raw)
    ensures var part := Trim(raw);
      FindOperator(part, 0, CLEAN) == (|part|, Lex('\0', Backslashes(part, |part|) % 2 == 1))
  {
    hide FindOperator, IsSpace, Trim, Backslashes, Run;
    var lo, hi := TrimSplits(raw);
    var part := Trim(raw);
    FindRuns(raw, 0, CLEAN);
    SpaceKeepsClean(raw, lo);
    FindThrough(raw, 0, lo, CLEAN);
    FindAgree(raw, lo, hi, part, lo, CLEAN);
    FindRuns(part, 0, CLEAN);
    EscapedIsOdd(part, |part|);
    RunSplit(raw, 0, lo, |raw|, CLEAN);
    RunSplit(raw, lo, hi, |raw|, CLEAN);
    assert forall j :: hi <= j < |raw| ==> raw[j] == raw[hi..][j - hi];
    RunQuote(raw, lo, hi, CLEAN);
    SpaceEndsClean(raw, hi, Run(raw, lo, hi, CLEAN));
  }

  /** Splitting a returned part again gives just that part exactly when its trailing run of backslashes is even;
      otherwise trimming cut an escaped space off it, and splitting reports a trailing escape. */
  lemma {:induction false} ResplitPart(value: string, i: nat)
    requires SplitValue(value).Ok? && i < |SplitValue(value).value|
    ensures var part := SplitValue(value).value[i].content;
      SplitValue(part) == if Backslashes(part, |part|) % 2 == 0
                          then Ok([ChainPart(ChainAlways, part)])
                          else Err(TrailingEscape)
  {
    hide FindOperator, Backslashes, IsSpace;
    SplitChainLossless(value);
    var raws: seq<Raw> :| Cut(value, raws) && SplitValue(value).value == TrimAll(raws);
    hide Render, Split;
    TrimAllAt(raws, i);
    var raw := raws[i].text;
    var part := Trim(raw);
    var _, _ := TrimSplits(raw);
    TrimmedRawScan(raw);
    TrimFixed(part);
    assert part[0..|part|] == part;
  }

  /** No backslash stands directly before a white-space character. */
  predicate NoEscapedSpace(s: string) {
    forall i {:trigger s[i]} :: 0 <= i < |s| - 1 && s[i] == '\\' ==> !IsSpace(s[i + 1])
  }

  lemma TrimNoEscapedSpace(value: string)
    requires NoEscapedSpace(value)
    ensures NoEscapedSpace(Trim(value))
  {
  }

  lemma {:induction false} RawsAreSlices(s: string, start: nat, op: ChainOperator, i: nat)
    requires start <= |s| && NoEscapedSpace(s) && i < |Raws(s, start, op)|
    ensures NoEscapedSpace(Raws(s, start, op)[i].text)
    decreases |s| - start
  {
    var k := FindOperator(s, start, CLEAN).0;
    if i == 0 {
      assert forall j {:trigger s[start..k][j]} :: 0 <= j < k - start ==> s[start..k][j] == s[start + j];
    } else {
      RawsAreSlices(s, k + Width(OperatorAt(s, k)), OperatorAt(s, k), i - 1);
    }
  }

  /** A clean raw text with no escaped space ends, trimmed, in an even run of backslashes. */
  lemma EvenBackslashes(raw: string)
    requires GoodRaw(raw) && NoEscapedSpace(raw)
    ensures Backslashes(Trim(raw), |Trim(raw)|) % 2 == 0
  {
    hide FindOperator, IsSpace, Trim, Run;
    var lo, hi := TrimSplits(raw);
    var part := Trim(raw);
    TrimmedRawScan(raw);
    if hi < |raw| {
      assert IsSpace(raw[hi..][0]) && raw[hi..][0] == raw[hi];
      if lo < hi { assert part[|part| - 1] == raw[hi - 1]; }
    } else {
      FindRuns(raw, 0, CLEAN);
      SpaceKeepsClean(raw, lo);
      FindThrough(raw, 0, lo, CLEAN);
      FindAgree(raw, lo, hi, part, lo, CLEAN);
      RunSplit(raw, 0, lo, |raw|, CLEAN);
    }
  }

  /** Without a backslash directly before white space, every part of a successful split is a fixed point. */
  lemma {:induction false} ResplitWithoutEscapedSpace(value: string, i: nat)
    requires SplitValue(value).Ok? && i < |SplitValue(value).value|
    requires NoEscapedSpace(value)
    ensures var part := SplitValue(value).value[i].content;
      SplitValue(part) == Ok([ChainPart(ChainAlways, part)])
  {
    hide FindOperator, Backslashes, IsSpace, Raws, Split, Trim, GoodRaw;
    var s := Trim(value);
    TrimNoEscapedSpace(value);
    SplitTrimsRaws(s, 0, ChainAlways);
    TrimAllAt(Raws(s, 0, ChainAlways), i);
    RawsAreGood(s, 0, ChainAlways, i);
    RawsAreSlices(s, 0, ChainAlways, i);
    EvenBackslashes(Raws(s, 0, ChainAlways)[i].text);
    ResplitPart(value, i);
  }

  lemma FindInExample(s: string)
    requires s == "a\\ ;b"
    ensures FindOperator(s, 0, CLEAN) == (3, CLEAN) && OperatorAt(s, 3) == ChainThen
    ensures FindOperator(s, 4, CLEAN) == (5, CLEAN)
    ensures FindOperator("a\\", 0, CLEAN) == (2, Lex('\0', true))
  {
    assert FindOperator(s, 2, Lex('\0', true)) == (3, CLEAN);
    assert FindOperator("a\\", 1, CLEAN) == (2, Lex('\0', true));
  }

  /** An escaped space before an operator is trimmed away and leaves a lone backslash behind. */
  lemma {:induction false} ResplitCanFail()
    ensures SplitValue("a\\ ;b") == Ok([ChainPart(ChainAlways, "a\\"), ChainPart(ChainThen, "b")])
    ensures SplitValue("a\\") == Err(TrailingEscape)
  {
    hide FindOperator, OperatorAt, Trim;
    var s := "a\\ ;b";
    FindInExample(s);
    TrimFixed(s);
    TrimPads("", "a\\", " ");
    assert s[0..3] == "" + "a\\" + " ";
    assert s[4..5] == "b";
    TrimFixed("b");
    assert Split(s, 4, ChainThen) == Ok([ChainPart(ChainThen, "b")]);
    assert Split(s, 0, ChainAlways)
        == After([ChainPart(ChainAlways, "a\\")], Split(s, 4, ChainThen));
    assert [ChainPart(ChainAlways, "a\\")] + [ChainPart(ChainThen, "b")]
        == [ChainPart(ChainAlways, "a\\"), ChainPart(ChainThen, "b")];
    TrimFixed("a\\");
    assert "a\\"[0..2] == "a\\";
  }
}
