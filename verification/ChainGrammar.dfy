/** What a chain of commands means, apart from the scanner: texts made of pieces, with operators between them; an
    operator inside quotes or behind a backslash is part of a text (command/parser.go, splitChain). */
module ChainGrammar {
  import opened Collections
  import opened Text
  import opened Spelling
  import opened ChainScanner

  datatype Chain =
    | Last(text: seq<Piece>)
    | Link(text: seq<Piece>, operator: ChainOperator, rest: Chain)
    | Cut(text: seq<Piece>, broken: Broken)

  /** The three operators. */
  predicate Operates(s: string, i: nat, op: ChainOperator) {
    match op
    case ChainAnd => At(s, i, "&&")
    case ChainOr => At(s, i, "||")
    case ChainThen => At(s, i, ";")
    case ChainAlways => false
  }

  lemma OperatesMeans(s: string, i: nat, op: ChainOperator)
    requires i < |s|
    ensures Operates(s, i, op) <==> op != ChainAlways && OperatorAt(s, i) == op
  {
    if At(s, i, "&&") { assert s[i] == '&' && s[i + 1] == '&'; }
    if At(s, i, "||") { assert s[i] == '|' && s[i + 1] == '|'; }
    if At(s, i, ";") { assert s[i] == ';'; }
  }

  /** The text stands at `i`; outside quotes it holds no operator. */
  predicate TextAt(s: string, i: nat, text: seq<Piece>)
    decreases |text|
  {
    text != [] ==>
      var p := text[0];
      && At(s, i, SpellPiece(p))
      && (match p
          case Bare(c) => !IsQuote(c) && c != '\\' && forall op :: !Operates(s, i, op)
          case Escaped(_) => true
          case Quoted(_, _) => ValidQuoted(p)
          case Mention(_) => false)
      && TextAt(s, i + |SpellPiece(p)|, text[1..])
  }

  predicate ChainAt(s: string, i: nat, chain: Chain)
    decreases chain
  {
    var k := i + |SpellWord(chain.text)|;
    && TextAt(s, i, chain.text)
    && match chain
       case Last(_) => k == |s|
       case Link(_, op, rest) =>
         k < |s| && Operates(s, k, op) && ChainAt(s, k + (if op == ChainThen then 1 else 2), rest)
       case Cut(_, broken) => BrokenAt(s, k, broken)
  }

  /** The parts of a chain, each with the operator in front of it; an empty text is an error, at the latest when the end
      has been found to be in order. */
  function Meaning(chain: Chain, op: ChainOperator): Result<seq<ChainPart>> {
    var content := Trim(SpellWord(chain.text));
    match chain
    case Last(_) => if content == "" then Err(EmptyCommand) else Ok([ChainPart(op, content)])
    case Link(_, next, rest) =>
      if content == "" then Err(EmptyCommand)
      else
        (match Meaning(rest, next)
         case Ok(parts) => Ok([ChainPart(op, content)] + parts)
         case Err(e) => Err(e))
    case Cut(_, broken) => Err(if EndsInBackslash(broken) then TrailingEscape else UnterminatedQuote)
  }

  // ---- The scanner over pieces ----

  lemma {:induction false} BodyScanned(s: string, i: nat, body: seq<Quotee>, quote: char)
    requires IsQuote(quote) && ValidBody(body, quote) && At(s, i, SpellBody(body))
    ensures i + |SpellBody(body)| <= |s|
    ensures FindOperator(s, i, Lex(quote, false)) == FindOperator(s, i + |SpellBody(body)|, Lex(quote, false))
    decreases |body|
  {
    if body != [] {
      var x, rest := body[0], body[1..];
      AtConcat(s, i, SpellQuotee(x), SpellBody(rest));
      QuoteeScanned(s, i, x, quote);
      hide FindOperator, At, SpellBody, SpellQuotee;
      BodyScanned(s, i + |SpellQuotee(x)|, rest, quote);
    }
  }

  lemma QuoteeScanned(s: string, i: nat, x: Quotee, quote: char)
    requires IsQuote(quote) && ValidQuotee(x, quote) && At(s, i, SpellQuotee(x))
    ensures i + |SpellQuotee(x)| <= |s|
    ensures FindOperator(s, i, Lex(quote, false)) == FindOperator(s, i + |SpellQuotee(x)|, Lex(quote, false))
  {
    hide OperatorAt;
    assert s[i] == SpellQuotee(x)[0];
    if x.escaped { assert s[i + 1] == SpellQuotee(x)[1]; }
  }

  lemma CharScanned(s: string, i: nat)
    requires i < |s|
    ensures IsQuote(s[i]) ==> FindOperator(s, i, CLEAN) == FindOperator(s, i + 1, Lex(s[i], false))
    ensures IsQuote(s[i]) ==> FindOperator(s, i, Lex(s[i], false)) == FindOperator(s, i + 1, CLEAN)
    ensures s[i] == '\\' ==> FindOperator(s, i, CLEAN) == FindOperator(s, i + 1, Lex('\0', true))
    ensures FindOperator(s, i, Lex('\0', true)) == FindOperator(s, i + 1, CLEAN)
    ensures !IsQuote(s[i]) && s[i] != '\\' && OperatorAt(s, i) == ChainAlways ==>
      FindOperator(s, i, CLEAN) == FindOperator(s, i + 1, CLEAN)
  {
  }

  lemma QuotedScanned(s: string, i: nat, p: Piece)
    requires p.Quoted? && ValidQuoted(p) && At(s, i, SpellPiece(p))
    ensures i + |SpellPiece(p)| <= |s| && FindOperator(s, i, CLEAN) == FindOperator(s, i + |SpellPiece(p)|, CLEAN)
  {
    hide FindOperator, At, SpellBody, ValidBody, OperatorAt;
    AtConcat(s, i, [p.quote], SpellBody(p.body) + [p.quote]);
    AtConcat(s, i + 1, SpellBody(p.body), [p.quote]);
    AtChar(s, i, p.quote);
    AtChar(s, i + 1 + |SpellBody(p.body)|, p.quote);
    CharScanned(s, i);
    BodyScanned(s, i + 1, p.body, p.quote);
    CharScanned(s, i + 1 + |SpellBody(p.body)|);
  }

  lemma PieceScanned(s: string, i: nat, text: seq<Piece>)
    requires text != [] && TextAt(s, i, text)
    ensures i + |SpellPiece(text[0])| <= |s|
    ensures FindOperator(s, i, CLEAN) == FindOperator(s, i + |SpellPiece(text[0])|, CLEAN)
  {
    hide FindOperator, At, OperatorAt, Operates;
    match text[0]
    case Bare(c) =>
      AtChar(s, i, c);
      assert !Operates(s, i, OperatorAt(s, i));
      OperatesMeans(s, i, OperatorAt(s, i));
      CharScanned(s, i);
    case Escaped(c) =>
      assert SpellPiece(text[0]) == "\\" + [c];
      AtConcat(s, i, "\\", [c]);
      AtChar(s, i, '\\');
      AtChar(s, i + 1, c);
      CharScanned(s, i);
      CharScanned(s, i + 1);
    case Quoted(_, _) => QuotedScanned(s, i, text[0]);
  }

  /** No operator is found within a text. */
  lemma {:induction false} TextScanned(s: string, i: nat, text: seq<Piece>)
    requires TextAt(s, i, text) && i <= |s|
    ensures i + |SpellWord(text)| <= |s| && At(s, i, SpellWord(text))
    ensures FindOperator(s, i, CLEAN) == FindOperator(s, i + |SpellWord(text)|, CLEAN)
    decreases |text|
  {
    hide FindOperator, At, OperatorAt, SpellPiece;
    if text == [] {
      NothingAt(s, i);
    } else {
      PieceScanned(s, i, text);
      var p, rest := text[0], text[1..];
      var k := i + |SpellPiece(p)|;
      TextScanned(s, k, rest);
      AtConcat(s, i, SpellPiece(p), SpellWord(rest));
    }
  }

  lemma BrokenScanned(s: string, i: nat, broken: Broken)
    requires BrokenAt(s, i, broken)
    ensures i <= |s| && FindOperator(s, i, CLEAN).0 == |s|
    ensures var lex := FindOperator(s, i, CLEAN).1;
      if EndsInBackslash(broken) then lex.escaped else !lex.escaped && lex.quote != '\0'
  {
    match broken
    case LoneBackslash =>
      AtChar(s, i, '\\');
      CharScanned(s, i);
    case OpenQuote(quote, body, backslash) =>
      OpenScanned(s, i, quote, body, if backslash then "\\" else "");
  }

  lemma OpenScanned(s: string, i: nat, quote: char, body: seq<Quotee>, tail: string)
    requires IsQuote(quote) && ValidBody(body, quote) && At(s, i, [quote] + (SpellBody(body) + tail))
    requires i + 1 + |SpellBody(body)| + |tail| == |s| && (tail == "" || tail == "\\")
    ensures FindOperator(s, i, CLEAN) == (|s|, Lex(quote, tail != ""))
  {
    hide FindOperator, At, SpellBody, ValidBody, OperatorAt;
    var k := i + 1 + |SpellBody(body)|;
    AtConcat(s, i, [quote], SpellBody(body) + tail);
    AtConcat(s, i + 1, SpellBody(body), tail);
    AtChar(s, i, quote);
    if tail != "" { AtChar(s, k, '\\'); }
    CharScanned(s, i);
    BodyScanned(s, i + 1, body, quote);
    EndScanned(s, k, quote);
  }

  lemma EndScanned(s: string, k: nat, quote: char)
    requires k <= |s|
    ensures k == |s| ==> FindOperator(s, k, Lex(quote, false)) == (|s|, Lex(quote, false))
    ensures k + 1 == |s| && s[k] == '\\' && quote != '\0' ==>
      FindOperator(s, k, Lex(quote, false)) == (|s|, Lex(quote, true))
  {
  }

  // ---- The scanner reads every chain ----

  lemma OperatorFound(s: string, k: nat)
    requires k < |s| && OperatorAt(s, k) != ChainAlways
    ensures FindOperator(s, k, CLEAN) == (k, CLEAN)
  {
  }

  lemma SplitAtEnd(s: string, i: nat, op: ChainOperator, text: seq<Piece>)
    requires TextAt(s, i, text) && i + |SpellWord(text)| == |s|
    ensures Split(s, i, op) == Meaning(Last(text), op)
  {
    hide TextAt, FindOperator, At, Trim, SpellWord, OperatorAt, EndsInBackslash, BrokenAt;
    TextScanned(s, i, text);
    AtSlice(s, i, SpellWord(text));
    EndScanned(s, |s|, '\0');
  }

  lemma SplitAtOperator(s: string, i: nat, op: ChainOperator, text: seq<Piece>, next: ChainOperator)
    requires TextAt(s, i, text) && i <= |s|
    requires var k := i + |SpellWord(text)|; k < |s| && OperatorAt(s, k) == next && next != ChainAlways
    ensures var k := i + |SpellWord(text)| + Width(next);
      var content := Trim(SpellWord(text));
      && k <= |s|
      && Split(s, i, op)
         == if content == "" then Err(EmptyCommand) else After([ChainPart(op, content)], Split(s, k, next))
  {
    hide TextAt, FindOperator, At, Trim, SpellWord, OperatorAt, EndsInBackslash, BrokenAt;
    TextScanned(s, i, text);
    AtSlice(s, i, SpellWord(text));
    OperatorFound(s, i + |SpellWord(text)|);
  }

  lemma SplitAtBreak(s: string, i: nat, op: ChainOperator, text: seq<Piece>, broken: Broken)
    requires TextAt(s, i, text) && i <= |s| && BrokenAt(s, i + |SpellWord(text)|, broken)
    ensures Split(s, i, op) == Err(if EndsInBackslash(broken) then TrailingEscape else UnterminatedQuote)
  {
    hide TextAt, FindOperator, At, Trim, SpellWord, OperatorAt, EndsInBackslash, BrokenAt;
    TextScanned(s, i, text);
    BrokenScanned(s, i + |SpellWord(text)|, broken);
  }

  lemma {:induction false} ChainRead(s: string, i: nat, chain: Chain, op: ChainOperator)
    requires ChainAt(s, i, chain) && i <= |s|
    ensures Split(s, i, op) == Meaning(chain, op)
    decreases chain
  {
    hide TextAt, Split, At, Trim, SpellWord, OperatorAt, Operates, BrokenAt, EndsInBackslash;
    match chain
    case Last(text) => SplitAtEnd(s, i, op, text);
    case Link(text, next, rest) =>
      OperatesMeans(s, i + |SpellWord(text)|, next);
      SplitAtOperator(s, i, op, text, next);
      ChainRead(s, i + |SpellWord(text)| + Width(next), rest, next);
    case Cut(text, broken) => SplitAtBreak(s, i, op, text, broken);
  }

  // ---- Every text is written as some chain ----

  /** Where a text ends: at the end, at an operator, or where it breaks off. */
  predicate EndsAt(s: string, k: nat, broken: Option<Broken>) {
    match broken
    case None => k == |s| || (k < |s| && OperatorAt(s, k) != ChainAlways)
    case Some(b) => BrokenAt(s, k, b)
  }

  lemma BareAt(s: string, i: nat)
    requires i < |s| && !IsQuote(s[i]) && s[i] != '\\' && OperatorAt(s, i) == ChainAlways
    ensures TextAt(s, i, [Bare(s[i])])
  {
    forall op
      ensures !Operates(s, i, op)
    {
      OperatesMeans(s, i, op);
    }
    hide Operates, OperatorAt;
    assert [Bare(s[i])][1..] == [];
  }

  predicate PieceAt(s: string, i: nat, p: Piece) {
    TextAt(s, i, [p]) && SpellPiece(p) != "" && i + |SpellPiece(p)| <= |s|
  }

  /** Where a text goes on, a piece stands or the text breaks off. */
  lemma EveryPiece(s: string, i: nat)
    requires i < |s| && OperatorAt(s, i) == ChainAlways
    ensures (exists p :: PieceAt(s, i, p)) || (exists broken :: BrokenAt(s, i, broken))
  {
    if s[i] == '\\' {
      if i + 1 == |s| {
        assert BrokenAt(s, i, LoneBackslash);
      } else {
        assert [Escaped(s[i + 1])][1..] == [];
        assert TextAt(s, i, [Escaped(s[i + 1])]);
        assert PieceAt(s, i, Escaped(s[i + 1]));
      }
    } else if IsQuote(s[i]) {
      EveryQuote(s, i);
      if p :| QuotedAt(s, i, p) {
        assert [p][1..] == [];
        assert TextAt(s, i, [p]);
        AtBound(s, i, SpellPiece(p));
        assert PieceAt(s, i, p);
      }
    } else {
      BareAt(s, i);
      assert PieceAt(s, i, Bare(s[i]));
    }
  }

  lemma TextCons(s: string, i: nat, p: Piece, rest: seq<Piece>)
    requires TextAt(s, i, [p]) && TextAt(s, i + |SpellPiece(p)|, rest)
    ensures TextAt(s, i, [p] + rest) && |SpellWord([p] + rest)| == |SpellPiece(p)| + |SpellWord(rest)|
  {
    hide At, Operates, ValidQuoted, SpellPiece;
    assert ([p] + rest)[1..] == rest && ([p] + rest)[0] == p && [p][0] == p;
  }

  predicate TextTo(s: string, i: nat, text: seq<Piece>, broken: Option<Broken>) {
    TextAt(s, i, text) && EndsAt(s, i + |SpellWord(text)|, broken)
  }

  lemma {:induction false} EveryText(s: string, i: nat)
    requires i <= |s|
    ensures exists text, broken :: TextTo(s, i, text, broken)
    decreases |s| - i
  {
    hide At, BrokenAt, OperatorAt, SpellPiece;
    assert SpellWord([]) == "";
    if i == |s| || OperatorAt(s, i) != ChainAlways {
      assert TextTo(s, i, [], None);
      return;
    }
    EveryPiece(s, i);
    if broken :| BrokenAt(s, i, broken) {
      assert TextTo(s, i, [], Some(broken));
      return;
    }
    var p :| PieceAt(s, i, p);
    EveryText(s, i + |SpellPiece(p)|);
    var rest, broken :| TextTo(s, i + |SpellPiece(p)|, rest, broken);
    hide TextAt, SpellWord, EndsAt;
    TextCons(s, i, p, rest);
    assert TextTo(s, i, [p] + rest, broken);
  }

  lemma {:induction false} EveryTextIsAChain(s: string, i: nat)
    requires i <= |s|
    ensures exists chain :: ChainAt(s, i, chain)
    decreases |s| - i
  {
    hide TextAt, SpellWord, At, BrokenAt, OperatorAt, Operates;
    EveryText(s, i);
    var text, broken :| TextTo(s, i, text, broken);
    var k := i + |SpellWord(text)|;
    if broken.Some? {
      assert ChainAt(s, i, Cut(text, broken.value));
    } else if k == |s| {
      assert ChainAt(s, i, Last(text));
    } else {
      var op := OperatorAt(s, k);
      OperatesMeans(s, k, op);
      EveryTextIsAChain(s, k + Width(op));
      var rest :| ChainAt(s, k + Width(op), rest);
      assert ChainAt(s, i, Link(text, op, rest));
    }
  }

  /** Every message that is not blank is a chain, and the scanner gives its parts or its first error. */
  lemma ScanMeans(value: string)
    requires Trim(value) != ""
    ensures exists chain :: ChainAt(Trim(value), 0, chain)
    ensures forall chain :: ChainAt(Trim(value), 0, chain) ==> SplitValue(value) == Meaning(chain, ChainAlways)
  {
    hide ChainAt, Split, Trim, Meaning;
    EveryTextIsAChain(Trim(value), 0);
    forall chain | ChainAt(Trim(value), 0, chain)
      ensures SplitValue(value) == Meaning(chain, ChainAlways)
    {
      ChainRead(Trim(value), 0, chain, ChainAlways);
    }
  }
}
