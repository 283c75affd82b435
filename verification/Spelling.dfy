/** How quoted and escaped text is written, apart from any scanner (command/parser.go): characters standing for
    themselves, characters behind a backslash, and stretches in single or double quotes. */
module Spelling {
  import opened Text

  /** A character between quotes, behind a backslash or not. */
  datatype Quotee = Quotee(c: char, escaped: bool)

  datatype Piece =
    | Bare(c: char)
    | Escaped(c: char)
    | Quoted(quote: char, body: seq<Quotee>)
    | Mention(text: string)

  /** What ends a text too early. */
  datatype Broken = LoneBackslash | OpenQuote(quote: char, body: seq<Quotee>, backslash: bool)

  predicate IsQuote(c: char) {
    c == '\'' || c == '"'
  }

  predicate ValidQuotee(x: Quotee, quote: char) {
    x.escaped || (x.c != quote && x.c != '\\')
  }

  predicate ValidBody(body: seq<Quotee>, quote: char) {
    forall k :: 0 <= k < |body| ==> ValidQuotee(body[k], quote)
  }

  function SpellQuotee(x: Quotee): string {
    if x.escaped then ['\\', x.c] else [x.c]
  }

  function SpellBody(body: seq<Quotee>): string {
    if body == [] then "" else SpellQuotee(body[0]) + SpellBody(body[1..])
  }

  /** What quoted text says. */
  function SaysBody(body: seq<Quotee>): string {
    seq(|body|, k requires 0 <= k < |body| => body[k].c)
  }

  function SpellPiece(p: Piece): string {
    match p
    case Bare(c) => [c]
    case Escaped(c) => ['\\', c]
    case Quoted(quote, body) => [quote] + (SpellBody(body) + [quote])
    case Mention(text) => text
  }

  function SaysPiece(p: Piece): string {
    match p
    case Bare(c) => [c]
    case Escaped(c) => [c]
    case Quoted(_, body) => SaysBody(body)
    case Mention(text) => text
  }

  function SpellWord(word: seq<Piece>): string {
    if word == [] then "" else SpellPiece(word[0]) + SpellWord(word[1..])
  }

  function SaysWord(word: seq<Piece>): string {
    if word == [] then "" else SaysPiece(word[0]) + SaysWord(word[1..])
  }

  /** A quoted stretch that is properly written. */
  predicate ValidQuoted(p: Piece) {
    p.Quoted? ==> IsQuote(p.quote) && ValidBody(p.body, p.quote)
  }

  function SpellBroken(b: Broken): string {
    match b
    case LoneBackslash => "\\"
    case OpenQuote(quote, body, backslash) => [quote] + (SpellBody(body) + if backslash then "\\" else "")
  }

  predicate ValidBroken(b: Broken) {
    b.OpenQuote? ==> IsQuote(b.quote) && ValidBody(b.body, b.quote)
  }

  /** A text ends in a backslash that escapes nothing, inside quotes or not; otherwise its quote is left open. */
  predicate EndsInBackslash(b: Broken) {
    b.LoneBackslash? || b.backslash
  }

  /** A text that breaks off at `i` does so at the end. */
  predicate BrokenAt(s: string, i: nat, broken: Broken) {
    ValidBroken(broken) && At(s, i, SpellBroken(broken)) && i + |SpellBroken(broken)| == |s|
  }

  // ---- Reading quoted text ----

  /** The body ends at `k`: at the closing quote, at a last backslash, or at the end of the text. */
  predicate BodyAt(s: string, i: nat, body: seq<Quotee>, quote: char) {
    && ValidBody(body, quote) && At(s, i, SpellBody(body))
    && var k := i + |SpellBody(body)|;
    k == |s| || s[k] == quote || (s[k] == '\\' && k + 1 == |s|)
  }

  /** From any place inside quotes on, the text is a body. */
  lemma {:induction false} EveryBody(s: string, i: nat, quote: char)
    requires i <= |s|
    ensures exists body :: BodyAt(s, i, body, quote)
    decreases |s| - i
  {
    if i == |s| || s[i] == quote || (s[i] == '\\' && i + 1 == |s|) {
      assert BodyAt(s, i, [], quote);
    } else {
      var x := if s[i] == '\\' then Quotee(s[i + 1], true) else Quotee(s[i], false);
      EveryBody(s, i + |SpellQuotee(x)|, quote);
      var rest :| BodyAt(s, i + |SpellQuotee(x)|, rest, quote);
      assert ([x] + rest)[1..] == rest;
      AtConcat(s, i, SpellQuotee(x), SpellBody(rest));
      assert BodyAt(s, i, [x] + rest, quote);
    }
  }

  lemma QuoteCloses(s: string, i: nat, quote: char, body: seq<Quotee>)
    requires i < |s| && s[i] == quote && At(s, i + 1, SpellBody(body))
    requires i + 1 + |SpellBody(body)| < |s| && s[i + 1 + |SpellBody(body)|] == quote
    ensures At(s, i, SpellPiece(Quoted(quote, body))) && SpellPiece(Quoted(quote, body)) != ""
  {
    hide At, SpellBody;
    CharAt(s, i);
    CharAt(s, i + 1 + |SpellBody(body)|);
    AtConcat(s, i + 1, SpellBody(body), [quote]);
    AtConcat(s, i, [quote], SpellBody(body) + [quote]);
  }

  lemma CharAt(s: string, i: nat)
    requires i < |s|
    ensures At(s, i, [s[i]])
  {
  }

  lemma NothingAt(s: string, i: nat)
    requires i <= |s|
    ensures At(s, i, "")
  {
  }

  lemma QuoteStaysOpen(s: string, i: nat, quote: char, body: seq<Quotee>)
    requires i < |s| && s[i] == quote && IsQuote(quote) && ValidBody(body, quote) && At(s, i + 1, SpellBody(body))
    requires var k := i + 1 + |SpellBody(body)|; k == |s| || (k + 1 == |s| && s[k] == '\\')
    ensures BrokenAt(s, i, OpenQuote(quote, body, i + 1 + |SpellBody(body)| < |s|))
  {
    hide At, SpellBody, ValidBody;
    var k := i + 1 + |SpellBody(body)|;
    var tail := if k < |s| then "\\" else "";
    CharAt(s, i);
    if k < |s| { CharAt(s, k); } else { NothingAt(s, k); }
    AtConcat(s, i + 1, SpellBody(body), tail);
    AtConcat(s, i, [quote], SpellBody(body) + tail);
  }

  lemma AtBound(s: string, i: nat, value: string)
    requires At(s, i, value)
    ensures i + |value| <= |s|
  {
  }

  predicate QuotedAt(s: string, i: nat, p: Piece) {
    p.Quoted? && ValidQuoted(p) && At(s, i, SpellPiece(p))
  }

  /** Where a quote opens, a quoted piece stands or the text breaks off. */
  lemma EveryQuote(s: string, i: nat)
    requires i < |s| && IsQuote(s[i])
    ensures (exists p :: QuotedAt(s, i, p)) || (exists broken :: BrokenAt(s, i, broken))
  {
    var quote := s[i];
    EveryBody(s, i + 1, quote);
    var body :| BodyAt(s, i + 1, body, quote);
    AtBound(s, i + 1, SpellBody(body));
    var k := i + 1 + |SpellBody(body)|;
    if k < |s| && s[k] == quote {
      QuoteCloses(s, i, quote, body);
      assert QuotedAt(s, i, Quoted(quote, body));
    } else {
      QuoteStaysOpen(s, i, quote, body);
    }
  }
}
