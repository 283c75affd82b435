/** What a line of arguments means, apart from the scanner: white space between words, and each word the text that its
    pieces say; and that the scanner reads every line so (command/parser.go, splitArgs). */
module ArgGrammar {
  import opened Collections
  import opened Text
  import opened Spelling
  import opened ChainScanner
  import opened ArgScanner

  /** White space and words in turn, up to the end or to a word that breaks off. */
  datatype Line =
    | End(gap: string)
    | Arg(gap: string, word: seq<Piece>, rest: Line)
    | Cut(gap: string, word: seq<Piece>, broken: Broken)

  /** Outside quotes, white space, quotes and backslashes do not stand for themselves. */
  predicate ValidPiece(p: Piece) {
    ValidQuoted(p) && (p.Bare? ==> !IsSpace(p.c) && !IsQuote(p.c) && p.c != '\\')
  }

  /** The word stands at `i`; only its first piece can be a mention, and it is one if the text there is. */
  predicate WordAt(s: string, i: nat, word: seq<Piece>) {
    && At(s, i, SpellWord(word))
    && (forall k :: 0 <= k < |word| ==> ValidPiece(word[k]) && (k > 0 ==> !word[k].Mention?))
    && (word != [] ==>
          match word[0]
          case Mention(text) => i < |s| && text != "" && MentionEnd(s, i) == i + |text|
          case Bare(_) => i < |s| && MentionEnd(s, i) == i
          case _ => true)
  }

  /** The text from `i` on is written as this line. */
  predicate LineAt(s: string, i: nat, line: Line)
    decreases line
  {
    && AllSpace(line.gap) && At(s, i, line.gap)
    && var j := i + |line.gap|;
    match line
    case End(_) => j == |s|
    case Arg(_, word, rest) =>
      var k := j + |SpellWord(word)|;
      && word != [] && WordAt(s, j, word)
      && (k == |s| || (k < |s| && IsSpace(s[k])))
      && LineAt(s, k, rest)
    case Cut(_, word, broken) =>
      WordAt(s, j, word) && BrokenAt(s, j + |SpellWord(word)|, broken)
  }

  /** An argument in front of what follows it. */
  function InFront(arg: string, rest: Result<seq<string>>): Result<seq<string>> {
    match rest
    case Ok(args) => Ok([arg] + args)
    case Err(e) => Err(e)
  }

  /** The arguments of a line. */
  function Meaning(line: Line): Result<seq<string>> {
    match line
    case End(_) => Ok([])
    case Arg(_, word, rest) => InFront(SaysWord(word), Meaning(rest))
    case Cut(_, _, broken) => Err(if EndsInBackslash(broken) then TrailingEscape else UnterminatedQuote)
  }

  // ---- One step of the scanner ----

  function Inside(current: string): ArgState {
    ArgState(current, '\0', false, true)
  }

  lemma BareStep(s: string, i: nat, current: string)
    requires i < |s| && ValidPiece(Bare(s[i]))
    ensures Args(s, i, Inside(current)) == Args(s, i + 1, Inside(current + [s[i]]))
    ensures MentionEnd(s, i) == i ==> Args(s, i, BETWEEN) == Args(s, i + 1, Inside([s[i]]))
  {
    hide IsSpace, MentionEnd;
    assert "" + [s[i]] == [s[i]];
  }

  lemma EscapedStep(s: string, i: nat, st: ArgState)
    requires i + 1 < |s| && s[i] == '\\' && !st.escaped
    ensures Args(s, i, st) == Args(s, i + 2, ArgState(st.current + [s[i + 1]], st.quote, false, true))
  {
    hide IsSpace, MentionEnd;
  }

  lemma QuotedStep(s: string, i: nat, st: ArgState)
    requires i < |s| && st.quote != '\0' && !st.escaped && s[i] != '\\' && s[i] != st.quote
    ensures Args(s, i, st) == Args(s, i + 1, ArgState(st.current + [s[i]], st.quote, false, true))
  {
    hide IsSpace, MentionEnd;
  }

  lemma OpenStep(s: string, i: nat, st: ArgState)
    requires i < |s| && IsQuote(s[i]) && st.quote == '\0' && !st.escaped
    ensures Args(s, i, st) == Args(s, i + 1, ArgState(st.current, s[i], false, true))
  {
    assert MentionEnd(s, i) == i;
    hide IsSpace, MentionEnd;
  }

  lemma CloseStep(s: string, i: nat, current: string)
    requires i < |s| && IsQuote(s[i])
    ensures Args(s, i, ArgState(current, s[i], false, true)) == Args(s, i + 1, Inside(current))
  {
    hide IsSpace, MentionEnd;
  }

  lemma SpaceStep(s: string, i: nat, current: string)
    requires i < |s| && IsSpace(s[i])
    ensures Args(s, i, BETWEEN) == Args(s, i + 1, BETWEEN)
    ensures Args(s, i, Inside(current)) == Prepend(current, Args(s, i + 1, BETWEEN))
  {
    SpaceIsPlain(s[i]);
    assert MentionEnd(s, i) == i;
    hide IsSpace, MentionEnd;
  }

  // ---- Quoted text, pieces, words ----

  lemma {:induction false} BodyRead(s: string, i: nat, body: seq<Quotee>, quote: char, current: string)
    requires IsQuote(quote) && ValidBody(body, quote) && At(s, i, SpellBody(body))
    ensures i + |SpellBody(body)| <= |s|
    ensures Args(s, i, ArgState(current, quote, false, true))
         == Args(s, i + |SpellBody(body)|, ArgState(current + SaysBody(body), quote, false, true))
    decreases |body|
  {
    hide Args;
    if body == [] {
      assert current + SaysBody(body) == current;
    } else {
      var x, rest := body[0], body[1..];
      AtConcat(s, i, SpellQuotee(x), SpellBody(rest));
      var st := ArgState(current, quote, false, true);
      assert s[i] == SpellQuotee(x)[0];
      if x.escaped {
        assert s[i + 1] == SpellQuotee(x)[1];
        EscapedStep(s, i, st);
      } else {
        QuotedStep(s, i, st);
      }
      BodyRead(s, i + |SpellQuotee(x)|, rest, quote, current + [x.c]);
      assert SaysBody(body) == [x.c] + SaysBody(rest);
      assert current + [x.c] + SaysBody(rest) == current + SaysBody(body);
    }
  }

  lemma QuotedRead(s: string, i: nat, p: Piece, st: ArgState)
    requires p.Quoted? && ValidQuoted(p) && At(s, i, SpellPiece(p))
    requires st.quote == '\0' && !st.escaped
    ensures i + |SpellPiece(p)| <= |s|
    ensures Args(s, i, st) == Args(s, i + |SpellPiece(p)|, Inside(st.current + SaysPiece(p)))
  {
    hide Args, At, ValidBody, SpellBody, MentionEnd;
    AtConcat(s, i, [p.quote], SpellBody(p.body) + [p.quote]);
    AtConcat(s, i + 1, SpellBody(p.body), [p.quote]);
    AtChar(s, i, p.quote);
    AtChar(s, i + 1 + |SpellBody(p.body)|, p.quote);
    OpenStep(s, i, st);
    BodyRead(s, i + 1, p.body, p.quote, st.current);
    CloseStep(s, i + 1 + |SpellBody(p.body)|, st.current + SaysBody(p.body));
  }

  /** A piece that is no mention, inside a word or at its beginning. */
  lemma PieceRead(s: string, i: nat, p: Piece, st: ArgState)
    requires ValidPiece(p) && !p.Mention? && At(s, i, SpellPiece(p))
    requires st == Inside(st.current) || (st == BETWEEN && (p.Bare? ==> i < |s| && MentionEnd(s, i) == i))
    ensures i + |SpellPiece(p)| <= |s|
    ensures Args(s, i, st) == Args(s, i + |SpellPiece(p)|, Inside(st.current + SaysPiece(p)))
  {
    hide Args, MentionEnd, IsSpace;
    match p
    case Bare(c) =>
      AtChar(s, i, c);
      BareStep(s, i, st.current);
      assert "" + [c] == [c];
    case Escaped(c) =>
      AtConcat(s, i, "\\", [c]);
      AtChar(s, i, '\\');
      AtChar(s, i + 1, c);
      EscapedStep(s, i, st);
    case Quoted(_, _) => QuotedRead(s, i, p, st);
  }

  /** Pieces that are no mentions. */
  predicate Literal(word: seq<Piece>) {
    forall k :: 0 <= k < |word| ==> ValidPiece(word[k]) && !word[k].Mention?
  }

  lemma {:induction false} PiecesRead(s: string, i: nat, word: seq<Piece>, current: string)
    requires At(s, i, SpellWord(word))
    requires Literal(word)
    ensures i + |SpellWord(word)| <= |s|
    ensures Args(s, i, Inside(current)) == Args(s, i + |SpellWord(word)|, Inside(current + SaysWord(word)))
    decreases |word|
  {
    hide Args, ValidPiece, SpellPiece, SaysPiece;
    if word == [] {
      assert current + SaysWord(word) == current;
    } else {
      AtConcat(s, i, SpellPiece(word[0]), SpellWord(word[1..]));
      PieceRead(s, i, word[0], Inside(current));
      PiecesRead(s, i + |SpellPiece(word[0])|, word[1..], current + SaysPiece(word[0]));
      assert current + SaysPiece(word[0]) + SaysWord(word[1..]) == current + SaysWord(word);
    }
  }

  lemma MentionRead(s: string, i: nat, text: string)
    requires At(s, i, text) && text != "" && i < |s| && MentionEnd(s, i) == i + |text|
    ensures Args(s, i, BETWEEN) == Args(s, i + |text|, Inside(text))
  {
    AtSlice(s, i, text);
    assert s[i] == '@' || s[i] == '#';
    hide Args, MentionEnd;
    ArgsAtMention(s, i);
  }

  lemma FirstRead(s: string, i: nat, p: Piece)
    requires WordAt(s, i, [p])
    ensures i + |SpellPiece(p)| <= |s|
    ensures Args(s, i, BETWEEN) == Args(s, i + |SpellPiece(p)|, Inside(SaysPiece(p)))
  {
    hide Args, MentionEnd, IsSpace;
    assert [p][1..] == [] && [p][0] == p && SpellWord([p]) == SpellPiece(p) + "" == SpellPiece(p);
    assert ValidPiece([p][0]);
    if p.Mention? {
      MentionRead(s, i, p.text);
    } else {
      PieceRead(s, i, p, BETWEEN);
      assert "" + SaysPiece(p) == SaysPiece(p);
    }
  }

  /** A word is its first piece and the pieces behind it. */
  lemma WordCons(s: string, i: nat, word: seq<Piece>)
    requires word != [] && WordAt(s, i, word)
    ensures WordAt(s, i, [word[0]])
    ensures SpellWord(word) == SpellPiece(word[0]) + SpellWord(word[1..])
    ensures SaysWord(word) == SaysPiece(word[0]) + SaysWord(word[1..])
    ensures At(s, i + |SpellPiece(word[0])|, SpellWord(word[1..]))
    ensures Literal(word[1..])
  {
    hide ValidPiece, SpellPiece, SaysPiece, MentionEnd, At;
    AtConcat(s, i, SpellPiece(word[0]), SpellWord(word[1..]));
    assert [word[0]][1..] == [] && SpellWord([word[0]]) == SpellPiece(word[0]) + "" == SpellPiece(word[0]);
    forall k | 0 <= k < |word[1..]|
      ensures ValidPiece(word[1..][k]) && !word[1..][k].Mention?
    {
      assert word[1..][k] == word[k + 1];
    }
  }

  lemma WordRead(s: string, i: nat, word: seq<Piece>)
    requires word != [] && WordAt(s, i, word)
    ensures i + |SpellWord(word)| <= |s|
    ensures Args(s, i, BETWEEN) == Args(s, i + |SpellWord(word)|, Inside(SaysWord(word)))
  {
    hide *;
    WordCons(s, i, word);
    FirstThenRest(s, i, word[0], word[1..]);
  }

  lemma FirstThenRest(s: string, i: nat, p: Piece, rest: seq<Piece>)
    requires WordAt(s, i, [p]) && At(s, i + |SpellPiece(p)|, SpellWord(rest)) && Literal(rest)
    ensures i + |SpellPiece(p)| + |SpellWord(rest)| <= |s|
    ensures Args(s, i, BETWEEN)
         == Args(s, i + |SpellPiece(p)| + |SpellWord(rest)|, Inside(SaysPiece(p) + SaysWord(rest)))
  {
    hide *;
    FirstRead(s, i, p);
    PiecesRead(s, i + |SpellPiece(p)|, rest, SaysPiece(p));
  }

  lemma {:induction false} GapRead(s: string, i: nat, gap: string)
    requires AllSpace(gap) && At(s, i, gap)
    ensures i + |gap| <= |s| && Args(s, i, BETWEEN) == Args(s, i + |gap|, BETWEEN)
    decreases |gap|
  {
    hide Args, IsSpace;
    if gap != "" {
      assert gap == [gap[0]] + gap[1..];
      AtConcat(s, i, [gap[0]], gap[1..]);
      AtChar(s, i, gap[0]);
      SpaceStep(s, i, "");
      GapRead(s, i + 1, gap[1..]);
    }
  }

  lemma OpenRead(s: string, i: nat, quote: char, body: seq<Quotee>, tail: string, st: ArgState)
    requires IsQuote(quote) && ValidBody(body, quote) && At(s, i, [quote] + (SpellBody(body) + tail))
    requires i + 1 + |SpellBody(body)| + |tail| == |s| && (tail == "" || tail == "\\")
    requires st.quote == '\0' && !st.escaped
    ensures Args(s, i, st) == Err(if tail == "" then UnterminatedQuote else TrailingEscape)
  {
    hide Args, At, ValidBody, SpellBody, MentionEnd;
    var k := i + 1 + |SpellBody(body)|;
    AtConcat(s, i, [quote], SpellBody(body) + tail);
    AtConcat(s, i + 1, SpellBody(body), tail);
    AtChar(s, i, quote);
    if tail != "" {
      AtChar(s, k, '\\');
    }
    OpenStep(s, i, st);
    BodyRead(s, i + 1, body, quote, st.current);
    EndInQuote(s, k, ArgState(st.current + SaysBody(body), quote, false, true));
  }

  lemma BackslashRead(s: string, i: nat, st: ArgState)
    requires i + 1 == |s| && s[i] == '\\' && !st.escaped
    ensures Args(s, i, st) == Err(TrailingEscape)
  {
  }

  lemma BrokenRead(s: string, i: nat, broken: Broken, st: ArgState)
    requires BrokenAt(s, i, broken) && st.quote == '\0' && !st.escaped
    ensures Args(s, i, st) == Err(if EndsInBackslash(broken) then TrailingEscape else UnterminatedQuote)
  {
    hide Args, At, SpellBody, ValidBody;
    match broken
    case LoneBackslash =>
      AtChar(s, i, '\\');
      BackslashRead(s, i, st);
    case OpenQuote(quote, body, backslash) =>
      OpenRead(s, i, quote, body, if backslash then "\\" else "", st);
  }

  lemma EndInQuote(s: string, k: nat, st: ArgState)
    requires k <= |s| && st.quote != '\0' && !st.escaped
    ensures k == |s| ==> Args(s, k, st) == Err(UnterminatedQuote)
    ensures k + 1 == |s| && s[k] == '\\' ==> Args(s, k, st) == Err(TrailingEscape)
  {
  }

  // ---- The scanner reads every line ----

  lemma ArgRead(s: string, i: nat, word: seq<Piece>)
    requires word != [] && WordAt(s, i, word)
    requires var k := i + |SpellWord(word)|; k == |s| || (k < |s| && IsSpace(s[k]))
    ensures i + |SpellWord(word)| <= |s|
    ensures Args(s, i, BETWEEN) == InFront(SaysWord(word), Args(s, i + |SpellWord(word)|, BETWEEN))
  {
    hide *;
    var k := i + |SpellWord(word)|;
    WordRead(s, i, word);
    AfterWord(s, k, SaysWord(word));
  }

  lemma AfterWord(s: string, k: nat, said: string)
    requires k == |s| || (k < |s| && IsSpace(s[k]))
    ensures Args(s, k, Inside(said)) == InFront(said, Args(s, k, BETWEEN))
  {
    if k < |s| {
      hide Args, MentionEnd;
      SpaceStep(s, k, said);
    } else {
      assert [said] + [] == [said];
    }
  }

  lemma CutRead(s: string, i: nat, word: seq<Piece>, broken: Broken)
    requires WordAt(s, i, word) && BrokenAt(s, i + |SpellWord(word)|, broken)
    ensures i <= |s|
    ensures Args(s, i, BETWEEN) == Err(if EndsInBackslash(broken) then TrailingEscape else UnterminatedQuote)
  {
    if word == [] {
      hide Args, WordAt, At, MentionEnd, IsSpace, EndsInBackslash;
      BrokenRead(s, i, broken, BETWEEN);
    } else {
      hide Args, WordAt, SpellWord, SaysWord, At, MentionEnd, IsSpace, EndsInBackslash, BrokenAt;
      WordRead(s, i, word);
      BrokenRead(s, i + |SpellWord(word)|, broken, Inside(SaysWord(word)));
    }
  }

  lemma {:induction false} LineRead(s: string, i: nat, line: Line)
    requires LineAt(s, i, line)
    ensures i <= |s| && Args(s, i, BETWEEN) == Meaning(line)
    decreases line
  {
    hide Args, WordAt, BrokenAt, IsSpace, AllSpace, MentionEnd, At, SpellWord, SaysWord, InFront, EndsInBackslash;
    GapRead(s, i, line.gap);
    var j := i + |line.gap|;
    match line
    case End(_) => NothingLeft(s);
    case Arg(_, word, rest) =>
      ArgRead(s, j, word);
      LineRead(s, j + |SpellWord(word)|, rest);
    case Cut(_, word, broken) => CutRead(s, j, word, broken);
  }

  lemma NothingLeft(s: string)
    ensures Args(s, |s|, BETWEEN) == Ok([])
  {
  }

  // ---- Every text is written as some line ----

  /** Where a word ends: at white space, at the end, or where it breaks off. */
  predicate EndsAt(s: string, k: nat, broken: Option<Broken>) {
    match broken
    case None => k == |s| || (k < |s| && IsSpace(s[k]))
    case Some(b) => BrokenAt(s, k, b)
  }

  predicate PieceAt(s: string, i: nat, p: Piece) {
    ValidPiece(p) && !p.Mention? && At(s, i, SpellPiece(p)) && SpellPiece(p) != ""
  }

  /** Where a word goes on, a piece stands or the text breaks off. */
  lemma EveryPiece(s: string, i: nat)
    requires i < |s| && !IsSpace(s[i])
    ensures (exists p :: PieceAt(s, i, p)) || (exists broken :: BrokenAt(s, i, broken))
  {
    hide IsSpace;
    if s[i] == '\\' {
      if i + 1 == |s| {
        assert BrokenAt(s, i, LoneBackslash);
      } else {
        assert PieceAt(s, i, Escaped(s[i + 1]));
      }
    } else if IsQuote(s[i]) {
      EveryQuote(s, i);
      if p :| QuotedAt(s, i, p) {
        assert PieceAt(s, i, p);
      }
    } else {
      assert PieceAt(s, i, Bare(s[i]));
    }
  }

  lemma SpellCons(p: Piece, rest: seq<Piece>)
    ensures SpellWord([p] + rest) == SpellPiece(p) + SpellWord(rest)
  {
    assert ([p] + rest)[1..] == rest;
  }

  lemma LiteralCons(s: string, i: nat, p: Piece, rest: seq<Piece>)
    requires ValidPiece(p) && !p.Mention? && At(s, i, SpellPiece(p))
    requires Literal(rest) && At(s, i + |SpellPiece(p)|, SpellWord(rest))
    ensures Literal([p] + rest) && At(s, i, SpellWord([p] + rest))
    ensures |SpellWord([p] + rest)| == |SpellPiece(p)| + |SpellWord(rest)|
  {
    hide At, ValidPiece, SpellPiece, SpellWord;
    SpellCons(p, rest);
    AtConcat(s, i, SpellPiece(p), SpellWord(rest));
  }

  lemma NoPieces(s: string, i: nat)
    requires i <= |s|
    ensures Literal([]) && SpellWord([]) == "" && At(s, i, SpellWord([]))
  {
  }

  predicate PiecesAt(s: string, i: nat, word: seq<Piece>, broken: Option<Broken>) {
    Literal(word) && At(s, i, SpellWord(word)) && EndsAt(s, i + |SpellWord(word)|, broken)
  }

  lemma {:induction false} EveryPieces(s: string, i: nat)
    requires i <= |s|
    ensures exists word, broken :: PiecesAt(s, i, word, broken)
    decreases |s| - i
  {
    hide At, ValidPiece, SpellPiece, SpellWord, Literal, BrokenAt, IsSpace;
    NoPieces(s, i);
    if i == |s| || IsSpace(s[i]) {
      assert PiecesAt(s, i, [], None);
      return;
    }
    EveryPiece(s, i);
    if broken :| BrokenAt(s, i, broken) {
      assert PiecesAt(s, i, [], Some(broken));
      return;
    }
    var p :| PieceAt(s, i, p);
    AtBound(s, i, SpellPiece(p));
    EveryPieces(s, i + |SpellPiece(p)|);
    var rest, broken :| PiecesAt(s, i + |SpellPiece(p)|, rest, broken);
    LiteralCons(s, i, p, rest);
    assert PiecesAt(s, i, [p] + rest, broken);
  }

  lemma LiteralWord(s: string, i: nat, word: seq<Piece>)
    requires i < |s| && Literal(word) && At(s, i, SpellWord(word)) && MentionEnd(s, i) == i
    ensures WordAt(s, i, word)
  {
  }

  lemma MentionFirst(s: string, i: nat, e: nat, rest: seq<Piece>)
    requires i < e <= |s| && MentionEnd(s, i) == e && Literal(rest) && At(s, e, SpellWord(rest))
    ensures WordAt(s, i, [Mention(s[i..e])] + rest)
    ensures i + |SpellWord([Mention(s[i..e])] + rest)| == e + |SpellWord(rest)|
  {
    hide IsSpace, MentionEnd, At, SpellWord, ValidPiece;
    SliceAt(s, i, e);
    var text := s[i..e];
    assert |text| == e - i && ValidPiece(Mention(text)) by { MentionValid(text); }
    SpellCons(Mention(text), rest);
    AtConcat(s, i, text, SpellWord(rest));
  }

  lemma SliceAt(s: string, i: nat, e: nat)
    requires i <= e <= |s|
    ensures At(s, i, s[i..e])
  {
  }

  lemma MentionValid(text: string)
    ensures ValidPiece(Mention(text))
  {
  }

  predicate WordTo(s: string, i: nat, word: seq<Piece>, broken: Option<Broken>) {
    WordAt(s, i, word) && EndsAt(s, i + |SpellWord(word)|, broken) && (broken.None? ==> word != [])
  }

  lemma EveryWord(s: string, i: nat)
    requires i < |s| && !IsSpace(s[i])
    ensures exists word, broken :: WordTo(s, i, word, broken)
  {
    hide IsSpace, MentionEnd, WordAt, At, SpellWord, Literal, BrokenAt;
    var e := MentionEnd(s, i);
    EveryPieces(s, e);
    var rest, broken :| PiecesAt(s, e, rest, broken);
    if e == i {
      LiteralWord(s, i, rest);
      NoPieces(s, i);
      assert WordTo(s, i, rest, broken);
    } else {
      MentionFirst(s, i, e, rest);
      assert WordTo(s, i, [Mention(s[i..e])] + rest, broken);
    }
  }

  lemma GapAt(s: string, i: nat)
    requires i <= |s|
    ensures var j := SkipSpace(s, i); AllSpace(s[i..j]) && At(s, i, s[i..j])
  {
    forall k | 0 <= k < SkipSpace(s, i) - i
      ensures IsSpace(s[i..SkipSpace(s, i)][k])
    {
    }
  }

  lemma WordIsLong(s: string, i: nat, word: seq<Piece>)
    requires word != [] && WordAt(s, i, word)
    ensures |SpellWord(word)| > 0 && i + |SpellWord(word)| <= |s|
  {
    assert ValidPiece(word[0]);
    AtBound(s, i, SpellWord(word));
  }

  lemma {:induction false} EveryTextIsALine(s: string, i: nat)
    requires i <= |s|
    ensures exists line :: LineAt(s, i, line)
    decreases |s| - i
  {
    hide IsSpace, AllSpace, At, MentionEnd, WordAt, SpellWord, BrokenAt;
    GapAt(s, i);
    var j := SkipSpace(s, i);
    if j == |s| {
      assert LineAt(s, i, End(s[i..j]));
    } else {
      EveryWord(s, j);
      var word, broken :| WordTo(s, j, word, broken);
      if broken.Some? {
        assert LineAt(s, i, Cut(s[i..j], word, broken.value));
      } else {
        WordIsLong(s, j, word);
        EveryTextIsALine(s, j + |SpellWord(word)|);
        var rest :| LineAt(s, j + |SpellWord(word)|, rest);
        assert LineAt(s, i, Arg(s[i..j], word, rest));
      }
    }
  }

  // ---- When each of the two errors is given ----

  /** The line breaks off, and this is where. */
  function BreaksOff(line: Line): Option<Broken> {
    match line
    case End(_) => None
    case Arg(_, _, rest) => BreaksOff(rest)
    case Cut(_, _, broken) => Some(broken)
  }

  lemma {:induction false} MeaningErrs(line: Line)
    ensures Meaning(line)
      == match BreaksOff(line)
         case None => Ok(Arguments(line))
         case Some(b) => Err(if EndsInBackslash(b) then TrailingEscape else UnterminatedQuote)
  {
    if line.Arg? { MeaningErrs(line.rest); }
  }

  function Arguments(line: Line): seq<string> {
    match line
    case Arg(_, word, rest) => [SaysWord(word)] + Arguments(rest)
    case _ => []
  }

  /** Every text is a line, and the scanner gives its arguments; or the one error if it ends in a backslash that escapes
      nothing, and the other if it ends between quotes. */
  lemma ScanMeans(s: string)
    ensures exists line :: LineAt(s, 0, line)
    ensures forall line :: LineAt(s, 0, line) ==>
      Args(s, 0, BETWEEN)
      == match BreaksOff(line)
         case None => Ok(Arguments(line))
         case Some(b) => Err(if EndsInBackslash(b) then TrailingEscape else UnterminatedQuote)
  {
    hide LineAt, Args, EndsInBackslash;
    EveryTextIsALine(s, 0);
    forall line | LineAt(s, 0, line)
      ensures Args(s, 0, BETWEEN)
        == match BreaksOff(line)
           case None => Ok(Arguments(line))
           case Some(b) => Err(if EndsInBackslash(b) then TrailingEscape else UnterminatedQuote)
    {
      LineRead(s, 0, line);
      MeaningErrs(line);
    }
  }

  // ---- Printing arguments ----

  datatype Style = Plain | SingleQuotes | DoubleQuotes | Backslashes

  /** Each of these characters behind a backslash. */
  function Backslashed(arg: string, which: char -> bool): string {
    if arg == "" then "" else (if which(arg[0]) then ['\\', arg[0]] else [arg[0]]) + Backslashed(arg[1..], which)
  }

  function PrintArg(arg: string, style: Style): string {
    match style
    case Plain => arg
    case SingleQuotes => "'" + (Backslashed(arg, c => c == '\'' || c == '\\') + "'")
    case DoubleQuotes => "\"" + (Backslashed(arg, c => c == '"' || c == '\\') + "\"")
    case Backslashes => Backslashed(arg, c => true)
  }

  /** A plain word has no white space, quotes and backslashes and opens no mention; only quotes can print nothing. */
  predicate Printable(arg: string, style: Style) {
    && (style.Plain? || style.Backslashes? ==> arg != "")
    && (style.Plain? ==> (forall k :: 0 <= k < |arg| ==> ValidPiece(Bare(arg[k]))) && !OpensMention(arg))
  }

  predicate OpensMention(arg: string) {
    At(arg, 0, "@*") || At(arg, 0, "@_*") || At(arg, 0, "#**") || At(arg, 0, "#_**")
  }

  function PrintArgs(args: seq<string>, styles: seq<Style>, gaps: seq<string>): string
    requires |args| == |styles| == |gaps|
  {
    if args == [] then ""
    else gaps[0] + (PrintArg(args[0], styles[0]) + PrintArgs(args[1..], styles[1..], gaps[1..]))
  }

  /** How an argument is printed, as pieces. */
  function WordOf(arg: string, style: Style): seq<Piece> {
    match style
    case Plain => seq(|arg|, k requires 0 <= k < |arg| => Bare(arg[k]))
    case SingleQuotes => [Quoted('\'', BodyOf(arg, '\''))]
    case DoubleQuotes => [Quoted('"', BodyOf(arg, '"'))]
    case Backslashes => seq(|arg|, k requires 0 <= k < |arg| => Escaped(arg[k]))
  }

  function BodyOf(arg: string, quote: char): seq<Quotee> {
    seq(|arg|, k requires 0 <= k < |arg| => Quotee(arg[k], arg[k] == quote || arg[k] == '\\'))
  }

  lemma {:induction false} BodyPrinted(arg: string, quote: char)
    ensures SpellBody(BodyOf(arg, quote)) == Backslashed(arg, c => c == quote || c == '\\')
    ensures SaysBody(BodyOf(arg, quote)) == arg && ValidBody(BodyOf(arg, quote), quote)
  {
    if arg != "" {
      BodyPrinted(arg[1..], quote);
      assert BodyOf(arg, quote)[1..] == BodyOf(arg[1..], quote);
    }
  }

  lemma {:induction false} PlainPrinted(arg: string)
    ensures SpellWord(WordOf(arg, Plain)) == arg && SaysWord(WordOf(arg, Plain)) == arg
  {
    if arg != "" {
      PlainPrinted(arg[1..]);
      assert WordOf(arg, Plain)[1..] == WordOf(arg[1..], Plain);
      assert arg == [arg[0]] + arg[1..];
    }
  }

  lemma {:induction false} EscapedPrinted(arg: string)
    ensures SpellWord(WordOf(arg, Backslashes)) == PrintArg(arg, Backslashes)
    ensures SaysWord(WordOf(arg, Backslashes)) == arg
  {
    if arg != "" {
      EscapedPrinted(arg[1..]);
      assert WordOf(arg, Backslashes)[1..] == WordOf(arg[1..], Backslashes);
      assert arg == [arg[0]] + arg[1..];
    }
  }

  lemma WordPrinted(arg: string, style: Style)
    ensures SpellWord(WordOf(arg, style)) == PrintArg(arg, style) && SaysWord(WordOf(arg, style)) == arg
  {
    match style
    case Plain => PlainPrinted(arg);
    case Backslashes => EscapedPrinted(arg);
    case SingleQuotes => BodyPrinted(arg, '\''); OnePiece(Quoted('\'', BodyOf(arg, '\'')));
    case DoubleQuotes => BodyPrinted(arg, '"'); OnePiece(Quoted('"', BodyOf(arg, '"')));
  }

  lemma OnePiece(p: Piece)
    ensures SpellWord([p]) == SpellPiece(p) && SaysWord([p]) == SaysPiece(p)
  {
    assert [p][1..] == [];
    assert SpellPiece(p) + "" == SpellPiece(p) && SaysPiece(p) + "" == SaysPiece(p);
  }

  lemma NoMentionOpens(s: string, i: nat, arg: string)
    requires At(s, i, arg) && arg != "" && !OpensMention(arg)
    requires i + |arg| < |s| ==> IsSpace(s[i + |arg|])
    ensures MentionEnd(s, i) == i
  {
    assert s[i] == arg[0];
    if i + 1 < |s| && |arg| > 1 { assert s[i + 1] == arg[1]; }
    if i + 2 < |s| && |arg| > 2 { assert s[i + 2] == arg[2]; }
    if i + 3 < |s| && |arg| > 3 { assert s[i + 3] == arg[3]; }
  }

  lemma PrintedWordAt(s: string, i: nat, arg: string, style: Style)
    requires Printable(arg, style) && At(s, i, PrintArg(arg, style))
    requires i + |PrintArg(arg, style)| < |s| ==> IsSpace(s[i + |PrintArg(arg, style)|])
    ensures WordAt(s, i, WordOf(arg, style)) && WordOf(arg, style) != []
  {
    hide IsSpace, MentionEnd, At, OpensMention;
    WordPrinted(arg, style);
    match style
    case Plain => NoMentionOpens(s, i, arg); AtBound(s, i, arg);
    case SingleQuotes => BodyPrinted(arg, '\'');
    case DoubleQuotes => BodyPrinted(arg, '"');
    case Backslashes =>
  }

  /** The gaps are white space, and every argument but the first has one in front of it. */
  predicate Separated(gaps: seq<string>) {
    forall k :: 0 <= k < |gaps| ==> AllSpace(gaps[k]) && (k > 0 ==> gaps[k] != "")
  }

  predicate AllPrintable(args: seq<string>, styles: seq<Style>)
    requires |args| == |styles|
  {
    forall k :: 0 <= k < |args| ==> Printable(args[k], styles[k])
  }

  lemma RestStartsWithSpace(args: seq<string>, styles: seq<Style>, gaps: seq<string>)
    requires 0 < |args| == |styles| == |gaps| && Separated(gaps)
    ensures var rest := PrintArgs(args[1..], styles[1..], gaps[1..]);
      rest == "" || IsSpace(rest[0])
  {
    if |args| > 1 {
      assert gaps[1..][0] == gaps[1];
      assert IsSpace(gaps[1][0]);
    }
  }

  lemma OnePrinted(s: string, i: nat, gap: string, arg: string, style: Style, rest: string)
    requires AllSpace(gap) && Printable(arg, style) && At(s, i, gap + (PrintArg(arg, style) + rest))
    requires i + |gap| + |PrintArg(arg, style)| + |rest| == |s| && (rest == "" || IsSpace(rest[0]))
    ensures var k := i + |gap| + |PrintArg(arg, style)|;
      && At(s, k, rest)
      && Args(s, i, BETWEEN) == InFront(arg, Args(s, k, BETWEEN))
  {
    hide Args, PrintArg, Printable, AllSpace, IsSpace, WordAt, InFront, WordOf, SpellWord, SaysWord;
    var text := PrintArg(arg, style);
    AtConcat(s, i, gap, text + rest);
    AtConcat(s, i + |gap|, text, rest);
    if rest != "" { assert s[i + |gap| + |text|] == rest[0]; }
    hide At;
    GapRead(s, i, gap);
    WordPrinted(arg, style);
    PrintedWordAt(s, i + |gap|, arg, style);
    ArgRead(s, i + |gap|, WordOf(arg, style));
  }

  /** Arguments printed in any of the four styles, with white space between them, are read back. */
  lemma {:induction false} PrintedRead(s: string, i: nat, args: seq<string>, styles: seq<Style>, gaps: seq<string>)
    requires |args| == |styles| == |gaps| && AllPrintable(args, styles) && Separated(gaps)
    requires At(s, i, PrintArgs(args, styles, gaps)) && i + |PrintArgs(args, styles, gaps)| == |s|
    ensures Args(s, i, BETWEEN) == Ok(args)
    decreases |args|
  {
    hide *;
    if args == [] {
      NothingPrinted(s, i, styles, gaps);
    } else {
      FirstAndRest(args, styles, gaps);
      RestStartsWithSpace(args, styles, gaps);
      var tail, tailStyles, tailGaps := args[1..], styles[1..], gaps[1..];
      var k := i + |gaps[0]| + |PrintArg(args[0], styles[0])|;
      OnePrinted(s, i, gaps[0], args[0], styles[0], PrintArgs(tail, tailStyles, tailGaps));
      PrintedRead(s, k, tail, tailStyles, tailGaps);
      ArgsBack(args);
    }
  }

  lemma NothingPrinted(s: string, i: nat, styles: seq<Style>, gaps: seq<string>)
    requires |styles| == |gaps| == 0 && i + |PrintArgs([], styles, gaps)| == |s|
    ensures Args(s, i, BETWEEN) == Ok([])
  {
    NothingLeft(s);
  }

  lemma FirstAndRest(args: seq<string>, styles: seq<Style>, gaps: seq<string>)
    requires 0 < |args| == |styles| == |gaps| && AllPrintable(args, styles) && Separated(gaps)
    ensures Printable(args[0], styles[0]) && AllSpace(gaps[0])
    ensures AllPrintable(args[1..], styles[1..]) && Separated(gaps[1..])
    ensures PrintArgs(args, styles, gaps)
         == gaps[0] + (PrintArg(args[0], styles[0]) + PrintArgs(args[1..], styles[1..], gaps[1..]))
    ensures |PrintArgs(args, styles, gaps)|
         == |gaps[0]| + |PrintArg(args[0], styles[0])| + |PrintArgs(args[1..], styles[1..], gaps[1..])|
  {
    hide Printable, AllSpace, PrintArg;
  }

  lemma ArgsBack(args: seq<string>)
    requires args != []
    ensures InFront(args[0], Ok(args[1..])) == Ok(args)
  {
    assert [args[0]] + args[1..] == args;
  }

  lemma PrintedArgsRoundTrip(args: seq<string>, styles: seq<Style>, gaps: seq<string>)
    requires |args| == |styles| == |gaps| && AllPrintable(args, styles) && Separated(gaps)
    ensures Args(PrintArgs(args, styles, gaps), 0, BETWEEN) == Ok(args)
  {
    hide Args, AllPrintable, Separated, PrintArgs;
    AtWhole(PrintArgs(args, styles, gaps));
    PrintedRead(PrintArgs(args, styles, gaps), 0, args, styles, gaps);
  }
}
