/** One token: the lexer reads a token at an offset exactly when the token's text stands
    there and is as long as it can be. */
module SqlTokenSpellings {
  import opened SemanticTables
  import opened SqlTokens
  import opened SqlLexers
  import opened SqlVocabulary

  // ----- keywords -----

  /** A word in lower case is written in any case. */
  lemma CaseFolds(text: string, word: string)
    requires NoCapitals(word)
    ensures AnyCase(text, word) <==> Folded(PostgreSql, text) == word
  {
    var folded := Folded(PostgreSql, text);
    if AnyCase(text, word) {
      forall k | 0 <= k < |text|
        ensures folded[k] == word[k]
      {
        assert SameLetter(text[k], word[k]);
      }
    }
    if folded == word {
      forall k | 0 <= k < |text|
        ensures SameLetter(text[k], word[k])
      {
        assert folded[k] == word[k];
      }
    }
  }

  lemma KeywordsAreSmall(kind: TokenKind)
    ensures forall k :: 0 <= k < |Keyword(kind)| ==> 'a' <= Keyword(kind)[k] <= 'z'
  {
  }

  /** Keywords have different words. */
  lemma KeywordsDiffer(a: TokenKind, b: TokenKind)
    requires Keyword(a) == Keyword(b) != ""
    ensures a == b
  {
    hide Keyword;
    var length := |Keyword(a)|;
    if length <= 2 {
      ShortDiffer(a, b);
    } else if length <= 5 {
      MiddleDiffer(a, b);
    } else {
      LongDiffer(a, b);
    }
  }

  lemma ShortDiffer(a: TokenKind, b: TokenKind)
    requires Keyword(a) == Keyword(b) && 0 < |Keyword(a)| <= 2
    ensures a == b
  {
  }

  lemma MiddleDiffer(a: TokenKind, b: TokenKind)
    requires Keyword(a) == Keyword(b) && 2 < |Keyword(a)| <= 5
    ensures a == b
  {
  }

  lemma LongDiffer(a: TokenKind, b: TokenKind)
    requires Keyword(a) == Keyword(b) && 5 < |Keyword(a)|
    ensures a == b
  {
  }

  /** The table of keywords holds each with its word. */
  lemma TableHolds(k: nat)
    requires k < |Keywords()|
    ensures Keywords()[k].0 == Keyword(Keywords()[k].1) != ""
  {
    hide Keywords, Keyword;
    if k < 12 {
      FirstHolds(k);
    } else {
      LastHolds(k);
    }
  }

  lemma FirstHolds(k: nat)
    requires k < 12
    ensures k < |Keywords()| && Keywords()[k].0 == Keyword(Keywords()[k].1) != ""
  {
  }

  lemma LastHolds(k: nat)
    requires 12 <= k < |Keywords()|
    ensures Keywords()[k].0 == Keyword(Keywords()[k].1) != ""
  {
  }

  lemma TableHasAll(kind: TokenKind)
    requires Keyword(kind) != ""
    ensures (Keyword(kind), kind) in Keywords()
  {
  }

  lemma {:induction false} KeywordFound(table: seq<(string, TokenKind)>, word: string) returns (k: nat)
    ensures if k < |table| then table[k] == (word, KeywordFrom(table, word))
            else KeywordFrom(table, word) == IdentifierToken && forall j :: 0 <= j < |table| ==> table[j].0 != word
  {
    if table == [] || table[0].0 == word {
      k := 0;
    } else {
      k := KeywordFound(table[1..], word);
      k := k + 1;
      assert forall j :: 1 <= j < |table| ==> table[j] == table[1..][j - 1];
    }
  }

  /** A word is the keyword it spells, and a name if it spells none. */
  lemma KeywordIs(text: string, kind: TokenKind)
    ensures Keyword(kind) != "" ==> (KeywordKind(text) == kind <==> AnyCase(text, Keyword(kind)))
    ensures KeywordKind(text) == IdentifierToken || Keyword(KeywordKind(text)) != ""
  {
    hide Keywords, Keyword, KeywordFrom, Folded;
    var word := Folded(PostgreSql, text);
    var k := KeywordFound(Keywords(), word);
    if k < |Keywords()| {
      TableHolds(k);
    }
    NoWord();
    if Keyword(kind) != "" {
      KeywordsAreSmall(kind);
      CaseFolds(text, Keyword(kind));
      TableHasAll(kind);
      if word == Keyword(kind) {
        KeywordsDiffer(kind, KeywordKind(text));
      }
    }
  }

  lemma NameIs(text: string)
    ensures KeywordKind(text) == IdentifierToken <==> !Reserved(text)
  {
    hide Keyword, KeywordKind, AnyCase;
    assert Keyword(IdentifierToken) == "" by { NoWord(); }
    KeywordIs(text, KeywordKind(text));
    forall kind | Keyword(kind) != "" && AnyCase(text, Keyword(kind))
      ensures KeywordKind(text) == kind != IdentifierToken
    {
      KeywordIs(text, kind);
    }
  }

  lemma NoWord()
    ensures Keyword(IdentifierToken) == ""
  {
  }

  // ----- what stands at an offset -----

  /** A token with its text, as long as it can be. */
  ghost predicate Stands(lex: Lexicon, source: string, start: nat, end: nat, kind: TokenKind, integer: int,
                         afterMinus: bool) {
    && start < end <= |source| && Says(lex, kind, integer, source[start..end], afterMinus)
    && (end < |source| ==> !GoesOn(lex, source[start..end], source[end]))
  }

  // ----- numbers -----

  lemma NumeralIs(c: char)
    ensures c in NUMERALS <==> IsNumeral(c)
    ensures IsNumeral(c) ==> NUMERALS[Digit(c)] == c
  {
    if IsNumeral(c) {
      var d := Digit(c);
      if d < 5 {
        assert NUMERALS[d] == c;
      } else {
        assert NUMERALS[d] == c;
      }
    }
  }

  lemma DigitIs(n: nat)
    requires n < 10
    ensures IsNumeral(NUMERALS[n]) && Digit(NUMERALS[n]) == n
  {
  }

  /** Digits denote their decimal value. */
  lemma {:induction false} DenotesDecimal(text: string, n: nat)
    ensures Denotes(text, n) <==> Numerals(text) && Decimal(text) == n
  {
    if text != "" {
      var init, last := text[..|text| - 1], text[|text| - 1];
      assert text == init + [last];
      NumeralIs(last);
      DigitIs(n % 10);
      if |text| > 1 {
        DenotesDecimal(init, n / 10);
        NumeralsSnoc(init, last);
      } else {
        DecimalOne(text);
        if n < 10 {
          DigitIs(n);
        }
      }
    }
  }

  ghost predicate Numerals(text: string) {
    text != "" && forall k :: 0 <= k < |text| ==> IsNumeral(text[k])
  }

  lemma NumeralsSnoc(init: string, last: char)
    requires init != ""
    ensures Numerals(init + [last]) <==> Numerals(init) && IsNumeral(last)
    ensures Numerals(init + [last]) ==> Decimal(init + [last]) == Decimal(init) * 10 + Digit(last)
  {
    var text := init + [last];
    assert text[|init|] == last && forall k :: 0 <= k < |init| ==> text[k] == init[k];
    if Numerals(text) {
      DecimalSnoc(init, last);
    }
  }

  lemma DecimalOne(text: string)
    requires |text| == 1
    ensures IsNumeral(text[0]) ==> Decimal(text) == Digit(text[0])
  {
  }

  lemma NumberIs(text: string, integer: int, afterMinus: bool)
    ensures NumberText(text, integer, afterMinus) <==>
            Numerals(text) && Decimal(text) <= Maximum(afterMinus) && integer == Wrap(Decimal(text))
  {
    hide Denotes, Decimal;
    if integer >= 0 {
      DenotesDecimal(text, integer);
    }
    DenotesDecimal(text, TWO_63);
  }

  lemma NumberStands(source: string, start: nat, end: nat, integer: int, afterMinus: bool)
    requires start < |source| && IsNumeral(source[start])
    ensures NumberStep(source, start, afterMinus) == Tok(IntegerToken, end, integer) <==>
            && start < end <= |source| && NumberText(source[start..end], integer, afterMinus)
            && (end < |source| ==> source[end] !in NUMERALS)
  {
    hide RunEnd, Decimal, NumberText, Maximum, Wrap;
    var last := RunEnd(source, start, IsNumeral);
    RunHas(source, start, IsNumeral);
    RunStops(source, start, IsNumeral);
    if start < end <= |source| {
      NumberIs(source[start..end], integer, afterMinus);
      if end < |source| {
        NumeralIs(source[end]);
      }
      if Numerals(source[start..end]) && (end < |source| ==> !IsNumeral(source[end])) {
        forall k | start <= k < end
          ensures IsNumeral(source[k])
        {
          assert source[k] == source[start..end][k - start];
        }
        RunIs(source, start, end, IsNumeral);
      }
    }
    NumberAdvances(source, start);
  }

  // ----- quotes -----

  lemma {:induction false} QuoteStops(source: string, offset: nat, quote: char)
    ensures var end := QuoteFrom(source, offset, quote); 0 < end < |source| ==> source[end] != quote
    decreases |source| - offset
  {
    if offset < |source| && source[offset] != quote {
      QuoteStops(source, offset + 1, quote);
    } else if offset + 1 < |source| && source[offset + 1] == quote {
      QuoteStops(source, offset + 2, quote);
    }
  }

  lemma QuoteReads(source: string, start: nat, quote: char) returns (text: string)
    requires start < |source| && source[start] == quote && QuoteFrom(source, start + 1, quote) != 0
    ensures var end := QuoteFrom(source, start + 1, quote);
            && start + 1 < end <= |source| && source[start..end] == Quoted(quote, text)
            && (end < |source| ==> source[end] != quote)
  {
    hide Doubled, QuoteFrom;
    var end := QuoteFrom(source, start + 1, quote);
    text := QuoteSpells(source, start + 1, quote);
    QuoteStops(source, start + 1, quote);
    assert source[start..end] == [quote] + source[start + 1..end];
  }

  lemma QuoteIsRead(source: string, start: nat, end: nat, quote: char, text: string)
    requires start < end <= |source| && source[start..end] == Quoted(quote, text)
    requires end < |source| ==> source[end] != quote
    ensures source[start] == quote && QuoteFrom(source, start + 1, quote) == end
  {
    hide Doubled, QuoteFrom;
    var whole := Quoted(quote, text);
    assert source[start] == source[start..end][0];
    assert source[start + 1..][..|whole| - 1] == source[start..end][1..];
    assert whole[1..] == Doubled(quote, text) + [quote];
    QuoteEnds(source, start + 1, quote, text);
  }

  /** Quoted text is scanned to its end. */
  lemma QuoteStands(source: string, start: nat, end: nat, quote: char)
    requires start < |source| && source[start] == quote
    ensures QuoteFrom(source, start + 1, quote) == end != 0 <==>
            && start < end <= |source| && (exists text :: source[start..end] == Quoted(quote, text))
            && (end < |source| ==> source[end] != quote)
    ensures QuoteFrom(source, start + 1, quote) == end != 0 ==> start + 1 < end
  {
    hide QuoteFrom, Quoted;
    if QuoteFrom(source, start + 1, quote) == end != 0 {
      var text := QuoteReads(source, start, quote);
    }
    if start < end <= |source| && (end < |source| ==> source[end] != quote) {
      if text :| source[start..end] == Quoted(quote, text) {
        QuoteIsRead(source, start, end, quote, text);
      }
    }
  }

  // ----- words -----

  lemma BeginsIs(lex: Lexicon, c: char)
    ensures Begins(lex, c) <==> NameStart(lex, c)
    ensures Continues(lex, c) <==> NameContinue(lex, c)
  {
  }

  lemma WordStands(lex: Lexicon, source: string, start: nat, end: nat)
    requires start < |source|
    ensures NameStart(lex, source[start]) && RunEnd(source, start + 1, c => NameContinue(lex, c)) == end <==>
            && start < end <= |source| && Unquoted(lex, source[start..end])
            && (end < |source| ==> !Continues(lex, source[end]))
  {
    hide RunEnd, NameStart, NameContinue, Begins, Continues;
    forall c: char
      ensures Begins(lex, c) <==> NameStart(lex, c)
      ensures Continues(lex, c) <==> NameContinue(lex, c)
    {
      BeginsIs(lex, c);
    }
    var member := c => NameContinue(lex, c);
    if start < end <= |source| {
      var text := source[start..end];
      assert text[0] == source[start];
      if RunEnd(source, start + 1, member) == end {
        RunHas(source, start + 1, member);
        RunStops(source, start + 1, member);
      }
      if Unquoted(lex, text) && (end < |source| ==> !Continues(lex, source[end])) {
        forall k | start + 1 <= k < end
          ensures member(source[k])
        {
          assert source[k] == text[k - start];
        }
        RunIs(source, start + 1, end, member);
      }
    }
  }

  /** Keywords are written like names. */
  lemma KeywordIsUnquoted(lex: Lexicon, kind: TokenKind, text: string)
    requires Keyword(kind) != "" && AnyCase(text, Keyword(kind))
    ensures Unquoted(lex, text)
  {
    hide Keyword;
    KeywordsAreSmall(kind);
    assert forall k :: 0 <= k < |text| ==> SameLetter(text[k], Keyword(kind)[k]);
  }

  // ----- parameters -----

  lemma MarkerStands(lex: Lexicon, source: string, start: nat, end: nat)
    requires start < |source| && source[start] in "$:?"
    ensures MarkerStep(lex, source, start) == Tok(ParameterToken, end, 0) <==>
            && start < end <= |source| && MarkerText(lex.dialect, source[start..end])
            && (end < |source| ==> !GoesOn(lex, source[start..end], source[end]))
  {
    hide RunEnd;
    if source[start] == '?' {
      QuestionStands(lex, source, start, end);
    } else if source[start] == '$' {
      DollarStands(lex, source, start, end);
    } else {
      ColonStands(lex, source, start, end);
    }
  }

  lemma QuestionStands(lex: Lexicon, source: string, start: nat, end: nat)
    requires start < |source| && source[start] == '?'
    ensures MarkerStep(lex, source, start) == Tok(ParameterToken, end, 0) <==>
            && start < end <= |source| && MarkerText(lex.dialect, source[start..end])
            && (end < |source| ==> !GoesOn(lex, source[start..end], source[end]))
  {
    hide RunEnd;
    if start < end <= |source| {
      assert source[start..end][0] == '?';
    }
  }

  lemma DollarStands(lex: Lexicon, source: string, start: nat, end: nat)
    requires start < |source| && source[start] == '$'
    ensures MarkerStep(lex, source, start) == Tok(ParameterToken, end, 0) <==>
            && start < end <= |source| && MarkerText(lex.dialect, source[start..end])
            && (end < |source| ==> !GoesOn(lex, source[start..end], source[end]))
  {
    hide RunEnd;
    forall c: char
      ensures c in NUMERALS <==> IsNumeral(c)
    {
      NumeralIs(c);
    }
    RunStands(source, start, end, IsNumeral);
    if start < end <= |source| {
      var text := source[start..end];
      assert text[0] == '$' && forall k :: 0 <= k < |text| ==> text[k] == source[start + k];
    }
  }

  lemma ColonStands(lex: Lexicon, source: string, start: nat, end: nat)
    requires start < |source| && source[start] == ':'
    ensures MarkerStep(lex, source, start) == Tok(ParameterToken, end, 0) <==>
            && start < end <= |source| && MarkerText(lex.dialect, source[start..end])
            && (end < |source| ==> !GoesOn(lex, source[start..end], source[end]))
  {
    hide RunEnd;
    forall c: char
      ensures c in NUMERALS <==> IsNumeral(c)
    {
      NumeralIs(c);
    }
    RunStands(source, start, end, AsciiContinue);
    if start < end <= |source| {
      var text := source[start..end];
      assert text[0] == ':' && forall k :: 0 <= k < |text| ==> text[k] == source[start + k];
    }
  }

  lemma RunStands(source: string, start: nat, end: nat, member: char -> bool)
    requires start < |source|
    ensures RunEnd(source, start + 1, member) == end <==>
            && start < end <= |source| && (forall k :: start + 1 <= k < end ==> member(source[k]))
            && (end < |source| ==> !member(source[end]))
  {
    hide RunEnd;
    RunHas(source, start + 1, member);
    RunStops(source, start + 1, member);
    if start < end <= |source| && (forall k :: start + 1 <= k < end ==> member(source[k])) {
      if end < |source| ==> !member(source[end]) {
        RunIs(source, start + 1, end, member);
      }
    }
  }

  // ----- signs -----

  /** A sign that takes the next character in. */
  predicate Doubles(c: char, next: char) {
    (c == '<' && next in "=>") || (c == '>' && next == '=')
  }

  lemma OneSign(offset: nat, c: char, next: char, kind: TokenKind)
    requires IsSymbol(c)
    ensures SymbolStep(offset, c, next) == Tok(kind, offset + 1, 0) <==> [c] in Signs(kind) && !Doubles(c, next)
  {
  }

  /** The comparisons that take two characters. */
  predicate TwoFor(kind: TokenKind, c: char, next: char) {
    || (kind == CompareToken(NotEqual) && ((c == '<' && next == '>') || (c == '!' && next == '=')))
    || (kind == CompareToken(LessEqual) && c == '<' && next == '=')
    || (kind == CompareToken(GreaterEqual) && c == '>' && next == '=')
  }

  lemma TwoInSigns(c: char, next: char, kind: TokenKind)
    ensures [c, next] in Signs(kind) <==> TwoFor(kind, c, next)
  {
  }

  lemma TwoInSteps(offset: nat, c: char, next: char, kind: TokenKind)
    ensures SymbolStep(offset, c, next) == Tok(kind, offset + 2, 0) <==> TwoFor(kind, c, next)
  {
  }

  lemma TwoSigns(offset: nat, c: char, next: char, kind: TokenKind)
    ensures SymbolStep(offset, c, next) == Tok(kind, offset + 2, 0) <==> [c, next] in Signs(kind)
  {
    hide SymbolStep, Signs, TwoFor;
    TwoInSigns(c, next, kind);
    TwoInSteps(offset, c, next, kind);
  }

  lemma SymbolEnds(offset: nat, c: char, next: char)
    ensures var step := SymbolStep(offset, c, next);
            step.Tok? ==> (step.end == offset + 1 || step.end == offset + 2) && step.integer == 0
    ensures SymbolStep(offset, c, 0 as char).Tok? ==> SymbolStep(offset, c, 0 as char).end == offset + 1
  {
  }

  lemma SignsAreShort(kind: TokenKind, text: string)
    requires text in Signs(kind)
    ensures 1 <= |text| <= 2 && IsSymbol(text[0])
  {
  }

  lemma SignGoesOn(lex: Lexicon, text: string, next: char)
    requires 1 <= |text| <= 2 && IsSymbol(text[0]) && (text[0] == '-' && |text| == 1 ==> next != '-')
    ensures GoesOn(lex, text, next) <==> |text| == 1 && Doubles(text[0], next)
  {
  }

  lemma SignStands(lex: Lexicon, source: string, start: nat, end: nat, kind: TokenKind, integer: int)
    requires start < |source| && IsSymbol(source[start]) && !(source[start] == '-' && CharAt(source, start + 1) == '-')
    ensures SymbolStep(start, source[start], CharAt(source, start + 1)) == Tok(kind, end, integer) <==>
            && start < end <= |source| && integer == 0 && source[start..end] in Signs(kind)
            && (end < |source| ==> !GoesOn(lex, source[start..end], source[end]))
  {
    hide SymbolStep, Signs, GoesOn, IsSymbol;
    var c, next := source[start], CharAt(source, start + 1);
    OneSign(start, c, next, kind);
    TwoSigns(start, c, next, kind);
    SymbolEnds(start, c, next);
    if start < end <= |source| {
      var text := source[start..end];
      if text in Signs(kind) {
        SignsAreShort(kind, text);
      }
      if |text| <= 2 {
        assert text == if |text| == 1 then [c] else [c, next];
        if end < |source| {
          SignGoesOn(lex, text, source[end]);
        }
      }
    }
  }

  // ----- one token -----

  /** The first character tells what kind of token a text is. */
  lemma FirstTells(lex: Lexicon, kind: TokenKind, integer: int, text: string, afterMinus: bool)
    requires Says(lex, kind, integer, text, afterMinus)
    ensures text != "" && (text[0] == '\'' <==> kind == StringToken) && (IsNumeral(text[0]) <==> kind == IntegerToken)
    ensures text[0] in "$:?" <==> kind == ParameterToken
    ensures IsSymbol(text[0]) <==> Signs(kind) != []
    ensures text[0] in "\"`" ==> kind == IdentifierToken
    ensures Begins(lex, text[0]) <==> Keyword(kind) != "" || (kind == IdentifierToken && text[0] !in "\"`")
  {
    hide Denotes, Doubled, Reserved, Keyword, Signs;
    NoSigns(kind);
    if kind == IntegerToken {
      NumberIs(text, integer, afterMinus);
      assert Numerals(text);
    } else if Keyword(kind) != "" {
      WordTells(lex, kind, text);
    } else if kind != IdentifierToken && kind != StringToken && kind != ParameterToken {
      SignsAreShort(kind, text);
    }
  }

  lemma WordTells(lex: Lexicon, kind: TokenKind, text: string)
    requires Keyword(kind) != "" && AnyCase(text, Keyword(kind))
    ensures text != "" && ('a' <= text[0] <= 'z' || 'A' <= text[0] <= 'Z') && Signs(kind) == []
    ensures kind !in {StringToken, IntegerToken, ParameterToken, IdentifierToken}
  {
    WordsHaveNoSigns(kind);
    NoSigns(kind);
    hide Keyword, Signs;
    KeywordsAreSmall(kind);
    assert SameLetter(text[0], Keyword(kind)[0]);
  }

  lemma NoSigns(kind: TokenKind)
    ensures kind in {IdentifierToken, StringToken, ParameterToken, IntegerToken} ==>
              Signs(kind) == [] && Keyword(kind) == ""
  {
  }

  lemma WordsHaveNoSigns(kind: TokenKind)
    requires Keyword(kind) != ""
    ensures Signs(kind) == []
  {
  }

  /** What the lexer does at a quote. */
  lemma QuoteDispatch(lex: Lexicon, source: string, start: nat, afterMinus: bool)
    requires start < |source|
    ensures var c, step := source[start], StepAt(lex, source, start, afterMinus);
            && (c == '\'' ==> step == QuoteStep(source, start, c, StringToken))
            && (c == '"' ==> step == if lex.dialect == PostgreSql && QuoteFrom(source, start + 1, c) == start + 2
                                     then Bad else QuoteStep(source, start, c, IdentifierToken))
            && (c == '`' ==> step == if lex.dialect == Databricks
                                     then QuoteStep(source, start, c, IdentifierToken) else Bad)
  {
    hide QuoteFrom, QuoteStep, RunEnd, CommentEnd, MarkerStep, SymbolStep, NumberStep, NameStep, IsSymbol;
  }

  /** What the lexer does at any other character. */
  lemma Dispatch(lex: Lexicon, source: string, start: nat, afterMinus: bool)
    requires start < |source| && source[start] !in "'\"`" && !Pair(source, start, "--")
    ensures var c, step := source[start], StepAt(lex, source, start, afterMinus);
            && (c in "$:?" ==> step == MarkerStep(lex, source, start))
            && (IsSymbol(c) ==> step == SymbolStep(start, c, CharAt(source, start + 1)))
            && (IsNumeral(c) ==> step == NumberStep(source, start, afterMinus))
            && (Begins(lex, c) ==> step == NameStep(lex, source, start))
            && (c !in "$:?" && !IsNumeral(c) && !IsSymbol(c) && !Begins(lex, c) ==> !step.Tok?)
  {
    hide QuoteFrom, QuoteStep, RunEnd, CommentEnd, MarkerStep, SymbolStep, NumberStep, KeywordKind;
  }

  /** No token begins with two dashes. */
  lemma DashesAreNone(lex: Lexicon, source: string, start: nat, end: nat, kind: TokenKind, integer: int,
                      afterMinus: bool)
    requires start < |source| && Pair(source, start, "--")
    ensures !StepAt(lex, source, start, afterMinus).Tok?
    ensures !Stands(lex, source, start, end, kind, integer, afterMinus)
  {
    hide Says, RunEnd, CommentEnd, TokenStep;
    assert source[start..start + 2][0] == '-' && source[start..start + 2][1] == '-';
    if Stands(lex, source, start, end, kind, integer, afterMinus) {
      var text := source[start..end];
      FirstTells(lex, kind, integer, text, afterMinus);
      SaysSign(lex, kind, integer, text, afterMinus);
      OnlyDash(kind, text);
    }
  }

  lemma SaysSign(lex: Lexicon, kind: TokenKind, integer: int, text: string, afterMinus: bool)
    requires Signs(kind) != []
    ensures Says(lex, kind, integer, text, afterMinus) <==> integer == 0 && text in Signs(kind)
  {
  }

  lemma OnlyDash(kind: TokenKind, text: string)
    requires text in Signs(kind) && text[0] == '-'
    ensures text == "-"
  {
  }

  lemma QuotedStarts(quote: char, text: string)
    ensures |Quoted(quote, text)| >= 2 && Quoted(quote, text)[0] == quote
    ensures |Quoted(quote, text)| == 2 <==> text == ""
  {
  }

  lemma SaysString(lex: Lexicon, integer: int, text: string, afterMinus: bool)
    ensures Says(lex, StringToken, integer, text, afterMinus) <==>
            integer == 0 && exists value :: text == Quoted('\'', value)
  {
  }

  /** Quotes open two kinds of token. */
  lemma SaysQuoted(lex: Lexicon, integer: int, text: string, afterMinus: bool)
    requires text != "" && text[0] in "\"`"
    ensures Says(lex, IdentifierToken, integer, text, afterMinus) <==>
            && integer == 0 && (exists name :: text == Quoted(text[0], name))
            && if text[0] == '"' then lex.dialect == PostgreSql ==> |text| > 2 else lex.dialect == Databricks
  {
    hide Quoted, Reserved;
    forall quote: char, name: string
      ensures |Quoted(quote, name)| >= 2 && Quoted(quote, name)[0] == quote
      ensures |Quoted(quote, name)| == 2 <==> name == ""
    {
      QuotedStarts(quote, name);
    }
    if exists name :: text == Quoted(text[0], name) {
      var name :| text == Quoted(text[0], name);
      assert Says(lex, IdentifierToken, integer, text, afterMinus) ==> exists n :: QuotedText(lex.dialect, text, n);
      if text[0] == '"' && (lex.dialect == PostgreSql ==> |text| > 2) {
        assert QuotedText(lex.dialect, text, name);
      } else if text[0] == '`' && lex.dialect == Databricks {
        assert QuotedText(lex.dialect, text, name);
      }
    }
  }

  lemma QuoteGoesOn(lex: Lexicon, text: string, next: char)
    requires text != "" && text[0] in "'\"`"
    ensures GoesOn(lex, text, next) <==> next == text[0]
  {
  }

  lemma StringStands(lex: Lexicon, source: string, start: nat, end: nat, kind: TokenKind, integer: int,
                     afterMinus: bool)
    requires start < |source| && source[start] == '\''
    ensures StepAt(lex, source, start, afterMinus) == Tok(kind, end, integer) <==>
            Stands(lex, source, start, end, kind, integer, afterMinus)
  {
    hide QuoteFrom, Quoted, StepAt, Says, GoesOn;
    QuoteDispatch(lex, source, start, afterMinus);
    QuoteStands(source, start, end, '\'');
    if start < end <= |source| {
      var text := source[start..end];
      assert text[0] == '\'';
      SaysString(lex, integer, text, afterMinus);
      if Says(lex, kind, integer, text, afterMinus) {
        FirstTells(lex, kind, integer, text, afterMinus);
      }
      if end < |source| {
        QuoteGoesOn(lex, text, source[end]);
      }
    }
  }

  /** What the lexer reads at the quote of a name. */
  lemma QuotedReads(lex: Lexicon, source: string, start: nat, end: nat, kind: TokenKind, integer: int, afterMinus: bool)
    requires start < |source| && source[start] in "\"`"
    ensures StepAt(lex, source, start, afterMinus) == Tok(kind, end, integer) <==>
            && kind == IdentifierToken && integer == 0 && QuoteFrom(source, start + 1, source[start]) == end != 0
            && if source[start] == '"' then lex.dialect == PostgreSql ==> end != start + 2
               else lex.dialect == Databricks
  {
    hide QuoteFrom, StepAt;
    QuoteDispatch(lex, source, start, afterMinus);
  }

  lemma QuotedStands(lex: Lexicon, source: string, start: nat, end: nat, kind: TokenKind, integer: int,
                     afterMinus: bool)
    requires start < |source| && source[start] in "\"`"
    ensures StepAt(lex, source, start, afterMinus) == Tok(kind, end, integer) <==>
            Stands(lex, source, start, end, kind, integer, afterMinus)
  {
    hide QuoteFrom, Quoted, StepAt, Says, GoesOn;
    QuotedReads(lex, source, start, end, kind, integer, afterMinus);
    QuoteStands(source, start, end, source[start]);
    if start < end <= |source| {
      var text := source[start..end];
      assert text[0] == source[start];
      SaysQuoted(lex, integer, text, afterMinus);
      if Says(lex, kind, integer, text, afterMinus) {
        FirstTells(lex, kind, integer, text, afterMinus);
      }
      if end < |source| {
        QuoteGoesOn(lex, text, source[end]);
      }
    }
  }

  lemma SaysNumber(lex: Lexicon, integer: int, text: string, afterMinus: bool)
    ensures Says(lex, IntegerToken, integer, text, afterMinus) <==> NumberText(text, integer, afterMinus)
  {
  }

  lemma NumberGoesOn(lex: Lexicon, text: string, next: char)
    requires text != "" && IsNumeral(text[0])
    ensures GoesOn(lex, text, next) <==> next in NUMERALS
  {
    NumeralIs(text[0]);
  }

  lemma DigitsStand(lex: Lexicon, source: string, start: nat, end: nat, kind: TokenKind, integer: int,
                    afterMinus: bool)
    requires start < |source| && IsNumeral(source[start])
    ensures StepAt(lex, source, start, afterMinus) == Tok(kind, end, integer) <==>
            Stands(lex, source, start, end, kind, integer, afterMinus)
  {
    hide StepAt, Says, GoesOn, NumberText, Decimal, RunEnd;
    Dispatch(lex, source, start, afterMinus);
    NumberStands(source, start, end, integer, afterMinus);
    SaysNumber(lex, integer, if start < end <= |source| then source[start..end] else "", afterMinus);
    if start < end <= |source| {
      var text := source[start..end];
      assert text[0] == source[start];
      if Says(lex, kind, integer, text, afterMinus) {
        FirstTells(lex, kind, integer, text, afterMinus);
      }
      if end < |source| {
        NumberGoesOn(lex, text, source[end]);
      }
    }
  }

  lemma SaysMarker(lex: Lexicon, integer: int, text: string, afterMinus: bool)
    ensures Says(lex, ParameterToken, integer, text, afterMinus) <==> integer == 0 && MarkerText(lex.dialect, text)
  {
  }

  lemma MarkerTells(lex: Lexicon, source: string, start: nat)
    requires start < |source|
    ensures var step := MarkerStep(lex, source, start); step.Tok? ==> step.kind == ParameterToken && step.integer == 0
  {
    hide RunEnd;
  }

  lemma MarkersStand(lex: Lexicon, source: string, start: nat, end: nat, kind: TokenKind, integer: int,
                     afterMinus: bool)
    requires start < |source| && source[start] in "$:?"
    ensures StepAt(lex, source, start, afterMinus) == Tok(kind, end, integer) <==>
            Stands(lex, source, start, end, kind, integer, afterMinus)
  {
    hide StepAt, Says, GoesOn, MarkerText, MarkerStep;
    Dispatch(lex, source, start, afterMinus);
    MarkerTells(lex, source, start);
    MarkerStands(lex, source, start, end);
    if start < end <= |source| {
      var text := source[start..end];
      assert text[0] == source[start];
      SaysMarker(lex, integer, text, afterMinus);
      if Says(lex, kind, integer, text, afterMinus) {
        FirstTells(lex, kind, integer, text, afterMinus);
      }
    }
  }

  lemma SignsStand(lex: Lexicon, source: string, start: nat, end: nat, kind: TokenKind, integer: int, afterMinus: bool)
    requires start < |source| && IsSymbol(source[start]) && !Pair(source, start, "--")
    ensures StepAt(lex, source, start, afterMinus) == Tok(kind, end, integer) <==>
            Stands(lex, source, start, end, kind, integer, afterMinus)
  {
    assert source[start] == '-' ==> CharAt(source, start + 1) != '-' by {
      if start + 2 <= |source| {
        assert source[start..start + 2] == [source[start], source[start + 1]];
      }
    }
    hide StepAt, Says, GoesOn, SymbolStep, Signs;
    Dispatch(lex, source, start, afterMinus);
    SignStands(lex, source, start, end, kind, integer);
    if start < end <= |source| {
      var text := source[start..end];
      assert text[0] == source[start];
      if Says(lex, kind, integer, text, afterMinus) {
        FirstTells(lex, kind, integer, text, afterMinus);
      }
      if Signs(kind) != [] {
        SaysSign(lex, kind, integer, text, afterMinus);
      }
    }
  }

  /** A word is a keyword or a name. */
  lemma SaysWord(lex: Lexicon, kind: TokenKind, integer: int, text: string, afterMinus: bool)
    requires text != "" && Begins(lex, text[0])
    ensures Says(lex, kind, integer, text, afterMinus) <==>
            Unquoted(lex, text) && kind == KeywordKind(text) && integer == 0
  {
    hide Keyword, KeywordKind, AnyCase, Quoted;
    KeywordIs(text, kind);
    KeywordIs(text, KeywordKind(text));
    NameIs(text);
    if Says(lex, kind, integer, text, afterMinus) {
      FirstTells(lex, kind, integer, text, afterMinus);
      if Keyword(kind) != "" {
        SaysKeyword(lex, kind, integer, text, afterMinus);
        KeywordIsUnquoted(lex, kind, text);
      } else {
        NotQuoted(lex, text);
      }
    } else if Unquoted(lex, text) && kind == KeywordKind(text) && Keyword(kind) != "" {
      SaysKeyword(lex, kind, integer, text, afterMinus);
    }
  }

  lemma SaysKeyword(lex: Lexicon, kind: TokenKind, integer: int, text: string, afterMinus: bool)
    requires Keyword(kind) != ""
    ensures Says(lex, kind, integer, text, afterMinus) <==> integer == 0 && AnyCase(text, Keyword(kind))
  {
  }

  lemma NotQuoted(lex: Lexicon, text: string)
    requires text != "" && Begins(lex, text[0])
    ensures !exists name :: QuotedText(lex.dialect, text, name)
  {
  }

  lemma WordGoesOn(lex: Lexicon, text: string, next: char)
    requires text != "" && Begins(lex, text[0])
    ensures GoesOn(lex, text, next) <==> Continues(lex, next)
  {
  }

  /** What the lexer reads at the first letter of a word. */
  lemma WordReads(lex: Lexicon, source: string, start: nat, afterMinus: bool)
    requires start < |source| && Begins(lex, source[start])
    ensures StepAt(lex, source, start, afterMinus) == NameStep(lex, source, start)
  {
    assert !Pair(source, start, "--") by {
      if start + 2 <= |source| {
        assert source[start..start + 2][0] != '-';
      }
    }
    hide StepAt, NameStep;
    Dispatch(lex, source, start, afterMinus);
  }

  lemma WordsStand(lex: Lexicon, source: string, start: nat, end: nat, kind: TokenKind, integer: int, afterMinus: bool)
    requires start < |source| && Begins(lex, source[start])
    ensures StepAt(lex, source, start, afterMinus) == Tok(kind, end, integer) <==>
            Stands(lex, source, start, end, kind, integer, afterMinus)
  {
    hide StepAt, Says, GoesOn, KeywordKind, Unquoted, RunEnd, Continues, Begins;
    WordReads(lex, source, start, afterMinus);
    WordStands(lex, source, start, end);
    if start < end <= |source| {
      var text := source[start..end];
      assert text[0] == source[start];
      SaysWord(lex, kind, integer, text, afterMinus);
      if end < |source| {
        WordGoesOn(lex, text, source[end]);
      }
    }
  }

  lemma NothingStands(lex: Lexicon, source: string, start: nat, end: nat, kind: TokenKind, integer: int,
                      afterMinus: bool)
    requires start < |source|
    requires var c := source[start]; c !in "'\"`$:?" && !IsNumeral(c) && !IsSymbol(c) && !Begins(lex, c)
    ensures !StepAt(lex, source, start, afterMinus).Tok?
    ensures !Stands(lex, source, start, end, kind, integer, afterMinus)
  {
    assert !Pair(source, start, "--") by {
      if start + 2 <= |source| {
        assert source[start..start + 2][0] != '-';
      }
    }
    hide StepAt, Says, GoesOn;
    Dispatch(lex, source, start, afterMinus);
    if Stands(lex, source, start, end, kind, integer, afterMinus) {
      FirstTells(lex, kind, integer, source[start..end], afterMinus);
    }
  }

  /** A token is read exactly where its text stands. */
  lemma StepStands(lex: Lexicon, source: string, start: nat, end: nat, kind: TokenKind, integer: int, afterMinus: bool)
    requires start < |source|
    ensures StepAt(lex, source, start, afterMinus) == Tok(kind, end, integer) <==>
            Stands(lex, source, start, end, kind, integer, afterMinus)
  {
    hide StepAt, Stands, Begins;
    var c := source[start];
    if c == '\'' {
      StringStands(lex, source, start, end, kind, integer, afterMinus);
    } else if c in "\"`" {
      QuotedStands(lex, source, start, end, kind, integer, afterMinus);
    } else if c in "$:?" {
      MarkersStand(lex, source, start, end, kind, integer, afterMinus);
    } else if IsNumeral(c) {
      DigitsStand(lex, source, start, end, kind, integer, afterMinus);
    } else if Pair(source, start, "--") {
      DashesAreNone(lex, source, start, end, kind, integer, afterMinus);
    } else if IsSymbol(c) {
      SignsStand(lex, source, start, end, kind, integer, afterMinus);
    } else if Begins(lex, c) {
      WordsStand(lex, source, start, end, kind, integer, afterMinus);
    } else {
      NothingStands(lex, source, start, end, kind, integer, afterMinus);
    }
  }
}
