/** The SQL lexer: one pass that cuts the source into tokens, skipping blanks and comments. */
module SqlLexers {
  import opened SemanticTables
  import opened SqlGrammar
  import opened SqlTokens

  /** Which characters beyond ASCII are letters and digits comes from Unicode tables. */
  datatype Lexicon = Lexicon(dialect: Dialect, letter: char -> bool, digit: char -> bool, maxTokens: nat)

  const MAX_INT64: nat := 0x7FFF_FFFF_FFFF_FFFF

  // ----- characters -----

  predicate IsSpace(c: char) {
    c == ' ' || c == '\t' || c == '\r' || c == '\n' || c == 12 as char
  }

  predicate IsNumeral(c: char) {
    '0' <= c <= '9'
  }

  predicate AsciiStart(c: char) {
    'a' <= c <= 'z' || 'A' <= c <= 'Z' || c == '_'
  }

  predicate AsciiContinue(c: char) {
    AsciiStart(c) || IsNumeral(c)
  }

  predicate IsAscii(c: char) {
    c as int < 128
  }

  predicate NameStart(lex: Lexicon, c: char) {
    if IsAscii(c) then AsciiStart(c) else lex.letter(c)
  }

  predicate NameContinue(lex: Lexicon, c: char) {
    if IsAscii(c) then AsciiContinue(c) || c == '$' else lex.letter(c) || lex.digit(c)
  }

  function CharAt(source: string, k: nat): char {
    if k < |source| then source[k] else 0 as char
  }

  // ----- runs -----

  /** The end of the longest run of characters of a class. */
  function RunEnd(source: string, start: nat, member: char -> bool): (end: nat)
    requires start <= |source|
    ensures start <= end <= |source|
    decreases |source| - start
  {
    if start < |source| && member(source[start]) then RunEnd(source, start + 1, member) else start
  }

  lemma {:induction false} RunIs(source: string, start: nat, end: nat, member: char -> bool)
    requires start <= end <= |source| && (forall k :: start <= k < end ==> member(source[k]))
    requires (end < |source| ==> !member(source[end]))
    ensures RunEnd(source, start, member) == end
    decreases end - start
  {
    if start < end {
      RunIs(source, start + 1, end, member);
    }
  }

  lemma {:induction false} RunHas(source: string, start: nat, member: char -> bool)
    requires start <= |source|
    ensures forall k :: start <= k < RunEnd(source, start, member) ==> member(source[k])
    decreases |source| - start
  {
    if start < |source| && member(source[start]) {
      RunHas(source, start + 1, member);
    }
  }

  // ----- integers -----

  function Digit(c: char): nat
    requires IsNumeral(c)
  {
    c as nat - '0' as nat
  }

  function Decimal(text: string): nat
    requires forall k :: 0 <= k < |text| ==> IsNumeral(text[k])
  {
    if text == "" then 0 else Decimal(text[..|text| - 1]) * 10 + Digit(text[|text| - 1])
  }

  lemma DecimalSnoc(text: string, c: char)
    requires (forall k :: 0 <= k < |text| ==> IsNumeral(text[k])) && IsNumeral(c)
    ensures (forall k :: 0 <= k < |text + [c]| ==> IsNumeral((text + [c])[k]))
    ensures Decimal(text + [c]) == Decimal(text) * 10 + Digit(c)
  {
    assert (text + [c])[..|text|] == text;
  }

  lemma {:induction false} DecimalGrows(text: string, n: nat)
    requires n <= |text| && forall k :: 0 <= k < |text| ==> IsNumeral(text[k])
    ensures Decimal(text[..n]) <= Decimal(text)
    decreases |text| - n
  {
    if n == |text| {
      assert text[..n] == text;
    } else {
      DecimalGrows(text, n + 1);
      assert text[..n + 1] == text[..n] + [text[n]];
      DecimalSnoc(text[..n], text[n]);
    }
  }

  /** Read a number up to a bound; a number past the bound is read to its end. */
  method ScanInteger(source: string, start: nat, maximum: nat) returns (end: nat, value: nat, overflow: bool)
    requires start <= |source| && maximum >= 9
    ensures end == RunEnd(source, start, IsNumeral)
    ensures forall k :: start <= k < end ==> IsNumeral(source[k])
    ensures overflow <==> Decimal(source[start..end]) > maximum
    ensures !overflow ==> value == Decimal(source[start..end])
  {
    hide RunEnd, Decimal;
    ghost var last := RunEnd(source, start, IsNumeral);
    RunHas(source, start, IsNumeral);
    RunStops(source, start, IsNumeral);
    end, value := start, 0;
    DecimalEmpty(source[start..start]);
    while end < |source| && IsNumeral(source[end])
      invariant start <= end <= last && value == Decimal(source[start..end]) && value <= maximum
    {
      var digit := Digit(source[end]);
      DecimalStep(source, start, end, last);
      TenfoldExceeds(value, digit, maximum);
      if value > (maximum - digit) / 10 {
        end := SkipNumerals(source, end, last);
        return end, 0, true;
      }
      value := value * 10 + digit;
      end := end + 1;
    }
    overflow := false;
  }

  method SkipNumerals(source: string, start: nat, ghost last: nat) returns (end: nat)
    requires start <= last <= |source| && (forall k :: start <= k < last ==> IsNumeral(source[k]))
    requires (last < |source| ==> !IsNumeral(source[last]))
    ensures end == last
  {
    end := start;
    while end < |source| && IsNumeral(source[end])
      invariant start <= end <= last
    {
      end := end + 1;
    }
  }

  lemma DecimalEmpty(text: string)
    requires text == ""
    ensures Decimal(text) == 0
  {
  }

  lemma DecimalStep(source: string, start: nat, end: nat, last: nat)
    requires start <= end < last <= |source| && forall k :: start <= k < last ==> IsNumeral(source[k])
    ensures Decimal(source[start..end + 1]) ==
            Decimal(source[start..end]) * 10 + Digit(source[end]) <= Decimal(source[start..last])
  {
    hide Decimal;
    var text := source[start..last];
    assert source[start..end + 1] == source[start..end] + [source[end]];
    DecimalSnoc(source[start..end], source[end]);
    assert text[..end + 1 - start] == source[start..end + 1];
    DecimalGrows(text, end + 1 - start);
  }

  lemma TenfoldExceeds(value: nat, digit: nat, maximum: nat)
    requires digit <= 9 <= maximum
    ensures value > (maximum - digit) / 10 <==> value * 10 + digit > maximum
  {
  }

  lemma {:induction false} RunStops(source: string, start: nat, member: char -> bool)
    requires start <= |source|
    ensures RunEnd(source, start, member) < |source| ==> !member(source[RunEnd(source, start, member)])
    decreases |source| - start
  {
    if start < |source| && member(source[start]) {
      RunStops(source, start + 1, member);
    }
  }

  /** A 64-bit magnitude stored as a signed integer. */
  function Wrap(magnitude: nat): int {
    if magnitude > MAX_INT64 then magnitude - 0x1_0000_0000_0000_0000 else magnitude
  }

  /** Signed literals are exact over the whole 64-bit range. */
  lemma NegatedIsExact(magnitude: nat)
    requires magnitude <= MAX_INT64 + 1
    ensures Negate(Wrap(magnitude)) == -(magnitude as int)
  {
  }

  // ----- quotes -----

  /** The end of a quoted text that starts at `start`, or 0. */
  function QuoteFrom(source: string, offset: nat, quote: char): nat
    decreases |source| - offset
  {
    if offset >= |source| then 0
    else if source[offset] != quote then QuoteFrom(source, offset + 1, quote)
    else if offset + 1 < |source| && source[offset + 1] == quote then QuoteFrom(source, offset + 2, quote)
    else offset + 1
  }

  method ScanQuoted(source: string, start: nat, quote: char) returns (end: nat)
    requires start < |source|
    ensures end == QuoteFrom(source, start + 1, quote)
  {
    var offset := start + 1;
    while offset < |source|
      invariant start < offset && QuoteFrom(source, offset, quote) == QuoteFrom(source, start + 1, quote)
      decreases |source| - offset
    {
      if source[offset] != quote {
        offset := offset + 1;
      } else if offset + 1 < |source| && source[offset + 1] == quote {
        offset := offset + 2;
      } else {
        return offset + 1;
      }
    }
    end := 0;
  }

  /** Quoted text ends where its spelling does. */
  lemma {:induction false} QuoteEnds(source: string, offset: nat, quote: char, text: string)
    requires offset <= |source| && Doubled(quote, text) + [quote] <= source[offset..]
    requires var end := offset + |Doubled(quote, text)| + 1; end < |source| ==> source[end] != quote
    ensures QuoteFrom(source, offset, quote) == offset + |Doubled(quote, text)| + 1
    decreases |text|
  {
    var body := Doubled(quote, text);
    var tail := source[offset..];
    if text == "" {
      assert tail[0] == quote;
    } else {
      var rest := Doubled(quote, text[1..]);
      assert tail[0] == body[0] == text[0];
      if text[0] == quote {
        assert tail[1] == body[1] == quote;
        assert source[offset + 2..] == tail[2..] && (body + [quote])[2..] == rest + [quote];
        QuoteEnds(source, offset + 2, quote, text[1..]);
      } else {
        assert source[offset + 1..] == tail[1..] && (body + [quote])[1..] == rest + [quote];
        QuoteEnds(source, offset + 1, quote, text[1..]);
      }
    }
  }

  /** What is scanned as quoted text spells some text. */
  lemma {:induction false} QuoteSpells(source: string, offset: nat, quote: char) returns (text: string)
    requires QuoteFrom(source, offset, quote) != 0
    ensures offset < QuoteFrom(source, offset, quote) <= |source|
    ensures source[offset..QuoteFrom(source, offset, quote)] == Doubled(quote, text) + [quote]
    decreases |source| - offset
  {
    var end := QuoteFrom(source, offset, quote);
    if source[offset] != quote {
      text := QuoteSpells(source, offset + 1, quote);
      assert source[offset..end] == [source[offset]] + source[offset + 1..end];
      text := [source[offset]] + text;
      assert text[1..] == text[1..];
      assert Doubled(quote, text) == [source[offset]] + Doubled(quote, text[1..]);
    } else if offset + 1 < |source| && source[offset + 1] == quote {
      text := QuoteSpells(source, offset + 2, quote);
      assert source[offset..end] == [quote, quote] + source[offset + 2..end];
      text := [quote] + text;
      assert Doubled(quote, text) == [quote, quote] + Doubled(quote, text[1..]);
    } else {
      text := "";
    }
  }

  // ----- one step -----

  /** What stands at an offset: nothing readable, a blank or comment, or a token. */
  datatype Step = Bad | Blank(end: nat) | Tok(kind: TokenKind, end: nat, integer: int)

  /** The end of a block comment whose inside starts at `offset`, or 0; comments do not nest. */
  function CommentEnd(source: string, offset: nat): (end: nat)
    ensures end != 0 ==> offset < end <= |source|
    decreases |source| - offset
  {
    if offset + 1 >= |source| then 0
    else if source[offset] == '/' && source[offset + 1] == '*' then 0
    else if source[offset] == '*' && source[offset + 1] == '/' then offset + 2
    else CommentEnd(source, offset + 1)
  }

  lemma {:induction false} QuoteBounds(source: string, offset: nat, quote: char)
    ensures var end := QuoteFrom(source, offset, quote); end != 0 ==> offset < end <= |source|
    decreases |source| - offset
  {
    if offset < |source| && source[offset] != quote {
      QuoteBounds(source, offset + 1, quote);
    } else if offset + 1 < |source| && source[offset + 1] == quote {
      QuoteBounds(source, offset + 2, quote);
    }
  }

  function Keywords(): seq<(string, TokenKind)> {
    [("true", TrueToken), ("false", FalseToken), ("null", NullToken), ("and", AndToken), ("or", OrToken),
     ("not", NotToken), ("in", InToken), ("is", IsToken), ("as", AsToken), ("for", ForToken), ("to", ToToken),
     ("using", UsingToken), ("with", WithToken), ("check", CheckToken), ("create", CreateToken),
     ("policy", PolicyToken), ("on", OnToken), ("permissive", PermissiveToken),
     ("restrictive", RestrictiveToken), ("all", AllToken), ("select", SelectToken), ("insert", InsertToken),
     ("update", UpdateToken), ("delete", DeleteToken), ("public", PublicToken)]
  }

  function KeywordFrom(table: seq<(string, TokenKind)>, word: string): TokenKind {
    if table == [] then IdentifierToken else if table[0].0 == word then table[0].1 else KeywordFrom(table[1..], word)
  }

  /** Keywords are recognised in any case; every other word is a name. */
  function KeywordKind(text: string): TokenKind {
    KeywordFrom(Keywords(), Folded(PostgreSql, text))
  }

  function QuoteStep(source: string, offset: nat, quote: char, kind: TokenKind): Step {
    var end := QuoteFrom(source, offset + 1, quote);
    if end == 0 then Bad else Tok(kind, end, 0)
  }

  /** A token that is one or two fixed characters. */
  function SymbolStep(offset: nat, c: char, next: char): Step {
    if c == '=' then Tok(CompareToken(Equal), offset + 1, 0)
    else if c == '<' && next == '=' then Tok(CompareToken(LessEqual), offset + 2, 0)
    else if c == '<' && next == '>' then Tok(CompareToken(NotEqual), offset + 2, 0)
    else if c == '<' then Tok(CompareToken(Less), offset + 1, 0)
    else if c == '>' && next == '=' then Tok(CompareToken(GreaterEqual), offset + 2, 0)
    else if c == '>' then Tok(CompareToken(Greater), offset + 1, 0)
    else if c == '!' && next == '=' then Tok(CompareToken(NotEqual), offset + 2, 0)
    else if c == '(' then Tok(LParenToken, offset + 1, 0)
    else if c == ')' then Tok(RParenToken, offset + 1, 0)
    else if c == ',' then Tok(CommaToken, offset + 1, 0)
    else if c == ';' then Tok(SemicolonToken, offset + 1, 0)
    else if c == '.' then Tok(DotToken, offset + 1, 0)
    else if c == '-' then Tok(MinusToken, offset + 1, 0)
    else Bad
  }

  predicate IsSymbol(c: char) {
    c in "=<>!(),;.-"
  }

  /** Parameter markers are $1 in PostgreSQL and :name or ? elsewhere. */
  function MarkerStep(lex: Lexicon, source: string, offset: nat): Step
    requires offset < |source|
  {
    var c, next := source[offset], CharAt(source, offset + 1);
    if c == '$' then
      if lex.dialect == PostgreSql && '1' <= next <= '9' then
        Tok(ParameterToken, RunEnd(source, offset + 1, IsNumeral), 0)
      else Bad
    else if lex.dialect == PostgreSql then Bad
    else if c == '?' then Tok(ParameterToken, offset + 1, 0)
    else if AsciiStart(next) then Tok(ParameterToken, RunEnd(source, offset + 1, AsciiContinue), 0)
    else Bad
  }

  /** The largest magnitude of a number; a minus sign admits one more. */
  function Maximum(afterMinus: bool): nat {
    if afterMinus then MAX_INT64 + 1 else MAX_INT64
  }

  function NumberStep(source: string, offset: nat, afterMinus: bool): Step
    requires offset < |source| && IsNumeral(source[offset])
  {
    var end := RunEnd(source, offset, IsNumeral);
    RunHas(source, offset, IsNumeral);
    var magnitude := Decimal(source[offset..end]);
    if magnitude > Maximum(afterMinus) then Bad else Tok(IntegerToken, end, Wrap(magnitude))
  }

  function NameStep(lex: Lexicon, source: string, offset: nat): Step
    requires offset < |source|
  {
    if !NameStart(lex, source[offset]) then Bad
    else
      var end := RunEnd(source, offset + 1, c => NameContinue(lex, c));
      Tok(KeywordKind(source[offset..end]), end, 0)
  }

  function TokenStep(lex: Lexicon, source: string, offset: nat, afterMinus: bool): Step
    requires offset < |source|
  {
    var c := source[offset];
    if c == '\'' then QuoteStep(source, offset, '\'', StringToken)
    else if c == '"' then
      if lex.dialect == PostgreSql && QuoteFrom(source, offset + 1, '"') == offset + 2 then Bad
      else QuoteStep(source, offset, '"', IdentifierToken)
    else if c == '`' then if lex.dialect == Databricks then QuoteStep(source, offset, '`', IdentifierToken) else Bad
    else if c == '$' || c == ':' || c == '?' then MarkerStep(lex, source, offset)
    else if IsSymbol(c) then SymbolStep(offset, c, CharAt(source, offset + 1))
    else if IsNumeral(c) then NumberStep(source, offset, afterMinus)
    else NameStep(lex, source, offset)
  }

  function StepAt(lex: Lexicon, source: string, offset: nat, afterMinus: bool): Step
    requires offset < |source|
  {
    var c, next := source[offset], CharAt(source, offset + 1);
    if IsSpace(c) then Blank(offset + 1)
    else if c == '-' && next == '-' then Blank(RunEnd(source, offset + 2, c => c != '\n'))
    else if c == '/' && next == '*' then
      (var end := CommentEnd(source, offset + 2); if end == 0 then Bad else Blank(end))
    else TokenStep(lex, source, offset, afterMinus)
  }

  lemma StepAdvances(lex: Lexicon, source: string, offset: nat, afterMinus: bool)
    requires offset < |source|
    ensures var step := StepAt(lex, source, offset, afterMinus); !step.Bad? ==> offset < step.end <= |source|
  {
    hide QuoteFrom, KeywordFrom, Decimal, CommentEnd, RunEnd;
    QuoteBounds(source, offset + 1, source[offset]);
    if IsNumeral(source[offset]) {
      NumberAdvances(source, offset);
    }
  }

  lemma NumberAdvances(source: string, offset: nat)
    requires offset < |source| && IsNumeral(source[offset])
    ensures offset < RunEnd(source, offset, IsNumeral)
  {
  }

  // ----- the whole source -----

  predicate AfterMinus(tokens: seq<Token>) {
    tokens != [] && tokens[|tokens| - 1].kind == MinusToken
  }

  datatype Lexed = LexError | Lexed(tokens: seq<Token>)

  function Push(lex: Lexicon, tokens: seq<Token>, token: Token): Lexed {
    if |tokens| + 1 > lex.maxTokens then LexError else Lexed(tokens + [token])
  }

  /** The tokens of the source, given those before an offset. */
  ghost function LexFrom(lex: Lexicon, source: string, offset: nat, tokens: seq<Token>): Lexed
    decreases |source| - offset
  {
    if offset >= |source| then Push(lex, tokens, Token(EofToken, |source|, |source|, 0))
    else
      var step := StepAt(lex, source, offset, AfterMinus(tokens));
      StepAdvances(lex, source, offset, AfterMinus(tokens));
      match step
      case Bad => LexError
      case Blank(end) => LexFrom(lex, source, end, tokens)
      case Tok(kind, end, integer) =>
        match Push(lex, tokens, Token(kind, offset, end, integer))
        case LexError => LexError
        case Lexed(more) => LexFrom(lex, source, end, more)
  }

  method ScanRun(source: string, start: nat, member: char -> bool) returns (end: nat)
    requires start <= |source|
    ensures end == RunEnd(source, start, member)
  {
    end := start;
    while end < |source| && member(source[end])
      invariant start <= end <= |source| && RunEnd(source, end, member) == RunEnd(source, start, member)
    {
      end := end + 1;
    }
  }

  method ScanComment(source: string, start: nat) returns (end: nat)
    ensures end == CommentEnd(source, start)
  {
    var offset := start;
    while offset + 1 < |source|
      invariant CommentEnd(source, offset) == CommentEnd(source, start)
    {
      if source[offset] == '/' && source[offset + 1] == '*' {
        return 0;
      }
      if source[offset] == '*' && source[offset + 1] == '/' {
        return offset + 2;
      }
      offset := offset + 1;
    }
    end := 0;
  }

  method ScanKeyword(text: string) returns (kind: TokenKind)
    ensures kind == KeywordKind(text)
  {
    var table, word := Keywords(), Folded(PostgreSql, text);
    var row := 0;
    assert table[0..] == table;
    while row < |table|
      invariant row <= |table| && KeywordFrom(table[row..], word) == KeywordFrom(table, word)
    {
      assert table[row..][1..] == table[row + 1..] && table[row..][0] == table[row];
      if table[row].0 == word {
        return table[row].1;
      }
      row := row + 1;
    }
    kind := IdentifierToken;
  }

  method ScanQuoteStep(source: string, offset: nat, quote: char, kind: TokenKind) returns (step: Step)
    requires offset < |source|
    ensures step == QuoteStep(source, offset, quote, kind)
  {
    var end := ScanQuoted(source, offset, quote);
    step := if end == 0 then Bad else Tok(kind, end, 0);
  }

  method ScanMarker(lex: Lexicon, source: string, offset: nat) returns (step: Step)
    requires offset < |source|
    ensures step == MarkerStep(lex, source, offset)
  {
    var c := source[offset];
    if c == '$' {
      if lex.dialect != PostgreSql || offset + 1 == |source| || source[offset + 1] < '1' || source[offset + 1] > '9' {
        return Bad;
      }
      var end := ScanRun(source, offset + 1, IsNumeral);
      return Tok(ParameterToken, end, 0);
    }
    if lex.dialect == PostgreSql {
      return Bad;
    }
    if c == '?' {
      return Tok(ParameterToken, offset + 1, 0);
    }
    if offset + 1 == |source| || !AsciiStart(source[offset + 1]) {
      return Bad;
    }
    var end := ScanRun(source, offset + 1, AsciiContinue);
    step := Tok(ParameterToken, end, 0);
  }

  method ScanNumber(source: string, offset: nat, afterMinus: bool) returns (step: Step)
    requires offset < |source| && IsNumeral(source[offset])
    ensures step == NumberStep(source, offset, afterMinus)
  {
    hide Decimal, RunEnd;
    var end, magnitude, overflow := ScanInteger(source, offset, Maximum(afterMinus));
    step := if overflow then Bad else Tok(IntegerToken, end, Wrap(magnitude));
  }

  method ScanName(lex: Lexicon, source: string, offset: nat) returns (step: Step)
    requires offset < |source|
    ensures step == NameStep(lex, source, offset)
  {
    hide KeywordKind;
    if !NameStart(lex, source[offset]) {
      return Bad;
    }
    var end := ScanRun(source, offset + 1, c => NameContinue(lex, c));
    var kind := ScanKeyword(source[offset..end]);
    step := Tok(kind, end, 0);
  }

  method ScanToken(lex: Lexicon, source: string, offset: nat, afterMinus: bool) returns (step: Step)
    requires offset < |source|
    ensures step == TokenStep(lex, source, offset, afterMinus)
  {
    hide QuoteFrom, MarkerStep, SymbolStep, NumberStep, NameStep;
    var c := source[offset];
    if c == '\'' {
      step := ScanQuoteStep(source, offset, '\'', StringToken);
    } else if c == '"' {
      step := ScanQuoteStep(source, offset, '"', IdentifierToken);
      if lex.dialect == PostgreSql && step.Tok? && step.end == offset + 2 {
        step := Bad;
      }
    } else if c == '`' {
      if lex.dialect != Databricks {
        return Bad;
      }
      step := ScanQuoteStep(source, offset, '`', IdentifierToken);
    } else if c == '$' || c == ':' || c == '?' {
      step := ScanMarker(lex, source, offset);
    } else if IsSymbol(c) {
      step := SymbolStep(offset, c, CharAt(source, offset + 1));
    } else if IsNumeral(c) {
      step := ScanNumber(source, offset, afterMinus);
    } else {
      step := ScanName(lex, source, offset);
    }
  }

  method ScanStep(lex: Lexicon, source: string, offset: nat, afterMinus: bool) returns (step: Step)
    requires offset < |source|
    ensures step == StepAt(lex, source, offset, afterMinus)
  {
    hide TokenStep, CommentEnd;
    if IsSpace(source[offset]) {
      return Blank(offset + 1);
    }
    if offset + 1 < |source| && source[offset] == '-' && source[offset + 1] == '-' {
      var end := ScanRun(source, offset + 2, c => c != '\n');
      return Blank(end);
    }
    if offset + 1 < |source| && source[offset] == '/' && source[offset + 1] == '*' {
      var end := ScanComment(source, offset + 2);
      return if end == 0 then Bad else Blank(end);
    }
    step := ScanToken(lex, source, offset, afterMinus);
  }
}
