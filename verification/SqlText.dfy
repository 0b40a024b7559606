/** Grammar words as they are written: which texts stand for a word, and that the words of a
    lexed source are those that its texts stand for. */
module SqlTexts {
  import opened Optional
  import opened SemanticTables
  import opened SqlGrammar
  import opened SqlTokens
  import opened SqlLexers
  import opened SqlVocabulary
  import opened SqlTokenSpellings
  import opened SqlSpellings

  // ----- the texts of a word -----

  /** A name is written in quotes, or without them in any case when it is of the one case
      that its dialect folds to. */
  ghost predicate NameText(lex: Lexicon, dialect: Dialect, text: string, name: string) {
    || QuotedText(lex.dialect, text, name)
    || (&& Unquoted(lex, text) && !Reserved(text) && AnyCase(text, name)
        && if dialect == Snowflake then NoSmalls(name) else NoCapitals(name))
  }

  /** The first field that has the name. */
  ghost predicate Declares(names: seq<string>, field: nat, name: string) {
    1 <= field <= |names| && names[field - 1] == name && forall k :: 0 <= k < field - 1 ==> names[k] != name
  }

  /** How many parameters before a row are declared without a name. */
  function Unnamed(parameters: seq<(string, Literal)>, row: nat): nat
    requires row <= |parameters|
  {
    if row == 0 then 0 else Unnamed(parameters, row - 1) + if parameters[row - 1].0 == "?" then 1 else 0
  }

  /** A question mark stands for the unnamed parameter of its own rank, a named marker for
      the first parameter of its name. */
  ghost predicate Supplies(parameters: seq<(string, Literal)>, row: nat, text: string, before: nat) {
    && row < |parameters| && parameters[row].0 == text
    && if text == "?" then Unnamed(parameters, row) == before
       else forall k :: 0 <= k < row ==> parameters[k].0 != text
  }

  ghost predicate ParameterText(lex: Lexicon, schema: Schema, text: string, literal: Literal, before: nat) {
    && MarkerText(lex.dialect, text)
    && exists row: nat :: Supplies(schema.parameters, row, text, before) && schema.parameters[row].1 == literal
  }

  ghost predicate LiteralText(lex: Lexicon, schema: Schema, text: string, literal: Literal, before: nat) {
    || (literal == Bool(true) && AnyCase(text, "true"))
    || (literal == Bool(false) && AnyCase(text, "false"))
    || (literal.Str? && text == Quoted('\'', literal.bytes))
    || ParameterText(lex, schema, text, literal, before)
  }

  /** The text stands for the word, after so many question marks and perhaps a minus sign. */
  ghost predicate Writes(lex: Lexicon, schema: Schema, text: string, word: Word, before: nat, afterMinus: bool) {
    match word
    case OpenParen => text == "("
    case CloseParen => text == ")"
    case CommaWord => text == ","
    case AndWord => AnyCase(text, "and")
    case OrWord => AnyCase(text, "or")
    case NotWord => AnyCase(text, "not")
    case InWord => AnyCase(text, "in")
    case IsWord => AnyCase(text, "is")
    case NullWord => AnyCase(text, "null")
    case MinusWord => text == "-"
    case CompareWord(Equal) => text == "="
    case CompareWord(NotEqual) => text == "<>" || text == "!="
    case CompareWord(Less) => text == "<"
    case CompareWord(LessEqual) => text == "<="
    case CompareWord(Greater) => text == ">"
    case CompareWord(GreaterEqual) => text == ">="
    case ConstantWord(literal) => LiteralText(lex, schema, text, literal, before)
    case NumberWord(integer) => NumberText(text, integer, afterMinus)
    case NameWord(field) => exists name :: Declares(schema.names, field, name) &&
                                           NameText(lex, schema.dialect, text, name)
    case Other => false
  }

  function Questions(source: string, spans: seq<Span>, k: nat): nat
    requires k <= |spans|
  {
    if k == 0 then 0 else Questions(source, spans, k - 1) + if Slice(source, spans, k - 1) == "?" then 1 else 0
  }

  ghost predicate WordWritten(lex: Lexicon, schema: Schema, source: string, spans: seq<Span>, word: Word, k: nat)
    requires k < |spans|
  {
    Writes(lex, schema, Slice(source, spans, k), word, Questions(source, spans, k), Slice(source, spans, k - 1) == "-")
  }

  /** The source is cut into texts that stand for the words. */
  ghost predicate Written(lex: Lexicon, schema: Schema, source: string, spans: seq<Span>, words: seq<Word>) {
    && |spans| == |words| && Cut(lex, source, spans)
    && forall k: nat :: k < |words| ==> WordWritten(lex, schema, source, spans, words[k], k)
  }

  // ----- a text says one thing -----

  lemma SaysOnce(lex: Lexicon, a: TokenKind, b: TokenKind, i: int, j: int, text: string, afterMinus: bool)
    requires Says(lex, a, i, text, afterMinus) && Says(lex, b, j, text, afterMinus)
    ensures a == b && i == j
  {
    hide Says, StepAt;
    FirstTells(lex, a, i, text, afterMinus);
    assert text[0..|text|] == text;
    StepStands(lex, text, 0, |text|, a, i, afterMinus);
    StepStands(lex, text, 0, |text|, b, j, afterMinus);
  }

  // ----- names -----

  lemma CaseRises(text: string, word: string)
    ensures AnyCase(text, word) && NoSmalls(word) <==> Folded(Snowflake, text) == word
  {
    var folded := Folded(Snowflake, text);
    if AnyCase(text, word) && NoSmalls(word) {
      forall k | 0 <= k < |text|
        ensures folded[k] == word[k]
      {
        assert SameLetter(text[k], word[k]);
      }
    }
    if folded == word {
      forall k | 0 <= k < |text|
        ensures SameLetter(text[k], word[k]) && !('a' <= word[k] <= 'z')
      {
        assert folded[k] == word[k];
      }
    }
  }

  lemma CaseFalls(text: string, word: string)
    ensures AnyCase(text, word) && NoCapitals(word) <==> Folded(PostgreSql, text) == word
  {
    hide AnyCase;
    if NoCapitals(word) {
      CaseFolds(text, word);
    }
    if Folded(PostgreSql, text) == word {
      forall k | 0 <= k < |word|
        ensures !('A' <= word[k] <= 'Z')
      {
        assert Folded(PostgreSql, text)[k] == word[k];
      }
    }
  }

  lemma FoldedIs(dialect: Dialect, text: string, word: string)
    ensures (AnyCase(text, word) && if dialect == Snowflake then NoSmalls(word) else NoCapitals(word)) <==>
            Folded(dialect, text) == word
  {
    hide AnyCase, NoSmalls, NoCapitals;
    CaseRises(text, word);
    CaseFalls(text, word);
    assert dialect != Snowflake ==> Folded(dialect, text) == Folded(PostgreSql, text);
  }

  /** A name that is read has the text of the name it denotes. */
  lemma NameIsText(lex: Lexicon, dialect: Dialect, text: string, name: string, afterMinus: bool)
    requires Says(lex, IdentifierToken, 0, text, afterMinus)
    ensures NameOf(dialect, text) == name <==> NameText(lex, dialect, text, name)
  {
    hide Quoted, Folded, AnyCase, Reserved;
    FoldedIs(dialect, text, name);
    forall quote: char, value: string
      ensures |Quoted(quote, value)| >= 2 && Quoted(quote, value)[0] == quote
      ensures Decoded(Quoted(quote, value)) == value
    {
      QuotedStarts(quote, value);
      DecodedQuoted(quote, value);
    }
    hide Decoded;
  }

  lemma FieldIs(names: seq<string>, field: nat, name: string)
    ensures field != 0 ==> (FieldFrom(names, name, 0) == field <==> Declares(names, field, name))
  {
    if field != 0 {
      FieldRuns(names, field, name, 0);
    }
  }

  lemma {:induction false} FieldRuns(names: seq<string>, field: nat, name: string, row: nat)
    requires row <= |names| && field != 0
    ensures FieldFrom(names, name, row) == field <==>
            row < field <= |names| && names[field - 1] == name && forall k :: row <= k < field - 1 ==> names[k] != name
    decreases |names| - row
  {
    if row < |names| && names[row] != name {
      FieldRuns(names, field, name, row + 1);
    }
  }

  // ----- parameters -----

  lemma {:induction false} NamedIs(parameters: seq<(string, Literal)>, name: string, row: nat, literal: Literal)
    requires row <= |parameters| && forall k :: 0 <= k < row ==> parameters[k].0 != name
    requires name != "?"
    ensures NamedFrom(parameters, name, row) == Some(literal) <==>
            exists r: nat :: Supplies(parameters, r, name, 0) && parameters[r].1 == literal
    decreases |parameters| - row
  {
    if row < |parameters| {
      if parameters[row].0 == name {
        assert Supplies(parameters, row, name, 0);
      } else {
        NamedIs(parameters, name, row + 1, literal);
      }
    }
  }

  lemma {:induction false} UnnamedGrows(parameters: seq<(string, Literal)>, a: nat, b: nat)
    requires a <= b <= |parameters|
    ensures Unnamed(parameters, a) <= Unnamed(parameters, b)
    decreases b - a
  {
    if a < b {
      UnnamedGrows(parameters, a, b - 1);
    }
  }

  lemma {:induction false} PositionalIs(parameters: seq<(string, Literal)>, n: nat, row: nat, literal: Literal)
    requires row <= |parameters|
    ensures PositionalFrom(parameters, n, row) == Some(literal) <==>
            exists r: nat :: row <= r && Supplies(parameters, r, "?", Unnamed(parameters, row) + n) &&
                             parameters[r].1 == literal
    decreases |parameters| - row
  {
    if row < |parameters| {
      var here := parameters[row].0 == "?";
      if here && n == 0 {
        assert Supplies(parameters, row, "?", Unnamed(parameters, row));
        forall r: nat | row < r && Supplies(parameters, r, "?", Unnamed(parameters, row))
          ensures false
        {
          UnnamedGrows(parameters, row + 1, r);
        }
      } else {
        PositionalIs(parameters, if here then n - 1 else n, row + 1, literal);
      }
    }
  }

  lemma ParameterIs(schema: Schema, text: string, before: nat, literal: Literal)
    ensures ParameterOf(schema, text, before) == Some(literal) <==>
            exists row: nat :: Supplies(schema.parameters, row, text, before) && schema.parameters[row].1 == literal
  {
    hide PositionalFrom, NamedFrom;
    if text == "?" {
      PositionalIs(schema.parameters, before, 0, literal);
    } else {
      NamedIs(schema.parameters, text, 0, literal);
      forall row: nat
        ensures Supplies(schema.parameters, row, text, before) <==> Supplies(schema.parameters, row, text, 0)
      {
      }
    }
  }

  // ----- a token and its word -----

  /** The word of a text of some kind. */
  function WordFor(schema: Schema, kind: TokenKind, integer: int, text: string, before: nat): Word {
    WordOf(text, Token(kind, 0, |text|, integer), schema, before)
  }

  lemma WordOfText(source: string, token: Token, schema: Schema, before: nat)
    requires TokenOk(source, token)
    ensures WordOf(source, token, schema, before) ==
            WordFor(schema, token.kind, token.integer, Text(source, token), before)
  {
    hide Decoded, NameOf, FieldFrom, ParameterOf;
    var text := Text(source, token);
    assert text[0..|text|] == text;
  }

  /** The kind of token that a text for a word is. */
  function KindFor(word: Word, text: string): TokenKind {
    match word
    case OpenParen => LParenToken
    case CloseParen => RParenToken
    case CommaWord => CommaToken
    case AndWord => AndToken
    case OrWord => OrToken
    case NotWord => NotToken
    case InWord => InToken
    case IsWord => IsToken
    case NullWord => NullToken
    case MinusWord => MinusToken
    case CompareWord(op) => CompareToken(op)
    case ConstantWord(literal) =>
      if text != "" && text[0] == '\'' then StringToken
      else if text != "" && text[0] in "$:?" then ParameterToken
      else if literal == Bool(true) then TrueToken else FalseToken
    case NumberWord(_) => IntegerToken
    case NameWord(_) => IdentifierToken
    case Other => EofToken
  }

  function IntegerFor(word: Word): int {
    if word.NumberWord? then word.integer else 0
  }

  lemma ConstantSays(lex: Lexicon, schema: Schema, text: string, literal: Literal, before: nat, afterMinus: bool)
    requires LiteralText(lex, schema, text, literal, before)
    ensures var kind := KindFor(ConstantWord(literal), text);
            && Says(lex, kind, 0, text, afterMinus)
            && WordFor(schema, kind, 0, text, before) == ConstantWord(literal)
  {
    hide Quoted, Decoded, ParameterOf, NameOf, FieldFrom, Supplies;
    assert text[0..|text|] == text;
    if literal.Str? && text == Quoted('\'', literal.bytes) {
      QuotedStarts('\'', literal.bytes);
      DecodedQuoted('\'', literal.bytes);
    } else if ParameterText(lex, schema, text, literal, before) {
      ParameterIs(schema, text, before, literal);
    } else {
      assert text[0] in "tTfF";
    }
  }

  lemma NameSays(lex: Lexicon, schema: Schema, text: string, field: nat, before: nat, afterMinus: bool)
    requires Writes(lex, schema, text, NameWord(field), before, afterMinus)
    ensures Says(lex, IdentifierToken, 0, text, afterMinus)
    ensures WordFor(schema, IdentifierToken, 0, text, before) == NameWord(field)
  {
    hide Quoted, Decoded, ParameterOf, FieldFrom, Declares, NameOf, AnyCase, Reserved;
    assert text[0..|text|] == text;
    var name :| Declares(schema.names, field, name) && NameText(lex, schema.dialect, text, name);
    NameIsText(lex, schema.dialect, text, name, afterMinus);
    FieldIs(schema.names, field, name);
    DeclaredField(schema.names, field, name);
  }

  lemma DeclaredField(names: seq<string>, field: nat, name: string)
    requires Declares(names, field, name)
    ensures field != 0
  {
  }

  /** A text for a word is a token that has the word. */
  lemma WritesSays(lex: Lexicon, schema: Schema, text: string, word: Word, before: nat, afterMinus: bool)
    requires Writes(lex, schema, text, word, before, afterMinus)
    ensures Says(lex, KindFor(word, text), IntegerFor(word), text, afterMinus)
    ensures WordFor(schema, KindFor(word, text), IntegerFor(word), text, before) == word
  {
    hide Quoted, Decoded, ParameterOf, FieldFrom, NameOf, AnyCase, NumberText, LiteralText;
    if word.ConstantWord? {
      ConstantSays(lex, schema, text, word.literal, before, afterMinus);
    } else if word.NameWord? {
      NameSays(lex, schema, text, word.field, before, afterMinus);
    }
  }

  lemma NameWrites(lex: Lexicon, schema: Schema, text: string, before: nat, afterMinus: bool)
    requires Says(lex, IdentifierToken, 0, text, afterMinus)
    ensures var word := WordFor(schema, IdentifierToken, 0, text, before);
            word != Other ==> Writes(lex, schema, text, word, before, afterMinus)
  {
    hide Says, Quoted, Decoded, ParameterOf, FieldFrom, NameOf, NameText, AnyCase, NumberText, Declares;
    assert text[0..|text|] == text;
    var name := NameOf(schema.dialect, text);
    NameIsText(lex, schema.dialect, text, name, afterMinus);
    FieldIs(schema.names, FieldFrom(schema.names, name, 0), name);
  }

  lemma StringWrites(lex: Lexicon, schema: Schema, text: string, before: nat, afterMinus: bool)
    requires Says(lex, StringToken, 0, text, afterMinus)
    ensures Writes(lex, schema, text, WordFor(schema, StringToken, 0, text, before), before, afterMinus)
  {
    hide Quoted, Decoded, ParameterOf, FieldFrom, NameOf, NameText, AnyCase, NumberText, ParameterText;
    assert text[0..|text|] == text;
    StringReads(text);
  }

  lemma ParameterWrites(lex: Lexicon, schema: Schema, text: string, before: nat, afterMinus: bool)
    requires Says(lex, ParameterToken, 0, text, afterMinus)
    ensures var word := WordFor(schema, ParameterToken, 0, text, before);
            word != Other ==> Writes(lex, schema, text, word, before, afterMinus)
  {
    hide Quoted, Decoded, ParameterOf, FieldFrom, NameOf, NameText, AnyCase, NumberText, Supplies;
    assert text[0..|text|] == text;
    var value := ParameterOf(schema, text, before);
    if value.Some? {
      ParameterIs(schema, text, before, value.value);
    }
  }

  lemma FixedWrites(lex: Lexicon, schema: Schema, kind: TokenKind, integer: int, text: string, before: nat,
                    afterMinus: bool)
    requires kind != IdentifierToken && kind != StringToken && kind != ParameterToken
    requires Says(lex, kind, integer, text, afterMinus)
    ensures var word := WordFor(schema, kind, integer, text, before);
            word != Other ==> Writes(lex, schema, text, word, before, afterMinus)
  {
    hide Quoted, Decoded, ParameterOf, FieldFrom, NameOf, NameText, AnyCase, NumberText, ParameterText;
  }

  /** A token that has a word is a text for it. */
  lemma SaysWrites(lex: Lexicon, schema: Schema, kind: TokenKind, integer: int, text: string, before: nat,
                   afterMinus: bool)
    requires Says(lex, kind, integer, text, afterMinus)
    ensures var word := WordFor(schema, kind, integer, text, before);
            word != Other ==> Writes(lex, schema, text, word, before, afterMinus)
  {
    hide Says, Writes, WordFor;
    OnlyNumbersCount(lex, kind, integer, text, afterMinus);
    if kind == IdentifierToken {
      NameWrites(lex, schema, text, before, afterMinus);
    } else if kind == StringToken {
      StringWrites(lex, schema, text, before, afterMinus);
    } else if kind == ParameterToken {
      ParameterWrites(lex, schema, text, before, afterMinus);
    } else {
      FixedWrites(lex, schema, kind, integer, text, before, afterMinus);
    }
  }

  lemma OnlyNumbersCount(lex: Lexicon, kind: TokenKind, integer: int, text: string, afterMinus: bool)
    requires Says(lex, kind, integer, text, afterMinus)
    ensures kind != IntegerToken ==> integer == 0
  {
    hide Quoted, AnyCase, NumberText;
  }

  lemma StringReads(text: string)
    requires exists value :: text == Quoted('\'', value)
    ensures text == Quoted('\'', Decoded(text))
  {
    hide Quoted, Decoded;
    var value :| text == Quoted('\'', value);
    DecodedQuoted('\'', value);
  }

  // ----- the words of a source -----

  lemma QuestionSays(lex: Lexicon, kind: TokenKind, integer: int, text: string, afterMinus: bool)
    requires Says(lex, kind, integer, text, afterMinus)
    ensures text == "?" ==> kind == ParameterToken
  {
    hide Says;
    FirstTells(lex, kind, integer, text, afterMinus);
  }

  lemma {:induction false} QuestionsCount(lex: Lexicon, source: string, tokens: seq<Token>, k: nat)
    requires Laid(lex, source, tokens) && k <= |tokens|
    ensures Positionals(source, tokens, k) == Questions(source, SpansOf(tokens), k)
  {
    hide Says, Cut;
    if k > 0 {
      QuestionsCount(lex, source, tokens, k - 1);
      LaidIsTold(lex, source, tokens, k - 1);
      QuestionSays(lex, tokens[k - 1].kind, tokens[k - 1].integer, Slice(source, SpansOf(tokens), k - 1),
                   Preceded(tokens, k - 1));
    }
  }

  lemma {:induction false} PositionalsOf(source: string, tokens: seq<Token>, last: Token, k: nat)
    requires k <= |tokens|
    ensures Positionals(source, tokens + [last], k) == Positionals(source, tokens, k)
  {
    hide IsPositional;
    if k > 0 {
      PositionalsOf(source, tokens, last, k - 1);
    }
  }

  /** The k-th word of a source that is laid out. */
  lemma LaidWord(lex: Lexicon, schema: Schema, source: string, tokens: seq<Token>, k: nat)
    requires Laid(lex, source, tokens) && k < |tokens|
    ensures var spans := SpansOf(tokens);
            Words(source, tokens + [EndToken(source)], schema)[k] ==
            WordFor(schema, tokens[k].kind, tokens[k].integer, Slice(source, spans, k), Questions(source, spans, k))
  {
    hide Laid, WordOf, WordFor, Positionals;
    LaidIsTold(lex, source, tokens, k);
    QuestionsCount(lex, source, tokens, k);
    PositionalsOf(source, tokens, EndToken(source), k);
    WordOfText(source, tokens[k], schema, Positionals(source, tokens, k));
  }

  lemma LastWord(source: string, tokens: seq<Token>, schema: Schema)
    ensures Words(source, tokens + [EndToken(source)], schema)[|tokens|] == Other
  {
  }

  lemma LaidSays(lex: Lexicon, source: string, tokens: seq<Token>, k: nat)
    requires Laid(lex, source, tokens) && k < |tokens|
    ensures Says(lex, tokens[k].kind, tokens[k].integer, Slice(source, SpansOf(tokens), k),
                 Slice(source, SpansOf(tokens), k - 1) == "-")
  {
    LaidIsTold(lex, source, tokens, k);
  }

  /** The words of a source are written in it. */
  lemma WordsAreWritten(lex: Lexicon, schema: Schema, source: string, tokens: seq<Token>, words: seq<Word>)
    requires Laid(lex, source, tokens) && Words(source, tokens + [EndToken(source)], schema) == words + [Other]
    requires Other !in words
    ensures Written(lex, schema, source, SpansOf(tokens), words)
  {
    hide Words, Writes, WordFor, Says, Questions, Slice, Cut;
    var spans := SpansOf(tokens);
    forall k: nat | k < |words|
      ensures WordWritten(lex, schema, source, spans, words[k], k)
    {
      LaidWord(lex, schema, source, tokens, k);
      LaidSays(lex, source, tokens, k);
      assert words[k] in words;
      SaysWrites(lex, schema, tokens[k].kind, tokens[k].integer, Slice(source, spans, k), Questions(source, spans, k),
                 Slice(source, spans, k - 1) == "-");
    }
  }

  ghost function SaidFor(source: string, spans: seq<Span>, words: seq<Word>): seq<(TokenKind, int)> {
    seq(|words|, k requires 0 <= k < |words| => (KindFor(words[k], Slice(source, spans, k)), IntegerFor(words[k])))
  }

  /** What is written in a source are its words. */
  lemma WrittenAreWords(lex: Lexicon, schema: Schema, source: string, spans: seq<Span>, words: seq<Word>)
    requires Written(lex, schema, source, spans, words)
    ensures var tokens := TokensFor(spans, SaidFor(source, spans, words));
            Laid(lex, source, tokens) && Words(source, tokens + [EndToken(source)], schema) == words + [Other]
  {
    hide Words, Writes, WordFor, Says, Questions, Slice, Cut, KindFor, IntegerFor;
    var said := SaidFor(source, spans, words);
    var tokens := TokensFor(spans, said);
    forall k: nat | k < |spans|
      ensures Says(lex, said[k].0, said[k].1, Slice(source, spans, k), Slice(source, spans, k - 1) == "-")
      ensures WordFor(schema, said[k].0, said[k].1, Slice(source, spans, k), Questions(source, spans, k)) == words[k]
    {
      assert WordWritten(lex, schema, source, spans, words[k], k);
      WritesSays(lex, schema, Slice(source, spans, k), words[k], Questions(source, spans, k),
                 Slice(source, spans, k - 1) == "-");
    }
    ToldIsLaid(lex, source, spans, said);
    var all := Words(source, tokens + [EndToken(source)], schema);
    forall k: nat | k < |tokens|
      ensures all[k] == words[k]
    {
      LaidWord(lex, schema, source, tokens, k);
    }
    LastWord(source, tokens, schema);
    assert all == words + [Other];
  }

  /** A source lexes to given words exactly when it is cut into texts for them. */
  lemma WordsExactly(lex: Lexicon, schema: Schema, source: string, words: seq<Word>)
    requires Other !in words
    ensures var lexed := LexFrom(lex, source, 0, []);
            lexed.Lexed? && Words(source, lexed.tokens, schema) == words + [Other] <==>
            |words| + 1 <= lex.maxTokens && exists spans :: Written(lex, schema, source, spans, words)
  {
    hide LexFrom, Words, Written, Laid, SpansOf, TokensFor, SaidFor;
    var lexed := LexFrom(lex, source, 0, []);
    if lexed.Lexed? && Words(source, lexed.tokens, schema) == words + [Other] {
      LexedIsWell(lex, source, lexed.tokens);
      var tokens := lexed.tokens[..|lexed.tokens| - 1];
      assert lexed.tokens == tokens + [EndToken(source)];
      LexesExactly(lex, source, tokens);
      WordsAreWritten(lex, schema, source, tokens, words);
    }
    if |words| + 1 <= lex.maxTokens && exists spans :: Written(lex, schema, source, spans, words) {
      var spans :| Written(lex, schema, source, spans, words);
      WrittenSize(lex, schema, source, spans, words);
      WrittenAreWords(lex, schema, source, spans, words);
      LexesExactly(lex, source, TokensFor(spans, SaidFor(source, spans, words)));
    }
  }

  lemma WrittenSize(lex: Lexicon, schema: Schema, source: string, spans: seq<Span>, words: seq<Word>)
    requires Written(lex, schema, source, spans, words)
    ensures |SaidFor(source, spans, words)| == |spans|
    ensures |TokensFor(spans, SaidFor(source, spans, words))| == |words|
  {
  }
}
