/** CREATE POLICY statements as they are written: which texts stand for each part of the
    print, and that a source shows a print exactly when it is cut into such texts. */
module RlsTexts {
  import opened SqlGrammar
  import opened SqlRoundTrip
  import opened SqlTokens
  import opened SqlLexers
  import opened SqlVocabulary
  import opened SqlTokenSpellings
  import opened SqlSpellings
  import opened SqlTexts
  import opened SqlParsers
  import opened RlsComposition
  import opened RlsGrammar
  import opened RlsSyntax
  import opened RlsAcceptance

  // ----- the texts of a slot -----

  /** A keyword in any case, or one of the signs of a mark. */
  ghost predicate MarkText(kind: TokenKind, text: string) {
    if Keyword(kind) != "" then AnyCase(text, Keyword(kind)) else text in Signs(kind)
  }

  /** Roles that stand for whoever is connected. */
  ghost predicate SessionText(text: string) {
    AnyCase(text, "current_role") || AnyCase(text, "current_user") || AnyCase(text, "session_user")
  }

  ghost predicate SlotText(lex: Lexicon, schema: Schema, text: string, slot: Slot, before: nat, afterMinus: bool) {
    match slot
    case Mark(kind) => MarkText(kind, text)
    case Named(name) => NameText(lex, PostgreSql, text, name)
    case RoleNamed(name) => NameText(lex, PostgreSql, text, name) && !SessionText(text)
    case Spelt(word) => Writes(lex, schema, text, word, before, afterMinus)
  }

  ghost predicate SlotWritten(lex: Lexicon, schema: Schema, source: string, spans: seq<Span>, slot: Slot, k: nat)
    requires k < |spans|
  {
    SlotText(lex, schema, Slice(source, spans, k), slot, Questions(source, spans, k),
             Slice(source, spans, k - 1) == "-")
  }

  /** The source is cut into texts for the slots. */
  ghost predicate SlotsWritten(lex: Lexicon, schema: Schema, source: string, spans: seq<Span>, slots: seq<Slot>) {
    && |spans| == |slots| && Cut(lex, source, spans)
    && forall k: nat :: k < |slots| ==> SlotWritten(lex, schema, source, spans, slots[k], k)
  }

  // ----- slots of a print -----

  predicate SlotOk(slot: Slot) {
    && (slot.Mark? ==> Keyword(slot.kind) != "" || Signs(slot.kind) != [])
    && (slot.Spelt? ==> slot.word != Other)
  }

  ghost predicate SlotsOk(slots: seq<Slot>) {
    forall k :: 0 <= k < |slots| ==> SlotOk(slots[k])
  }

  lemma MarksOk(kind: TokenKind)
    requires kind in {CreateToken, PolicyToken, OnToken, AsToken, PermissiveToken, RestrictiveToken, ForToken, AllToken,
                      SelectToken, InsertToken, UpdateToken, DeleteToken, ToToken, PublicToken, CommaToken, LParenToken,
                      RParenToken, UsingToken, WithToken, CheckToken, SemicolonToken}
    ensures SlotOk(Mark(kind))
  {
  }

  lemma {:induction false} ListOk(roles: seq<Role>)
    requires roles != []
    ensures SlotsOk(PrintList(roles))
  {
    hide SlotOk;
    MarksOk(PublicToken);
    MarksOk(CommaToken);
    NamesOk(roles[0].name);
    if |roles| > 1 {
      ListOk(roles[1..]);
    }
  }

  lemma NamesOk(name: string)
    ensures SlotOk(Named(name)) && SlotOk(RoleNamed(name))
  {
  }

  lemma BodyOk(tree: Ors)
    ensures SlotsOk(PrintBody(tree))
  {
    hide PrintOrs, SlotOk;
    MarksOk(LParenToken);
    MarksOk(RParenToken);
    OrsWords(tree);
    forall k | 0 <= k < |PrintTree(tree)|
      ensures SlotOk(PrintTree(tree)[k])
    {
      assert PrintOrs(tree)[k] in PrintOrs(tree);
      SpeltOk(PrintOrs(tree)[k]);
    }
  }

  lemma SpeltOk(word: Word)
    requires word != Other
    ensures SlotOk(Spelt(word))
  {
  }

  lemma SlotsJoin(a: seq<Slot>, b: seq<Slot>)
    requires SlotsOk(a) && SlotsOk(b)
    ensures SlotsOk(a + b)
  {
  }

  lemma OptionsOk(x: Syntax)
    ensures SlotsOk(PrintHeading(x)) && SlotsOk(PrintOptions(x))
  {
    hide SlotOk, PrintList;
    NamesOk(x.name);
    NamesOk(x.table);
    forall kind | kind in {CreateToken, PolicyToken, OnToken, AsToken, PermissiveToken, RestrictiveToken, ForToken,
                           AllToken, SelectToken, InsertToken, UpdateToken, DeleteToken, ToToken}
      ensures SlotOk(Mark(kind))
    {
      MarksOk(kind);
    }
    if x.roles.Some? && x.roles.value != [] {
      ListOk(x.roles.value);
    }
  }

  lemma ClausesOk(x: Syntax)
    ensures SlotsOk(PrintClauses(x)) && SlotsOk(PrintEnd(x.semicolon))
  {
    hide SlotOk, PrintBody;
    forall kind | kind in {UsingToken, WithToken, CheckToken, SemicolonToken}
      ensures SlotOk(Mark(kind))
    {
      MarksOk(kind);
    }
    if x.using.Given? {
      BodyOk(x.using.tree);
    }
    if x.check.Given? {
      BodyOk(x.check.tree);
    }
  }

  lemma PrintOk(x: Syntax)
    ensures SlotsOk(Print(x))
  {
    hide SlotsOk, PrintHeading, PrintOptions, PrintClauses, PrintEnd;
    OptionsOk(x);
    ClausesOk(x);
    SlotsJoin(PrintHeading(x), PrintOptions(x));
    SlotsJoin(PrintHeading(x) + PrintOptions(x), PrintClauses(x));
    SlotsJoin(PrintHeading(x) + PrintOptions(x) + PrintClauses(x), PrintEnd(x.semicolon));
  }

  lemma {:induction false} PrintAllOk(program: seq<Syntax>)
    ensures SlotsOk(PrintAll(program))
  {
    hide Print, SlotOk;
    if program != [] {
      PrintOk(program[0]);
      PrintAllOk(program[1..]);
      SlotsJoin(Print(program[0]), PrintAll(program[1..]));
    }
  }

  // ----- a token fills a slot exactly when its text stands for it -----

  /** What the text of a slot says. */
  function SlotSaid(slot: Slot, text: string): (TokenKind, int) {
    match slot
    case Mark(kind) => (kind, 0)
    case Named(_) => (IdentifierToken, 0)
    case RoleNamed(_) => (IdentifierToken, 0)
    case Spelt(word) => (KindFor(word, text), IntegerFor(word))
  }

  lemma MarkSays(lex: Lexicon, kind: TokenKind, integer: int, text: string, afterMinus: bool)
    requires Keyword(kind) != "" || Signs(kind) != []
    ensures Says(lex, kind, integer, text, afterMinus) <==> integer == 0 && MarkText(kind, text)
  {
    hide Says, Keyword, Signs;
    if Keyword(kind) != "" {
      SaysKeyword(lex, kind, integer, text, afterMinus);
    } else {
      SaysSign(lex, kind, integer, text, afterMinus);
    }
  }

  lemma NameTextSays(lex: Lexicon, text: string, name: string, afterMinus: bool)
    requires NameText(lex, PostgreSql, text, name)
    ensures Says(lex, IdentifierToken, 0, text, afterMinus)
  {
    hide Quoted, AnyCase, Reserved;
  }

  lemma SlotTextSays(lex: Lexicon, schema: Schema, text: string, slot: Slot, before: nat, afterMinus: bool)
    requires SlotOk(slot) && SlotText(lex, schema, text, slot, before, afterMinus)
    ensures var said := SlotSaid(slot, text); Says(lex, said.0, said.1, text, afterMinus)
  {
    hide Says, Writes, NameText, MarkText, Keyword, Signs, KindFor;
    match slot
    case Mark(kind) => MarkSays(lex, kind, 0, text, afterMinus);
    case Named(name) => NameTextSays(lex, text, name, afterMinus);
    case RoleNamed(name) => NameTextSays(lex, text, name, afterMinus);
    case Spelt(word) => WritesSays(lex, schema, text, word, before, afterMinus);
  }

  /** In PostgreSQL names read the same in statements and in expressions. */
  lemma NormalizedIs(lex: Lexicon, text: string, afterMinus: bool)
    requires lex.dialect == PostgreSql && Says(lex, IdentifierToken, 0, text, afterMinus)
    ensures text != "" && Normalized(text) == NameOf(PostgreSql, text)
  {
    hide Quoted, Folded, Decoded, AnyCase, Reserved;
    forall quote: char, value: string
      ensures |Quoted(quote, value)| >= 2 && Quoted(quote, value)[0] == quote
    {
      QuotedStarts(quote, value);
    }
  }

  lemma SessionIs(text: string)
    requires text != "" && text[0] != '"'
    ensures IsSessionRole(text) <==> SessionText(text)
  {
    hide AnyCase, Folded;
    CaseFolds(text, "current_role");
    CaseFolds(text, "current_user");
    CaseFolds(text, "session_user");
  }

  lemma QuotedIsNoSession(text: string)
    requires text != "" && text[0] == '"'
    ensures !IsSessionRole(text) && !SessionText(text)
  {
    hide Folded;
  }

  lemma SessionExactly(text: string)
    requires text != ""
    ensures IsSessionRole(text) <==> SessionText(text)
  {
    hide IsSessionRole, SessionText;
    if text[0] == '"' {
      QuotedIsNoSession(text);
    } else {
      SessionIs(text);
    }
  }

  ghost function ViewFor(source: string, tokens: seq<Token>, schema: Schema): View {
    var all := tokens + [EndToken(source)];
    View(source, all, Words(source, all, schema))
  }

  lemma MarkFills(lex: Lexicon, schema: Schema, source: string, tokens: seq<Token>, k: nat, kind: TokenKind)
    requires Laid(lex, source, tokens) && k < |tokens| && SlotOk(Mark(kind))
    ensures Fills(ViewFor(source, tokens, schema), k, Mark(kind)) <==>
            MarkText(kind, Slice(source, SpansOf(tokens), k))
  {
    hide Laid, Says, MarkText, Slice, Words, Keyword, Signs;
    var text, afterMinus := Slice(source, SpansOf(tokens), k), Slice(source, SpansOf(tokens), k - 1) == "-";
    LaidSays(lex, source, tokens, k);
    MarkSays(lex, kind, 0, text, afterMinus);
    MarkSays(lex, kind, tokens[k].integer, text, afterMinus);
    assert KindAt(tokens + [EndToken(source)], k) == tokens[k].kind;
    if MarkText(kind, text) {
      SaysOnce(lex, kind, tokens[k].kind, 0, tokens[k].integer, text, afterMinus);
    }
  }

  /** Which name stands at a position. */
  lemma NameStands(lex: Lexicon, source: string, tokens: seq<Token>, k: nat, name: string)
    requires lex.dialect == PostgreSql && Laid(lex, source, tokens) && k < |tokens|
    ensures var all, text := tokens + [EndToken(source)], Slice(source, SpansOf(tokens), k);
            && (NameAt(source, all, k) == Part(name, k + 1) <==> NameText(lex, PostgreSql, text, name))
            && Text(source, all[k]) == text && (NameText(lex, PostgreSql, text, name) ==> text != "")
            && (NameText(lex, PostgreSql, text, name) ==> KindAt(all, k) == IdentifierToken)
  {
    hide Laid, Says, NameText, Slice, Normalized, NameOf;
    var text, afterMinus := Slice(source, SpansOf(tokens), k), Slice(source, SpansOf(tokens), k - 1) == "-";
    var all := tokens + [EndToken(source)];
    assert all[k] == tokens[k];
    LaidSays(lex, source, tokens, k);
    LaidIsTold(lex, source, tokens, k);
    if NameText(lex, PostgreSql, text, name) {
      NameTextSays(lex, text, name, afterMinus);
      SaysOnce(lex, IdentifierToken, tokens[k].kind, 0, tokens[k].integer, text, afterMinus);
    }
    if tokens[k].kind == IdentifierToken {
      OnlyNumbersCount(lex, IdentifierToken, tokens[k].integer, text, afterMinus);
      NormalizedIs(lex, text, afterMinus);
      NameIsText(lex, PostgreSql, text, name, afterMinus);
    }
  }

  lemma RoleStands(lex: Lexicon, source: string, tokens: seq<Token>, k: nat, name: string)
    requires lex.dialect == PostgreSql && Laid(lex, source, tokens) && k < |tokens|
    ensures var all, text := tokens + [EndToken(source)], Slice(source, SpansOf(tokens), k);
            RoleAt(source, all, k) == Part(Role(name, false), k + 1) <==>
            NameText(lex, PostgreSql, text, name) && !SessionText(text)
  {
    hide Laid, NameText, Slice, IsSessionRole, SessionText, NameAt, SpansOf;
    var all, text := tokens + [EndToken(source)], Slice(source, SpansOf(tokens), k);
    NameStands(lex, source, tokens, k, name);
    if NameText(lex, PostgreSql, text, name) {
      SessionExactly(text);
    }
  }

  lemma WordFills(lex: Lexicon, schema: Schema, source: string, tokens: seq<Token>, k: nat, word: Word)
    requires Laid(lex, source, tokens) && k < |tokens| && word != Other
    ensures var spans := SpansOf(tokens);
            Words(source, tokens + [EndToken(source)], schema)[k] == word <==>
            Writes(lex, schema, Slice(source, spans, k), word, Questions(source, spans, k),
                   Slice(source, spans, k - 1) == "-")
  {
    hide Laid, Says, Writes, Slice, Words, WordFor, Questions, KindFor, IntegerFor;
    var spans := SpansOf(tokens);
    var text, before, afterMinus :=
      Slice(source, spans, k), Questions(source, spans, k), Slice(source, spans, k - 1) == "-";
    LaidSays(lex, source, tokens, k);
    LaidWord(lex, schema, source, tokens, k);
    SaysWrites(lex, schema, tokens[k].kind, tokens[k].integer, text, before, afterMinus);
    if Writes(lex, schema, text, word, before, afterMinus) {
      WritesSays(lex, schema, text, word, before, afterMinus);
      SaysOnce(lex, KindFor(word, text), tokens[k].kind, IntegerFor(word), tokens[k].integer, text, afterMinus);
    }
  }

  /** A slot is filled exactly when the text there stands for it. */
  lemma SlotFills(lex: Lexicon, schema: Schema, source: string, tokens: seq<Token>, k: nat, slot: Slot)
    requires lex.dialect == PostgreSql && Laid(lex, source, tokens) && k < |tokens| && SlotOk(slot)
    ensures Fills(ViewFor(source, tokens, schema), k, slot) <==>
            SlotWritten(lex, schema, source, SpansOf(tokens), slot, k)
  {
    hide Laid, Writes, NameText, MarkText, SessionText, Slice, Words, NameAt, RoleAt, KindAt, Questions, SpansOf;
    assert |SpansOf(tokens)| == |tokens| by { SpansSize(tokens); }
    match slot
    case Mark(kind) => MarkFills(lex, schema, source, tokens, k, kind);
    case Named(name) => NameStands(lex, source, tokens, k, name);
    case RoleNamed(name) => RoleStands(lex, source, tokens, k, name);
    case Spelt(word) => WordFills(lex, schema, source, tokens, k, word);
  }

  lemma SpansSize(tokens: seq<Token>)
    ensures |SpansOf(tokens)| == |tokens|
  {
  }

  // ----- a whole source -----

  /** The tokens of a source show the slots, and nothing follows. */
  ghost predicate ShowsAll(v: View, slots: seq<Slot>) {
    Shows(v, 0, slots) && KindAt(v.tokens, |slots|) == EofToken
  }

  lemma ShownIsWritten(lex: Lexicon, schema: Schema, source: string, tokens: seq<Token>, slots: seq<Slot>)
    requires lex.dialect == PostgreSql && Laid(lex, source, tokens) && SlotsOk(slots) && |tokens| == |slots|
    ensures Shows(ViewFor(source, tokens, schema), 0, slots) <==>
            SlotsWritten(lex, schema, source, SpansOf(tokens), slots)
  {
    assert Cut(lex, source, SpansOf(tokens)) && |SpansOf(tokens)| == |tokens|;
    hide Laid, Cut, Fills, SlotWritten, SpansOf, ViewFor;
    var v := ViewFor(source, tokens, schema);
    forall k: nat | k < |slots|
      ensures Fills(v, k, slots[k]) <==> SlotWritten(lex, schema, source, SpansOf(tokens), slots[k], k)
    {
      SlotFills(lex, schema, source, tokens, k, slots[k]);
    }
    if Shows(v, 0, slots) {
      forall k: nat | k < |slots|
        ensures Fills(v, k, slots[k])
      {
        assert Fills(v, 0 + k, slots[k]);
      }
    }
  }

  lemma NoEndSlot(v: View, p: nat, slot: Slot)
    requires SlotOk(slot) && KindAt(v.tokens, p) == EofToken && (p < |v.words| ==> v.words[p] == Other)
    ensures !Fills(v, p, slot)
  {
  }

  /** As many tokens as slots. */
  lemma ShownSize(lex: Lexicon, schema: Schema, source: string, tokens: seq<Token>, slots: seq<Slot>)
    requires WellLexed(source, tokens + [EndToken(source)]) && SlotsOk(slots)
    requires ShowsAll(ViewFor(source, tokens, schema), slots)
    ensures |tokens| == |slots|
  {
    hide Fills, Words, SlotOk, TokensOk;
    if |tokens| < |slots| {
      LastWord(source, tokens, schema);
      NoEndSlot(ViewFor(source, tokens, schema), |tokens|, slots[|tokens|]);
    }
  }

  ghost function SlotsSaid(source: string, spans: seq<Span>, slots: seq<Slot>): seq<(TokenKind, int)> {
    seq(|slots|, k requires 0 <= k < |slots| => SlotSaid(slots[k], Slice(source, spans, k)))
  }

  lemma SlotsTold(lex: Lexicon, schema: Schema, source: string, spans: seq<Span>, slots: seq<Slot>)
    requires SlotsOk(slots) && SlotsWritten(lex, schema, source, spans, slots)
    ensures Told(lex, source, spans, SlotsSaid(source, spans, slots))
  {
    hide Says, SlotText, Slice, Cut, SlotSaid, SlotOk, Questions;
    var said := SlotsSaid(source, spans, slots);
    forall k | 0 <= k < |spans|
      ensures Says(lex, said[k].0, said[k].1, Slice(source, spans, k), Slice(source, spans, k - 1) == "-")
    {
      assert SlotWritten(lex, schema, source, spans, slots[k], k);
      SlotTextSays(lex, schema, Slice(source, spans, k), slots[k], Questions(source, spans, k),
                   Slice(source, spans, k - 1) == "-");
    }
  }

  ghost predicate LexesTo(lex: Lexicon, source: string, schema: Schema, slots: seq<Slot>) {
    var lexed := LexFrom(lex, source, 0, []);
    lexed.Lexed? && ShowsAll(View(source, lexed.tokens, Words(source, lexed.tokens, schema)), slots)
  }

  /** A source shows slots exactly when it is cut into texts for them. */
  lemma SlotsExactly(lex: Lexicon, schema: Schema, source: string, slots: seq<Slot>)
    requires lex.dialect == PostgreSql && SlotsOk(slots)
    ensures LexesTo(lex, source, schema, slots) <==>
            |slots| + 1 <= lex.maxTokens && exists spans :: SlotsWritten(lex, schema, source, spans, slots)
  {
    hide LexFrom, Words, Shows, SlotsWritten, SlotsOk, Laid, WellLexed, SlotsSaid, TokensFor;
    var lexed := LexFrom(lex, source, 0, []);
    if LexesTo(lex, source, schema, slots) {
      LexedIsWell(lex, source, lexed.tokens);
      var tokens := WithoutEnd(source, lexed.tokens);
      LexesExactly(lex, source, tokens);
      ShownSize(lex, schema, source, tokens, slots);
      ShownIsWritten(lex, schema, source, tokens, slots);
    }
    if spans :| |slots| + 1 <= lex.maxTokens && SlotsWritten(lex, schema, source, spans, slots) {
      SlotsTold(lex, schema, source, spans, slots);
      var tokens := SaidTokens(lex, schema, source, spans, slots);
      ToldIsLaid(lex, source, spans, SlotsSaid(source, spans, slots));
      LexesExactly(lex, source, tokens);
      ShownIsWritten(lex, schema, source, tokens, slots);
      assert KindAt(tokens + [EndToken(source)], |slots|) == EofToken;
    }
  }

  lemma WithoutEnd(source: string, all: seq<Token>) returns (tokens: seq<Token>)
    requires WellLexed(source, all)
    ensures tokens == all[..|all| - 1] && all == tokens + [EndToken(source)]
  {
    tokens := all[..|all| - 1];
  }

  lemma SaidTokens(lex: Lexicon, schema: Schema, source: string, spans: seq<Span>, slots: seq<Slot>)
    returns (tokens: seq<Token>)
    requires SlotsWritten(lex, schema, source, spans, slots)
    ensures |SlotsSaid(source, spans, slots)| == |spans| == |slots|
    ensures tokens == TokensFor(spans, SlotsSaid(source, spans, slots)) && |tokens| == |slots|
  {
    tokens := TokensFor(spans, SlotsSaid(source, spans, slots));
  }
}
