/** Compiling one SQL expression: lex, parse and lower, from source text to a root row. */
module SqlFrontend {
  import opened SemanticTables
  import opened SemanticBuilders
  import opened SqlGrammar
  import opened SqlRoundTrip
  import opened SqlMeaning
  import opened SqlAcceptance
  import opened SqlTokens
  import opened SqlLexers
  import opened SqlSpellings
  import opened SqlTexts
  import opened SqlParsers
  import opened TableShapes
  import opened ExpressionShapes

  /** The source is cut into texts for the words of an expression that is typed and within
      the limits. */
  ghost predicate Expresses(lex: Lexicon, source: string, schema: Schema, limits: Limits, base: nat, tree: Ors) {
    && |PrintOrs(tree)| + 1 <= lex.maxTokens && (exists spans :: Written(lex, schema, source, spans, PrintOrs(tree)))
    && OrsTyped(schema.kinds, tree) && OrsNested(tree, 0, limits.maxDepth)
    && Fits(limits, base, EmitOrs(tree, []).nodes)
  }

  /** The words that are written are those the lexer hands to the parser. */
  lemma ExpressesIs(lex: Lexicon, source: string, schema: Schema, limits: Limits, base: nat, tree: Ors)
    ensures var lexed := LexFrom(lex, source, 0, []);
            Expresses(lex, source, schema, limits, base, tree) <==>
            && lexed.Lexed? && PrintOrs(tree) + [Other] == Words(source, lexed.tokens, schema)
            && OrsTyped(schema.kinds, tree) && OrsNested(tree, 0, limits.maxDepth)
            && Fits(limits, base, EmitOrs(tree, []).nodes)
  {
    hide LexFrom, Words, Written, OrsTyped, OrsNested, Fits, EmitOrs, PrintOrs;
    OrsWords(tree);
    WordsExactly(lex, schema, source, PrintOrs(tree));
  }

  /** The rows give the root the truth of the expression, whatever the facts. */
  ghost predicate RootMeans(nodes: seq<Node>, root: nat, tree: Ors) {
    && Rooted(nodes) && 1 <= root <= |nodes|
    && forall facts :: Meaning(nodes, root, facts) == Planes(OrsTruth(tree, facts))
  }

  lemma EndWord(source: string, tokens: seq<Token>, schema: Schema)
    requires WellLexed(source, tokens)
    ensures tokens != [] && TokensOk(source, tokens) && WordAt(Words(source, tokens, schema), |tokens| - 1) == Other
  {
  }

  /** The parse reaches the end exactly on the print of its tree. */
  lemma AcceptedExactly(lex: Lexicon, source: string, schema: Schema, limits: Limits, base: nat, tokens: seq<Token>)
    requires LexFrom(lex, source, 0, []) == Lexed(tokens) && WellLexed(source, tokens)
    ensures var env := Env(Words(source, tokens, schema), schema.kinds, limits, base);
            var r := ParseOrs(env.words, 0);
            && (r.Got? && OrsOk(env, 0, 0, []) && r.next == |tokens| - 1 ==>
                 Expresses(lex, source, schema, limits, base, r.tree))
            && forall tree :: Expresses(lex, source, schema, limits, base, tree) ==>
                 r == Got(tree, |tokens| - 1) && OrsOk(env, 0, 0, [])
  {
    hide *;
    var env := Env(Words(source, tokens, schema), schema.kinds, limits, base);
    var r := ParseOrs(env.words, 0);
    EndWord(source, tokens, schema);
    if r.Got? && OrsOk(env, 0, 0, []) && r.next == |tokens| - 1 {
      OkExpresses(lex, source, schema, env, tokens);
    }
    forall tree | Expresses(lex, source, schema, limits, base, tree)
      ensures r == Got(tree, |tokens| - 1) && OrsOk(env, 0, 0, [])
    {
      ExpressesOk(lex, source, schema, env, tokens, tree);
    }
  }

  lemma PrintedToEnd(ws: seq<Word>, tree: Ors)
    requires ws != [] && ws[|ws| - 1] == Other
    ensures ParseOrs(ws, 0) == Got(tree, |ws| - 1) <==> PrintOrs(tree) + [Other] == ws
  {
    hide PrintOrs, ParseOrs;
    var body := ws[..|ws| - 1];
    assert ws == body + [Other];
    ParsesExactly(body, tree);
    if PrintOrs(tree) + [Other] == ws {
      assert (PrintOrs(tree) + [Other])[..|ws| - 1] == PrintOrs(tree);
    }
  }

  lemma OkExpresses(lex: Lexicon, source: string, schema: Schema, env: Env, tokens: seq<Token>)
    requires LexFrom(lex, source, 0, []) == Lexed(tokens) && env.words == Words(source, tokens, schema)
    requires env.kinds == schema.kinds
    requires tokens != [] && WordAt(env.words, |tokens| - 1) == Other
    requires OrsOk(env, 0, 0, []) && ParseOrs(env.words, 0).next == |tokens| - 1
    ensures ParseOrs(env.words, 0).Got?
    ensures Expresses(lex, source, schema, env.limits, env.base, ParseOrs(env.words, 0).tree)
  {
    hide Words, LexFrom, OrsTyped, OrsNested, EmitOrs, Fits, PrintOrs, ParseOrs, Expresses;
    PrintedToEnd(env.words, ParseOrs(env.words, 0).tree);
    ExpressesIs(lex, source, schema, env.limits, env.base, ParseOrs(env.words, 0).tree);
  }

  lemma ExpressesOk(lex: Lexicon, source: string, schema: Schema, env: Env, tokens: seq<Token>, tree: Ors)
    requires LexFrom(lex, source, 0, []) == Lexed(tokens) && env.words == Words(source, tokens, schema)
    requires env.kinds == schema.kinds
    requires tokens != [] && WordAt(env.words, |tokens| - 1) == Other
    requires Expresses(lex, source, schema, env.limits, env.base, tree)
    ensures ParseOrs(env.words, 0) == Got(tree, |tokens| - 1) && OrsOk(env, 0, 0, [])
  {
    hide Words, LexFrom, OrsTyped, OrsNested, EmitOrs, Fits, PrintOrs, ParseOrs, Expresses;
    PrintedToEnd(env.words, tree);
    ExpressesIs(lex, source, schema, env.limits, env.base, tree);
  }

  lemma LoweredRoot(kinds: seq<ValueKind>, tree: Ors)
    requires OrsTyped(kinds, tree)
    ensures RootMeans(EmitOrs(tree, []).nodes, EmitOrs(tree, []).id, tree)
  {
    hide OrsTyped, EmitOrs, Meaning, Rooted, OrsTruth;
    assert Rooted([]) by { NothingRooted(); }
    forall facts: Facts
      ensures Lowered([], EmitOrs(tree, []), facts, OrsTruth(tree, facts))
    {
      OrsLowered(kinds, tree, [], facts);
    }
    var e := EmitOrs(tree, []);
    assert Lowered([], e, map[], OrsTruth(tree, map[]));
  }

  lemma NothingRooted()
    ensures Rooted([])
  {
  }

  /** Compile an expression. It succeeds exactly on the sources that express something,
      and the root row then has the expression's truth on every row of facts. */
  method CompileExpression(lex: Lexicon, source: string, schema: Schema, limits: Limits, base: nat)
    returns (ok: bool, root: nat, table: Table, ghost nodes: seq<Node>)
    requires SchemaOk(schema)
    ensures ok <==> exists tree :: Expresses(lex, source, schema, limits, base, tree)
    ensures ok ==> TableOk(table, nodes) && forall tree :: Expresses(lex, source, schema, limits, base, tree) ==>
              RootMeans(nodes, root, tree)
    ensures ok ==> RowsTyped(schema.kinds, nodes) && Whole(nodes, root)
  {
    hide Words, LexFrom, WellLexed, OrsOk, ParseOrs, EmitOrs, RootMeans, TableOk, TokensOk, Expresses, Builder.Valid,
         RowsTyped, Whole;
    var lexed := Lex(lex, source);
    var builder := new Builder(schema.kinds, limits, base);
    root, table, nodes := 0, builder.table, [];
    if lexed.LexError? {
      NothingExpressed(lex, source, schema, limits, base);
      ok := false;
      return;
    }
    var tokens := lexed.tokens;
    LexedIsWell(lex, source, tokens);
    EndWord(source, tokens, schema);
    WellLexedEnds(source, tokens);
    AcceptedExactly(lex, source, schema, limits, base, tokens);
    var parser := new Parser(source, tokens, schema, builder);
    ghost var env := parser.Environment();
    root := parser.ParseOr();
    if parser.failed || parser.Current() != EofToken {
      ParseEnds(env, parser.position, root, parser.failed, builder.nodes, tokens);
      ok := false;
      return;
    }
    ParseEnds(env, parser.position, root, parser.failed, builder.nodes, tokens);
    ghost var tree := ParseOrs(env.words, 0).tree;
    ExpressedTyped(lex, source, schema, limits, base, tree);
    LoweredRoot(schema.kinds, tree);
    ExpressionIsWhole(tree);
    BuilderHolds(builder);
    ok, table, nodes := true, builder.table, builder.nodes;
  }

  lemma NothingExpressed(lex: Lexicon, source: string, schema: Schema, limits: Limits, base: nat)
    requires LexFrom(lex, source, 0, []).LexError?
    ensures !exists tree :: Expresses(lex, source, schema, limits, base, tree)
  {
    hide LexFrom, Expresses;
    forall tree
      ensures !Expresses(lex, source, schema, limits, base, tree)
    {
      ExpressesIs(lex, source, schema, limits, base, tree);
    }
  }

  lemma ExpressedTyped(lex: Lexicon, source: string, schema: Schema, limits: Limits, base: nat, tree: Ors)
    requires Expresses(lex, source, schema, limits, base, tree)
    ensures OrsTyped(schema.kinds, tree)
  {
  }

  lemma BuilderHolds(builder: Builder)
    requires builder.Valid()
    ensures TableOk(builder.table, builder.nodes) && RowsTyped(builder.kinds, builder.nodes)
  {
  }

  lemma WellLexedEnds(source: string, tokens: seq<Token>)
    requires WellLexed(source, tokens)
    ensures tokens != [] && forall k: nat :: k <= |tokens| ==> (KindAt(tokens, k) == EofToken <==> k >= |tokens| - 1)
  {
  }

  /** What the end of the parse says of the reference parser. */
  lemma ParseEnds(env: Env, position: nat, id: nat, failed: bool, nodes: seq<Node>, tokens: seq<Token>)
    requires OrsResult(env, 0, 0, [], Outcome(!failed, position, Emitted(nodes, id))) && |env.words| == |tokens| > 0
    requires WordAt(env.words, |tokens| - 1) == Other
    ensures failed <==> !OrsOk(env, 0, 0, [])
    ensures !failed ==>
              var r := ParseOrs(env.words, 0);
              r.Got? && position == r.next < |tokens| && Emitted(nodes, id) == EmitOrs(r.tree, [])
  {
    hide EmitOrs, OrsTyped, OrsNested, FitsIn, ParseOrs;
    if !failed {
      StopsBefore(env.words, 0);
    }
  }

  /** A parse never takes the last word when that has no role. */
  lemma StopsBefore(ws: seq<Word>, p: nat)
    requires ws != [] && ws[|ws| - 1] == Other && ParseOrs(ws, p).Got?
    ensures ParseOrs(ws, p).next < |ws|
  {
    OrsPrints(ws, p);
    var r := ParseOrs(ws, p);
    if r.next == |ws| {
      var text := PrintOrs(r.tree);
      assert text[|text| - 1] == Other by { assert ws[p..p + |text|][|text| - 1] == ws[|ws| - 1]; }
      OrsWords(r.tree);
    }
  }
}
