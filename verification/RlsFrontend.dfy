/** Compiling a source of CREATE POLICY statements into one root row. */
module RlsFrontend {
  import opened SemanticTables
  import opened SemanticBuilders
  import opened SqlAcceptance
  import opened SqlTokens
  import opened SqlLexers
  import opened SqlSpellings
  import opened SqlParsers
  import opened SqlFrontend
  import opened RlsComposition
  import opened RlsAdmission
  import opened RlsEmission
  import opened RlsMeaning
  import opened RlsComposers
  import opened RlsGrammar
  import opened RlsStatements
  import opened RlsSyntax
  import opened RlsAcceptance
  import opened RlsTexts
  import opened RlsParsers
  import opened TableShapes
  import opened RlsShapes

  lemma PhaseSame(a: seq<Policy>, b: seq<Policy>, worths: seq<Worth>, roleField: nat, phase: Phase, facts: Facts)
    requires |a| == |b| == |worths|
    requires forall k :: 0 <= k < |a| ==>
               a[k].permissive == b[k].permissive && a[k].command == b[k].command && a[k].roles == b[k].roles
    ensures PhaseAllowed(a, worths, roleField, phase, facts) ==> PhaseAllowed(b, worths, roleField, phase, facts)
  {
    hide Covers;
    forall k | 0 <= k < |a|
      ensures Grants(a, worths, roleField, phase, facts, k) <==> Grants(b, worths, roleField, phase, facts, k)
      ensures Forbids(a, worths, roleField, phase, facts, k) <==> Forbids(b, worths, roleField, phase, facts, k)
    {
      assert RoleMatches(a[k], roleField, facts) <==> RoleMatches(b[k], roleField, facts);
    }
    hide Grants, Forbids;
    if PhaseAllowed(a, worths, roleField, phase, facts) {
      var k :| 0 <= k < |a| && a[k].permissive && Grants(a, worths, roleField, phase, facts, k);
      assert b[k].permissive && Grants(b, worths, roleField, phase, facts, k);
    }
  }

  lemma AllowedSame(a: seq<Policy>, b: seq<Policy>, worths: seq<Worth>, commandField: nat, roleField: nat, facts: Facts)
    requires |a| == |b| == |worths|
    requires forall k :: 0 <= k < |a| ==>
               a[k].permissive == b[k].permissive && a[k].command == b[k].command && a[k].roles == b[k].roles
    ensures Allowed(a, worths, commandField, roleField, facts) ==> Allowed(b, worths, commandField, roleField, facts)
  {
    hide PhaseAllowed, PhaseName;
    if Allowed(a, worths, commandField, roleField, facts) {
      var phase: Phase :| facts[commandField] == Str(PhaseName(phase)) &&
                          PhaseAllowed(a, worths, roleField, phase, facts);
      PhaseSame(a, b, worths, roleField, phase, facts);
    }
  }

  lemma AdmittedExactly(policies: seq<Policy>, statements: seq<Statement>, commandField: nat, roleField: nat,
                        facts: Facts)
    requires SamePolicies(policies, statements)
    ensures Allowed(policies, Worths(statements), commandField, roleField, facts) <==>
            LetsThrough(statements, commandField, roleField, facts)
  {
    hide Allowed, Worths, LetsThrough;
    AllowedIsLetThrough(statements, commandField, roleField, facts);
    var worths := Worths(statements);
    assert |worths| == |statements| by { WorthsSize(statements); }
    AllowedSame(policies, PoliciesOf(statements), worths, commandField, roleField, facts);
    AllowedSame(PoliciesOf(statements), policies, worths, commandField, roleField, facts);
  }

  lemma WorthsSize(statements: seq<Statement>)
    ensures |Worths(statements)| == |statements|
  {
  }

  /** The declaration with exactly this name; 0 if there is none. */
  method FindDeclared(names: seq<string>, name: string) returns (field: nat)
    ensures field == FieldFrom(names, name, 0)
  {
    for row := 0 to |names|
      invariant FieldFrom(names, name, 0) == FieldFrom(names, name, row)
    {
      if names[row] == name {
        return row + 1;
      }
    }
    field := 0;
  }

  // ----- which sources compile -----

  ghost function ContextOf(source: string, tokens: seq<Token>, schema: Schema, limits: Limits, base: nat,
                           maxPolicies: nat): Context {
    Context(source, tokens, Env(Words(source, tokens, schema), schema.kinds, limits, base), maxPolicies)
  }

  predicate FieldsDeclared(schema: Schema, commandName: string, roleName: string) {
    && schema.dialect == PostgreSql && commandName != "" && roleName != "" && commandName != roleName
    && StringField(schema.kinds, FieldFrom(schema.names, commandName, 0))
    && StringField(schema.kinds, FieldFrom(schema.names, roleName, 0))
  }

  /** The limits do not depend on the words of a source. */
  ghost function Bounds(schema: Schema, limits: Limits, base: nat): Env {
    Env([], schema.kinds, limits, base)
  }

  /** The source is cut into texts for suitable statements, and the two special fields are
      declared. Only the last statement may do without its semicolon. */
  ghost predicate IsRlsSource(lex: Lexicon, source: string, schema: Schema, commandName: string, roleName: string,
                              limits: Limits, base: nat, maxPolicies: nat, program: seq<Syntax>) {
    var list := Statements(program);
    && FieldsDeclared(schema, commandName, roleName) && program != []
    && (forall k :: 0 <= k < |program| ==> SyntaxOk(program[k]))
    && (forall k :: 0 <= k < |program| - 1 ==> program[k].semicolon)
    && |PrintAll(program)| + 1 <= lex.maxTokens
    && (exists spans :: SlotsWritten(lex, schema, source, spans, PrintAll(program)))
    && Suitable(Bounds(schema, limits, base), maxPolicies, list)
    && FitsIn(Bounds(schema, limits, base),
              EmitRoot(Built(list).policies, FieldFrom(schema.names, commandName, 0),
                       FieldFrom(schema.names, roleName, 0), Built(list).nodes).nodes)
  }

  lemma BoundsDecide(a: Env, b: Env, maxPolicies: nat, list: seq<Statement>, nodes: seq<Node>)
    requires a.kinds == b.kinds && a.limits == b.limits && a.base == b.base
    ensures Suitable(a, maxPolicies, list) <==> Suitable(b, maxPolicies, list)
    ensures FitsIn(a, nodes) <==> FitsIn(b, nodes)
  {
    hide Fits, Built;
    FineDecides(a, b, list);
  }

  lemma FineDecides(a: Env, b: Env, list: seq<Statement>)
    requires a.kinds == b.kinds && a.limits == b.limits && a.base == b.base
    ensures EachFine(a, list) <==> EachFine(b, list)
  {
  }

  /** The statements that are written are those the lexer hands to the parser. */
  lemma SourceIs(lex: Lexicon, source: string, schema: Schema, commandName: string, roleName: string, limits: Limits,
                 base: nat, maxPolicies: nat, program: seq<Syntax>)
    requires lex.dialect == schema.dialect
    ensures var lexed := LexFrom(lex, source, 0, []);
            IsRlsSource(lex, source, schema, commandName, roleName, limits, base, maxPolicies, program) <==>
            && FieldsDeclared(schema, commandName, roleName) && lexed.Lexed?
            && IsPolicySource(ContextOf(source, lexed.tokens, schema, limits, base, maxPolicies), program,
                              FieldFrom(schema.names, commandName, 0), FieldFrom(schema.names, roleName, 0))
  {
    hide LexFrom, Words, Suitable, FitsIn, EmitRoot, Built, SlotsWritten, Shows, FieldFrom, SyntaxOk, PrintAll,
         Statements, StringField;
    var lexed := LexFrom(lex, source, 0, []);
    var list, commandField, roleField :=
      Statements(program), FieldFrom(schema.names, commandName, 0), FieldFrom(schema.names, roleName, 0);
    PrintAllOk(program);
    if schema.dialect == PostgreSql {
      SlotsExactly(lex, schema, source, PrintAll(program));
    }
    if lexed.Lexed? {
      BoundsDecide(Bounds(schema, limits, base), ContextOf(source, lexed.tokens, schema, limits, base, maxPolicies).env,
                   maxPolicies, list, EmitRoot(Built(list).policies, commandField, roleField, Built(list).nodes).nodes);
    }
  }

  /** The root is true exactly for the facts that the statements let through. */
  ghost predicate RootLetsThrough(nodes: seq<Node>, root: nat, statements: seq<Statement>, commandField: nat,
                                  roleField: nat) {
    && Rooted(nodes) && 1 <= root <= |nodes|
    && forall facts :: Meaning(nodes, root, facts).positive <==> LetsThrough(statements, commandField, roleField, facts)
  }

  /** Read every statement of a source. */
  method ParseStatements(rls: RlsParser) returns (ghost statements: seq<Statement>)
    requires rls.parser.Valid() && !rls.parser.failed && rls.parser.nesting == 0 && rls.Now() == START
    modifies rls, rls.parser, rls.parser.builder
    ensures rls.parser.Valid()
    ensures !rls.parser.failed <==> CollectFrom(rls.Here(), START, []).Taken?
    ensures !rls.parser.failed ==> CollectFrom(rls.Here(), START, []) == Taken(rls.Now(), statements)
  {
    hide Parser.Valid, StepOk, NextState, CollectFrom;
    ghost var cx := rls.Here();
    statements := [];
    while rls.parser.Current() != EofToken
      invariant rls.parser.Valid() && !rls.parser.failed && rls.parser.nesting == 0
      invariant CollectFrom(cx, rls.Now(), statements) == CollectFrom(cx, START, [])
      decreases |rls.parser.tokens| - rls.parser.position
    {
      ghost var s := rls.Now();
      CollectStep(cx, s, statements);
      rls.ParseStatement();
      if rls.parser.failed {
        return;
      }
      Within(rls.parser);
      statements := statements + [StatementOf(cx, s)];
    }
    CollectEnd(cx, rls.Now(), statements);
  }

  ghost function StatementOf(cx: Context, s: State): Statement {
    var r := ReadStatement(cx.source, cx.tokens, cx.env.words, s.position);
    if r.Part? then r.value else Statement("", "", true, AllCommands, [], Absent, Absent)
  }

  lemma CollectStep(cx: Context, s: State, statements: seq<Statement>)
    requires KindAt(cx.tokens, s.position) != EofToken
    ensures !StepOk(cx, s) ==> CollectFrom(cx, s, statements).Refused?
    ensures StepOk(cx, s) ==>
              && CollectFrom(cx, s, statements) == CollectFrom(cx, NextState(cx, s), statements + [StatementOf(cx, s)])
              && s.position < NextState(cx, s).position
  {
    hide ReadStatement, Takes;
    StatementAdvances(cx.source, cx.tokens, cx.env.words, s.position);
    var r := ReadStatement(cx.source, cx.tokens, cx.env.words, s.position);
    if r.Part? {
      AfterPosition(s, r.value, r.next);
    }
    hide After;
  }

  lemma CollectEnd(cx: Context, s: State, statements: seq<Statement>)
    requires KindAt(cx.tokens, s.position) == EofToken
    ensures CollectFrom(cx, s, statements) == Taken(s, statements)
  {
  }

  lemma Within(parser: Parser)
    requires parser.Valid()
    ensures parser.position <= |parser.tokens|
  {
  }

  /** What was collected means its statements. */
  lemma CollectedMeans(cx: Context, s: State, statements: seq<Statement>)
    requires CollectFrom(cx, START, []) == Taken(s, statements)
    ensures SamePolicies(s.policies, statements) && Rooted(s.nodes)
    ensures PoliciesMean(s.nodes, s.policies, Worths(statements)) && RowsExist(s.nodes, s.policies)
  {
    hide Words, ReadMany, Worths, Means, Rooted, CollectFrom;
    StartIsFaithful(cx);
    CollectingIsFaithful(cx, START, []);
    forall k | 0 <= k < |s.policies|
      ensures 1 <= s.policies[k].using <= |s.nodes| && 1 <= s.policies[k].check <= |s.nodes|
    {
      MeansRooted(s.nodes, s.policies[k].using, Worths(statements)[k].using);
      MeansRooted(s.nodes, s.policies[k].check, Worths(statements)[k].check);
    }
  }

  lemma CollectedIsWhole(cx: Context, s: State, statements: seq<Statement>, commandField: nat, roleField: nat)
    requires CollectFrom(cx, START, []) == Taken(s, statements)
    ensures var e := EmitRoot(s.policies, commandField, roleField, s.nodes); Whole(e.nodes, e.id)
  {
    hide CollectFrom, EmitRoot, Whole;
    assert Collects(START.nodes, START.policies);
    CollectingCollects(cx, START, []);
    RootIsWhole(s.policies, commandField, roleField, s.nodes);
  }

  /** The composed root decides as the statements do. */
  lemma RootAdmits(s: State, statements: seq<Statement>, commandField: nat, roleField: nat)
    requires SamePolicies(s.policies, statements) && Rooted(s.nodes)
    requires PoliciesMean(s.nodes, s.policies, Worths(statements))
    ensures var e := EmitRoot(s.policies, commandField, roleField, s.nodes);
            && Rooted(e.nodes) && 1 <= e.id <= |e.nodes|
            && forall facts :: Meaning(e.nodes, e.id, facts).positive <==>
               LetsThrough(statements, commandField, roleField, facts)
  {
    hide Rooted, SamePolicies, PoliciesMean, Worths, EmitRoot, Meaning, LetsThrough, Allowed;
    ComposedRootDecides(s.policies, Worths(statements), commandField, roleField, s.nodes);
    forall facts: Facts
      ensures Allowed(s.policies, Worths(statements), commandField, roleField, facts) <==>
              LetsThrough(statements, commandField, roleField, facts)
    {
      AdmittedExactly(s.policies, statements, commandField, roleField, facts);
    }
  }

  lemma ComposesExactly(cx: Context, commandField: nat, roleField: nat)
    requires ViewOk(ViewOf(cx))
    ensures Composes(cx, commandField, roleField) <==>
            exists program :: IsPolicySource(cx, program, commandField, roleField)
  {
    hide Composes, IsPolicySource, ViewOk, ViewOf, CollectFrom;
    if Composes(cx, commandField, roleField) {
      var program := ComposedIsSource(cx, commandField, roleField);
    }
    if program :| IsPolicySource(cx, program, commandField, roleField) {
      SourceIsComposed(cx, program, commandField, roleField);
    }
  }

  /** Compile row-level security. It succeeds exactly on a source that is the print of
      suitable statements; the root is then true exactly for the facts that these
      statements let through. */
  method CompileRls(lex: Lexicon, source: string, schema: Schema, commandName: string, roleName: string, limits: Limits,
                    base: nat,
                    maxPolicies: nat)
    returns (ok: bool, root: nat, table: Table, ghost nodes: seq<Node>, ghost program: seq<Syntax>)
    requires SchemaOk(schema) && lex.dialect == schema.dialect
    ensures ok <==> exists syntax ::
              IsRlsSource(lex, source, schema, commandName, roleName, limits, base, maxPolicies, syntax)
    ensures ok ==> IsRlsSource(lex, source, schema, commandName, roleName, limits, base, maxPolicies, program)
    ensures ok ==> TableOk(table, nodes) && RowsTyped(schema.kinds, nodes) && Whole(nodes, root)
    ensures ok ==> RootLetsThrough(nodes, root, Statements(program), FieldFrom(schema.names, commandName, 0),
                                   FieldFrom(schema.names, roleName, 0))
  {
    hide Words, LexFrom, WellLexed, TableOk, TokensOk, Builder.Valid, Parser.Valid, Meaning, Rooted, LetsThrough,
         FieldFrom, Worths,
         Composes, StringField, IsPolicySource, CollectFrom, ViewOk, RowsTyped, Whole, IsRlsSource;
    var builder := new Builder(schema.kinds, limits, base);
    ok, root, table, nodes, program := false, 0, builder.table, [], [];
    var commandField := FindDeclared(schema.names, commandName);
    var roleField := FindDeclared(schema.names, roleName);
    NotASource(lex, source, schema, commandName, roleName, limits, base, maxPolicies);
    if schema.dialect != PostgreSql || commandName == "" || roleName == "" || commandName == roleName
      || !StringField(schema.kinds, commandField) || !StringField(schema.kinds, roleField) {
      return;
    }
    var lexed := Lex(lex, source);
    if lexed.LexError? {
      return;
    }
    LexedIsWell(lex, source, lexed.tokens);
    EndWord(source, lexed.tokens, schema);
    ViewAgrees(source, lexed.tokens, schema);
    ghost var cx := ContextOf(source, lexed.tokens, schema, limits, base, maxPolicies);
    ComposesExactly(cx, commandField, roleField);
    SourceExactly(lex, source, schema, commandName, roleName, limits, base, maxPolicies);
    var parser := new Parser(source, lexed.tokens, schema, builder);
    ghost var statements;
    ok, root, nodes, statements := CompileStatements(parser, commandField, roleField, maxPolicies);
    if ok {
      program := ComposedIsSource(cx, commandField, roleField);
      BuilderHolds(builder);
      table := builder.table;
    }
  }

  lemma NotASource(lex: Lexicon, source: string, schema: Schema, commandName: string, roleName: string, limits: Limits,
                   base: nat, maxPolicies: nat)
    requires lex.dialect == schema.dialect
    ensures !FieldsDeclared(schema, commandName, roleName) || !LexFrom(lex, source, 0, []).Lexed? ==>
              !exists syntax ::
                IsRlsSource(lex, source, schema, commandName, roleName, limits, base, maxPolicies, syntax)
  {
    hide LexFrom, FieldsDeclared, IsPolicySource, ContextOf, FieldFrom, IsRlsSource;
    forall program
      ensures IsRlsSource(lex, source, schema, commandName, roleName, limits, base, maxPolicies, program) ==>
                FieldsDeclared(schema, commandName, roleName) && LexFrom(lex, source, 0, []).Lexed?
    {
      SourceIs(lex, source, schema, commandName, roleName, limits, base, maxPolicies, program);
    }
  }

  lemma SourceExactly(lex: Lexicon, source: string, schema: Schema, commandName: string, roleName: string,
                      limits: Limits, base: nat, maxPolicies: nat)
    requires FieldsDeclared(schema, commandName, roleName) && LexFrom(lex, source, 0, []).Lexed?
    requires lex.dialect == schema.dialect
    ensures var cx := ContextOf(source, LexFrom(lex, source, 0, []).tokens, schema, limits, base, maxPolicies);
            forall program ::
              IsRlsSource(lex, source, schema, commandName, roleName, limits, base, maxPolicies, program) <==>
              IsPolicySource(cx, program, FieldFrom(schema.names, commandName, 0), FieldFrom(schema.names, roleName, 0))
  {
    hide LexFrom, FieldsDeclared, IsPolicySource, ContextOf, FieldFrom, IsRlsSource;
    forall program
      ensures IsRlsSource(lex, source, schema, commandName, roleName, limits, base, maxPolicies, program) <==>
              IsPolicySource(ContextOf(source, LexFrom(lex, source, 0, []).tokens, schema, limits, base, maxPolicies),
                             program, FieldFrom(schema.names, commandName, 0), FieldFrom(schema.names, roleName, 0))
    {
      SourceIs(lex, source, schema, commandName, roleName, limits, base, maxPolicies, program);
    }
  }

  method CompileStatements(parser: Parser, commandField: nat, roleField: nat, maxPolicies: nat)
    returns (ok: bool, root: nat, ghost nodes: seq<Node>, ghost statements: seq<Statement>)
    requires parser.Valid() && !parser.failed && parser.position == 0 && parser.nesting == 0
    requires parser.builder.nodes == []
    requires StringField(parser.schema.kinds, commandField) && StringField(parser.schema.kinds, roleField)
    modifies parser, parser.builder
    ensures parser.builder.Valid()
    ensures ok <==>
            Composes(Context(parser.source, parser.tokens, parser.Environment(), maxPolicies), commandField, roleField)
    ensures ok ==> nodes == parser.builder.nodes && Rooted(nodes) && 1 <= root <= |nodes| && Whole(nodes, root)
    ensures ok ==>
             statements ==
             CollectFrom(Context(parser.source, parser.tokens, parser.Environment(), maxPolicies), START, []).statements
    ensures ok ==> forall facts :: Meaning(nodes, root, facts).positive <==>
            LetsThrough(statements, commandField, roleField, facts)
  {
    hide Words, TokensOk, Positionals, Builder.Valid, Meaning, Rooted, LetsThrough, Worths, CollectFrom, StringField,
         SamePolicies, PoliciesMean, RowsExist, EmitRoot, Fits, Whole, Collects;
    root, nodes := 0, [];
    var rls := new RlsParser(parser, maxPolicies);
    statements := ParseStatements(rls);
    if parser.failed || |rls.policies| == 0 {
      ok := false;
      return;
    }
    ghost var s := rls.Now();
    CollectedMeans(rls.Here(), s, statements);
    RootAdmits(s, statements, commandField, roleField);
    CollectedIsWhole(rls.Here(), s, statements, commandField, roleField);
    var composer := new Composer(parser.builder);
    root := composer.Compose(rls.policies, commandField, roleField);
    ok := !composer.failed;
    nodes := parser.builder.nodes;
  }
}
