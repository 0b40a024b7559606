/** From a semantic table to decisions: validate, lower, compile, and evaluate over a batch.
    Every row is decided as the source says, for SQL expressions and row-level security. */
module PolicyEvaluation {
  import opened Optional
  import opened Truth
  import opened Documents
  import opened Meanings
  import opened Roots
  import opened Lowerers
  import opened Constants
  import opened Candidates
  import opened Compiler
  import opened Facts
  import opened ExecutorGate
  import opened BatchEvaluation
  import opened PolicyMeanings
  import opened PolicyLowering
  import F = FactIndex
  import S = SemanticTables
  import B = SemanticBuilders
  import T = TableShapes
  import Q = SqlFrontend
  import M = SqlMeaning
  import G = SqlGrammar
  import R = RlsFrontend
  import N = RlsAdmission
  import A = RlsAcceptance
  import H = RlsGrammar
  import X = RlsSyntax
  import L = SqlLexers
  import P = SqlTokens

  /** A compiled policy as it is published. */
  datatype Published = Published(doc: Document, compiled: Compiled, index: seq<F.FieldSpec>)

  /** Why compilation can stop. */
  datatype Publication =
    | Unreachable
    | TooManyRecords
    | NotCompiled
    | IndexTooLarge
    | Ready(policy: Published)

  ghost predicate PublishedBy(p: Published, rows: seq<S.Node>, root: nat, kinds: seq<S.ValueKind>,
                              names: seq<Bytes>, last: seq<nat>, trace: Trace) {
    && S.Rooted(rows) && B.RowsTyped(kinds, rows) && Represents(p.doc, rows, root)
    && Accepted(p.doc) && Clean(p.doc) && Typed(p.doc, KindsFor(kinds))
    && CanonicalOk(p.compiled.constants, names, p.doc.literals)
    && CompiledOk(p.doc, p.compiled, last) && Traced(p.doc, p.compiled, trace)
    && F.SpecOk(p.compiled.program, p.compiled.constants, SymbolFields(KindsFor(kinds)), p.index)
  }

  /** The policy is the compiled form of the table's root. */
  ghost predicate Publishes(p: Published, rows: seq<S.Node>, root: nat, kinds: seq<S.ValueKind>) {
    exists names, last, trace :: PublishedBy(p, rows, root, kinds, names, last, trace)
  }

  /** Compile a table. Only a table with a row off its root is refused, and the executor
      admits what comes out; otherwise only sizes stop it. */
  method CompilePolicy(t: B.Table, root: nat, name: string, version: string, kinds: seq<S.ValueKind>,
                       names: seq<Bytes>, hashBytes: Bytes -> nat, hashLiteral: Literal -> nat,
                       hashKey: Key -> nat, ghost rows: seq<S.Node>)
    returns (r: Publication, admitted: bool)
    requires B.TableOk(t, rows) && S.Rooted(rows) && B.RowsTyped(kinds, rows)
    ensures r.Unreachable? <==> !T.Whole(rows, root)
    ensures r.TooManyRecords? <==> T.Whole(rows, root) && !LoweringFits(t, rows, name, version)
    ensures r.NotCompiled? ==> exists doc :: Represents(doc, rows, root) && Clean(doc) && !Compilable(doc, names)
    ensures r.Ready? ==> admitted && Publishes(r.policy, rows, root, kinds)
  {
    hide B.TableOk, S.Rooted, B.RowsTyped, T.Whole, Represents, Accepted, Clean, Typed, CanonicalOk, CompiledOk, Traced,
         F.SpecOk, F.SelectedUses, LoweringFits, Compilable, NarrowGroup;
    admitted := false;
    var whole := T.ValidateReachability(t, root, rows);
    if !whole {
      r := Unreachable;
      return;
    }
    RootOfWhole(rows, root);
    var ok, doc := LowerPolicy(t, root, name, version, kinds, rows);
    if !ok {
      r := TooManyRecords;
      return;
    }
    LowersClean(doc, rows, root, kinds);
    AcceptedIsWhole(doc, rows, root, kinds);
    NoGroupIsNarrow(doc, rows, root, kinds);
    var compiled;
    ghost var last, trace;
    compiled, admitted, last, trace := CompileAndAdmit(doc, names, hashBytes, hashLiteral, hashKey);
    if !compiled.Success? {
      r := NotCompiled;
      return;
    }
    var status, index := LowerIndex(doc, names, KindsFor(kinds), compiled.program, trace);
    if status != Done {
      r := IndexTooLarge;
      return;
    }
    r := Ready(Published(doc, compiled.program, index));
    assert PublishedBy(r.policy, rows, root, kinds, names, last, trace);
  }

  lemma RootOfWhole(rows: seq<S.Node>, root: nat)
    requires T.Whole(rows, root)
    ensures 1 <= root <= |rows|
  {
  }

  /** What row r of a batch says of the declared fields. */
  ghost predicate RowSays(p: Published, kinds: seq<S.ValueKind>, b: Batch, r: nat, facts: S.Facts)
    requires BatchOk(b, p.compiled.constants, KindsFor(kinds)) && r < b.rows
  {
    Says(kinds, FactsAt(b, p.compiled.constants, KindsFor(kinds), r), facts)
  }

  /** Evaluate the asserted root over a batch: every row is decided as the table decides the
      request that the row holds. */
  method EvaluatePolicy(p: Published, kinds: seq<S.ValueKind>, b: Batch, evidence: (nat, Atom) -> Cell, vector: bool,
                        root: nat, ghost rows: seq<S.Node>)
    returns (cells: seq<Cell>)
    requires Publishes(p, rows, root, kinds) && BatchOk(b, p.compiled.constants, KindsFor(kinds))
    ensures |cells| == b.rows && S.Rooted(rows) && 1 <= root <= |rows|
    ensures forall r, facts :: 0 <= r < b.rows && RowSays(p, kinds, b, r, facts) ==>
              SamePlanes(cells[r], S.Meaning(rows, root, facts))
  {
    hide S.Rooted, B.RowsTyped, Represents, Accepted, Clean, Typed, CanonicalOk, CompiledOk, Traced, F.SpecOk, BatchOk,
         Meaning, S.Meaning, FactTruth, FactsAt, AllRoots, Says, SamePlanes;
    ghost var names, last, trace :| PublishedBy(p, rows, root, kinds, names, last, trace);
    RootsOfPolicy(p.doc, rows, root);
    RepresentsSizes(p.doc, rows, root);
    var status;
    status, cells := EvaluateBatch(p.doc, names, KindsFor(kinds), p.compiled, last, trace, p.index, b, evidence, vector,
                                   root);
    forall r, facts | 0 <= r < b.rows && RowSays(p, kinds, b, r, facts)
      ensures SamePlanes(cells[r], S.Meaning(rows, root, facts))
    {
      TableMeaningKept(p.doc, rows, root, kinds, facts, FactsAt(b, p.compiled.constants, KindsFor(kinds), r),
                               EvidenceAt(evidence, r), root);
    }
  }

  // ----- every row of bytes says something -----

  predicate IsText(bytes: seq<nat>) {
    forall k :: 0 <= k < |bytes| ==> bytes[k] < 0x100
  }

  function Text(bytes: seq<nat>): string
    requires IsText(bytes)
  {
    seq(|bytes|, k requires 0 <= k < |bytes| => bytes[k] as char)
  }

  function Decode(literal: Literal): S.Literal
    requires !literal.Timestamp? && (literal.Symbol? ==> IsText(literal.bytes))
  {
    match literal
    case Symbol(bytes) => S.Str(Text(bytes))
    case Integer(value) => S.Int(value)
    case Bool(flag) => S.Bool(flag)
  }

  lemma DecodeInverts(literal: Literal)
    requires !literal.Timestamp? && (literal.Symbol? ==> IsText(literal.bytes))
    ensures Encode(Decode(literal)) == literal
  {
    if literal.Symbol? {
      assert BytesOf(Text(literal.bytes)) == literal.bytes;
    }
  }

  /** The symbols of the batch are byte strings. */
  predicate IsBytes(b: Batch) {
    forall k :: 0 <= k < |b.symbols| ==> IsText(b.symbols[k])
  }

  lemma FactIsText(p: Published, kinds: seq<S.ValueKind>, b: Batch, r: nat, f: nat)
    requires BatchOk(b, p.compiled.constants, KindsFor(kinds)) && r < b.rows && IsBytes(b) && 1 <= f <= |kinds|
    ensures var fact := FactsAt(b, p.compiled.constants, KindsFor(kinds), r)(f);
            || fact == Absent
            || (fact.Known? && !fact.literal.Timestamp? && (fact.literal.Symbol? ==> IsText(fact.literal.bytes)))
  {
    assert ColumnOk(ShardAt(b, f), KindsFor(kinds)[f - 1], b.symbols);
  }

  /** Every row of a batch of bytes holds a request, so the decision is never vacuous. */
  lemma EveryRowSays(p: Published, kinds: seq<S.ValueKind>, b: Batch, r: nat)
    requires BatchOk(b, p.compiled.constants, KindsFor(kinds)) && r < b.rows && IsBytes(b)
    ensures exists facts :: RowSays(p, kinds, b, r, facts)
  {
    hide BatchOk, FactsAt, IsBytes;
    var row := FactsAt(b, p.compiled.constants, KindsFor(kinds), r);
    forall f | 1 <= f <= |kinds|
      ensures row(f) == Absent || (row(f).Known? && !row(f).literal.Timestamp? &&
                                   (row(f).literal.Symbol? ==> IsText(row(f).literal.bytes)))
    {
      FactIsText(p, kinds, b, r, f);
    }
    var facts: S.Facts := map f | 1 <= f <= |kinds| && row(f).Known? :: Decode(row(f).literal);
    forall f | 1 <= f <= |kinds|
      ensures row(f) == if f in facts then Known(Encode(facts[f])) else Absent
    {
      if f in facts {
        DecodeInverts(row(f).literal);
      }
    }
    assert RowSays(p, kinds, b, r, facts);
  }

  // ----- SQL expressions -----

  /** A row is positive where the expression is true, and negative where it is false. */
  ghost predicate DecidesAs(cell: Cell, truth: M.Tri) {
    (cell.positive <==> truth == M.True) && (cell.negative <==> truth == M.False)
  }

  lemma RootDecides(cell: Cell, rows: seq<S.Node>, root: nat, tree: G.Ors, facts: S.Facts)
    requires Q.RootMeans(rows, root, tree) && SamePlanes(cell, S.Meaning(rows, root, facts))
    ensures DecidesAs(cell, M.OrsTruth(tree, facts))
  {
    hide S.Meaning, M.OrsTruth;
    assert S.Meaning(rows, root, facts) == M.Planes(M.OrsTruth(tree, facts));
  }

  /** Compile the source of one expression. Its table is never refused. */
  method CompileSql(lex: L.Lexicon, source: string, schema: P.Schema, limits: S.Limits, base: nat, name: string,
                    version: string, names: seq<Bytes>, hashBytes: Bytes -> nat, hashLiteral: Literal -> nat,
                    hashKey: Key -> nat)
    returns (r: Option<Publication>, root: nat, ghost rows: seq<S.Node>)
    requires P.SchemaOk(schema)
    ensures r.Some? <==> exists tree :: Q.Expresses(lex, source, schema, limits, base, tree)
    ensures r.Some? ==> !r.value.Unreachable?
    ensures r.Some? && r.value.Ready? ==> Publishes(r.value.policy, rows, root, schema.kinds)
    ensures r.Some? ==> forall tree :: Q.Expresses(lex, source, schema, limits, base, tree) ==>
              Q.RootMeans(rows, root, tree)
  {
    hide Q.Expresses, Publishes, B.TableOk, B.RowsTyped, T.Whole, LoweringFits, Represents, Compilable;
    var ok, t;
    ok, root, t, rows := Q.CompileExpression(lex, source, schema, limits, base);
    if !ok {
      r := None;
      return;
    }
    ghost var tree :| Q.Expresses(lex, source, schema, limits, base, tree);
    var publication, admitted := CompilePolicy(t, root, name, version, schema.kinds, names, hashBytes, hashLiteral,
                                               hashKey, rows);
    r := Some(publication);
  }

  /** Evaluating the compiled expression over a batch gives, in every row, its SQL truth for
      the request that the row holds. */
  method EvaluateSql(p: Published, kinds: seq<S.ValueKind>, b: Batch, evidence: (nat, Atom) -> Cell, vector: bool,
                     root: nat, ghost rows: seq<S.Node>, ghost tree: G.Ors)
    returns (cells: seq<Cell>)
    requires Publishes(p, rows, root, kinds) && Q.RootMeans(rows, root, tree)
    requires BatchOk(b, p.compiled.constants, KindsFor(kinds))
    ensures |cells| == b.rows
    ensures forall r, facts :: 0 <= r < b.rows && RowSays(p, kinds, b, r, facts) ==>
              DecidesAs(cells[r], M.OrsTruth(tree, facts))
  {
    hide Publishes, Q.RootMeans, BatchOk, RowSays, SamePlanes, DecidesAs, M.OrsTruth, S.Meaning;
    cells := EvaluatePolicy(p, kinds, b, evidence, vector, root, rows);
    forall r, facts | 0 <= r < b.rows && RowSays(p, kinds, b, r, facts)
      ensures DecidesAs(cells[r], M.OrsTruth(tree, facts))
    {
      RootDecides(cells[r], rows, root, tree, facts);
    }
  }

  // ----- row-level security -----

  /** Compile a source of CREATE POLICY statements. Its table is never refused. */
  method CompileRlsPolicy(lex: L.Lexicon, source: string, schema: P.Schema, commandName: string, roleName: string,
                          limits: S.Limits, base: nat, maxPolicies: nat, name: string, version: string,
                          names: seq<Bytes>, hashBytes: Bytes -> nat, hashLiteral: Literal -> nat, hashKey: Key -> nat)
    returns (r: Option<Publication>, root: nat, ghost rows: seq<S.Node>, ghost program: seq<X.Syntax>)
    requires P.SchemaOk(schema) && lex.dialect == schema.dialect
    ensures r.Some? <==> exists syntax ::
              R.IsRlsSource(lex, source, schema, commandName, roleName, limits, base, maxPolicies, syntax)
    ensures r.Some? ==> R.IsRlsSource(lex, source, schema, commandName, roleName, limits, base, maxPolicies, program)
    ensures r.Some? ==> !r.value.Unreachable?
    ensures r.Some? && r.value.Ready? ==> Publishes(r.value.policy, rows, root, schema.kinds)
    ensures r.Some? ==> R.RootLetsThrough(rows, root, A.Statements(program),
                                          P.FieldFrom(schema.names, commandName, 0),
                                          P.FieldFrom(schema.names, roleName, 0))
  {
    hide Publishes, B.TableOk, B.RowsTyped, T.Whole, LoweringFits, Represents, Compilable, R.IsRlsSource, N.LetsThrough,
         S.Meaning, S.Rooted;
    var ok, t;
    ok, root, t, rows, program := R.CompileRls(lex, source, schema, commandName, roleName, limits, base, maxPolicies);
    if !ok {
      r := None;
      return;
    }
    var publication, admitted := CompilePolicy(t, root, name, version, schema.kinds, names, hashBytes, hashLiteral,
                                               hashKey, rows);
    r := Some(publication);
  }

  /** Evaluating the compiled statements over a batch is positive in exactly the rows whose
      request they let through. */
  method EvaluateRls(p: Published, kinds: seq<S.ValueKind>, b: Batch, evidence: (nat, Atom) -> Cell, vector: bool,
                     root: nat, commandField: nat, roleField: nat, ghost rows: seq<S.Node>,
                     ghost statements: seq<H.Statement>)
    returns (cells: seq<Cell>)
    requires Publishes(p, rows, root, kinds) && R.RootLetsThrough(rows, root, statements, commandField, roleField)
    requires BatchOk(b, p.compiled.constants, KindsFor(kinds))
    ensures |cells| == b.rows
    ensures forall r, facts :: 0 <= r < b.rows && RowSays(p, kinds, b, r, facts) ==>
              (cells[r].positive <==> N.LetsThrough(statements, commandField, roleField, facts))
  {
    hide Publishes, BatchOk, RowSays, N.LetsThrough, S.Meaning, S.Rooted;
    cells := EvaluatePolicy(p, kinds, b, evidence, vector, root, rows);
    forall r, facts | 0 <= r < b.rows && RowSays(p, kinds, b, r, facts)
      ensures cells[r].positive <==> N.LetsThrough(statements, commandField, roleField, facts)
    {
      assert S.Meaning(rows, root, facts).positive <==> N.LetsThrough(statements, commandField, roleField, facts);
    }
  }
}
