/** Which sources of CREATE POLICY statements are taken, said of the statements as they are
    written: the source is their print, and the list as a whole keeps the limits. */
module RlsAcceptance {
  import opened SemanticTables
  import opened SemanticBuilders
  import opened SqlAcceptance
  import opened SqlTokens
  import opened SqlParsers
  import opened RlsEmission
  import opened RlsGrammar
  import opened RlsStatements
  import opened RlsSyntax

  // ----- a whole source -----

  function PrintAll(program: seq<Syntax>): seq<Slot> {
    if program == [] then [] else Print(program[0]) + PrintAll(program[1..])
  }

  /** From a position on, the source is the print of the statements. Only the last one
      may do without its semicolon. */
  ghost predicate IsSource(v: View, p: nat, program: seq<Syntax>) {
    && (forall k :: 0 <= k < |program| ==> SyntaxOk(program[k]))
    && (forall k :: 0 <= k < |program| - 1 ==> program[k].semicolon)
    && Shows(v, p, PrintAll(program)) && KindAt(v.tokens, p + |PrintAll(program)|) == EofToken
  }

  function Statements(program: seq<Syntax>): seq<Statement> {
    seq(|program|, k requires 0 <= k < |program| => Denoted(program[k]))
  }

  lemma SourceHead(v: View, p: nat, program: seq<Syntax>)
    requires IsSource(v, p, program) && program != []
    ensures IsStatement(v, p, program[0]) && IsSource(v, p + |Print(program[0])|, program[1..])
  {
    hide Shows, Print, SyntaxOk;
    ShowsConcat(v, p, Print(program[0]), PrintAll(program[1..]));
  }

  lemma SourceCons(v: View, p: nat, x: Syntax, rest: seq<Syntax>)
    requires IsStatement(v, p, x) && IsSource(v, p + |Print(x)|, rest) && (rest != [] ==> x.semicolon)
    ensures IsSource(v, p, [x] + rest)
  {
    hide Shows, Print, SyntaxOk;
    var program := [x] + rest;
    assert program[1..] == rest;
    ShowsConcat(v, p, Print(x), PrintAll(rest));
    forall k | 0 <= k < |program| - 1
      ensures program[k].semicolon
    {
      assert k > 0 ==> program[k] == rest[k - 1];
    }
  }

  /** A statement without a semicolon is the last one. */
  lemma NothingFollows(v: View, p: nat, program: seq<Syntax>)
    requires IsSource(v, p, program) && KindAt(v.tokens, p) == EofToken
    ensures program == []
  {
    if program != [] {
      SourceHead(v, p, program);
      StartsWithCreate(v, p, program[0]);
    }
  }

  lemma StartsWithCreate(v: View, p: nat, x: Syntax)
    requires Shows(v, p, Print(x))
    ensures KindAt(v.tokens, p) == CreateToken
  {
    hide PrintOptions, PrintClauses, PrintEnd;
    assert Print(x)[0] == Mark(CreateToken);
    assert Fills(v, p + 0, Print(x)[0]);
  }

  // ----- the list as a whole -----

  /** What has been collected after a list of statements, apart from the position. */
  function Built(list: seq<Statement>): State {
    if list == [] then START else After(Built(list[..|list| - 1]), list[|list| - 1], 0)
  }

  ghost predicate StepsOk(env: Env, maxPolicies: nat, list: seq<Statement>) {
    list == [] || (StepsOk(env, maxPolicies, list[..|list| - 1]) &&
                   Suits(env, maxPolicies, Built(list[..|list| - 1]), list[|list| - 1]))
  }

  function RoleCount(list: seq<Statement>): nat {
    if list == [] then 0 else RoleCount(list[..|list| - 1]) + |list[|list| - 1].roles|
  }

  /** The bytes of the names and roles. */
  function NameBytes(list: seq<Statement>): nat {
    if list == [] then 0
    else NameBytes(list[..|list| - 1]) + |list[|list| - 1].name| + RoleBytes(list[|list| - 1].roles)
  }

  /** The table of the policies: the first that is not empty. */
  function TableOf(list: seq<Statement>): string {
    if list == [] then ""
    else
      var before := TableOf(list[..|list| - 1]);
      if before == "" then list[|list| - 1].table else before
  }

  predicate NamesDiffer(list: seq<Statement>) {
    forall j, k :: 0 <= j < k < |list| ==> list[j].name != list[k].name
  }

  predicate OneTable(list: seq<Statement>) {
    forall j, k :: 0 <= j < k < |list| ==> list[j].table == "" || list[j].table == list[k].table
  }

  ghost predicate EachFine(env: Env, list: seq<Statement>) {
    forall k :: 0 <= k < |list| ==>
      0 < |list[k].roles| <= MAX_UINT16 && ClauseFine(env, list[k].using) && ClauseFine(env, list[k].check)
  }

  /** The statements have distinct names and one table, each is typed and not too deep,
      and all of them together keep the limits. */
  ghost predicate Suitable(env: Env, maxPolicies: nat, list: seq<Statement>) {
    && NamesDiffer(list) && OneTable(list) && EachFine(env, list)
    && |list| <= maxPolicies && RoleCount(list) <= env.limits.maxChildren
    && (list != [] ==> |TableOf(list)| + NameBytes(list) <= env.limits.maxStringBytes)
    && FitsIn(env, Built(list).nodes)
  }

  /** The totals of what has been collected. */
  lemma {:induction false} BuiltTotals(list: seq<Statement>)
    ensures var s := Built(list);
            && s.table == TableOf(list) && s.roleTotal == RoleCount(list) && s.stringBytes == NameBytes(list)
            && |s.policies| == |s.names| == |list| && forall k :: 0 <= k < |list| ==> s.names[k] == list[k].name
  {
    hide EmitStatement, RoleBytes;
    if list != [] {
      BuiltTotals(list[..|list| - 1]);
    }
  }

  lemma {:induction false} TableMember(list: seq<Statement>)
    requires OneTable(list)
    ensures forall k :: 0 <= k < |list| ==> list[k].table == "" || list[k].table == TableOf(list)
    ensures TableOf(list) != "" ==> exists k :: 0 <= k < |list| && list[k].table == TableOf(list)
  {
    if list != [] {
      var n := |list| - 1;
      var init := list[..n];
      assert forall k :: 0 <= k < n ==> init[k] == list[k];
      TableMember(init);
      if TableOf(init) == "" {
        assert list[n].table == TableOf(list);
      } else {
        var k :| 0 <= k < |init| && init[k].table == TableOf(init);
        assert list[k].table == "" || list[k].table == list[n].table;
        assert list[k].table == TableOf(list);
      }
    }
  }

  lemma NamesStep(list: seq<Statement>)
    requires list != []
    ensures NamesDiffer(list) <==>
            (NamesDiffer(list[..|list| - 1]) && list[|list| - 1].name !in Built(list[..|list| - 1]).names)
  {
    var n := |list| - 1;
    var init := list[..n];
    BuiltTotals(init);
    var names := Built(init).names;
    hide Built, TableOf, RoleCount, NameBytes;
    assert forall k :: 0 <= k < n ==> init[k] == list[k] && names[k] == list[k].name;
  }

  lemma TableStep(list: seq<Statement>)
    requires list != []
    ensures OneTable(list) <==>
            && OneTable(list[..|list| - 1])
            && (TableOf(list[..|list| - 1]) == "" || TableOf(list[..|list| - 1]) == list[|list| - 1].table)
  {
    var n := |list| - 1;
    var init := list[..n];
    assert forall k :: 0 <= k < n ==> init[k] == list[k];
    if OneTable(init) {
      TableMember(init);
    }
    hide TableOf;
    if OneTable(list) && TableOf(init) != "" {
      assert OneTable(init);
      var k :| 0 <= k < |init| && init[k].table == TableOf(init);
      assert list[k].table == "" || list[k].table == list[n].table;
    }
  }

  lemma FineStep(env: Env, list: seq<Statement>)
    requires list != []
    ensures var st := list[|list| - 1];
            EachFine(env, list) <==>
            && EachFine(env, list[..|list| - 1]) && 0 < |st.roles| <= MAX_UINT16 && ClauseFine(env, st.using)
            && ClauseFine(env, st.check)
  {
    hide ClauseFine;
    var n := |list| - 1;
    assert forall k :: 0 <= k < n ==> list[..n][k] == list[k];
  }

  lemma RowsStep(env: Env, list: seq<Statement>)
    requires list != [] && FitsIn(env, Built(list).nodes)
    ensures FitsIn(env, Built(list[..|list| - 1]).nodes)
  {
    hide Fits, EmitStatement;
    var init, st := list[..|list| - 1], list[|list| - 1];
    StatementGrows(st, Built(init).nodes);
    FitsPrefix(env.limits, env.base, Built(init).nodes, Built(list).nodes);
  }

  lemma TotalsStep(list: seq<Statement>)
    requires list != []
    ensures var init, st := list[..|list| - 1], list[|list| - 1];
            && Built(list).nodes == EmitStatement(st, Built(init).nodes).nodes
            && TableOf(list) == TableAfter(Built(init), st)
            && RoleCount(list) == Built(init).roleTotal + |st.roles|
            && NameBytes(list) == Built(init).stringBytes + |st.name| + RoleBytes(st.roles)
            && |Built(init).policies| == |init| && Built(init).table == TableOf(init)
            && Built(init).roleTotal == RoleCount(init)
            && Built(init).stringBytes == NameBytes(init)
  {
    BuiltTotals(list[..|list| - 1]);
    hide EmitStatement, RoleBytes;
  }

  /** Taking the statements one by one is the same as the list being suitable. */
  lemma {:induction false} StepsExactly(env: Env, maxPolicies: nat, list: seq<Statement>)
    ensures StepsOk(env, maxPolicies, list) <==> Suitable(env, maxPolicies, list)
  {
    if list == [] {
      NothingSuits(env, maxPolicies);
    } else {
      StepsExactly(env, maxPolicies, list[..|list| - 1]);
      SuitableStep(env, maxPolicies, list);
    }
  }

  lemma NothingSuits(env: Env, maxPolicies: nat)
    ensures Suitable(env, maxPolicies, [])
  {
  }

  lemma SuitableStep(env: Env, maxPolicies: nat, list: seq<Statement>)
    requires list != []
    ensures Suitable(env, maxPolicies, list) <==>
            Suitable(env, maxPolicies, list[..|list| - 1]) &&
            Suits(env, maxPolicies, Built(list[..|list| - 1]), list[|list| - 1])
  {
    hide NamesDiffer, OneTable, EachFine, RoleCount, NameBytes, TableOf, Built, EmitStatement, ClauseFine, FitsIn,
         RoleBytes;
    NamesStep(list);
    TableStep(list);
    FineStep(env, list);
    TotalsStep(list);
    if FitsIn(env, Built(list).nodes) {
      RowsStep(env, list);
    }
    BytesStep(list);
  }

  lemma BytesStep(list: seq<Statement>)
    requires list != []
    ensures var init := list[..|list| - 1]; |TableOf(init)| + NameBytes(init) <= |TableOf(list)| + NameBytes(list)
  {
    hide RoleBytes;
  }

  // ----- collecting is reading a suitable list -----

  ghost function ViewOf(cx: Context): View {
    View(cx.source, cx.tokens, cx.env.words)
  }

  /** The state holds what the statements so far amount to. */
  ghost predicate Reached(cx: Context, s: State, list: seq<Statement>) {
    s == Built(list).(position := s.position) && StepsOk(cx.env, cx.maxPolicies, list)
  }

  lemma ReachedNext(cx: Context, s: State, list: seq<Statement>, st: Statement, next: nat)
    requires Reached(cx, s, list)
    ensures Suits(cx.env, cx.maxPolicies, s, st) <==> StepsOk(cx.env, cx.maxPolicies, list + [st])
    ensures Suits(cx.env, cx.maxPolicies, s, st) ==> Reached(cx, After(s, st, next), list + [st])
  {
    hide EmitStatement, ClauseFine, FitsIn, RoleBytes;
    assert (list + [st])[..|list|] == list;
  }

  lemma {:induction false} StepsPrefix(env: Env, maxPolicies: nat, list: seq<Statement>, n: nat)
    requires n <= |list| && StepsOk(env, maxPolicies, list)
    ensures StepsOk(env, maxPolicies, list[..n])
    decreases |list|
  {
    hide Suits;
    if n < |list| {
      StepsPrefix(env, maxPolicies, list[..|list| - 1], n);
      assert list[..|list| - 1][..n] == list[..n];
    } else {
      assert list[..n] == list;
    }
  }

  /** What is collected is written in the source, and is suitable as a list. */
  lemma {:induction false} CollectedIsWritten(cx: Context, s: State,
                                              list: seq<Statement>) returns (program: seq<Syntax>)
    requires ViewOk(ViewOf(cx)) && Reached(cx, s, list) && CollectFrom(cx, s, list).Taken?
    ensures IsSource(ViewOf(cx), s.position, program)
    ensures var r := CollectFrom(cx, s, list);
            r.statements == list + Statements(program) && Reached(cx, r.state, r.statements)
    decreases |cx.tokens| - s.position
  {
    hide ReadStatement, Suits, Print, PrintAll, Shows, SyntaxOk, Reached, After, ViewOk;
    var v := ViewOf(cx);
    if KindAt(cx.tokens, s.position) == EofToken {
      program := [];
      NothingWritten(v, s.position);
      assert list + Statements(program) == list;
    } else {
      var r := ReadStatement(cx.source, cx.tokens, cx.env.words, s.position);
      StatementAdvances(cx.source, cx.tokens, cx.env.words, s.position);
      var x := StatementShown(v, s.position);
      ReachedNext(cx, s, list, r.value, r.next);
      AfterPosition(s, r.value, r.next);
      var rest := CollectedIsWritten(cx, After(s, r.value, r.next), list + [r.value]);
      if !x.semicolon {
        NothingFollows(v, r.next, rest);
      }
      SourceCons(v, s.position, x, rest);
      program := [x] + rest;
      StatementsCons(list, x, rest);
    }
  }

  lemma NothingWritten(v: View, p: nat)
    requires KindAt(v.tokens, p) == EofToken
    ensures IsSource(v, p, [])
  {
  }

  lemma StatementsCons(list: seq<Statement>, x: Syntax, rest: seq<Syntax>)
    ensures list + Statements([x] + rest) == list + [Denoted(x)] + Statements(rest)
  {
    hide Denoted;
    assert Statements([x] + rest) == [Denoted(x)] + Statements(rest);
  }

  /** A written list that is suitable is collected. */
  lemma {:induction false} WrittenIsCollected(cx: Context, s: State, list: seq<Statement>, program: seq<Syntax>)
    requires ViewOk(ViewOf(cx)) && Reached(cx, s, list) && IsSource(ViewOf(cx), s.position, program)
    requires StepsOk(cx.env, cx.maxPolicies, list + Statements(program))
    ensures CollectFrom(cx, s, list).Taken? && CollectFrom(cx, s, list).statements == list + Statements(program)
    decreases |program|
  {
    hide ReadStatement, Suits, Print, PrintAll, Shows, SyntaxOk, Reached, After, ViewOk, StepsOk, Denoted;
    var v := ViewOf(cx);
    if program == [] {
      assert list + Statements(program) == list;
      EmptySource(v, s.position);
    } else {
      var x, rest := program[0], program[1..];
      SourceHead(v, s.position, program);
      StartsWithCreate(v, s.position, x);
      StatementReads(v, s.position, x);
      var st, next := Denoted(x), s.position + |Print(x)|;
      assert [x] + rest == program;
      StatementsCons(list, x, rest);
      var longer := list + Statements(program);
      assert longer[..|list| + 1] == list + [st];
      StepsPrefix(cx.env, cx.maxPolicies, longer, |list| + 1);
      ReachedNext(cx, s, list, st, next);
      AfterPosition(s, st, next);
      WrittenIsCollected(cx, After(s, st, next), list + [st], rest);
      StatementAdvances(cx.source, cx.tokens, cx.env.words, s.position);
    }
  }

  lemma EmptySource(v: View, p: nat)
    requires IsSource(v, p, [])
    ensures KindAt(v.tokens, p) == EofToken
  {
  }

  // ----- which sources compile -----

  /** A source of policies: it is the print of at least one statement, the list of them is
      suitable, and the rows composed from it fit. */
  ghost predicate IsPolicySource(cx: Context, program: seq<Syntax>, commandField: nat, roleField: nat) {
    var list := Statements(program);
    && program != [] && IsSource(ViewOf(cx), 0, program) && Suitable(cx.env, cx.maxPolicies, list)
    && FitsIn(cx.env, EmitRoot(Built(list).policies, commandField, roleField, Built(list).nodes).nodes)
  }

  /** Every statement is taken, there is one at least, and the composed rows fit. */
  ghost predicate Composes(cx: Context, commandField: nat, roleField: nat) {
    var r := CollectFrom(cx, START, []);
    && r.Taken?
    && r.state.policies != []
    && FitsIn(cx.env, EmitRoot(r.state.policies, commandField, roleField, r.state.nodes).nodes)
  }

  lemma ReachedStart(cx: Context)
    ensures Reached(cx, START, [])
  {
  }

  lemma ReachedFacts(cx: Context, s: State, list: seq<Statement>)
    requires Reached(cx, s, list)
    ensures s.policies == Built(list).policies && s.nodes == Built(list).nodes && (s.policies == [] <==> list == [])
    ensures Suitable(cx.env, cx.maxPolicies, list)
  {
    hide Built, Suitable;
    BuiltTotals(list);
    StepsExactly(cx.env, cx.maxPolicies, list);
  }

  /** What is composed is a source of policies. */
  lemma ComposedIsSource(cx: Context, commandField: nat, roleField: nat) returns (program: seq<Syntax>)
    requires ViewOk(ViewOf(cx)) && Composes(cx, commandField, roleField)
    ensures IsPolicySource(cx, program, commandField, roleField)
    ensures CollectFrom(cx, START, []).statements == Statements(program)
  {
    hide CollectFrom, IsSource, Suitable, Built, EmitRoot, FitsIn, Reached, ViewOk, ViewOf;
    ReachedStart(cx);
    program := CollectedIsWritten(cx, START, []);
    var r := CollectFrom(cx, START, []);
    assert [] + Statements(program) == Statements(program);
    ReachedFacts(cx, r.state, Statements(program));
  }

  /** A source of policies is composed. */
  lemma SourceIsComposed(cx: Context, program: seq<Syntax>, commandField: nat, roleField: nat)
    requires ViewOk(ViewOf(cx)) && IsPolicySource(cx, program, commandField, roleField)
    ensures Composes(cx, commandField, roleField) && CollectFrom(cx, START, []).statements == Statements(program)
  {
    hide CollectFrom, IsSource, Suitable, Built, EmitRoot, FitsIn, Reached, ViewOk, ViewOf, StepsOk;
    ReachedStart(cx);
    StepsExactly(cx.env, cx.maxPolicies, Statements(program));
    assert [] + Statements(program) == Statements(program);
    WrittenIsCollected(cx, START, [], program);
    var again := CollectedIsWritten(cx, START, []);
    var r := CollectFrom(cx, START, []);
    ReachedFacts(cx, r.state, r.statements);
  }
}
