/** Collecting CREATE POLICY statements one by one: when a statement is taken, which rows it
    appends, and what its policy is then worth. */
module RlsStatements {
  import opened SemanticTables
  import opened SemanticBuilders
  import opened SqlMeaning
  import opened SqlAcceptance
  import opened SqlTokens
  import opened SqlParsers
  import opened RlsComposition
  import opened RlsMeaning
  import opened RlsGrammar

  // ----- the rows of a statement -----

  function EmitClause(clause: Clause, nodes: seq<Node>): Emitted {
    if clause.Given? then EmitOrs(clause.tree, nodes) else Emitted(nodes, 0)
  }

  /** A clause that is typed and not nested too deeply. */
  predicate ClauseFine(env: Env, clause: Clause) {
    clause.Given? ==>
      OrsTyped(env.kinds, clause.tree) && 1 <= env.limits.maxDepth && OrsNested(clause.tree, 1, env.limits.maxDepth)
  }

  /** Rows and the two roots of a policy. */
  datatype Filled = Filled(nodes: seq<Node>, using: nat, check: nat)

  /** Clauses that were left out take their defaults. */
  function Defaults(command: PolicyCommand, nodes: seq<Node>, using: nat, check: nat): Filled {
    var e := if using != 0 then Emitted(nodes, using)
             else if command == InsertCommand && check != 0 then Emitted(nodes, check)
             else Append(nodes, Boolean(true));
    Filled(e.nodes, e.id, if check != 0 then check else e.id)
  }

  function EmitStatement(st: Statement, nodes: seq<Node>): Filled {
    var using := EmitClause(st.using, nodes);
    var check := EmitClause(st.check, using.nodes);
    Defaults(st.command, check.nodes, using.id, check.id)
  }

  lemma ClauseGrows(clause: Clause, nodes: seq<Node>)
    ensures nodes <= EmitClause(clause, nodes).nodes && (clause.Given? <==> EmitClause(clause, nodes).id != 0)
  {
    hide EmitOrs;
    if clause.Given? {
      OrsExtends(clause.tree, nodes);
    }
  }

  lemma StatementGrows(st: Statement, nodes: seq<Node>)
    ensures var using := EmitClause(st.using, nodes);
            var check := EmitClause(st.check, using.nodes);
            nodes <= using.nodes <= check.nodes && check.nodes <= EmitStatement(st, nodes).nodes
  {
    hide EmitClause;
    ClauseGrows(st.using, nodes);
    ClauseGrows(st.check, EmitClause(st.using, nodes).nodes);
  }

  // ----- what the rows are worth -----

  /** The row of a clause, or none. */
  ghost predicate ClauseRow(nodes: seq<Node>, root: nat, clause: Clause) {
    if clause.Given? then root != 0 && Means(nodes, root, TreeWorth(clause.tree)) else root == 0
  }

  lemma ClauseMeans(env: Env, clause: Clause, nodes: seq<Node>)
    requires Rooted(nodes) && ClauseFine(env, clause)
    ensures var e := EmitClause(clause, nodes); nodes <= e.nodes && Rooted(e.nodes) && ClauseRow(e.nodes, e.id, clause)
  {
    hide Meaning, Rooted, OrsTyped, OrsNested, OrsTruth, EmitOrs;
    if clause.Given? {
      var e := EmitOrs(clause.tree, nodes);
      forall facts: Facts
        ensures Lowered(nodes, e, facts, OrsTruth(clause.tree, facts))
      {
        OrsLowered(env.kinds, clause.tree, nodes, facts);
      }
      assert Lowered(nodes, e, map[], OrsTruth(clause.tree, map[]));
    }
  }

  lemma RowStable(nodes: seq<Node>, more: seq<Node>, root: nat, clause: Clause)
    requires ClauseRow(nodes, root, clause) && nodes <= more && Rooted(more)
    ensures ClauseRow(more, root, clause)
  {
    hide Means, Rooted;
    if clause.Given? {
      MeansStable(nodes, more, root, TreeWorth(clause.tree));
    }
  }

  lemma TrueMeans(nodes: seq<Node>)
    requires Rooted(nodes)
    ensures var more := nodes + [Boolean(true)]; Rooted(more) && Means(more, |more|, TrueWorth())
  {
    BooleanMeans(nodes, true, TrueWorth());
  }

  /** The two roots of a policy are worth its clauses with their defaults. */
  lemma DefaultsMean(st: Statement, nodes: seq<Node>, using: nat, check: nat)
    requires Rooted(nodes) && ClauseRow(nodes, using, st.using) && ClauseRow(nodes, check, st.check)
    ensures var f := Defaults(st.command, nodes, using, check);
            nodes <= f.nodes && Rooted(f.nodes) && Means(f.nodes, f.using, UsingWorth(st)) &&
            Means(f.nodes, f.check, CheckWorth(st))
  {
    hide Means, Rooted, TreeWorth, TrueWorth;
    if using == 0 && !(st.command == InsertCommand && check != 0) {
      TrueMeans(nodes);
      RowStable(nodes, nodes + [Boolean(true)], check, st.check);
    }
  }

  lemma StatementMeans(env: Env, st: Statement, nodes: seq<Node>)
    requires Rooted(nodes) && ClauseFine(env, st.using) && ClauseFine(env, st.check)
    ensures var f := EmitStatement(st, nodes);
            nodes <= f.nodes && Rooted(f.nodes) && Means(f.nodes, f.using, UsingWorth(st)) &&
            Means(f.nodes, f.check, CheckWorth(st))
  {
    hide Means, Rooted, ClauseFine, EmitClause, ClauseRow, Defaults, UsingWorth, CheckWorth;
    var using := EmitClause(st.using, nodes);
    ClauseMeans(env, st.using, nodes);
    var check := EmitClause(st.check, using.nodes);
    ClauseMeans(env, st.check, using.nodes);
    RowStable(using.nodes, check.nodes, using.id, st.using);
    DefaultsMean(st, check.nodes, using.id, check.id);
  }

  // ----- statement by statement -----

  datatype Context = Context(source: string, tokens: seq<Token>, env: Env, maxPolicies: nat)

  /** What has been collected before a position. */
  datatype State = State(
    position: nat,
    table: string,
    names: seq<string>,
    policies: seq<Policy>,
    roleTotal: nat,
    stringBytes: nat,
    nodes: seq<Node>)

  function RoleBytes(roles: seq<Role>): nat {
    if roles == [] then 0 else |roles[0].name| + RoleBytes(roles[1..])
  }

  /** The statement at the position is readable, new, and keeps every limit. */
  ghost predicate Takes(cx: Context, s: State, st: Statement) {
    && ReadStatement(cx.source, cx.tokens, cx.env.words, s.position).Part?
    && ReadStatement(cx.source, cx.tokens, cx.env.words, s.position).value == st
    && Suits(cx.env, cx.maxPolicies, s, st)
  }

  /** The statement is new after what has been collected, and keeps every limit. */
  ghost predicate Suits(env: Env, maxPolicies: nat, s: State, st: Statement) {
    && st.name !in s.names && (s.table == "" || s.table == st.table)
    && 0 < |st.roles| <= MAX_UINT16 && s.roleTotal + |st.roles| <= env.limits.maxChildren
    && ClauseFine(env, st.using) && ClauseFine(env, st.check) && FitsIn(env, EmitStatement(st, s.nodes).nodes)
    && |s.policies| + 1 <= maxPolicies
    && |TableAfter(s, st)| + s.stringBytes + |st.name| + RoleBytes(st.roles) <= env.limits.maxStringBytes
  }

  function TableAfter(s: State, st: Statement): string {
    if s.table == "" then st.table else s.table
  }

  function After(s: State, st: Statement, next: nat): State {
    var f := EmitStatement(st, s.nodes);
    State(
      next,
      TableAfter(s, st),
      s.names + [st.name],
      s.policies + [Policy(st.permissive, st.command, st.roles, f.using, f.check)],
      s.roleTotal + |st.roles|,
      s.stringBytes + |st.name| + RoleBytes(st.roles),
      f.nodes)
  }

  datatype Collected = Refused | Taken(state: State, statements: seq<Statement>)

  /** The statements from a state to the end of the source. */
  ghost function CollectFrom(cx: Context, s: State, statements: seq<Statement>): Collected
    decreases |cx.tokens| - s.position
  {
    if KindAt(cx.tokens, s.position) == EofToken then Taken(s, statements)
    else
      var r := ReadStatement(cx.source, cx.tokens, cx.env.words, s.position);
      StatementAdvances(cx.source, cx.tokens, cx.env.words, s.position);
      if r.Missing? || !Takes(cx, s, r.value) then Refused
      else CollectFrom(cx, After(s, r.value, r.next), statements + [r.value])
  }

  const START: State := State(0, "", [], [], 0, 0, [])

  // ----- what has been collected -----

  function Worths(statements: seq<Statement>): seq<Worth> {
    seq(|statements|, k requires 0 <= k < |statements| => WorthOf(statements[k]))
  }

  ghost predicate SamePolicies(policies: seq<Policy>, statements: seq<Statement>) {
    && |policies| == |statements|
    && forall k :: 0 <= k < |policies| ==>
         && policies[k].permissive == statements[k].permissive
         && policies[k].command == statements[k].command && policies[k].roles == statements[k].roles
  }

  /** No two statements share a name. */
  ghost predicate Distinct(names: seq<string>, statements: seq<Statement>) {
    && |names| == |statements|
    && (forall k :: 0 <= k < |names| ==> names[k] == statements[k].name)
    && forall j, k :: 0 <= j < k < |names| ==> names[j] != names[k]
  }

  /** The state holds the policies of the statements read so far. */
  ghost predicate Faithfully(cx: Context, s: State, statements: seq<Statement>) {
    && StatementsRead(cx.source, cx.tokens, cx.env.words, statements, s.position)
    && SamePolicies(s.policies, statements) && Distinct(s.names, statements)
    && Rooted(s.nodes) && PoliciesMean(s.nodes, s.policies, Worths(statements))
  }

  lemma PoliciesSnoc(nodes: seq<Node>, policies: seq<Policy>, statements: seq<Statement>, policy: Policy, st: Statement)
    requires SamePolicies(policies, statements) && PoliciesMean(nodes, policies, Worths(statements))
    requires policy == Policy(st.permissive, st.command, st.roles, policy.using, policy.check)
    requires Means(nodes, policy.using, UsingWorth(st)) && Means(nodes, policy.check, CheckWorth(st))
    ensures SamePolicies(policies + [policy], statements + [st])
    ensures PoliciesMean(nodes, policies + [policy], Worths(statements + [st]))
  {
    hide Means, UsingWorth, CheckWorth;
    assert Worths(statements + [st]) == Worths(statements) + [WorthOf(st)];
  }

  lemma AfterIsFaithful(cx: Context, s: State, statements: seq<Statement>, st: Statement, next: nat)
    requires Faithfully(cx, s, statements) && Takes(cx, s, st)
    requires ReadStatement(cx.source, cx.tokens, cx.env.words, s.position) == Part(st, next)
    ensures Faithfully(cx, After(s, st, next), statements + [st])
  {
    hide Means, Rooted, ReadStatement, StatementsRead, PoliciesMean, SamePolicies, Worths, ClauseFine, EmitStatement,
         FitsIn, RoleBytes, UsingWorth, CheckWorth;
    var f := EmitStatement(st, s.nodes);
    StatementMeans(cx.env, st, s.nodes);
    PoliciesStable(s.nodes, f.nodes, s.policies, Worths(statements));
    PoliciesSnoc(f.nodes, s.policies, statements, Policy(st.permissive, st.command, st.roles, f.using, f.check), st);
    StatementsSnoc(cx.source, cx.tokens, cx.env.words, statements, s.position, st, next);
  }

  lemma {:induction false} CollectingIsFaithful(cx: Context, s: State, statements: seq<Statement>)
    requires Faithfully(cx, s, statements)
    ensures var r := CollectFrom(cx, s, statements);
            r.Taken? ==> Faithfully(cx, r.state, r.statements) && KindAt(cx.tokens, r.state.position) == EofToken
    decreases |cx.tokens| - s.position
  {
    hide Faithfully, Takes, After, ReadStatement;
    if KindAt(cx.tokens, s.position) != EofToken {
      var r := ReadStatement(cx.source, cx.tokens, cx.env.words, s.position);
      StatementAdvances(cx.source, cx.tokens, cx.env.words, s.position);
      if r.Part? && Takes(cx, s, r.value) {
        AfterIsFaithful(cx, s, statements, r.value, r.next);
        AfterPosition(s, r.value, r.next);
        CollectingIsFaithful(cx, After(s, r.value, r.next), statements + [r.value]);
      }
    }
  }

  lemma AfterPosition(s: State, st: Statement, next: nat)
    ensures After(s, st, next).position == next
  {
  }

  lemma StartIsFaithful(cx: Context)
    ensures Faithfully(cx, START, [])
  {
  }
}
