/** The table that CREATE POLICY statements emit is whole: every row hangs below its root. */
module RlsShapes {
  import opened SemanticTables
  import opened SqlGrammar
  import opened SqlMeaning
  import opened SqlTokens
  import opened SqlParsers
  import opened RlsComposition
  import opened RlsEmission
  import opened RlsStatements
  import opened TableShapes
  import opened ExpressionShapes
  import G = RlsGrammar

  function Ids(list: seq<nat>): set<nat> {
    set x | x in list
  }

  // ----- folds and roles -----

  lemma {:induction false} FoldFromTies(conjunction: bool, ids: seq<nat>, k: nat, left: Emitted, rest: set<nat>)
    requires k <= |ids| && LooseWithin(left.nodes, rest + {left.id} + Ids(ids[k..]))
    ensures var e := FoldFrom(conjunction, ids, k, left); LooseWithin(e.nodes, rest + {e.id})
    decreases |ids| - k
  {
    hide LooseWithin;
    if k < |ids| {
      var later := rest + Ids(ids[k + 1..]);
      assert rest + {left.id} + Ids(ids[k..]) == later + {left.id} + {ids[k]};
      TiePair(left.nodes, conjunction, left.id, ids[k], later);
      var joined := Append(left.nodes, Group(conjunction, [left.id, ids[k]]));
      assert later + {joined.id} == rest + {joined.id} + Ids(ids[k + 1..]);
      FoldFromTies(conjunction, ids, k + 1, joined, rest);
    } else {
      assert rest + {left.id} + Ids(ids[k..]) == rest + {left.id};
    }
  }

  lemma FoldTies(conjunction: bool, empty: bool, ids: seq<nat>, nodes: seq<Node>, rest: set<nat>)
    requires LooseWithin(nodes, rest + Ids(ids))
    ensures var e := EmitFold(conjunction, empty, ids, nodes); LooseWithin(e.nodes, rest + {e.id})
  {
    hide LooseWithin, FoldFrom;
    if ids == [] {
      assert rest + Ids(ids) == rest;
      TieLeaf(nodes, Boolean(empty), rest);
    } else {
      assert rest + Ids(ids) == rest + {ids[0]} + Ids(ids[1..]);
      FoldFromTies(conjunction, ids, 1, Emitted(nodes, ids[0]), rest);
    }
  }

  lemma RowTies(rows: Rows, e: Emitted, rest: set<nat>)
    requires LooseWithin(e.nodes, rest + Ids(rows.ids) + {e.id})
    ensures LooseWithin(WithRow(rows, e).nodes, rest + Ids(WithRow(rows, e).ids))
  {
    assert rest + Ids(rows.ids) + {e.id} == rest + Ids(rows.ids + [e.id]);
  }

  lemma {:induction false} NamesTie(roleField: nat, roles: seq<Role>, k: nat, rows: Rows, rest: set<nat>)
    requires k <= |roles| && LooseWithin(rows.nodes, rest + Ids(rows.ids))
    ensures var all := NamesFrom(roleField, roles, k, rows); LooseWithin(all.nodes, rest + Ids(all.ids))
    decreases |roles| - k
  {
    hide LooseWithin, Ids;
    if k < |roles| {
      var node := Compare(roleField, Equal, Str(roles[k].name));
      TieLeaf(rows.nodes, node, rest + Ids(rows.ids));
      RowTies(rows, Append(rows.nodes, node), rest);
      NamesTie(roleField, roles, k + 1, WithRow(rows, Append(rows.nodes, node)), rest);
    }
  }

  lemma RoleTies(policy: Policy, roleField: nat, nodes: seq<Node>, rest: set<nat>)
    requires LooseWithin(nodes, rest)
    ensures var e := EmitRole(policy, roleField, nodes); LooseWithin(e.nodes, rest + {e.id})
  {
    hide LooseWithin, NamesFrom, EmitFold;
    if AnyPublic(policy.roles) {
      TieLeaf(nodes, Boolean(true), rest);
    } else {
      assert rest + Ids([]) == rest;
      NamesTie(roleField, policy.roles, 0, Rows(nodes, []), rest);
      var names := NamesFrom(roleField, policy.roles, 0, Rows(nodes, []));
      FoldTies(false, false, names.ids, names.nodes, rest);
    }
  }

  lemma {:induction false} RolesTie(policies: seq<Policy>, roleField: nat, k: nat, rows: Rows, rest: set<nat>)
    requires k <= |policies| && LooseWithin(rows.nodes, rest + Ids(rows.ids))
    ensures var all := RolesFrom(policies, roleField, k, rows); LooseWithin(all.nodes, rest + Ids(all.ids))
    decreases |policies| - k
  {
    hide LooseWithin, Ids, EmitRole;
    if k < |policies| {
      var e := EmitRole(policies[k], roleField, rows.nodes);
      RoleTies(policies[k], roleField, rows.nodes, rest + Ids(rows.ids));
      RowTies(rows, e, rest);
      RolesTie(policies, roleField, k + 1, WithRow(rows, e), rest);
    }
  }

  // ----- phases: the predicates and roles of the policies may stay loose -----

  /** A policy ties its predicate and its role, so leaving them listed costs nothing. */
  lemma PolicyTies(policy: Policy, phase: Phase, roleRoot: nat, nodes: seq<Node>, rest: set<nat>)
    requires LooseWithin(nodes, rest)
    ensures var e := EmitPolicy(policy, phase, roleRoot, nodes); LooseWithin(e.nodes, rest + {e.id})
  {
    hide LooseWithin;
    var root := if ChecksNewRow(phase) then policy.check else policy.using;
    if policy.permissive {
      Weaken(nodes, rest, rest + {roleRoot} + {root});
      TiePair(nodes, true, roleRoot, root, rest);
    } else {
      var other := Append(nodes, Negation(roleRoot));
      Weaken(nodes, rest, rest + {roleRoot});
      TieNot(Emitted(nodes, roleRoot), rest);
      Weaken(other.nodes, rest + {other.id}, rest + {other.id} + {root});
      TiePair(other.nodes, false, other.id, root, rest);
    }
  }

  lemma Weaken(nodes: seq<Node>, ids: set<nat>, more: set<nat>)
    requires LooseWithin(nodes, ids) && ids <= more
    ensures LooseWithin(nodes, more)
  {
  }

  function ModeIds(modes: Modes): set<nat> {
    Ids(modes.permissive) + Ids(modes.restrictive)
  }

  lemma ModeTies(policy: Policy, phase: Phase, roleRoot: nat, modes: Modes, rest: set<nat>)
    requires LooseWithin(modes.nodes, rest + ModeIds(modes))
    ensures var next := WithPolicy(policy, phase, roleRoot, modes); LooseWithin(next.nodes, rest + ModeIds(next))
  {
    hide LooseWithin, EmitPolicy;
    if Covers(policy.command, phase) {
      var e := EmitPolicy(policy, phase, roleRoot, modes.nodes);
      PolicyTies(policy, phase, roleRoot, modes.nodes, rest + ModeIds(modes));
      var next := WithPolicy(policy, phase, roleRoot, modes);
      assert rest + ModeIds(modes) + {e.id} == rest + ModeIds(next);
    }
  }

  lemma {:induction false} ModesTie(policies: seq<Policy>, phase: Phase, roleRoots: seq<nat>, k: nat, modes: Modes,
                                    rest: set<nat>)
    requires k <= |policies| == |roleRoots| && LooseWithin(modes.nodes, rest + ModeIds(modes))
    ensures var all := ModesFrom(policies, phase, roleRoots, k, modes); LooseWithin(all.nodes, rest + ModeIds(all))
    decreases |policies| - k
  {
    hide LooseWithin, WithPolicy, ModeIds;
    if k < |policies| {
      ModeTies(policies[k], phase, roleRoots[k], modes, rest);
      ModesTie(policies, phase, roleRoots, k + 1, WithPolicy(policies[k], phase, roleRoots[k], modes), rest);
    }
  }

  lemma EffectiveTies(policies: seq<Policy>, phase: Phase, roleRoots: seq<nat>, nodes: seq<Node>, rest: set<nat>)
    requires |policies| == |roleRoots| && LooseWithin(nodes, rest)
    ensures var e := EmitEffective(policies, phase, roleRoots, nodes); LooseWithin(e.nodes, rest + {e.id})
  {
    hide LooseWithin, ModesFrom, EmitFold;
    var none := Modes(nodes, [], []);
    assert rest + ModeIds(none) == rest;
    ModesTie(policies, phase, roleRoots, 0, none, rest);
    var modes := ModesFrom(policies, phase, roleRoots, 0, none);
    assert rest + ModeIds(modes) == rest + Ids(modes.restrictive) + Ids(modes.permissive);
    FoldTies(false, false, modes.permissive, modes.nodes, rest + Ids(modes.restrictive));
    var some := EmitFold(false, false, modes.permissive, modes.nodes);
    assert rest + Ids(modes.restrictive) + {some.id} == rest + {some.id} + Ids(modes.restrictive);
    FoldTies(true, true, modes.restrictive, some.nodes, rest + {some.id});
    var every := EmitFold(true, true, modes.restrictive, some.nodes);
    TiePair(every.nodes, true, some.id, every.id, rest);
  }

  lemma PhaseTies(policies: seq<Policy>, phase: Phase, roleRoots: seq<nat>, commandField: nat, nodes: seq<Node>,
                  rest: set<nat>)
    requires |policies| == |roleRoots| && LooseWithin(nodes, rest)
    ensures var e := EmitPhase(policies, phase, roleRoots, commandField, nodes); LooseWithin(e.nodes, rest + {e.id})
  {
    hide LooseWithin, EmitEffective;
    EffectiveTies(policies, phase, roleRoots, nodes, rest);
    var effective := EmitEffective(policies, phase, roleRoots, nodes);
    var guard := Compare(commandField, Equal, Str(PhaseName(phase)));
    TieLeaf(effective.nodes, guard, rest + {effective.id});
    var guarded := Append(effective.nodes, guard);
    assert rest + {effective.id} + {guarded.id} == rest + {guarded.id} + {effective.id};
    TiePair(guarded.nodes, true, guarded.id, effective.id, rest);
  }

  lemma {:induction false} PhasesTie(policies: seq<Policy>, roleRoots: seq<nat>, commandField: nat, k: nat, rows: Rows,
                                     rest: set<nat>)
    requires |policies| == |roleRoots| && k <= |PHASES| && LooseWithin(rows.nodes, rest + Ids(rows.ids))
    ensures var all := PhasesFrom(policies, roleRoots, commandField, k, rows);
            LooseWithin(all.nodes, rest + Ids(all.ids))
    decreases |PHASES| - k
  {
    hide LooseWithin, Ids, EmitPhase;
    if k < |PHASES| {
      var e := EmitPhase(policies, PHASES[k], roleRoots, commandField, rows.nodes);
      PhaseTies(policies, PHASES[k], roleRoots, commandField, rows.nodes, rest + Ids(rows.ids));
      RowTies(rows, e, rest);
      PhasesTie(policies, roleRoots, commandField, k + 1, WithRow(rows, e), rest);
    }
  }

  // ----- every policy is used -----

  lemma {:induction false} ParentKept(nodes: seq<Node>, more: seq<Node>, id: nat)
    requires HasParent(nodes, id) && nodes <= more
    ensures HasParent(more, id)
  {
    var k :| 0 <= k < |nodes| && id in Children(nodes[k]);
    assert more[k] == nodes[k];
  }

  lemma PolicyUses(policy: Policy, phase: Phase, roleRoot: nat, nodes: seq<Node>)
    ensures var e := EmitPolicy(policy, phase, roleRoot, nodes);
            && nodes <= e.nodes && HasParent(e.nodes, roleRoot)
            && HasParent(e.nodes, if ChecksNewRow(phase) then policy.check else policy.using)
  {
    var e := EmitPolicy(policy, phase, roleRoot, nodes);
    var root := if ChecksNewRow(phase) then policy.check else policy.using;
    assert e.nodes[|e.nodes| - 1].Group? && root == e.nodes[|e.nodes| - 1].children[1];
    assert root in Children(e.nodes[|e.nodes| - 1]);
    if policy.permissive {
      assert roleRoot in Children(e.nodes[|e.nodes| - 1]);
    } else {
      assert e.nodes[|nodes|] == Negation(roleRoot) && roleRoot in Children(e.nodes[|nodes|]);
    }
  }

  /** A phase uses the role and the predicate of every policy that covers it. */
  lemma {:induction false} ModesUse(policies: seq<Policy>, phase: Phase, roleRoots: seq<nat>, k: nat, modes: Modes,
                                    j: nat)
    requires k <= j < |policies| == |roleRoots| && Covers(policies[j].command, phase)
    ensures var all := ModesFrom(policies, phase, roleRoots, k, modes).nodes;
            && HasParent(all, roleRoots[j])
            && HasParent(all, if ChecksNewRow(phase) then policies[j].check else policies[j].using)
    decreases |policies| - k
  {
    hide HasParent, EmitPolicy;
    var next := WithPolicy(policies[k], phase, roleRoots[k], modes);
    if j == k {
      PolicyUses(policies[k], phase, roleRoots[k], modes.nodes);
      ModesGrow(policies, phase, roleRoots, k + 1, next);
      var all := ModesFrom(policies, phase, roleRoots, k + 1, next).nodes;
      ParentKept(next.nodes, all, roleRoots[k]);
      ParentKept(next.nodes, all, if ChecksNewRow(phase) then policies[k].check else policies[k].using);
    } else {
      ModesUse(policies, phase, roleRoots, k + 1, next, j);
    }
  }

  lemma PhaseUses(policies: seq<Policy>, phase: Phase, roleRoots: seq<nat>, commandField: nat, nodes: seq<Node>, j: nat)
    requires j < |policies| == |roleRoots| && Covers(policies[j].command, phase)
    ensures var all := EmitPhase(policies, phase, roleRoots, commandField, nodes).nodes;
            && HasParent(all, roleRoots[j])
            && HasParent(all, if ChecksNewRow(phase) then policies[j].check else policies[j].using)
  {
    hide HasParent, ModesFrom, EmitFold;
    var modes := ModesFrom(policies, phase, roleRoots, 0, Modes(nodes, [], [])).nodes;
    var all := EmitPhase(policies, phase, roleRoots, commandField, nodes).nodes;
    ModesUse(policies, phase, roleRoots, 0, Modes(nodes, [], []), j);
    EffectiveGrows(policies, phase, roleRoots, nodes);
    PhaseGrows(policies, phase, roleRoots, commandField, nodes);
    ParentKept(modes, all, roleRoots[j]);
    ParentKept(modes, all, if ChecksNewRow(phase) then policies[j].check else policies[j].using);
  }

  lemma {:induction false} PhasesUse(policies: seq<Policy>, roleRoots: seq<nat>, commandField: nat, k: nat, rows: Rows,
                                     i: nat, j: nat)
    requires k <= i < |PHASES| && j < |policies| == |roleRoots| && Covers(policies[j].command, PHASES[i])
    ensures var all := PhasesFrom(policies, roleRoots, commandField, k, rows).nodes;
            && HasParent(all, roleRoots[j])
            && HasParent(all, if ChecksNewRow(PHASES[i]) then policies[j].check else policies[j].using)
    decreases |PHASES| - k
  {
    hide HasParent, EmitPhase;
    var e := EmitPhase(policies, PHASES[k], roleRoots, commandField, rows.nodes);
    if i == k {
      PhaseUses(policies, PHASES[k], roleRoots, commandField, rows.nodes, j);
      PhasesGrow(policies, roleRoots, commandField, k + 1, WithRow(rows, e));
      var all := PhasesFrom(policies, roleRoots, commandField, k + 1, WithRow(rows, e)).nodes;
      ParentKept(e.nodes, all, roleRoots[j]);
      ParentKept(e.nodes, all, if ChecksNewRow(PHASES[k]) then policies[j].check else policies[j].using);
    } else {
      PhasesUse(policies, roleRoots, commandField, k + 1, WithRow(rows, e), i, j);
    }
  }

  /** A policy that only reads or only writes new rows has one predicate. */
  predicate Single(policy: Policy) {
    policy.command in {SelectCommand, InsertCommand, DeleteCommand} ==> policy.using == policy.check
  }

  lemma PoliciesUsed(policies: seq<Policy>, roleRoots: seq<nat>, commandField: nat, rows: Rows, j: nat)
    requires j < |policies| == |roleRoots| && Single(policies[j])
    ensures var all := PhasesFrom(policies, roleRoots, commandField, 0, rows).nodes;
            HasParent(all, roleRoots[j]) && HasParent(all, policies[j].using) && HasParent(all, policies[j].check)
  {
    hide HasParent, PhasesFrom;
    assert PHASES[0] == Select && PHASES[1] == Insert && PHASES[2] == UpdateUsing && PHASES[3] == UpdateCheck;
    assert PHASES[4] == Delete;
    match policies[j].command
    case AllCommands =>
      PhasesUse(policies, roleRoots, commandField, 0, rows, 0, j);
      PhasesUse(policies, roleRoots, commandField, 0, rows, 1, j);
    case SelectCommand => PhasesUse(policies, roleRoots, commandField, 0, rows, 0, j);
    case InsertCommand => PhasesUse(policies, roleRoots, commandField, 0, rows, 1, j);
    case UpdateCommand =>
      PhasesUse(policies, roleRoots, commandField, 0, rows, 2, j);
      PhasesUse(policies, roleRoots, commandField, 0, rows, 3, j);
    case DeleteCommand => PhasesUse(policies, roleRoots, commandField, 0, rows, 4, j);
  }

  // ----- statements and the composed root -----

  /** The rows of the policies: their usings and checks. */
  function Predicates(policies: seq<Policy>): set<nat> {
    (set k | 0 <= k < |policies| :: policies[k].using) + set k | 0 <= k < |policies| :: policies[k].check
  }

  /** What statements leave: only the predicates of the policies are loose. */
  ghost predicate Collects(nodes: seq<Node>, policies: seq<Policy>) {
    && LooseWithin(nodes, Predicates(policies))
    && forall k :: 0 <= k < |policies| ==> Single(policies[k])
  }

  lemma ClauseTies(clause: G.Clause, nodes: seq<Node>, ids: set<nat>)
    requires LooseWithin(nodes, ids)
    ensures var e := EmitClause(clause, nodes); LooseWithin(e.nodes, ids + {e.id})
  {
    hide EmitOrs;
    if clause.Given? {
      OrsTie(clause.tree, nodes, ids);
    }
  }

  lemma DefaultsTie(command: PolicyCommand, nodes: seq<Node>, using: nat, check: nat, ids: set<nat>)
    requires LooseWithin(nodes, ids + {using} + {check})
    ensures var f := Defaults(command, nodes, using, check); LooseWithin(f.nodes, ids + {f.using} + {f.check})
  {
    if using == 0 && !(command == InsertCommand && check != 0) {
      TieLeaf(nodes, Boolean(true), ids + {using} + {check});
    }
  }

  lemma StatementTies(st: G.Statement, nodes: seq<Node>, ids: set<nat>)
    requires LooseWithin(nodes, ids)
    ensures var f := EmitStatement(st, nodes); LooseWithin(f.nodes, ids + {f.using} + {f.check})
  {
    hide EmitClause, LooseWithin, Defaults;
    ClauseTies(st.using, nodes, ids);
    var using := EmitClause(st.using, nodes);
    ClauseTies(st.check, using.nodes, ids + {using.id});
    var check := EmitClause(st.check, using.nodes);
    DefaultsTie(st.command, check.nodes, using.id, check.id, ids);
  }

  lemma StatementIsSingle(source: string, tokens: seq<Token>, ws: seq<Word>, p: nat, nodes: seq<Node>)
    requires G.ReadStatement(source, tokens, ws, p).Part?
    ensures var st := G.ReadStatement(source, tokens, ws, p).value;
            var f := EmitStatement(st, nodes);
            Single(Policy(st.permissive, st.command, st.roles, f.using, f.check))
  {
    hide G.ReadHeading, G.ReadOptions, G.ReadEnd, EmitOrs;
  }

  lemma CollectsSnoc(nodes: seq<Node>, policies: seq<Policy>, policy: Policy)
    requires LooseWithin(nodes, Predicates(policies) + {policy.using} + {policy.check}) && Single(policy)
    requires forall k :: 0 <= k < |policies| ==> Single(policies[k])
    ensures Collects(nodes, policies + [policy])
  {
    hide LooseWithin;
    var all := policies + [policy];
    forall x | x in Predicates(policies) + {policy.using} + {policy.check}
      ensures x in Predicates(all)
    {
      if x in Predicates(policies) {
        var k :| 0 <= k < |policies| && (policies[k].using == x || policies[k].check == x);
        assert all[k] == policies[k];
      } else {
        assert all[|policies|] == policy;
      }
    }
    Weaken(nodes, Predicates(policies) + {policy.using} + {policy.check}, Predicates(all));
  }

  lemma {:induction false} CollectingCollects(cx: Context, s: State, statements: seq<G.Statement>)
    requires Collects(s.nodes, s.policies)
    ensures var r := CollectFrom(cx, s, statements); r.Taken? ==> Collects(r.state.nodes, r.state.policies)
    decreases |cx.tokens| - s.position
  {
    hide Collects, Takes, G.ReadStatement, EmitStatement;
    if KindAt(cx.tokens, s.position) != EofToken {
      var r := G.ReadStatement(cx.source, cx.tokens, cx.env.words, s.position);
      G.StatementAdvances(cx.source, cx.tokens, cx.env.words, s.position);
      if r.Part? && Takes(cx, s, r.value) {
        AfterCollects(cx, s, r.value, r.next);
        CollectingCollects(cx, After(s, r.value, r.next), statements + [r.value]);
      }
    }
  }

  lemma AfterCollects(cx: Context, s: State, st: G.Statement, next: nat)
    requires Collects(s.nodes, s.policies)
    requires G.ReadStatement(cx.source, cx.tokens, cx.env.words, s.position) == G.Part(st, next)
    ensures Collects(After(s, st, next).nodes, After(s, st, next).policies)
  {
    hide G.ReadStatement, LooseWithin, EmitStatement, Predicates;
    StatementTies(st, s.nodes, Predicates(s.policies));
    StatementIsSingle(cx.source, cx.tokens, cx.env.words, s.position, s.nodes);
    var f := EmitStatement(st, s.nodes);
    CollectsSnoc(f.nodes, s.policies, Policy(st.permissive, st.command, st.roles, f.using, f.check));
  }

  lemma Tightened(nodes: seq<Node>, ids: set<nat>, rest: set<nat>)
    requires LooseWithin(nodes, rest + ids) && forall id :: id in rest ==> HasParent(nodes, id)
    ensures LooseWithin(nodes, ids)
  {
  }

  /** After all phases only the roots of the phases are loose. */
  lemma PhasesLeaveRoots(policies: seq<Policy>, commandField: nat, roleField: nat, nodes: seq<Node>)
    requires Collects(nodes, policies)
    ensures var roles := RolesFrom(policies, roleField, 0, Rows(nodes, []));
            && |roles.ids| == |policies|
            && var phases := PhasesFrom(policies, roles.ids, commandField, 0, Rows(roles.nodes, []));
            LooseWithin(phases.nodes, Ids(phases.ids))
  {
    hide LooseWithin, RolesFrom, PhasesFrom, HasParent;
    var roles := RolesFrom(policies, roleField, 0, Rows(nodes, []));
    RolesCount(policies, roleField, 0, Rows(nodes, []));
    assert Predicates(policies) + Ids([]) == Predicates(policies);
    RolesTie(policies, roleField, 0, Rows(nodes, []), Predicates(policies));
    var rest := Predicates(policies) + Ids(roles.ids);
    assert rest + Ids([]) == rest;
    PhasesTie(policies, roles.ids, commandField, 0, Rows(roles.nodes, []), rest);
    var phases := PhasesFrom(policies, roles.ids, commandField, 0, Rows(roles.nodes, []));
    forall id | id in rest
      ensures HasParent(phases.nodes, id)
    {
      var j :| 0 <= j < |policies| && id in {policies[j].using, policies[j].check, roles.ids[j]};
      PoliciesUsed(policies, roles.ids, commandField, Rows(roles.nodes, []), j);
    }
    Tightened(phases.nodes, Ids(phases.ids), rest);
  }

  /** The table of composed policies is whole. */
  lemma RootIsWhole(policies: seq<Policy>, commandField: nat, roleField: nat, nodes: seq<Node>)
    requires Collects(nodes, policies)
    ensures var e := EmitRoot(policies, commandField, roleField, nodes); Whole(e.nodes, e.id)
  {
    hide LooseWithin, RolesFrom, PhasesFrom, EmitFold;
    PhasesLeaveRoots(policies, commandField, roleField, nodes);
    var roles := RolesFrom(policies, roleField, 0, Rows(nodes, []));
    var phases := PhasesFrom(policies, roles.ids, commandField, 0, Rows(roles.nodes, []));
    assert {} + Ids(phases.ids) == Ids(phases.ids);
    FoldTies(false, false, phases.ids, phases.nodes, {});
    var some := EmitFold(false, false, phases.ids, phases.nodes);
    assert {} + {some.id} == {some.id};
    TieLeaf(some.nodes, Exists(roleField), {some.id});
    var present := Append(some.nodes, Exists(roleField));
    assert {some.id} + {present.id} == {} + {present.id} + {some.id};
    TiePair(present.nodes, true, present.id, some.id, {});
    assert {} + {|present.nodes| + 1} == {|present.nodes| + 1};
  }
}
