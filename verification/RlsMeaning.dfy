/** What the rows of composed policies mean. */
module RlsMeaning {
  import opened SemanticTables
  import opened SqlMeaning
  import opened RlsComposition
  import opened RlsEmission

  lemma MeansSame(nodes: seq<Node>, id: nat, a: Facts -> Tri, b: Facts -> Tri)
    requires Means(nodes, id, a) && forall facts :: a(facts) == b(facts)
    ensures Means(nodes, id, b)
  {
    hide Meaning;
  }

  lemma CompareMeans(nodes: seq<Node>, field: nat, literal: Literal, truth: Facts -> Tri)
    requires Rooted(nodes) && forall facts :: truth(facts) == Comparison(Equal, facts, field, literal, false)
    ensures var more := nodes + [Compare(field, Equal, literal)]; Means(more, |more|, truth)
  {
    MeansLeaf(nodes, Compare(field, Equal, literal), truth);
  }

  lemma BooleanMeans(nodes: seq<Node>, value: bool, truth: Facts -> Tri)
    requires Rooted(nodes) && forall facts :: truth(facts) == Of(value)
    ensures var more := nodes + [Boolean(value)]; Means(more, |more|, truth)
  {
    MeansLeaf(nodes, Boolean(value), truth);
  }

  function RoleKnown(field: nat, facts: Facts): Tri {
    if field in facts then True else Unknown
  }

  lemma ExistsMeans(nodes: seq<Node>, field: nat, truth: Facts -> Tri)
    requires Rooted(nodes) && forall facts :: truth(facts) == RoleKnown(field, facts)
    ensures var more := nodes + [Exists(field)]; Means(more, |more|, truth)
  {
    MeansLeaf(nodes, Exists(field), truth);
  }

  function FoldWorth(conjunction: bool, empty: bool, truths: seq<Facts -> Tri>): Facts -> Tri {
    facts => FoldTruth(conjunction, empty, truths, facts)
  }

  function RoleWorth(policy: Policy, roleField: nat): Facts -> Tri {
    facts => RoleTruth(policy, roleField, facts)
  }

  function PhaseWorth(policies: seq<Policy>, worths: seq<Worth>, commandField: nat, roleField: nat,
                      phase: Phase): Facts -> Tri
    requires |policies| == |worths|
  {
    facts => PhaseTruth(policies, worths, commandField, roleField, phase, facts)
  }

  function RootWorth(policies: seq<Policy>, worths: seq<Worth>, commandField: nat, roleField: nat): Facts -> Tri
    requires |policies| == |worths|
  {
    facts => RootTruth(policies, worths, commandField, roleField, facts)
  }

  /** Every policy's roots are worth what is claimed. */
  ghost predicate PoliciesMean(nodes: seq<Node>, policies: seq<Policy>, worths: seq<Worth>) {
    && |policies| == |worths|
    && forall k :: 0 <= k < |policies| ==>
      Means(nodes, policies[k].using, worths[k].using) && Means(nodes, policies[k].check, worths[k].check)
  }

  lemma PoliciesStable(nodes: seq<Node>, more: seq<Node>, policies: seq<Policy>, worths: seq<Worth>)
    requires PoliciesMean(nodes, policies, worths) && nodes <= more && Rooted(more)
    ensures PoliciesMean(more, policies, worths)
  {
    hide Means, Rooted;
    forall k | 0 <= k < |policies|
      ensures Means(more, policies[k].using, worths[k].using) && Means(more, policies[k].check, worths[k].check)
    {
      MeansStable(nodes, more, policies[k].using, worths[k].using);
      MeansStable(nodes, more, policies[k].check, worths[k].check);
    }
  }

  function NotWorth(truth: Facts -> Tri): Facts -> Tri {
    facts => TriNot(truth(facts))
  }

  function RoleWorths(policies: seq<Policy>, roleField: nat): seq<Facts -> Tri> {
    seq(|policies|, k requires 0 <= k < |policies| => RoleWorth(policies[k], roleField))
  }

  lemma NamesHave(roleField: nat, roles: seq<Role>)
    ensures var truths := NameTruths(roleField, roles);
            && |truths| == |roles|
            && forall k, facts :: 0 <= k < |roles| ==>
              truths[k](facts) == Comparison(Equal, facts, roleField, Str(roles[k].name), false)
  {
  }

  lemma NoneMean(nodes: seq<Node>)
    ensures AllMean(nodes, [], [])
  {
  }

  lemma RoleFolds(policy: Policy, roleField: nat)
    requires forall j :: 0 <= j < |policy.roles| ==> !policy.roles[j].isPublic
    ensures forall facts ::
              FoldWorth(false, false, NameTruths(roleField, policy.roles))(facts) == RoleWorth(policy, roleField)(facts)
  {
  }

  /** The truth that a covering policy contributes. */
  function RowTruth(policies: seq<Policy>, worths: seq<Worth>, roleField: nat, phase: Phase,
                    row: nat): (truth: Facts -> Tri)
    requires row < |policies| == |worths|
    ensures policies[row].permissive ==>
              forall facts :: truth(facts) == GrantTruth(policies[row], worths[row], roleField, phase, facts)
    ensures !policies[row].permissive ==>
              forall facts :: truth(facts) == ConditionTruth(policies[row], worths[row], roleField, phase, facts)
  {
    var policy, worth := policies[row], worths[row];
    if Covers(policy.command, phase) then
      var truths := ModeTruths(policies, worths, roleField, phase, policy.permissive, row + 1);
      truths[|truths| - 1]
    else if policy.permissive then facts => GrantTruth(policy, worth, roleField, phase, facts)
    else facts => ConditionTruth(policy, worth, roleField, phase, facts)
  }

  lemma ModesStep(policies: seq<Policy>, worths: seq<Worth>, roleField: nat, phase: Phase, row: nat)
    requires row < |policies| == |worths|
    ensures var policy := policies[row];
            var mine, next := ModeTruths(policies, worths, roleField, phase, policy.permissive,
                                         row), ModeTruths(policies, worths, roleField, phase, policy.permissive,
                                         row + 1);
            && ModeTruths(policies, worths, roleField, phase, !policy.permissive, row + 1) ==
               ModeTruths(policies, worths, roleField, phase, !policy.permissive, row)
            && next == (if Covers(policy.command, phase) then mine + [RowTruth(policies, worths, roleField, phase, row)]
                        else mine)
  {
    hide GrantTruth, ConditionTruth, Covers;
    var policy := policies[row];
    var mine, next := ModeTruths(policies, worths, roleField, phase, policy.permissive,
                                 row), ModeTruths(policies, worths, roleField, phase, policy.permissive, row + 1);
    if Covers(policy.command, phase) {
      assert next == mine + [next[|mine|]];
    }
  }

  lemma RowMeans(nodes: seq<Node>, policies: seq<Policy>, worths: seq<Worth>, roleRoots: seq<nat>, roleField: nat,
                 row: nat)
    requires row < |policies| == |worths| && AllMean(nodes, roleRoots, RoleWorths(policies, roleField))
    requires PoliciesMean(nodes, policies, worths)
    ensures |roleRoots| == |policies| && Means(nodes, roleRoots[row], RoleWorth(policies[row], roleField))
    ensures Means(nodes, policies[row].using, worths[row].using) && Means(nodes, policies[row].check, worths[row].check)
  {
    hide Means, RoleWorth;
  }

  function EffectiveWorth(policies: seq<Policy>, worths: seq<Worth>, roleField: nat, phase: Phase): Facts -> Tri
    requires |policies| == |worths|
  {
    facts => TriAnd(
      FoldTruth(false, false, ModeTruths(policies, worths, roleField, phase, true, |policies|), facts),
      FoldTruth(true, true, ModeTruths(policies, worths, roleField, phase, false, |policies|), facts))
  }

  lemma EffectiveJoins(policies: seq<Policy>, worths: seq<Worth>, roleField: nat, phase: Phase)
    requires |policies| == |worths|
    ensures var n := |policies|;
            var a, b := FoldWorth(false, false,
                                  ModeTruths(policies, worths, roleField, phase, true, n)), FoldWorth(true, true,
                                  ModeTruths(policies, worths, roleField, phase, false, n));
            forall facts :: EffectiveWorth(policies, worths, roleField, phase)(facts) ==
              TriJoin(true, a(facts), b(facts))
  {
    hide FoldTruth, ModeTruths;
  }

  function CommandWorth(commandField: nat, phase: Phase): Facts -> Tri {
    facts => Comparison(Equal, facts, commandField, Str(PhaseName(phase)), false)
  }

  lemma PhaseJoins(policies: seq<Policy>, worths: seq<Worth>, commandField: nat, roleField: nat, phase: Phase)
    requires |policies| == |worths|
    ensures var a, b := CommandWorth(commandField, phase), EffectiveWorth(policies, worths, roleField, phase);
            forall facts :: PhaseWorth(policies, worths, commandField, roleField, phase)(facts) ==
              TriJoin(true, a(facts), b(facts))
  {
    hide FoldTruth, ModeTruths, Comparison, PhaseName;
  }

  function KnownWorth(field: nat): Facts -> Tri {
    facts => RoleKnown(field, facts)
  }

  function PhaseWorths(policies: seq<Policy>, worths: seq<Worth>, commandField: nat, roleField: nat): seq<Facts -> Tri>
    requires |policies| == |worths|
  {
    seq(|PHASES|, k requires 0 <= k < |PHASES| => PhaseWorth(policies, worths, commandField, roleField, PHASES[k]))
  }

  lemma RootJoins(policies: seq<Policy>, worths: seq<Worth>, commandField: nat, roleField: nat)
    requires |policies| == |worths|
    ensures var a, b := KnownWorth(roleField),
                                FoldWorth(false, false, PhaseWorths(policies, worths, commandField, roleField));
            forall facts :: RootWorth(policies, worths, commandField, roleField)(facts) ==
              TriJoin(true, a(facts), b(facts))
  {
    hide PhaseTruth, FoldTruth;
    forall facts: Facts
      ensures FoldTruth(false, false, PhaseWorths(policies, worths, commandField, roleField), facts)
           == FoldTruth(false, false, PhaseTruths(policies, worths, commandField, roleField, |PHASES|), facts)
    {
      FoldSame(false, false, PhaseWorths(policies, worths, commandField, roleField),
               PhaseTruths(policies, worths, commandField, roleField, |PHASES|), facts);
    }
  }

  /** A fold depends on the values only. */
  lemma {:induction false} FoldSame(conjunction: bool, empty: bool, a: seq<Facts -> Tri>, b: seq<Facts -> Tri>,
                                    facts: Facts)
    requires |a| == |b| && forall k :: 0 <= k < |a| ==> a[k](facts) == b[k](facts)
    ensures FoldTruth(conjunction, empty, a, facts) == FoldTruth(conjunction, empty, b, facts)
  {
    if |a| > 1 {
      FoldSame(conjunction, empty, a[..|a| - 1], b[..|b| - 1], facts);
    }
  }

  lemma PoliciesSize(nodes: seq<Node>, policies: seq<Policy>, worths: seq<Worth>)
    requires PoliciesMean(nodes, policies, worths)
    ensures |policies| == |worths|
  {
  }

  lemma RootAllows(nodes: seq<Node>, root: nat, policies: seq<Policy>, worths: seq<Worth>, commandField: nat,
                   roleField: nat)
    requires |policies| == |worths| && Means(nodes, root, RootWorth(policies, worths, commandField, roleField))
    ensures Rooted(nodes) && 1 <= root <= |nodes|
    ensures forall facts :: Meaning(nodes, root, facts).positive <==>
            Allowed(policies, worths, commandField, roleField, facts)
  {
    hide Meaning, Rooted, RootTruth, Allowed;
    forall facts: Facts
      ensures Meaning(nodes, root, facts).positive <==> Allowed(policies, worths, commandField, roleField, facts)
    {
      RootDecides(policies, worths, commandField, roleField, facts);
      assert RootWorth(policies, worths, commandField, roleField)(facts) ==
             RootTruth(policies, worths, commandField, roleField, facts);
    }
  }

  lemma FoldUnfolds(conjunction: bool, empty: bool, truths: seq<Facts -> Tri>, n: nat)
    requires n <= |truths|
    ensures n == 0 ==> forall facts :: FoldWorth(conjunction, empty, truths[..n])(facts) == Of(empty)
    ensures n == 0 && truths == [] ==> forall facts :: FoldWorth(conjunction, empty, truths)(facts) == Of(empty)
    ensures n == 1 ==> forall facts :: FoldWorth(conjunction, empty, truths[..n])(facts) == truths[0](facts)
    ensures n > 1 ==> forall facts :: FoldWorth(conjunction, empty, truths[..n])(facts)
                                   == TriJoin(conjunction, FoldWorth(conjunction, empty, truths[..n - 1])(facts),
                                              truths[n - 1](facts))
  {
    if n > 1 {
      assert truths[..n][..n - 1] == truths[..n - 1];
    }
  }

  // ----- the emitted rows mean the composed truth -----

  lemma {:induction false} FoldFromMeans(nodes: seq<Node>, conjunction: bool, empty: bool, ids: seq<nat>,
                                         truths: seq<Facts -> Tri>, k: nat, left: Emitted)
    requires nodes <= left.nodes && Rooted(left.nodes) && AllMean(left.nodes, ids, truths)
    requires 1 <= k <= |ids| && Means(left.nodes, left.id, FoldWorth(conjunction, empty, truths[..k]))
    ensures var e := FoldFrom(conjunction, ids, k, left);
            nodes <= e.nodes && Means(e.nodes, e.id, FoldWorth(conjunction, empty, truths))
    decreases |ids| - k
  {
    hide Means, Rooted, FoldWorth;
    if k == |ids| {
      assert truths[..k] == truths;
    } else {
      var next := Append(left.nodes, Group(conjunction, [left.id, ids[k]]));
      FoldUnfolds(conjunction, empty, truths, k + 1);
      MeansJoin(left.nodes, conjunction, left.id, ids[k], FoldWorth(conjunction, empty, truths[..k]), truths[k],
                FoldWorth(conjunction, empty, truths[..k + 1]));
      MeansRooted(next.nodes, next.id, FoldWorth(conjunction, empty, truths[..k + 1]));
      AllMeanStable(left.nodes, next.nodes, ids, truths);
      FoldFromMeans(nodes, conjunction, empty, ids, truths, k + 1, next);
    }
  }

  lemma MeansRooted(nodes: seq<Node>, id: nat, truth: Facts -> Tri)
    requires Means(nodes, id, truth)
    ensures Rooted(nodes) && 1 <= id <= |nodes|
  {
  }

  lemma FoldMeans(conjunction: bool, empty: bool, ids: seq<nat>, truths: seq<Facts -> Tri>, nodes: seq<Node>)
    requires Rooted(nodes) && AllMean(nodes, ids, truths)
    ensures var e := EmitFold(conjunction, empty, ids, nodes);
            nodes <= e.nodes && Rooted(e.nodes) && Means(e.nodes, e.id, FoldWorth(conjunction, empty, truths))
  {
    hide Means, Rooted, FoldWorth;
    var e := EmitFold(conjunction, empty, ids, nodes);
    if ids == [] {
      FoldUnfolds(conjunction, empty, truths, 0);
      BooleanMeans(nodes, empty, FoldWorth(conjunction, empty, truths));
    } else {
      FoldUnfolds(conjunction, empty, truths, 1);
      MeansSame(nodes, ids[0], truths[0], FoldWorth(conjunction, empty, truths[..1]));
      FoldFromMeans(nodes, conjunction, empty, ids, truths, 1, Emitted(nodes, ids[0]));
    }
    MeansRooted(e.nodes, e.id, FoldWorth(conjunction, empty, truths));
  }

  /** One more row keeps a list of rows. */
  lemma RowsMean(rows: Rows, truths: seq<Facts -> Tri>, k: nat, e: Emitted)
    requires k < |truths| && AllMean(rows.nodes, rows.ids, truths[..k]) && rows.nodes <= e.nodes
    requires Means(e.nodes, e.id, truths[k])
    ensures var more := WithRow(rows, e); Rooted(more.nodes) && AllMean(more.nodes, more.ids, truths[..k + 1])
  {
    hide Means, Rooted;
    MeansRooted(e.nodes, e.id, truths[k]);
    AllMeanStable(rows.nodes, e.nodes, rows.ids, truths[..k]);
    AllMeanSnoc(e.nodes, rows.ids, truths[..k], e.id, truths[k]);
    assert truths[..k + 1] == truths[..k] + [truths[k]];
  }

  lemma {:induction false} NamesMean(roleField: nat, roles: seq<Role>, truths: seq<Facts -> Tri>, k: nat, rows: Rows)
    requires truths == NameTruths(roleField, roles) && k <= |roles| && Rooted(rows.nodes)
    requires AllMean(rows.nodes, rows.ids, truths[..k])
    ensures var all := NamesFrom(roleField, roles, k, rows);
            rows.nodes <= all.nodes && Rooted(all.nodes) && AllMean(all.nodes, all.ids, truths)
    decreases |roles| - k
  {
    hide Means, Rooted, NameTruths, Comparison, AllMean;
    NamesHave(roleField, roles);
    if k == |roles| {
      assert truths[..k] == truths;
    } else {
      var node := Compare(roleField, Equal, Str(roles[k].name));
      CompareMeans(rows.nodes, roleField, Str(roles[k].name), truths[k]);
      RowsMean(rows, truths, k, Append(rows.nodes, node));
      NamesMean(roleField, roles, truths, k + 1, WithRow(rows, Append(rows.nodes, node)));
    }
  }

  lemma RoleMeans(policy: Policy, roleField: nat, nodes: seq<Node>)
    requires Rooted(nodes)
    ensures var e := EmitRole(policy, roleField, nodes);
            nodes <= e.nodes && Means(e.nodes, e.id, RoleWorth(policy, roleField))
  {
    hide Means, Rooted, NameTruths, FoldTruth, FoldWorth, AllMean, NamesFrom, EmitFold;
    if AnyPublic(policy.roles) {
      BooleanMeans(nodes, true, RoleWorth(policy, roleField));
    } else {
      var truths := NameTruths(roleField, policy.roles);
      NoneMean(nodes);
      NamesMean(roleField, policy.roles, truths, 0, Rows(nodes, []));
      var names := NamesFrom(roleField, policy.roles, 0, Rows(nodes, []));
      FoldMeans(false, false, names.ids, truths, names.nodes);
      RoleFolds(policy, roleField);
      var e := EmitFold(false, false, names.ids, names.nodes);
      MeansSame(e.nodes, e.id, FoldWorth(false, false, truths), RoleWorth(policy, roleField));
    }
  }

  lemma {:induction false} RolesMean(policies: seq<Policy>, roleField: nat, k: nat, rows: Rows)
    requires k <= |policies| && Rooted(rows.nodes)
    requires AllMean(rows.nodes, rows.ids, RoleWorths(policies, roleField)[..k])
    ensures var all := RolesFrom(policies, roleField, k, rows);
            rows.nodes <= all.nodes && Rooted(all.nodes) && AllMean(all.nodes, all.ids, RoleWorths(policies, roleField))
    decreases |policies| - k
  {
    hide Means, Rooted, EmitRole, RoleWorth, AllMean;
    var truths := RoleWorths(policies, roleField);
    if k == |policies| {
      assert truths[..k] == truths;
    } else {
      var e := EmitRole(policies[k], roleField, rows.nodes);
      RoleMeans(policies[k], roleField, rows.nodes);
      RowsMean(rows, truths, k, e);
      RolesMean(policies, roleField, k + 1, WithRow(rows, e));
    }
  }

  lemma PolicyMeans(policy: Policy, worth: Worth, phase: Phase, roleRoot: nat, roleField: nat, nodes: seq<Node>,
                    truth: Facts -> Tri)
    requires Means(nodes, roleRoot, RoleWorth(policy, roleField)) && Means(nodes, policy.using, worth.using)
    requires Means(nodes, policy.check, worth.check)
    requires policy.permissive ==> forall facts :: truth(facts) == GrantTruth(policy, worth, roleField, phase, facts)
    requires !policy.permissive ==>
               forall facts :: truth(facts) == ConditionTruth(policy, worth, roleField, phase, facts)
    ensures var e := EmitPolicy(policy, phase, roleRoot, nodes); nodes <= e.nodes && Means(e.nodes, e.id, truth)
  {
    hide Means, Rooted, RoleTruth;
    var root := if ChecksNewRow(phase) then policy.check else policy.using;
    var predicateTruth := if ChecksNewRow(phase) then worth.check else worth.using;
    var role := RoleWorth(policy, roleField);
    if policy.permissive {
      MeansJoin(nodes, true, roleRoot, root, role, predicateTruth, truth);
    } else {
      var other := Append(nodes, Negation(roleRoot));
      MeansNot(nodes, roleRoot, role, NotWorth(role));
      MeansRooted(other.nodes, other.id, NotWorth(role));
      MeansStable(nodes, other.nodes, root, predicateTruth);
      MeansJoin(other.nodes, false, other.id, root, NotWorth(role), predicateTruth, truth);
    }
  }

  /** The lists of both modes hold the truths of the first n policies. */
  ghost predicate ModesMean(modes: Modes, policies: seq<Policy>, worths: seq<Worth>, roleField: nat, phase: Phase,
                            n: nat)
    requires n <= |policies| == |worths|
  {
    && AllMean(modes.nodes, modes.permissive, ModeTruths(policies, worths, roleField, phase, true, n))
    && AllMean(modes.nodes, modes.restrictive, ModeTruths(policies, worths, roleField, phase, false, n))
  }

  ghost predicate InputsMean(nodes: seq<Node>, policies: seq<Policy>, worths: seq<Worth>, roleRoots: seq<nat>,
                             roleField: nat) {
    && PoliciesMean(nodes, policies, worths) && |roleRoots| == |policies|
    && AllMean(nodes, roleRoots, RoleWorths(policies, roleField)) && Rooted(nodes)
  }

  lemma InputsStable(nodes: seq<Node>, more: seq<Node>, policies: seq<Policy>, worths: seq<Worth>, roleRoots: seq<nat>,
                     roleField: nat)
    requires InputsMean(nodes, policies, worths, roleRoots, roleField) && nodes <= more && Rooted(more)
    ensures InputsMean(more, policies, worths, roleRoots, roleField)
  {
    hide Means, Rooted, RoleWorth, AllMean, PoliciesMean;
    PoliciesStable(nodes, more, policies, worths);
    AllMeanStable(nodes, more, roleRoots, RoleWorths(policies, roleField));
  }

  lemma WithPolicyMeans(modes: Modes, policies: seq<Policy>, worths: seq<Worth>, roleRoots: seq<nat>, roleField: nat,
                        phase: Phase, k: nat)
    requires InputsMean(modes.nodes, policies, worths, roleRoots, roleField) && k < |policies| == |worths|
    requires ModesMean(modes, policies, worths, roleField, phase, k)
    ensures var next := WithPolicy(policies[k], phase, roleRoots[k], modes);
            modes.nodes <= next.nodes && Rooted(next.nodes) &&
            ModesMean(next, policies, worths, roleField, phase, k + 1)
  {
    hide Means, Rooted, RoleWorth, AllMean, PoliciesMean, ModeTruths, Covers, RowTruth, EmitPolicy;
    ModesStep(policies, worths, roleField, phase, k);
    if Covers(policies[k].command, phase) {
      var truth := RowTruth(policies, worths, roleField, phase, k);
      RowMeans(modes.nodes, policies, worths, roleRoots, roleField, k);
      PolicyMeans(policies[k], worths[k], phase, roleRoots[k], roleField, modes.nodes, truth);
      var e := EmitPolicy(policies[k], phase, roleRoots[k], modes.nodes);
      MeansRooted(e.nodes, e.id, truth);
      var grants, conditions := ModeTruths(policies, worths, roleField, phase, true,
                                           k), ModeTruths(policies, worths, roleField, phase, false, k);
      AllMeanStable(modes.nodes, e.nodes, modes.permissive, grants);
      AllMeanStable(modes.nodes, e.nodes, modes.restrictive, conditions);
      if policies[k].permissive {
        AllMeanSnoc(e.nodes, modes.permissive, grants, e.id, truth);
      } else {
        AllMeanSnoc(e.nodes, modes.restrictive, conditions, e.id, truth);
      }
    }
  }

  lemma {:induction false} ModesFromMean(modes: Modes, policies: seq<Policy>, worths: seq<Worth>, roleRoots: seq<nat>,
                                         roleField: nat, phase: Phase, k: nat)
    requires InputsMean(modes.nodes, policies, worths, roleRoots, roleField) && k <= |policies| == |worths|
    requires ModesMean(modes, policies, worths, roleField, phase, k)
    ensures var all := ModesFrom(policies, phase, roleRoots, k, modes);
            modes.nodes <= all.nodes && Rooted(all.nodes) &&
            ModesMean(all, policies, worths, roleField, phase, |policies|)
    decreases |policies| - k
  {
    hide ModesMean, Rooted, WithPolicy;
    InputsRooted(modes.nodes, policies, worths, roleRoots, roleField);
    hide InputsMean;
    if k < |policies| {
      var next := WithPolicy(policies[k], phase, roleRoots[k], modes);
      WithPolicyMeans(modes, policies, worths, roleRoots, roleField, phase, k);
      InputsStable(modes.nodes, next.nodes, policies, worths, roleRoots, roleField);
      ModesFromMean(next, policies, worths, roleRoots, roleField, phase, k + 1);
    }
  }

  lemma InputsRooted(nodes: seq<Node>, policies: seq<Policy>, worths: seq<Worth>, roleRoots: seq<nat>, roleField: nat)
    requires InputsMean(nodes, policies, worths, roleRoots, roleField)
    ensures Rooted(nodes) && |roleRoots| == |policies| == |worths|
  {
  }

  lemma EffectiveMeans(policies: seq<Policy>, worths: seq<Worth>, roleRoots: seq<nat>, roleField: nat, phase: Phase,
                       nodes: seq<Node>)
    requires InputsMean(nodes, policies, worths, roleRoots, roleField) && |policies| == |worths| == |roleRoots|
    ensures var e := EmitEffective(policies, phase, roleRoots, nodes);
            nodes <= e.nodes && Means(e.nodes, e.id, EffectiveWorth(policies, worths, roleField, phase))
  {
    hide Means, Rooted, InputsMean, AllMean, ModeTruths, ModesFrom, EmitFold, FoldWorth, EffectiveWorth;
    var n := |policies|;
    var start := Modes(nodes, [], []);
    ModesStart(nodes, policies, worths, roleField, phase);
    ModesFromMean(start, policies, worths, roleRoots, roleField, phase, 0);
    var modes := ModesFrom(policies, phase, roleRoots, 0, start);
    var grants, conditions := ModeTruths(policies, worths, roleField, phase, true,
                                         n), ModeTruths(policies, worths, roleField, phase, false, n);
    FoldMeans(false, false, modes.permissive, grants, modes.nodes);
    var some := EmitFold(false, false, modes.permissive, modes.nodes);
    AllMeanStable(modes.nodes, some.nodes, modes.restrictive, conditions);
    FoldMeans(true, true, modes.restrictive, conditions, some.nodes);
    var every := EmitFold(true, true, modes.restrictive, some.nodes);
    MeansStable(some.nodes, every.nodes, some.id, FoldWorth(false, false, grants));
    EffectiveJoins(policies, worths, roleField, phase);
    MeansJoin(every.nodes, true, some.id, every.id, FoldWorth(false, false, grants), FoldWorth(true, true, conditions),
              EffectiveWorth(policies, worths, roleField, phase));
  }

  lemma ModesStart(nodes: seq<Node>, policies: seq<Policy>, worths: seq<Worth>, roleField: nat, phase: Phase)
    requires |policies| == |worths|
    ensures ModesMean(Modes(nodes, [], []), policies, worths, roleField, phase, 0)
  {
  }

  lemma PhaseMeans(policies: seq<Policy>, worths: seq<Worth>, roleRoots: seq<nat>, commandField: nat, roleField: nat,
                   phase: Phase, nodes: seq<Node>)
    requires InputsMean(nodes, policies, worths, roleRoots, roleField) && |policies| == |worths| == |roleRoots|
    ensures var e := EmitPhase(policies, phase, roleRoots, commandField, nodes);
            nodes <= e.nodes && Means(e.nodes, e.id, PhaseWorth(policies, worths, commandField, roleField, phase))
  {
    hide Means, Rooted, InputsMean, EmitEffective, EffectiveWorth, PhaseWorth, PhaseTruth, PhaseName, Comparison;
    var worth := EffectiveWorth(policies, worths, roleField, phase);
    EffectiveMeans(policies, worths, roleRoots, roleField, phase, nodes);
    var effective := EmitEffective(policies, phase, roleRoots, nodes);
    MeansRooted(effective.nodes, effective.id, worth);
    CompareMeans(effective.nodes, commandField, Str(PhaseName(phase)), CommandWorth(commandField, phase));
    var guarded := Append(effective.nodes, Compare(commandField, Equal, Str(PhaseName(phase))));
    MeansRooted(guarded.nodes, guarded.id, CommandWorth(commandField, phase));
    MeansStable(effective.nodes, guarded.nodes, effective.id, worth);
    PhaseJoins(policies, worths, commandField, roleField, phase);
    MeansJoin(guarded.nodes, true, guarded.id, effective.id, CommandWorth(commandField, phase), worth,
              PhaseWorth(policies, worths, commandField, roleField, phase));
  }

  lemma {:induction false} PhasesMean(policies: seq<Policy>, worths: seq<Worth>, roleRoots: seq<nat>, commandField: nat,
                                      roleField: nat, k: nat, rows: Rows)
    requires InputsMean(rows.nodes, policies, worths, roleRoots, roleField) && |policies| == |worths| == |roleRoots|
    requires k <= |PHASES|
    requires AllMean(rows.nodes, rows.ids, PhaseWorths(policies, worths, commandField, roleField)[..k])
    ensures var all := PhasesFrom(policies, roleRoots, commandField, k, rows);
            && rows.nodes <= all.nodes
            && Rooted(all.nodes) && AllMean(all.nodes, all.ids, PhaseWorths(policies, worths, commandField, roleField))
    decreases |PHASES| - k
  {
    InputsRooted(rows.nodes, policies, worths, roleRoots, roleField);
    hide Means, Rooted, InputsMean, EmitPhase, PhaseWorth, AllMean;
    var truths := PhaseWorths(policies, worths, commandField, roleField);
    if k == |PHASES| {
      assert truths[..k] == truths;
    } else {
      var e := EmitPhase(policies, PHASES[k], roleRoots, commandField, rows.nodes);
      PhaseMeans(policies, worths, roleRoots, commandField, roleField, PHASES[k], rows.nodes);
      RowsMean(rows, truths, k, e);
      InputsStable(rows.nodes, e.nodes, policies, worths, roleRoots, roleField);
      PhasesMean(policies, worths, roleRoots, commandField, roleField, k + 1, WithRow(rows, e));
    }
  }

  /** The composed root is true exactly for the facts that the policies let through. */
  lemma ComposedRootDecides(policies: seq<Policy>, worths: seq<Worth>, commandField: nat, roleField: nat,
                            nodes: seq<Node>)
    requires Rooted(nodes) && PoliciesMean(nodes, policies, worths)
    ensures var e := EmitRoot(policies, commandField, roleField, nodes);
            && Rooted(e.nodes) && 1 <= e.id <= |e.nodes| && |policies| == |worths|
            && forall facts :: Meaning(e.nodes, e.id, facts).positive <==>
               Allowed(policies, worths, commandField, roleField, facts)
  {
    hide Means, Rooted, PoliciesMean, AllMean, RolesFrom, PhasesFrom, EmitFold, FoldWorth, RoleKnown, RootTruth,
         Allowed, Meaning, PhaseWorth, RoleWorth;
    PoliciesSize(nodes, policies, worths);
    RootGrows(policies, commandField, roleField, nodes);
    var roles := RolesFrom(policies, roleField, 0, Rows(nodes, []));
    NoneMean(nodes);
    RolesMean(policies, roleField, 0, Rows(nodes, []));
    PoliciesStable(nodes, roles.nodes, policies, worths);
    NoneMean(roles.nodes);
    PhasesMean(policies, worths, roles.ids, commandField, roleField, 0, Rows(roles.nodes, []));
    var phases := PhasesFrom(policies, roles.ids, commandField, 0, Rows(roles.nodes, []));
    var truths := PhaseWorths(policies, worths, commandField, roleField);
    FoldMeans(false, false, phases.ids, truths, phases.nodes);
    var some := EmitFold(false, false, phases.ids, phases.nodes);
    var known := KnownWorth(roleField);
    ExistsMeans(some.nodes, roleField, known);
    var present := Append(some.nodes, Exists(roleField));
    MeansRooted(present.nodes, present.id, known);
    MeansStable(some.nodes, present.nodes, some.id, FoldWorth(false, false, truths));
    RootJoins(policies, worths, commandField, roleField);
    MeansJoin(present.nodes, true, present.id, some.id, known, FoldWorth(false, false, truths),
              RootWorth(policies, worths, commandField, roleField));
    var root := Append(present.nodes, Group(true, [present.id, some.id]));
    RootAllows(root.nodes, root.id, policies, worths, commandField, roleField);
  }
}
