/** PostgreSQL row-level security: permissive policies are alternatives, restrictive ones
    are further conditions, and both apply per role and per command. */
module RlsComposition {
  import opened SemanticTables
  import opened SqlMeaning

  datatype PolicyCommand = AllCommands | SelectCommand | InsertCommand | UpdateCommand | DeleteCommand

  /** The runtime phases; an update is checked before and after. */
  datatype Phase = Select | Insert | UpdateUsing | UpdateCheck | Delete

  datatype Role = Role(name: string, isPublic: bool)

  datatype Policy = Policy(permissive: bool, command: PolicyCommand, roles: seq<Role>, using: nat, check: nat)

  function PhaseName(phase: Phase): string {
    match phase
    case Select => "select"
    case Insert => "insert"
    case UpdateUsing => "update_using"
    case UpdateCheck => "update_check"
    case Delete => "delete"
  }

  const PHASES: seq<Phase> := [Select, Insert, UpdateUsing, UpdateCheck, Delete]

  /** Whether a policy for a command covers a phase. */
  predicate Covers(command: PolicyCommand, phase: Phase) {
    match command
    case AllCommands => true
    case SelectCommand => phase == Select
    case InsertCommand => phase == Insert
    case UpdateCommand => phase == UpdateUsing || phase == UpdateCheck
    case DeleteCommand => phase == Delete
  }

  predicate ChecksNewRow(phase: Phase) {
    phase == Insert || phase == UpdateCheck
  }

  /** What each policy's two predicates are worth. */
  datatype Worth = Worth(using: Facts -> Tri, check: Facts -> Tri)

  function PredicateWorth(worth: Worth, phase: Phase, facts: Facts): Tri {
    if ChecksNewRow(phase) then worth.check(facts) else worth.using(facts)
  }

  // ----- who is let through -----

  ghost predicate RoleMatches(policy: Policy, roleField: nat, facts: Facts) {
    exists k :: 0 <= k < |policy.roles| &&
      (policy.roles[k].isPublic || (roleField in facts && facts[roleField] == Str(policy.roles[k].name)))
  }

  ghost predicate Grants(policies: seq<Policy>, worths: seq<Worth>, roleField: nat, phase: Phase, facts: Facts, k: nat)
    requires k < |policies| == |worths|
  {
    && Covers(policies[k].command, phase)
    && RoleMatches(policies[k], roleField, facts) && PredicateWorth(worths[k], phase, facts) == True
  }

  ghost predicate Forbids(policies: seq<Policy>, worths: seq<Worth>, roleField: nat, phase: Phase, facts: Facts, k: nat)
    requires k < |policies| == |worths|
  {
    && Covers(policies[k].command, phase)
    && RoleMatches(policies[k], roleField, facts) && PredicateWorth(worths[k], phase, facts) != True
  }

  /** Some permissive policy grants the phase and no restrictive one forbids it. */
  ghost predicate PhaseAllowed(policies: seq<Policy>, worths: seq<Worth>, roleField: nat, phase: Phase, facts: Facts)
    requires |policies| == |worths|
  {
    && SomeGrantsTo(policies, worths, roleField, phase, facts, |policies|)
    && NoneForbidsTo(policies, worths, roleField, phase, facts, |policies|)
  }

  /** One of the first n policies is permissive and grants. */
  ghost predicate SomeGrantsTo(policies: seq<Policy>, worths: seq<Worth>, roleField: nat, phase: Phase, facts: Facts,
                               n: nat)
    requires n <= |policies| == |worths|
  {
    exists k :: 0 <= k < n && policies[k].permissive && Grants(policies, worths, roleField, phase, facts, k)
  }

  /** None of the first n policies is restrictive and forbids. */
  ghost predicate NoneForbidsTo(policies: seq<Policy>, worths: seq<Worth>, roleField: nat, phase: Phase, facts: Facts,
                                n: nat)
    requires n <= |policies| == |worths|
  {
    forall k :: 0 <= k < n && !policies[k].permissive ==> !Forbids(policies, worths, roleField, phase, facts, k)
  }

  ghost predicate AnyTrue(truths: seq<Facts -> Tri>, facts: Facts) {
    exists k :: 0 <= k < |truths| && truths[k](facts) == True
  }

  ghost predicate AllTrue(truths: seq<Facts -> Tri>, facts: Facts) {
    forall k :: 0 <= k < |truths| ==> truths[k](facts) == True
  }

  /** The role is known, the command names a phase, and that phase is allowed. */
  ghost predicate Allowed(policies: seq<Policy>, worths: seq<Worth>, commandField: nat, roleField: nat, facts: Facts)
    requires |policies| == |worths|
  {
    && roleField in facts && commandField in facts
    && exists phase ::
         facts[commandField] == Str(PhaseName(phase)) && PhaseAllowed(policies, worths, roleField, phase, facts)
  }

  // ----- rows and what they are worth -----

  /** A row is worth a truth value, whatever the facts. */
  ghost predicate Means(nodes: seq<Node>, id: nat, truth: Facts -> Tri) {
    Rooted(nodes) && 1 <= id <= |nodes| && forall facts :: Meaning(nodes, id, facts) == Planes(truth(facts))
  }

  lemma MeansStable(nodes: seq<Node>, more: seq<Node>, id: nat, truth: Facts -> Tri)
    requires Means(nodes, id, truth) && nodes <= more && Rooted(more)
    ensures Means(more, id, truth)
  {
    hide Meaning, Rooted;
    forall facts: Facts
      ensures Meaning(more, id, facts) == Planes(truth(facts))
    {
      MeaningStable(nodes, more, id, facts);
    }
  }

  ghost predicate AllMean(nodes: seq<Node>, ids: seq<nat>, truths: seq<Facts -> Tri>) {
    |ids| == |truths| && forall k :: 0 <= k < |ids| ==> Means(nodes, ids[k], truths[k])
  }

  lemma AllMeanStable(nodes: seq<Node>, more: seq<Node>, ids: seq<nat>, truths: seq<Facts -> Tri>)
    requires AllMean(nodes, ids, truths) && nodes <= more && Rooted(more)
    ensures AllMean(more, ids, truths)
  {
    hide Means, Rooted;
    forall k | 0 <= k < |ids|
      ensures Means(more, ids[k], truths[k])
    {
      MeansStable(nodes, more, ids[k], truths[k]);
    }
  }

  lemma AllMeanSnoc(nodes: seq<Node>, ids: seq<nat>, truths: seq<Facts -> Tri>, id: nat, truth: Facts -> Tri)
    requires AllMean(nodes, ids, truths) && Means(nodes, id, truth)
    ensures AllMean(nodes, ids + [id], truths + [truth])
  {
    hide Means;
  }

  function TriJoin(conjunction: bool, a: Tri, b: Tri): Tri {
    if conjunction then TriAnd(a, b) else TriOr(a, b)
  }

  lemma MeansJoin(nodes: seq<Node>, conjunction: bool, left: nat, right: nat, a: Facts -> Tri, b: Facts -> Tri,
                  truth: Facts -> Tri)
    requires Means(nodes, left, a) && Means(nodes, right, b)
    requires forall facts :: truth(facts) == TriJoin(conjunction, a(facts), b(facts))
    ensures var more := nodes + [Group(conjunction, [left, right])]; Means(more, |more|, truth)
  {
    hide Meaning, Rooted;
    var more := nodes + [Group(conjunction, [left, right])];
    forall facts: Facts
      ensures Rooted(more) && Meaning(more, |more|, facts) == Planes(truth(facts))
    {
      PairMeaning(nodes, conjunction, left, right, facts);
      PlanesJoin(conjunction, a(facts), b(facts));
    }
    assert Rooted(more) by { PairMeaning(nodes, conjunction, left, right, map[]); }
  }

  lemma MeansNot(nodes: seq<Node>, child: nat, a: Facts -> Tri, truth: Facts -> Tri)
    requires Means(nodes, child, a) && forall facts :: truth(facts) == TriNot(a(facts))
    ensures var more := nodes + [Negation(child)]; Means(more, |more|, truth)
  {
    hide Meaning, Rooted;
    var more := nodes + [Negation(child)];
    forall facts: Facts
      ensures Rooted(more) && Meaning(more, |more|, facts) == Planes(truth(facts))
    {
      NegationMeaning(nodes, child, facts);
      PlanesNot(a(facts));
    }
    assert Rooted(more) by { NegationMeaning(nodes, child, map[]); }
  }

  /** A leaf means the same wherever it stands. */
  lemma MeansLeaf(nodes: seq<Node>, node: Node, truth: Facts -> Tri)
    requires Rooted(nodes) && Children(node) == [] && forall facts :: Meaning([node], 1, facts) == Planes(truth(facts))
    ensures var more := nodes + [node]; Means(more, |more|, truth)
  {
    RootedSnoc(nodes, node);
  }

  // ----- folds -----

  /** The join of a list from the left; the empty list is a constant. */
  function FoldTruth(conjunction: bool, empty: bool, truths: seq<Facts -> Tri>, facts: Facts): Tri {
    if truths == [] then Of(empty)
    else if |truths| == 1 then truths[0](facts)
    else TriJoin(conjunction, FoldTruth(conjunction, empty, truths[..|truths| - 1], facts), truths[|truths| - 1](facts))
  }

  lemma {:induction false} FoldAll(truths: seq<Facts -> Tri>, facts: Facts)
    ensures FoldTruth(true, true, truths, facts) == True <==> AllTrue(truths, facts)
  {
    if |truths| > 1 {
      var init := truths[..|truths| - 1];
      FoldAll(init, facts);
      assert forall k :: 0 <= k < |init| ==> truths[k] == init[k];
      if forall k :: 0 <= k < |init| ==> init[k](facts) == True {
        assert forall k :: 0 <= k < |init| ==> truths[k](facts) == init[k](facts);
      }
    }
  }

  lemma {:induction false} FoldAny(truths: seq<Facts -> Tri>, facts: Facts)
    ensures FoldTruth(false, false, truths, facts) == True <==> AnyTrue(truths, facts)
  {
    if |truths| > 1 {
      var init := truths[..|truths| - 1];
      FoldAny(init, facts);
      assert forall k :: 0 <= k < |init| ==> truths[k] == init[k];
      if k :| 0 <= k < |init| && init[k](facts) == True {
        assert truths[k](facts) == True;
      }
    }
  }

  // ----- the composed truth -----

  function NameTruths(roleField: nat, roles: seq<Role>): seq<Facts -> Tri> {
    seq(|roles|,
        k requires 0 <= k < |roles| => (facts: Facts) => Comparison(Equal, facts, roleField, Str(roles[k].name), false))
  }

  predicate AnyPublic(roles: seq<Role>) {
    exists k :: 0 <= k < |roles| && roles[k].isPublic
  }

  /** A policy for everyone matches; any other compares the role with its names. */
  function RoleTruth(policy: Policy, roleField: nat, facts: Facts): Tri {
    if AnyPublic(policy.roles) then True else FoldTruth(false, false, NameTruths(roleField, policy.roles), facts)
  }

  function GrantTruth(policy: Policy, worth: Worth, roleField: nat, phase: Phase, facts: Facts): Tri {
    TriAnd(RoleTruth(policy, roleField, facts), PredicateWorth(worth, phase, facts))
  }

  /** A restrictive policy holds where its role does not match or its predicate does. */
  function ConditionTruth(policy: Policy, worth: Worth, roleField: nat, phase: Phase, facts: Facts): Tri {
    TriOr(TriNot(RoleTruth(policy, roleField, facts)), PredicateWorth(worth, phase, facts))
  }

  /** The truths of the first n policies of one mode that cover a phase. */
  function ModeTruths(policies: seq<Policy>, worths: seq<Worth>, roleField: nat, phase: Phase, permissive: bool,
                      n: nat): seq<Facts -> Tri>
    requires n <= |policies| == |worths|
  {
    if n == 0 then []
    else
      var before, policy, worth := ModeTruths(policies, worths, roleField, phase, permissive,
                                              n - 1), policies[n - 1], worths[n - 1];
      if !Covers(policy.command, phase) || policy.permissive != permissive then before
      else if permissive then before + [facts => GrantTruth(policy, worth, roleField, phase, facts)]
      else before + [facts => ConditionTruth(policy, worth, roleField, phase, facts)]
  }

  function PhaseTruth(policies: seq<Policy>, worths: seq<Worth>, commandField: nat, roleField: nat, phase: Phase,
                      facts: Facts): Tri
    requires |policies| == |worths|
  {
    var n := |policies|;
    TriAnd(
      Comparison(Equal, facts, commandField, Str(PhaseName(phase)), false),
      TriAnd(
        FoldTruth(false, false, ModeTruths(policies, worths, roleField, phase, true, n), facts),
        FoldTruth(true, true, ModeTruths(policies, worths, roleField, phase, false, n), facts)))
  }

  function PhaseTruths(policies: seq<Policy>, worths: seq<Worth>, commandField: nat, roleField: nat,
                       n: nat): seq<Facts -> Tri>
    requires |policies| == |worths| && n <= |PHASES|
  {
    seq(n, k requires 0 <= k < n => (facts: Facts) =>
      PhaseTruth(policies, worths, commandField, roleField, PHASES[k], facts))
  }

  function RootTruth(policies: seq<Policy>, worths: seq<Worth>, commandField: nat, roleField: nat, facts: Facts): Tri
    requires |policies| == |worths|
  {
    TriAnd(
      if roleField in facts then True else Unknown,
      FoldTruth(false, false, PhaseTruths(policies, worths, commandField, roleField, |PHASES|), facts))
  }

  // ----- the composed truth decides -----

  lemma RoleDecides(policy: Policy, roleField: nat, facts: Facts)
    requires roleField in facts
    ensures RoleTruth(policy, roleField, facts) == True <==> RoleMatches(policy, roleField, facts)
    ensures RoleTruth(policy, roleField, facts) != Unknown
  {
    var truths := NameTruths(roleField, policy.roles);
    FoldAny(truths, facts);
    FoldKnown(truths, facts);
    hide FoldTruth;
    assert forall k :: 0 <= k < |truths| ==>
      truths[k](facts) == Comparison(Equal, facts, roleField, Str(policy.roles[k].name), false);
  }

  lemma {:induction false} FoldKnown(truths: seq<Facts -> Tri>, facts: Facts)
    requires forall k :: 0 <= k < |truths| ==> truths[k](facts) != Unknown
    ensures FoldTruth(false, false, truths, facts) != Unknown
  {
    if |truths| > 1 {
      var init := truths[..|truths| - 1];
      forall k | 0 <= k < |init|
        ensures init[k](facts) != Unknown
      {
        assert init[k] == truths[k];
      }
      FoldKnown(init, facts);
    }
  }

  lemma {:induction false} SomeGrants(policies: seq<Policy>, worths: seq<Worth>, roleField: nat, phase: Phase,
                                      facts: Facts, n: nat)
    requires n <= |policies| == |worths| && roleField in facts
    ensures AnyTrue(ModeTruths(policies, worths, roleField, phase, true, n), facts) <==>
            SomeGrantsTo(policies, worths, roleField, phase, facts, n)
  {
    if n > 0 {
      SomeGrants(policies, worths, roleField, phase, facts, n - 1);
      RoleDecides(policies[n - 1], roleField, facts);
      hide RoleMatches, RoleTruth, Covers;
      var before := ModeTruths(policies, worths, roleField, phase, true, n - 1);
      var truths := ModeTruths(policies, worths, roleField, phase, true, n);
      assert forall k :: 0 <= k < |before| ==> truths[k] == before[k];
      if k :| 0 <= k < |before| && before[k](facts) == True {
        assert truths[k](facts) == True;
      }
      if |truths| > |before| && truths[|before|](facts) == True {
        assert Grants(policies, worths, roleField, phase, facts, n - 1);
      }
      if policies[n - 1].permissive && Grants(policies, worths, roleField, phase, facts, n - 1) {
        assert truths[|before|](facts) == True;
      }
    }
  }

  lemma {:induction false} NoneForbids(policies: seq<Policy>, worths: seq<Worth>, roleField: nat, phase: Phase,
                                       facts: Facts, n: nat)
    requires n <= |policies| == |worths| && roleField in facts
    ensures AllTrue(ModeTruths(policies, worths, roleField, phase, false, n), facts) <==>
            NoneForbidsTo(policies, worths, roleField, phase, facts, n)
  {
    if n > 0 {
      NoneForbids(policies, worths, roleField, phase, facts, n - 1);
      RoleDecides(policies[n - 1], roleField, facts);
      hide RoleMatches, RoleTruth, Covers;
      var before := ModeTruths(policies, worths, roleField, phase, false, n - 1);
      var truths := ModeTruths(policies, worths, roleField, phase, false, n);
      assert forall k :: 0 <= k < |before| ==> truths[k] == before[k];
      if |truths| > |before| {
        assert truths[|before|](facts) == True <==> !Forbids(policies, worths, roleField, phase, facts, n - 1);
      }
      assert AllTrue(truths, facts) <==>
             (AllTrue(before, facts) && (|truths| > |before| ==> truths[|before|](facts) == True));
    }
  }

  lemma PhaseDecides(policies: seq<Policy>, worths: seq<Worth>, commandField: nat, roleField: nat, phase: Phase,
                     facts: Facts)
    requires |policies| == |worths| && roleField in facts
    ensures PhaseTruth(policies, worths, commandField, roleField, phase, facts) == True <==>
              && commandField in facts
              && facts[commandField] == Str(PhaseName(phase)) && PhaseAllowed(policies, worths, roleField, phase, facts)
  {
    hide ModeTruths, FoldTruth, SomeGrantsTo, NoneForbidsTo, AnyTrue, AllTrue, PhaseName;
    var n := |policies|;
    FoldAny(ModeTruths(policies, worths, roleField, phase, true, n), facts);
    FoldAll(ModeTruths(policies, worths, roleField, phase, false, n), facts);
    SomeGrants(policies, worths, roleField, phase, facts, n);
    NoneForbids(policies, worths, roleField, phase, facts, n);
  }

  /** The composed root is true exactly for the rows that the policies let through; an
      unknown predicate lets nothing through. */
  lemma RootDecides(policies: seq<Policy>, worths: seq<Worth>, commandField: nat, roleField: nat, facts: Facts)
    requires |policies| == |worths|
    ensures RootTruth(policies, worths, commandField, roleField, facts) == True <==>
            Allowed(policies, worths, commandField, roleField, facts)
  {
    hide FoldTruth, PhaseTruth, PhaseAllowed, PhaseName;
    var truths := PhaseTruths(policies, worths, commandField, roleField, |PHASES|);
    FoldAny(truths, facts);
    if roleField in facts {
      forall phase: Phase
        ensures PhaseTruth(policies, worths, commandField, roleField, phase, facts) == True <==>
                  && commandField in facts
                  && facts[commandField] == Str(PhaseName(phase))
                  && PhaseAllowed(policies, worths, roleField, phase, facts)
      {
        PhaseDecides(policies, worths, commandField, roleField, phase, facts);
      }
      assert forall k :: 0 <= k < |PHASES| ==>
        truths[k](facts) == PhaseTruth(policies, worths, commandField, roleField, PHASES[k], facts);
      if phase: Phase :| PhaseTruth(policies, worths, commandField, roleField, phase, facts) == True {
        var k := PhaseIndex(phase);
        assert truths[k](facts) == True;
      }
    }
  }

  function PhaseIndex(phase: Phase): (k: nat)
    ensures k < |PHASES| && PHASES[k] == phase
  {
    match phase
    case Select => 0
    case Insert => 1
    case UpdateUsing => 2
    case UpdateCheck => 3
    case Delete => 4
  }
}
