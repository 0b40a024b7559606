/** The rows that composing policies appends, in order. */
module RlsEmission {
  import opened SemanticTables
  import opened SqlMeaning
  import opened SqlAcceptance
  import opened RlsComposition

  // ----- folds -----

  function FoldFrom(conjunction: bool, ids: seq<nat>, k: nat, left: Emitted): Emitted
    requires k <= |ids|
    decreases |ids| - k
  {
    if k == |ids| then left
    else FoldFrom(conjunction, ids, k + 1, Append(left.nodes, Group(conjunction, [left.id, ids[k]])))
  }

  function EmitFold(conjunction: bool, empty: bool, ids: seq<nat>, nodes: seq<Node>): Emitted {
    if ids == [] then Append(nodes, Boolean(empty)) else FoldFrom(conjunction, ids, 1, Emitted(nodes, ids[0]))
  }

  lemma {:induction false} FoldFromGrows(conjunction: bool, ids: seq<nat>, k: nat, left: Emitted)
    requires k <= |ids|
    ensures left.nodes <= FoldFrom(conjunction, ids, k, left).nodes
    decreases |ids| - k
  {
    if k < |ids| {
      FoldFromGrows(conjunction, ids, k + 1, Append(left.nodes, Group(conjunction, [left.id, ids[k]])));
    }
  }

  lemma FoldGrows(conjunction: bool, empty: bool, ids: seq<nat>, nodes: seq<Node>)
    ensures nodes <= EmitFold(conjunction, empty, ids, nodes).nodes
  {
    if ids != [] {
      FoldFromGrows(conjunction, ids, 1, Emitted(nodes, ids[0]));
    }
  }

  // ----- roles -----

  /** Rows appended so far and the ids among them that matter. */
  datatype Rows = Rows(nodes: seq<Node>, ids: seq<nat>)

  function WithRow(rows: Rows, e: Emitted): Rows {
    Rows(e.nodes, rows.ids + [e.id])
  }

  function NamesFrom(roleField: nat, roles: seq<Role>, k: nat, rows: Rows): Rows
    requires k <= |roles|
    decreases |roles| - k
  {
    if k == |roles| then rows
    else NamesFrom(roleField, roles, k + 1,
                   WithRow(rows, Append(rows.nodes, Compare(roleField, Equal, Str(roles[k].name)))))
  }

  function EmitRole(policy: Policy, roleField: nat, nodes: seq<Node>): Emitted {
    if AnyPublic(policy.roles) then Append(nodes, Boolean(true))
    else
      var names := NamesFrom(roleField, policy.roles, 0, Rows(nodes, []));
      EmitFold(false, false, names.ids, names.nodes)
  }

  function RolesFrom(policies: seq<Policy>, roleField: nat, k: nat, rows: Rows): Rows
    requires k <= |policies|
    decreases |policies| - k
  {
    if k == |policies| then rows
    else RolesFrom(policies, roleField, k + 1, WithRow(rows, EmitRole(policies[k], roleField, rows.nodes)))
  }

  lemma {:induction false} NamesGrow(roleField: nat, roles: seq<Role>, k: nat, rows: Rows)
    requires k <= |roles|
    ensures rows.nodes <= NamesFrom(roleField, roles, k, rows).nodes
    decreases |roles| - k
  {
    if k < |roles| {
      NamesGrow(roleField, roles, k + 1,
                WithRow(rows, Append(rows.nodes, Compare(roleField, Equal, Str(roles[k].name)))));
    }
  }

  lemma RoleGrows(policy: Policy, roleField: nat, nodes: seq<Node>)
    ensures nodes <= EmitRole(policy, roleField, nodes).nodes
  {
    var names := NamesFrom(roleField, policy.roles, 0, Rows(nodes, []));
    NamesGrow(roleField, policy.roles, 0, Rows(nodes, []));
    FoldGrows(false, false, names.ids, names.nodes);
  }

  lemma {:induction false} RolesGrow(policies: seq<Policy>, roleField: nat, k: nat, rows: Rows)
    requires k <= |policies|
    ensures rows.nodes <= RolesFrom(policies, roleField, k, rows).nodes
    decreases |policies| - k
  {
    if k < |policies| {
      RoleGrows(policies[k], roleField, rows.nodes);
      RolesGrow(policies, roleField, k + 1, WithRow(rows, EmitRole(policies[k], roleField, rows.nodes)));
    }
  }

  // ----- modes -----

  function EmitPolicy(policy: Policy, phase: Phase, roleRoot: nat, nodes: seq<Node>): Emitted {
    var root := if ChecksNewRow(phase) then policy.check else policy.using;
    if policy.permissive then Append(nodes, Group(true, [roleRoot, root]))
    else
      var other := Append(nodes, Negation(roleRoot));
      Append(other.nodes, Group(false, [other.id, root]))
  }

  datatype Modes = Modes(nodes: seq<Node>, permissive: seq<nat>, restrictive: seq<nat>)

  function WithPolicy(policy: Policy, phase: Phase, roleRoot: nat, modes: Modes): Modes {
    if !Covers(policy.command, phase) then modes
    else
      var e := EmitPolicy(policy, phase, roleRoot, modes.nodes);
      if policy.permissive then Modes(e.nodes, modes.permissive + [e.id], modes.restrictive)
      else Modes(e.nodes, modes.permissive, modes.restrictive + [e.id])
  }

  function ModesFrom(policies: seq<Policy>, phase: Phase, roleRoots: seq<nat>, k: nat, modes: Modes): Modes
    requires k <= |policies| == |roleRoots|
    decreases |policies| - k
  {
    if k == |policies| then modes
    else ModesFrom(policies, phase, roleRoots, k + 1, WithPolicy(policies[k], phase, roleRoots[k], modes))
  }

  lemma {:induction false} ModesGrow(policies: seq<Policy>, phase: Phase, roleRoots: seq<nat>, k: nat, modes: Modes)
    requires k <= |policies| == |roleRoots|
    ensures modes.nodes <= ModesFrom(policies, phase, roleRoots, k, modes).nodes
    decreases |policies| - k
  {
    if k < |policies| {
      ModesGrow(policies, phase, roleRoots, k + 1, WithPolicy(policies[k], phase, roleRoots[k], modes));
    }
  }

  // ----- phases and the root -----

  function EmitEffective(policies: seq<Policy>, phase: Phase, roleRoots: seq<nat>, nodes: seq<Node>): Emitted
    requires |policies| == |roleRoots|
  {
    var modes := ModesFrom(policies, phase, roleRoots, 0, Modes(nodes, [], []));
    var some := EmitFold(false, false, modes.permissive, modes.nodes);
    var every := EmitFold(true, true, modes.restrictive, some.nodes);
    Append(every.nodes, Group(true, [some.id, every.id]))
  }

  function EmitPhase(policies: seq<Policy>, phase: Phase, roleRoots: seq<nat>, commandField: nat,
                     nodes: seq<Node>): Emitted
    requires |policies| == |roleRoots|
  {
    var effective := EmitEffective(policies, phase, roleRoots, nodes);
    var guarded := Append(effective.nodes, Compare(commandField, Equal, Str(PhaseName(phase))));
    Append(guarded.nodes, Group(true, [guarded.id, effective.id]))
  }

  function PhasesFrom(policies: seq<Policy>, roleRoots: seq<nat>, commandField: nat, k: nat, rows: Rows): Rows
    requires |policies| == |roleRoots| && k <= |PHASES|
    decreases |PHASES| - k
  {
    if k == |PHASES| then rows
    else PhasesFrom(policies, roleRoots, commandField, k + 1,
                     WithRow(rows, EmitPhase(policies, PHASES[k], roleRoots, commandField, rows.nodes)))
  }

  lemma {:induction false} RolesCount(policies: seq<Policy>, roleField: nat, k: nat, rows: Rows)
    requires k <= |policies|
    ensures |RolesFrom(policies, roleField, k, rows).ids| == |rows.ids| + |policies| - k
    decreases |policies| - k
  {
    if k < |policies| {
      RolesCount(policies, roleField, k + 1, WithRow(rows, EmitRole(policies[k], roleField, rows.nodes)));
    }
  }

  function EmitRoot(policies: seq<Policy>, commandField: nat, roleField: nat, nodes: seq<Node>): Emitted {
    var roles := RolesFrom(policies, roleField, 0, Rows(nodes, []));
    RolesCount(policies, roleField, 0, Rows(nodes, []));
    var phases := PhasesFrom(policies, roles.ids, commandField, 0, Rows(roles.nodes, []));
    RootFrom(phases.ids, roleField, phases.nodes)
  }

  function RootFrom(phaseRoots: seq<nat>, roleField: nat, nodes: seq<Node>): Emitted {
    var some := EmitFold(false, false, phaseRoots, nodes);
    var present := Append(some.nodes, Exists(roleField));
    Append(present.nodes, Group(true, [present.id, some.id]))
  }

  lemma EffectiveGrows(policies: seq<Policy>, phase: Phase, roleRoots: seq<nat>, nodes: seq<Node>)
    requires |policies| == |roleRoots|
    ensures var modes := ModesFrom(policies, phase, roleRoots, 0, Modes(nodes, [], []));
            var some := EmitFold(false, false, modes.permissive, modes.nodes);
            var every := EmitFold(true, true, modes.restrictive, some.nodes);
            && nodes <= modes.nodes <= some.nodes
            && some.nodes <= every.nodes <= EmitEffective(policies, phase, roleRoots, nodes).nodes
  {
    hide EmitFold, ModesFrom;
    var modes := ModesFrom(policies, phase, roleRoots, 0, Modes(nodes, [], []));
    ModesGrow(policies, phase, roleRoots, 0, Modes(nodes, [], []));
    FoldGrows(false, false, modes.permissive, modes.nodes);
    FoldGrows(true, true, modes.restrictive, EmitFold(false, false, modes.permissive, modes.nodes).nodes);
  }

  lemma PhaseGrows(policies: seq<Policy>, phase: Phase, roleRoots: seq<nat>, commandField: nat, nodes: seq<Node>)
    requires |policies| == |roleRoots|
    ensures nodes <= EmitEffective(policies, phase, roleRoots, nodes).nodes <=
            EmitPhase(policies, phase, roleRoots, commandField, nodes).nodes
  {
    hide EmitEffective, EmitFold, ModesFrom;
    EffectiveGrows(policies, phase, roleRoots, nodes);
  }

  lemma {:induction false} PhasesGrow(policies: seq<Policy>, roleRoots: seq<nat>, commandField: nat, k: nat, rows: Rows)
    requires |policies| == |roleRoots| && k <= |PHASES|
    ensures rows.nodes <= PhasesFrom(policies, roleRoots, commandField, k, rows).nodes
    decreases |PHASES| - k
  {
    hide EmitPhase, EmitEffective;
    if k < |PHASES| {
      PhaseGrows(policies, PHASES[k], roleRoots, commandField, rows.nodes);
      PhasesGrow(policies, roleRoots, commandField, k + 1,
                 WithRow(rows, EmitPhase(policies, PHASES[k], roleRoots, commandField, rows.nodes)));
    }
  }

  lemma RootGrows(policies: seq<Policy>, commandField: nat, roleField: nat, nodes: seq<Node>)
    ensures var roles := RolesFrom(policies, roleField, 0, Rows(nodes, []));
            && |roles.ids| == |policies|
            && var phases := PhasesFrom(policies, roles.ids, commandField, 0, Rows(roles.nodes, []));
            var some := EmitFold(false, false, phases.ids, phases.nodes);
            && nodes <= roles.nodes <= phases.nodes
            && phases.nodes <= some.nodes <= EmitRoot(policies, commandField, roleField, nodes).nodes
  {
    hide EmitFold, RolesFrom, PhasesFrom;
    var roles := RolesFrom(policies, roleField, 0, Rows(nodes, []));
    RolesCount(policies, roleField, 0, Rows(nodes, []));
    RolesGrow(policies, roleField, 0, Rows(nodes, []));
    PhasesGrow(policies, roles.ids, commandField, 0, Rows(roles.nodes, []));
    var phases := PhasesFrom(policies, roles.ids, commandField, 0, Rows(roles.nodes, []));
    FoldGrows(false, false, phases.ids, phases.nodes);
  }

  // ----- the ids stay in range -----

  ghost predicate InRange(nodes: seq<Node>, ids: seq<nat>) {
    forall k :: 0 <= k < |ids| ==> 1 <= ids[k] <= |nodes|
  }

  lemma InRangeMore(nodes: seq<Node>, more: seq<Node>, ids: seq<nat>)
    requires InRange(nodes, ids) && nodes <= more
    ensures InRange(more, ids)
  {
  }

  lemma {:induction false} FoldFromExtends(conjunction: bool, ids: seq<nat>, k: nat, left: Emitted)
    requires k <= |ids| && 1 <= left.id <= |left.nodes|
    ensures Extends(left.nodes, FoldFrom(conjunction, ids, k, left))
    decreases |ids| - k
  {
    if k < |ids| {
      FoldFromExtends(conjunction, ids, k + 1, Append(left.nodes, Group(conjunction, [left.id, ids[k]])));
    }
  }

  lemma FoldExtends(conjunction: bool, empty: bool, ids: seq<nat>, nodes: seq<Node>)
    requires InRange(nodes, ids)
    ensures Extends(nodes, EmitFold(conjunction, empty, ids, nodes))
  {
    if ids != [] {
      FoldFromExtends(conjunction, ids, 1, Emitted(nodes, ids[0]));
    }
  }

  lemma {:induction false} NamesInRange(roleField: nat, roles: seq<Role>, k: nat, rows: Rows)
    requires k <= |roles| && InRange(rows.nodes, rows.ids)
    ensures var all := NamesFrom(roleField, roles, k, rows); InRange(all.nodes, all.ids)
    decreases |roles| - k
  {
    if k < |roles| {
      NamesInRange(roleField, roles, k + 1,
                   WithRow(rows, Append(rows.nodes, Compare(roleField, Equal, Str(roles[k].name)))));
    }
  }

  lemma RoleExtends(policy: Policy, roleField: nat, nodes: seq<Node>)
    ensures Extends(nodes, EmitRole(policy, roleField, nodes))
  {
    if !AnyPublic(policy.roles) {
      var names := NamesFrom(roleField, policy.roles, 0, Rows(nodes, []));
      NamesGrow(roleField, policy.roles, 0, Rows(nodes, []));
      NamesInRange(roleField, policy.roles, 0, Rows(nodes, []));
      FoldExtends(false, false, names.ids, names.nodes);
    }
  }

  /** A policy's two rows exist. */
  ghost predicate RowsExist(nodes: seq<Node>, policies: seq<Policy>) {
    forall k :: 0 <= k < |policies| ==> 1 <= policies[k].using <= |nodes| && 1 <= policies[k].check <= |nodes|
  }

  lemma RowsStillExist(nodes: seq<Node>, more: seq<Node>, policies: seq<Policy>)
    requires RowsExist(nodes, policies) && nodes <= more
    ensures RowsExist(more, policies)
  {
  }

  lemma EffectiveExtends(policies: seq<Policy>, phase: Phase, roleRoots: seq<nat>, commandField: nat, nodes: seq<Node>)
    requires |policies| == |roleRoots|
    ensures Extends(nodes, EmitEffective(policies, phase, roleRoots, nodes))
    ensures Extends(nodes, EmitPhase(policies, phase, roleRoots, commandField, nodes))
  {
    hide EmitFold, ModesFrom;
    PhaseGrows(policies, phase, roleRoots, commandField, nodes);
  }
}
