/** Composing parsed policies into one root row of the semantic table. */
module RlsComposers {
  import opened SemanticTables
  import opened SemanticBuilders
  import opened SqlMeaning
  import opened SqlAcceptance
  import opened RlsComposition
  import opened RlsEmission

  /** A field that holds text. */
  predicate StringField(kinds: seq<ValueKind>, field: nat) {
    FieldOk(kinds, field) && kinds[field - 1] == StringKind
  }

  lemma RefusedStays(limits: Limits, base: nat, part: seq<Node>, whole: seq<Node>)
    requires part <= whole && !Fits(limits, base, part)
    ensures !Fits(limits, base, whole)
  {
    hide Fits;
    if Fits(limits, base, whole) {
      FitsPrefix(limits, base, part, whole);
    }
  }

  lemma TypedFits(kinds: seq<ValueKind>, limits: Limits, base: nat, nodes: seq<Node>, node: Node)
    requires Fits(limits, base, nodes) && WellTyped(kinds, |nodes|, node)
    ensures Admits(kinds, limits, base, nodes, node) <==> Fits(limits, base, nodes + [node])
  {
    hide Fits, Room, WellTyped;
    FitsSnoc(limits, base, nodes, node);
  }

  lemma BuilderFits(builder: Builder)
    requires builder.Valid()
    ensures Fits(builder.limits, builder.base, builder.nodes)
  {
  }

  class Composer {
    const builder: Builder
    var failed: bool

    constructor (builder: Builder)
      ensures this.builder == builder && !failed
    {
      this.builder, failed := builder, false;
    }

    method AddGroup(conjunction: bool, left: nat, right: nat) returns (id: nat)
      requires builder.Valid() && (!failed ==> InRange(builder.nodes, [left, right]))
      modifies this, builder
      ensures builder.Valid() && (old(failed) ==> failed)
      ensures !old(failed) ==>
                (failed <==>
                 !Fits(builder.limits, builder.base, old(builder.nodes) + [Group(conjunction, [left, right])]))
      ensures !failed ==> Emitted(builder.nodes, id) == Append(old(builder.nodes), Group(conjunction, [left, right]))
    {
      hide Builder.Valid, Admits, WellTyped, Fits;
      BuilderFits(builder);
      if !failed {
        PairTyped(builder.kinds, builder.nodes, conjunction, left, right);
        TypedFits(builder.kinds, builder.limits, builder.base, builder.nodes, Group(conjunction, [left, right]));
      }
      var ok;
      ok, id := builder.AddGroup(conjunction, [left, right]);
      failed := failed || !ok;
    }

    method AddNot(child: nat) returns (id: nat)
      requires builder.Valid() && (!failed ==> InRange(builder.nodes, [child]))
      modifies this, builder
      ensures builder.Valid() && (old(failed) ==> failed)
      ensures !old(failed) ==> (failed <==> !Fits(builder.limits, builder.base, old(builder.nodes) + [Negation(child)]))
      ensures !failed ==> Emitted(builder.nodes, id) == Append(old(builder.nodes), Negation(child))
    {
      hide Builder.Valid, Admits, WellTyped, Fits;
      BuilderFits(builder);
      if !failed {
        ChildTyped(builder.kinds, builder.nodes, child);
        TypedFits(builder.kinds, builder.limits, builder.base, builder.nodes, Negation(child));
      }
      var ok;
      ok, id := builder.AddNot(child);
      failed := failed || !ok;
    }

    method AddBoolean(value: bool) returns (id: nat)
      requires builder.Valid()
      modifies this, builder
      ensures builder.Valid() && (old(failed) ==> failed)
      ensures !old(failed) ==> (failed <==> !Fits(builder.limits, builder.base, old(builder.nodes) + [Boolean(value)]))
      ensures !failed ==> Emitted(builder.nodes, id) == Append(old(builder.nodes), Boolean(value))
    {
      hide Builder.Valid, Admits, Fits;
      BuilderFits(builder);
      TypedFits(builder.kinds, builder.limits, builder.base, builder.nodes, Boolean(value));
      var ok;
      ok, id := builder.AddBoolean(value);
      failed := failed || !ok;
    }

    method AddEqual(field: nat, text: string) returns (id: nat)
      requires builder.Valid() && StringField(builder.kinds, field)
      modifies this, builder
      ensures builder.Valid() && (old(failed) ==> failed)
      ensures !old(failed) ==>
                (failed <==>
                 !Fits(builder.limits, builder.base, old(builder.nodes) + [Compare(field, Equal, Str(text))]))
      ensures !failed ==> Emitted(builder.nodes, id) == Append(old(builder.nodes), Compare(field, Equal, Str(text)))
    {
      hide Builder.Valid, Admits, Fits;
      BuilderFits(builder);
      TypedFits(builder.kinds, builder.limits, builder.base, builder.nodes, Compare(field, Equal, Str(text)));
      var ok;
      ok, id := builder.AddCompare(field, Equal, Str(text));
      failed := failed || !ok;
    }

    method AddExists(field: nat) returns (id: nat)
      requires builder.Valid() && StringField(builder.kinds, field)
      modifies this, builder
      ensures builder.Valid() && (old(failed) ==> failed)
      ensures !old(failed) ==> (failed <==> !Fits(builder.limits, builder.base, old(builder.nodes) + [Exists(field)]))
      ensures !failed ==> Emitted(builder.nodes, id) == Append(old(builder.nodes), Exists(field))
    {
      hide Builder.Valid, Admits, Fits;
      BuilderFits(builder);
      TypedFits(builder.kinds, builder.limits, builder.base, builder.nodes, Exists(field));
      var ok;
      ok, id := builder.AddExists(field);
      failed := failed || !ok;
    }

    /** Join a list of rows from the left. */
    method Fold(roots: seq<nat>, conjunction: bool, empty: bool) returns (id: nat)
      requires builder.Valid() && (!failed ==> InRange(builder.nodes, roots))
      modifies this, builder
      ensures builder.Valid() && (old(failed) ==> failed)
      ensures !old(failed) ==>
                (failed <==>
                 !Fits(builder.limits, builder.base, EmitFold(conjunction, empty, roots, old(builder.nodes)).nodes))
      ensures !failed ==> Emitted(builder.nodes, id) == EmitFold(conjunction, empty, roots, old(builder.nodes))
    {
      hide Builder.Valid, Fits, InRange;
      if |roots| == 0 {
        id := AddBoolean(empty);
        return;
      }
      id := roots[0];
      ghost var nodes0 := builder.nodes;
      ghost var whole := EmitFold(conjunction, empty, roots, nodes0);
      if !failed {
        OneInRange(nodes0, roots, 0);
      }
      for row := 1 to |roots|
        invariant builder.Valid() && (old(failed) ==> failed)
        invariant !failed ==> nodes0 <= builder.nodes && InRange(nodes0, roots) && InRange(builder.nodes, [id])
        invariant !failed ==> FoldFrom(conjunction, roots, row, Emitted(builder.nodes, id)) == whole
        invariant failed && !old(failed) ==> !Fits(builder.limits, builder.base, whole.nodes)
      {
        ghost var left, wasFailed := Emitted(builder.nodes, id), failed;
        ghost var joined := Append(left.nodes, Group(conjunction, [id, roots[row]]));
        if !failed {
          PairInRange(nodes0, builder.nodes, roots, row, id);
          FoldFromGrows(conjunction, roots, row + 1, joined);
        }
        id := AddGroup(conjunction, id, roots[row]);
        if !failed {
          LastInRange(builder.nodes);
        } else if !wasFailed {
          RefusedStays(builder.limits, builder.base, joined.nodes, whole.nodes);
        }
      }
      BuilderFits(builder);
    }

    /** The row that tells whether a policy is for the role. */
    method ComposeRole(policy: Policy, roleField: nat) returns (id: nat)
      requires builder.Valid() && !failed && StringField(builder.kinds, roleField)
      modifies this, builder
      ensures builder.Valid()
      ensures failed <==> !Fits(builder.limits, builder.base, EmitRole(policy, roleField, old(builder.nodes)).nodes)
      ensures !failed ==> Emitted(builder.nodes, id) == EmitRole(policy, roleField, old(builder.nodes))
    {
      hide Builder.Valid, Fits, InRange, EmitFold, NamesFrom;
      for row := 0 to |policy.roles|
        invariant forall j :: 0 <= j < row ==> !policy.roles[j].isPublic
      {
        if policy.roles[row].isPublic {
          id := AddBoolean(true);
          return;
        }
      }
      ghost var nodes0 := builder.nodes;
      ghost var names := NamesFrom(roleField, policy.roles, 0, Rows(nodes0, []));
      var roots := ComposeNames(policy.roles, roleField);
      ghost var wasFailed := failed;
      FoldGrows(false, false, names.ids, names.nodes);
      id := Fold(roots, false, false);
      if wasFailed {
        RefusedStays(builder.limits, builder.base, names.nodes, EmitFold(false, false, names.ids, names.nodes).nodes);
      }
    }

    method ComposeNames(roles: seq<Role>, roleField: nat) returns (roots: seq<nat>)
      requires builder.Valid() && !failed && StringField(builder.kinds, roleField)
      modifies this, builder
      ensures builder.Valid()
      ensures failed <==>
              !Fits(builder.limits, builder.base, NamesFrom(roleField, roles, 0, Rows(old(builder.nodes), [])).nodes)
      ensures !failed ==>
                && Rows(builder.nodes, roots) == NamesFrom(roleField, roles, 0, Rows(old(builder.nodes), []))
                && InRange(builder.nodes, roots)
    {
      hide Builder.Valid, Fits, InRange;
      ghost var whole := NamesFrom(roleField, roles, 0, Rows(builder.nodes, []));
      roots := [];
      NoneInRange(builder.nodes);
      for row := 0 to |roles|
        invariant builder.Valid()
        invariant !failed ==>
                NamesFrom(roleField, roles, row, Rows(builder.nodes, roots)) == whole && InRange(builder.nodes, roots)
        invariant failed ==> !Fits(builder.limits, builder.base, whole.nodes)
      {
        ghost var before, wasFailed := Rows(builder.nodes, roots), failed;
        ghost var next := Append(before.nodes, Compare(roleField, Equal, Str(roles[row].name)));
        NamesGrow(roleField, roles, row + 1, WithRow(before, next));
        var node := AddEqual(roleField, roles[row].name);
        if !failed {
          SnocInRange(before.nodes, builder.nodes, roots, node);
        } else if !wasFailed {
          RefusedStays(builder.limits, builder.base, next.nodes, whole.nodes);
        }
        roots := roots + [node];
      }
      BuilderFits(builder);
    }

    /** The rows that tell of every policy whether it is for the role. */
    method ComposeRoles(policies: seq<Policy>, roleField: nat) returns (roots: seq<nat>)
      requires builder.Valid() && !failed && StringField(builder.kinds, roleField)
      modifies this, builder
      ensures builder.Valid()
      ensures failed <==>
              !Fits(builder.limits, builder.base, RolesFrom(policies, roleField, 0, Rows(old(builder.nodes), [])).nodes)
      ensures !failed ==>
                && Rows(builder.nodes, roots) == RolesFrom(policies, roleField, 0, Rows(old(builder.nodes), []))
                && InRange(builder.nodes, roots)
    {
      hide Builder.Valid, Fits, InRange, EmitRole;
      ghost var whole := RolesFrom(policies, roleField, 0, Rows(builder.nodes, []));
      roots := [];
      NoneInRange(builder.nodes);
      for row := 0 to |policies|
        invariant builder.Valid() && !failed
        invariant RolesFrom(policies, roleField, row, Rows(builder.nodes, roots)) == whole
        invariant InRange(builder.nodes, roots)
      {
        ghost var before := Rows(builder.nodes, roots);
        ghost var next := EmitRole(policies[row], roleField, before.nodes);
        RolesGrow(policies, roleField, row + 1, WithRow(before, next));
        RoleExtends(policies[row], roleField, before.nodes);
        var node := ComposeRole(policies[row], roleField);
        if failed {
          RefusedStays(builder.limits, builder.base, next.nodes, whole.nodes);
          return;
        }
        SnocInRange(before.nodes, builder.nodes, roots, node);
        roots := roots + [node];
      }
      BuilderFits(builder);
    }

    /** The row of one policy in a phase. */
    method ComposePolicy(policy: Policy, phase: Phase, roleRoot: nat) returns (id: nat)
      requires builder.Valid() && (!failed ==> InRange(builder.nodes, [roleRoot]) && RowsExist(builder.nodes, [policy]))
      modifies this, builder
      ensures builder.Valid() && (old(failed) ==> failed)
      ensures !old(failed) ==>
                (failed <==>
                 !Fits(builder.limits, builder.base, EmitPolicy(policy, phase, roleRoot, old(builder.nodes)).nodes))
      ensures !failed ==> Emitted(builder.nodes, id) == EmitPolicy(policy, phase, roleRoot, old(builder.nodes))
    {
      hide Builder.Valid, Fits, InRange;
      var root := if ChecksNewRow(phase) then policy.check else policy.using;
      ghost var nodes0, wasFailed := builder.nodes, failed;
      if !failed {
        PolicyRows(nodes0, policy, roleRoot, root);
      }
      if policy.permissive {
        id := AddGroup(true, roleRoot, root);
      } else {
        var notRole := AddNot(roleRoot);
        if !failed {
          TwoInRange(builder.nodes, notRole, root);
        } else if !wasFailed {
          ghost var other := Append(nodes0, Negation(roleRoot));
          RefusedStays(builder.limits, builder.base, other.nodes, EmitPolicy(policy, phase, roleRoot, nodes0).nodes);
        }
        id := AddGroup(false, notRole, root);
      }
    }

    /** The lists of one phase, mode by mode. */
    method ComposeModes(policies: seq<Policy>, phase: Phase,
                        roleRoots: seq<nat>) returns (permissive: seq<nat>, restrictive: seq<nat>)
      requires builder.Valid() && !failed && |roleRoots| == |policies| && InRange(builder.nodes, roleRoots)
      requires RowsExist(builder.nodes, policies)
      modifies this, builder
      ensures builder.Valid()
      ensures failed <==> !Fits(builder.limits, builder.base,
                                ModesFrom(policies, phase, roleRoots, 0, Modes(old(builder.nodes), [], [])).nodes)
      ensures !failed ==> Modes(builder.nodes, permissive, restrictive) ==
                          ModesFrom(policies, phase, roleRoots, 0, Modes(old(builder.nodes), [], []))
      ensures !failed ==> InRange(builder.nodes, permissive) && InRange(builder.nodes, restrictive)
    {
      hide Builder.Valid, Fits, InRange, EmitPolicy, RowsExist, Covers;
      ghost var nodes0 := builder.nodes;
      ghost var whole := ModesFrom(policies, phase, roleRoots, 0, Modes(nodes0, [], []));
      permissive, restrictive := [], [];
      NoneInRange(builder.nodes);
      for row := 0 to |policies|
        invariant builder.Valid()
        invariant !failed ==>
                && nodes0 <= builder.nodes
                && ModesFrom(policies, phase, roleRoots, row, Modes(builder.nodes, permissive, restrictive)) == whole
        invariant !failed ==> InRange(builder.nodes, permissive) && InRange(builder.nodes, restrictive)
        invariant failed ==> !Fits(builder.limits, builder.base, whole.nodes)
      {
        if !Covers(policies[row].command, phase) {
          continue;
        }
        ghost var before, wasFailed := Modes(builder.nodes, permissive, restrictive), failed;
        ghost var next := EmitPolicy(policies[row], phase, roleRoots[row], before.nodes);
        if !failed {
          ModesInputs(nodes0, builder.nodes, policies, roleRoots, row);
          ModesGrow(policies, phase, roleRoots, row + 1, WithPolicy(policies[row], phase, roleRoots[row], before));
        }
        var id := ComposePolicy(policies[row], phase, roleRoots[row]);
        if !failed {
          PolicyExtends(policies[row], phase, roleRoots[row], before.nodes);
          InRangeMore(before.nodes, builder.nodes, permissive);
          InRangeMore(before.nodes, builder.nodes, restrictive);
          SnocInRange(before.nodes, builder.nodes, permissive, id);
          SnocInRange(before.nodes, builder.nodes, restrictive, id);
        } else if !wasFailed {
          RefusedStays(builder.limits, builder.base, next.nodes, whole.nodes);
        }
        if policies[row].permissive {
          permissive := permissive + [id];
        } else {
          restrictive := restrictive + [id];
        }
      }
      BuilderFits(builder);
    }

    /** Some permissive row and every restrictive row of a phase. */
    method ComposeEffective(policies: seq<Policy>, phase: Phase, roleRoots: seq<nat>) returns (id: nat)
      requires builder.Valid() && !failed && |roleRoots| == |policies| && InRange(builder.nodes, roleRoots)
      requires RowsExist(builder.nodes, policies)
      modifies this, builder
      ensures builder.Valid()
      ensures failed <==>
              !Fits(builder.limits, builder.base, EmitEffective(policies, phase, roleRoots, old(builder.nodes)).nodes)
      ensures !failed ==> Emitted(builder.nodes, id) == EmitEffective(policies, phase, roleRoots, old(builder.nodes))
    {
      hide Builder.Valid, Fits, InRange, RowsExist, EmitFold, ModesFrom;
      ghost var nodes0 := builder.nodes;
      ghost var whole, limits, base := EmitEffective(policies, phase, roleRoots,
                                                     nodes0).nodes, builder.limits, builder.base;
      EffectiveGrows(policies, phase, roleRoots, nodes0);
      var permissive, restrictive := ComposeModes(policies, phase, roleRoots);
      ghost var modes := ModesFrom(policies, phase, roleRoots, 0, Modes(nodes0, [], []));
      ghost var first := EmitFold(false, false, modes.permissive, modes.nodes);
      if failed {
        RefusedStays(limits, base, modes.nodes, whole);
      } else {
        FoldExtends(false, false, permissive, builder.nodes);
      }
      ghost var wasFailed, middle := failed, builder.nodes;
      var some := Fold(permissive, false, false);
      if !failed {
        InRangeMore(middle, builder.nodes, restrictive);
        FoldExtends(true, true, restrictive, builder.nodes);
      } else if !wasFailed {
        RefusedStays(limits, base, first.nodes, whole);
      }
      ghost var wasFailedToo := failed;
      var every := Fold(restrictive, true, true);
      if !failed {
        TwoInRange(builder.nodes, some, every);
      } else if !wasFailedToo {
        RefusedStays(limits, base, EmitFold(true, true, modes.restrictive, first.nodes).nodes, whole);
      }
      id := AddGroup(true, some, every);
    }

    /** The rows of one phase, guarded by its command. */
    method ComposePhase(policies: seq<Policy>, phase: Phase, roleRoots: seq<nat>, commandField: nat) returns (id: nat)
      requires builder.Valid() && !failed && |roleRoots| == |policies| && InRange(builder.nodes, roleRoots)
      requires RowsExist(builder.nodes, policies)
      requires StringField(builder.kinds, commandField)
      modifies this, builder
      ensures builder.Valid()
      ensures failed <==> !Fits(builder.limits, builder.base,
                                EmitPhase(policies, phase, roleRoots, commandField, old(builder.nodes)).nodes)
      ensures !failed ==>
                Emitted(builder.nodes, id) == EmitPhase(policies, phase, roleRoots, commandField, old(builder.nodes))
    {
      hide Builder.Valid, Fits, InRange, RowsExist, EmitEffective, PhaseName;
      ghost var nodes0 := builder.nodes;
      ghost var whole, limits, base := EmitPhase(policies, phase, roleRoots, commandField,
                                                 nodes0).nodes, builder.limits, builder.base;
      PhaseGrows(policies, phase, roleRoots, commandField, nodes0);
      EffectiveExtends(policies, phase, roleRoots, commandField, nodes0);
      ghost var first := EmitEffective(policies, phase, roleRoots, nodes0);
      var effective := ComposeEffective(policies, phase, roleRoots);
      if failed {
        RefusedStays(limits, base, first.nodes, whole);
      }
      ghost var wasFailed := failed;
      var guard := AddEqual(commandField, PhaseName(phase));
      if !failed {
        TwoInRange(builder.nodes, guard, effective);
      } else if !wasFailed {
        RefusedStays(limits, base, first.nodes + [Compare(commandField, Equal, Str(PhaseName(phase)))], whole);
      }
      id := AddGroup(true, guard, effective);
    }

    method ComposePhases(policies: seq<Policy>, roleRoots: seq<nat>, commandField: nat) returns (roots: seq<nat>)
      requires builder.Valid() && !failed && |roleRoots| == |policies| && InRange(builder.nodes, roleRoots)
      requires RowsExist(builder.nodes, policies)
      requires StringField(builder.kinds, commandField)
      modifies this, builder
      ensures builder.Valid()
      ensures failed <==> !Fits(builder.limits, builder.base,
                                PhasesFrom(policies, roleRoots, commandField, 0, Rows(old(builder.nodes), [])).nodes)
      ensures !failed ==>
                && Rows(builder.nodes, roots) ==
                   PhasesFrom(policies, roleRoots, commandField, 0, Rows(old(builder.nodes), []))
                && InRange(builder.nodes, roots)
    {
      hide Builder.Valid, Fits, InRange, RowsExist, EmitPhase;
      ghost var nodes0 := builder.nodes;
      ghost var whole := PhasesFrom(policies, roleRoots, commandField, 0, Rows(nodes0, []));
      roots := [];
      NoneInRange(builder.nodes);
      for row := 0 to |PHASES|
        invariant builder.Valid() && !failed && nodes0 <= builder.nodes
        invariant PhasesFrom(policies, roleRoots, commandField, row, Rows(builder.nodes, roots)) == whole
        invariant InRange(builder.nodes, roots)
      {
        ghost var before := Rows(builder.nodes, roots);
        ghost var next := EmitPhase(policies, PHASES[row], roleRoots, commandField, before.nodes);
        PhasesGrow(policies, roleRoots, commandField, row + 1, WithRow(before, next));
        EffectiveExtends(policies, PHASES[row], roleRoots, commandField, before.nodes);
        InRangeMore(nodes0, builder.nodes, roleRoots);
        RowsStillExist(nodes0, builder.nodes, policies);
        var node := ComposePhase(policies, PHASES[row], roleRoots, commandField);
        if failed {
          RefusedStays(builder.limits, builder.base, next.nodes, whole.nodes);
          return;
        }
        SnocInRange(before.nodes, builder.nodes, roots, node);
        roots := roots + [node];
      }
      BuilderFits(builder);
    }

    /** Compose all policies. It fails exactly when the rows do not fit the limits. */
    method Compose(policies: seq<Policy>, commandField: nat, roleField: nat) returns (root: nat)
      requires builder.Valid() && !failed && RowsExist(builder.nodes, policies)
      requires StringField(builder.kinds, commandField) && StringField(builder.kinds, roleField)
      modifies this, builder
      ensures builder.Valid()
      ensures failed <==>
              !Fits(builder.limits, builder.base, EmitRoot(policies, commandField, roleField, old(builder.nodes)).nodes)
      ensures !failed ==>
                Emitted(builder.nodes, root) == EmitRoot(policies, commandField, roleField, old(builder.nodes))
    {
      hide Builder.Valid, Fits, InRange, RowsExist, EmitFold, RolesFrom, PhasesFrom;
      ghost var nodes0 := builder.nodes;
      ghost var whole, limits, base := EmitRoot(policies, commandField, roleField,
                                                nodes0).nodes, builder.limits, builder.base;
      RootGrows(policies, commandField, roleField, nodes0);
      ghost var roles := RolesFrom(policies, roleField, 0, Rows(nodes0, []));
      var roleRoots := ComposeRoles(policies, roleField);
      if failed {
        RefusedStays(limits, base, roles.nodes, whole);
        return 0;
      }
      RowsStillExist(nodes0, builder.nodes, policies);
      ghost var phases := PhasesFrom(policies, roles.ids, commandField, 0, Rows(roles.nodes, []));
      var commandRoots := ComposePhases(policies, roleRoots, commandField);
      if failed {
        RefusedStays(limits, base, phases.nodes, whole);
        return 0;
      }
      root := FinishRoot(commandRoots, roleField, whole);
    }

    /** The role must be known and some phase must hold. */
    method FinishRoot(commandRoots: seq<nat>, roleField: nat, ghost whole: seq<Node>) returns (root: nat)
      requires builder.Valid() && !failed && InRange(builder.nodes, commandRoots)
      requires StringField(builder.kinds, roleField)
      requires whole == RootFrom(commandRoots, roleField, builder.nodes).nodes
      modifies this, builder
      ensures builder.Valid()
      ensures failed <==> !Fits(builder.limits, builder.base, whole)
      ensures !failed ==> Emitted(builder.nodes, root) == RootFrom(commandRoots, roleField, old(builder.nodes))
    {
      hide Builder.Valid, Fits, InRange, EmitFold;
      ghost var limits, base := builder.limits, builder.base;
      ghost var first := EmitFold(false, false, commandRoots, builder.nodes);
      FoldExtends(false, false, commandRoots, builder.nodes);
      var some := Fold(commandRoots, false, false);
      if failed {
        RefusedStays(limits, base, first.nodes, whole);
      }
      ghost var wasFailed := failed;
      var present := AddExists(roleField);
      if failed {
        if !wasFailed {
          RefusedStays(limits, base, first.nodes + [Exists(roleField)], whole);
        }
        return 0;
      }
      TwoInRange(builder.nodes, present, some);
      root := AddGroup(true, present, some);
    }
  }

  lemma PairTyped(kinds: seq<ValueKind>, nodes: seq<Node>, conjunction: bool, left: nat, right: nat)
    requires InRange(nodes, [left, right])
    ensures WellTyped(kinds, |nodes|, Group(conjunction, [left, right]))
  {
    assert [left, right][0] == left && [left, right][1] == right;
  }

  lemma ChildTyped(kinds: seq<ValueKind>, nodes: seq<Node>, child: nat)
    requires InRange(nodes, [child])
    ensures WellTyped(kinds, |nodes|, Negation(child))
  {
    assert [child][0] == child;
  }

  lemma OneInRange(nodes: seq<Node>, roots: seq<nat>, row: nat)
    requires InRange(nodes, roots) && row < |roots|
    ensures InRange(nodes, [roots[row]])
  {
  }

  lemma TwoInRange(nodes: seq<Node>, left: nat, right: nat)
    requires 1 <= left <= |nodes| && 1 <= right <= |nodes|
    ensures InRange(nodes, [left, right])
  {
  }

  lemma SnocInRange(nodes: seq<Node>, more: seq<Node>, ids: seq<nat>, id: nat)
    requires InRange(nodes, ids) && nodes <= more && 1 <= id <= |more|
    ensures InRange(more, ids + [id])
  {
  }

  lemma NoneInRange(nodes: seq<Node>)
    ensures InRange(nodes, [])
  {
  }

  lemma PairInRange(nodes: seq<Node>, more: seq<Node>, roots: seq<nat>, row: nat, id: nat)
    requires nodes <= more && InRange(nodes, roots) && row < |roots| && InRange(more, [id])
    ensures InRange(more, [id, roots[row]])
  {
    assert [id][0] == id;
  }

  lemma LastInRange(nodes: seq<Node>)
    requires nodes != []
    ensures InRange(nodes, [|nodes|])
  {
  }

  lemma PolicyRows(nodes: seq<Node>, policy: Policy, roleRoot: nat, root: nat)
    requires InRange(nodes, [roleRoot]) && RowsExist(nodes, [policy]) && (root == policy.using || root == policy.check)
    ensures InRange(nodes, [roleRoot, root]) && 1 <= root <= |nodes|
  {
    assert [roleRoot][0] == roleRoot && [policy][0] == policy;
  }

  lemma ModesInputs(nodes: seq<Node>, more: seq<Node>, policies: seq<Policy>, roleRoots: seq<nat>, row: nat)
    requires nodes <= more && InRange(nodes, roleRoots) && RowsExist(nodes, policies) && row < |policies| == |roleRoots|
    ensures InRange(more, [roleRoots[row]]) && RowsExist(more, [policies[row]])
  {
  }

  lemma PolicyExtends(policy: Policy, phase: Phase, roleRoot: nat, nodes: seq<Node>)
    ensures Extends(nodes, EmitPolicy(policy, phase, roleRoot, nodes))
  {
  }
}
