/** Who CREATE POLICY statements let through, said of the statements and the text of the
    command, apart from how policies are composed. */
module RlsAdmission {
  import opened SemanticTables
  import opened SqlMeaning
  import opened RlsComposition
  import opened RlsGrammar
  import opened RlsStatements

  /** The statement speaks of the command: FOR ALL of every one, an update of both its phases. */
  predicate Concerns(st: Statement, command: string) {
    || st.command == AllCommands
    || (st.command == SelectCommand && command == "select")
    || (st.command == InsertCommand && command == "insert")
    || (st.command == UpdateCommand && (command == "update_using" || command == "update_check"))
    || (st.command == DeleteCommand && command == "delete")
  }

  /** The statement's condition holds: WITH CHECK for a row that is written, or USING if it is
      left out; USING for a row that is there already; and none that is left out altogether. */
  predicate ConditionHolds(st: Statement, command: string, facts: Facts) {
    if command == "insert" || command == "update_check" then
      if st.check.Given? then OrsTruth(st.check.tree, facts) == True
      else st.using.Given? ==> OrsTruth(st.using.tree, facts) == True
    else st.using.Given? ==> OrsTruth(st.using.tree, facts) == True
  }

  /** The statement is for everyone, or names the role. */
  predicate ForRole(st: Statement, roleField: nat, facts: Facts) {
    exists k :: 0 <= k < |st.roles| &&
      (st.roles[k].isPublic || (roleField in facts && facts[roleField] == Str(st.roles[k].name)))
  }

  /** Some permissive statement grants the command and every restrictive one agrees. */
  predicate CommandGranted(statements: seq<Statement>, roleField: nat, command: string, facts: Facts) {
    && (exists k :: 0 <= k < |statements| && statements[k].permissive && Concerns(statements[k], command) &&
                    ForRole(statements[k], roleField, facts) && ConditionHolds(statements[k], command, facts))
    && forall k :: 0 <= k < |statements| && !statements[k].permissive ==>
         Concerns(statements[k], command) && ForRole(statements[k], roleField, facts) ==>
           ConditionHolds(statements[k], command, facts)
  }

  /** The request says its role and its command, which is one of the five, and is granted it. */
  predicate LetsThrough(statements: seq<Statement>, commandField: nat, roleField: nat, facts: Facts) {
    && roleField in facts && commandField in facts
    && exists command ::
         && command in {"select", "insert", "update_using", "update_check", "delete"}
         && facts[commandField] == Str(command) && CommandGranted(statements, roleField, command, facts)
  }

  // ----- composing policies lets through the same -----

  /** The policies that statements declare, apart from their rows. */
  function PoliciesOf(statements: seq<Statement>): seq<Policy> {
    seq(|statements|, k requires 0 <= k < |statements| =>
        Policy(statements[k].permissive, statements[k].command, statements[k].roles, 0, 0))
  }

  lemma CoversIsConcerns(st: Statement, phase: Phase)
    ensures Covers(st.command, phase) <==> Concerns(st, PhaseName(phase))
  {
  }

  lemma WorthIsHolds(st: Statement, phase: Phase, facts: Facts)
    requires Concerns(st, PhaseName(phase))
    ensures PredicateWorth(WorthOf(st), phase, facts) == True <==> ConditionHolds(st, PhaseName(phase), facts)
  {
    hide OrsTruth;
  }

  lemma RoleIsForRole(statements: seq<Statement>, k: nat, roleField: nat, facts: Facts)
    requires k < |statements|
    ensures RoleMatches(PoliciesOf(statements)[k], roleField, facts) <==> ForRole(statements[k], roleField, facts)
  {
  }

  lemma StatementGrants(statements: seq<Statement>, roleField: nat, phase: Phase, facts: Facts, k: nat)
    requires k < |statements|
    ensures |PoliciesOf(statements)| == |Worths(statements)| == |statements|
    ensures PoliciesOf(statements)[k].permissive == statements[k].permissive
    ensures var st, command := statements[k], PhaseName(phase);
            && (Grants(PoliciesOf(statements), Worths(statements), roleField, phase, facts, k) <==>
                  Concerns(st, command) && ForRole(st, roleField, facts) && ConditionHolds(st, command, facts))
            && (Forbids(PoliciesOf(statements), Worths(statements), roleField, phase, facts, k) <==>
                  Concerns(st, command) && ForRole(st, roleField, facts) && !ConditionHolds(st, command, facts))
  {
    var st := statements[k];
    CoversIsConcerns(st, phase);
    RoleIsForRole(statements, k, roleField, facts);
    if Concerns(st, PhaseName(phase)) {
      WorthIsHolds(st, phase, facts);
    }
    hide Covers, Concerns, RoleMatches, ForRole, PredicateWorth, ConditionHolds, WorthOf, PhaseName;
    assert Worths(statements)[k] == WorthOf(st);
  }

  lemma PhaseIsCommand(statements: seq<Statement>, roleField: nat, phase: Phase, facts: Facts)
    ensures |PoliciesOf(statements)| == |Worths(statements)| == |statements|
    ensures PhaseAllowed(PoliciesOf(statements), Worths(statements), roleField, phase, facts) <==>
            CommandGranted(statements, roleField, PhaseName(phase), facts)
  {
    hide Grants, Forbids, Concerns, ForRole, ConditionHolds, PhaseName, Worths, PoliciesOf;
    SizesAgree(statements);
    forall k | 0 <= k < |statements|
      ensures var st, command := statements[k], PhaseName(phase);
              && PoliciesOf(statements)[k].permissive == st.permissive
              && (Grants(PoliciesOf(statements), Worths(statements), roleField, phase, facts, k) <==>
                    Concerns(st, command) && ForRole(st, roleField, facts) && ConditionHolds(st, command, facts))
              && (Forbids(PoliciesOf(statements), Worths(statements), roleField, phase, facts, k) <==>
                    Concerns(st, command) && ForRole(st, roleField, facts) && !ConditionHolds(st, command, facts))
    {
      StatementGrants(statements, roleField, phase, facts, k);
    }
  }

  lemma SizesAgree(statements: seq<Statement>)
    ensures |PoliciesOf(statements)| == |Worths(statements)| == |statements|
  {
  }

  lemma PhasesAreCommands(phase: Phase)
    ensures PhaseName(phase) in {"select", "insert", "update_using", "update_check", "delete"}
    ensures PhaseName(Select) == "select" && PhaseName(Insert) == "insert" && PhaseName(UpdateUsing) == "update_using"
    ensures PhaseName(UpdateCheck) == "update_check" && PhaseName(Delete) == "delete"
  {
  }

  /** What the policies of the statements allow is what the statements let through. */
  lemma AllowedIsLetThrough(statements: seq<Statement>, commandField: nat, roleField: nat, facts: Facts)
    ensures |PoliciesOf(statements)| == |Worths(statements)|
    ensures Allowed(PoliciesOf(statements), Worths(statements), commandField, roleField, facts) <==>
            LetsThrough(statements, commandField, roleField, facts)
  {
    hide PhaseAllowed, CommandGranted, PhaseName, Worths, PoliciesOf;
    SizesAgree(statements);
    var policies, worths := PoliciesOf(statements), Worths(statements);
    forall phase: Phase
      ensures PhaseName(phase) in {"select", "insert", "update_using", "update_check", "delete"}
      ensures PhaseAllowed(policies, worths, roleField, phase, facts) <==>
              CommandGranted(statements, roleField, PhaseName(phase), facts)
    {
      PhasesAreCommands(phase);
      PhaseIsCommand(statements, roleField, phase, facts);
    }
    if LetsThrough(statements, commandField, roleField, facts) {
      var command :| command in {"select", "insert", "update_using", "update_check", "delete"} &&
                     facts[commandField] == Str(command) && CommandGranted(statements, roleField, command, facts);
      PhasesAreCommands(Select);
      var phase := if command == "select" then Select else if command == "insert" then Insert
                   else if command == "update_using" then UpdateUsing
                   else if command == "update_check" then UpdateCheck else Delete;
      assert PhaseName(phase) == command;
    }
  }
}
