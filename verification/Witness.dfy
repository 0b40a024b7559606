/** Locating a proof witness in the enumeration of a domain. */
module Witnesses {
  import opened Enumeration

  datatype Value = Missing | Present(kind: nat, text: string, integer: int, boolean: bool)

  datatype FieldDomain = FieldDomain(name: string, values: seq<Value>, closed: bool)

  datatype Evidence = Evidence(kind: string, state: string, subject: string, scope: string, timing: string)

  datatype Domain = Domain(fields: seq<FieldDomain>, evidenceSets: seq<seq<Evidence>>, evidenceClosed: bool)

  datatype NamedValue = NamedValue(name: string, value: Value)

  datatype Witness = Witness(fields: seq<NamedValue>, evidence: seq<Evidence>)

  /** The plan of a search: the domain rows of the referenced fields, and the radices,
      of which the last is the number of evidence scenarios searched. */
  datatype Plan = Plan(fieldRows: seq<nat>, counts: seq<nat>, strides: seq<nat>, usesEvidence: bool)

  /** How the plan fits the domain. Unused evidence has a single scenario. */
  predicate PlanOk(plan: Plan, domain: Domain) {
    && |plan.counts| == |plan.fieldRows| + 1 && |plan.strides| == |plan.counts|
    && Radices(plan.counts)
    && (forall d :: 0 <= d < |plan.fieldRows| ==>
          plan.fieldRows[d] < |domain.fields| && plan.counts[d] == |domain.fields[plan.fieldRows[d]].values|)
    && plan.counts[|plan.fieldRows|] == (if plan.usesEvidence then |domain.evidenceSets| else 1)
    && (forall i :: 0 <= i < |plan.counts| ==> plan.strides[i] == Product(plan.counts, i))
  }

  function FieldAt(plan: Plan, domain: Domain, d: nat): FieldDomain
    requires PlanOk(plan, domain) && d < |plan.fieldRows|
  {
    domain.fields[plan.fieldRows[d]]
  }

  /** Exactly one field of the witness has the name. */
  predicate NamedOnce(fields: seq<NamedValue>, name: string) {
    exists r :: 0 <= r < |fields| && fields[r].name == name &&
      forall q :: 0 <= q < |fields| && fields[q].name == name ==> q == r
  }

  function ValueOf(fields: seq<NamedValue>, name: string): Value
    requires exists r :: 0 <= r < |fields| && fields[r].name == name
  {
    if fields[0].name == name then fields[0].value
    else
      assert exists r :: 0 <= r < |fields[1..]| && fields[1..][r].name == name by {
        var r :| 0 <= r < |fields| && fields[r].name == name;
        assert fields[1..][r - 1] == fields[r];
      }
      ValueOf(fields[1..], name)
  }

  lemma {:induction false} ValueOfUnique(fields: seq<NamedValue>, name: string, r: nat)
    requires r < |fields| && fields[r].name == name
    requires forall q :: 0 <= q < |fields| && fields[q].name == name ==> q == r
    ensures ValueOf(fields, name) == fields[r].value
  {
    if r > 0 {
      assert fields[1..][r - 1] == fields[r];
      ValueOfUnique(fields[1..], name, r - 1);
    }
  }

  /** The witness names every field of the plan once and nothing else. */
  predicate NamesMatch(plan: Plan, domain: Domain, proof: Witness)
    requires PlanOk(plan, domain)
  {
    && |proof.fields| == |plan.fieldRows|
    && forall d :: 0 <= d < |plan.fieldRows| ==> NamedOnce(proof.fields, FieldAt(plan, domain, d).name)
  }

  /** A choice of options spells the witness out. */
  ghost predicate Spells(plan: Plan, domain: Domain, proof: Witness, options: seq<nat>)
    requires PlanOk(plan, domain) && NamesMatch(plan, domain, proof) && IsOptions(plan.counts, options)
  {
    && (forall d :: 0 <= d < |plan.fieldRows| ==> DigitSpells(plan, domain, proof, d, options[d]))
    && (if domain.evidenceSets == [] then proof.evidence == []
        else options[|plan.fieldRows|] < |domain.evidenceSets| &&
             domain.evidenceSets[options[|plan.fieldRows|]] == proof.evidence)
  }

  ghost predicate DigitSpells(plan: Plan, domain: Domain, proof: Witness, d: nat, option: nat)
    requires PlanOk(plan, domain) && NamesMatch(plan, domain, proof) && d < |plan.fieldRows|
  {
    assert NamedOnce(proof.fields, FieldAt(plan, domain, d).name);
    && option < |FieldAt(plan, domain, d).values|
    && FieldAt(plan, domain, d).values[option] == ValueOf(proof.fields, FieldAt(plan, domain, d).name)
  }

  /** The row with the given name; a missing or repeated name is refused. */
  method FindName(fields: seq<NamedValue>, name: string) returns (ok: bool, row: nat)
    ensures ok <==> NamedOnce(fields, name)
    ensures ok ==> row < |fields| && fields[row].name == name && fields[row].value == ValueOf(fields, name)
  {
    var found := -1;
    for r := 0 to |fields|
      invariant -1 <= found < r
      invariant found >= 0 ==> fields[found].name == name
      invariant forall q :: 0 <= q < r && fields[q].name == name ==> q == found
    {
      if fields[r].name == name {
        if found >= 0 {
          return false, 0;
        }
        found := r;
      }
    }
    if found < 0 {
      return false, 0;
    }
    ValueOfUnique(fields, name, found);
    return true, found;
  }

  /** The first position of an element. */
  method FindFirst<T(==)>(items: seq<T>, item: T) returns (ok: bool, row: nat)
    ensures ok <==> item in items
    ensures ok ==> row < |items| && items[row] == item && forall q :: 0 <= q < row ==> items[q] != item
  {
    for r := 0 to |items|
      invariant forall q :: 0 <= q < r ==> items[q] != item
    {
      if items[r] == item {
        return true, r;
      }
    }
    return false, 0;
  }

  /** Digits found for the first n fields. */
  ghost predicate SpellsTo(plan: Plan, domain: Domain, proof: Witness, options: seq<nat>, n: nat)
    requires PlanOk(plan, domain) && n <= |plan.fieldRows|
  {
    && |options| == n
    && forall d :: 0 <= d < n ==>
         && NamedOnce(proof.fields, FieldAt(plan, domain, d).name)
         && options[d] < plan.counts[d]
         && FieldAt(plan, domain, d).values[options[d]] == ValueOf(proof.fields, FieldAt(plan, domain, d).name)
  }

  lemma {:induction false} EncodePrefix(counts: seq<nat>, options: seq<nat>, more: seq<nat>, n: nat)
    requires n <= |options| && n <= |counts| && options <= more
    ensures Encode(counts, options, n) == Encode(counts, more, n)
  {
    if n > 0 {
      EncodePrefix(counts, options, more, n - 1);
      assert more[n - 1] == options[n - 1];
    }
  }

  /** The index of a witness. It is found exactly when some candidate spells the
      witness out, and then decoding the index gives such a candidate. */
  method CandidateIndex(plan: Plan, domain: Domain, proof: Witness) returns (ok: bool, index: nat)
    requires PlanOk(plan, domain)
    ensures ok <==> NamesMatch(plan, domain, proof) &&
                    exists options :: IsOptions(plan.counts, options) && Spells(plan, domain, proof, options)
    ensures ok ==> index < Product(plan.counts, |plan.counts|)
    ensures ok ==> IsOptions(plan.counts, Digits(plan.counts, index))
    ensures ok ==> Spells(plan, domain, proof, Digits(plan.counts, index))
  {
    hide Product, Radices, Encode, Spells, IsOptions, NamesMatch, SpellsTo;
    if |proof.fields| != |plan.fieldRows| {
      WrongFields(plan, domain, proof);
      return false, 0;
    }
    ghost var options: seq<nat> := [];
    index := 0;
    NothingSpelled(plan, domain, proof);
    for d := 0 to |plan.fieldRows|
      invariant |options| == d && SpellsTo(plan, domain, proof, options, d)
      invariant index == Encode(plan.counts, options, d)
    {
      var field := FieldAt(plan, domain, d);
      var named, row := FindName(proof.fields, field.name);
      if !named {
        Unnamed(plan, domain, proof, d);
        return false, 0;
      }
      var listed, option := FindFirst(field.values, proof.fields[row].value);
      if !listed {
        NoOption(plan, domain, proof, d);
        return false, 0;
      }
      SpellsNext(plan, domain, proof, options, d, option);
      EncodeNext(plan.counts, options, option);
      options := options + [option];
      index := index + option * plan.strides[d];
    }
    ok, index := AddEvidence(plan, domain, proof, options, index);
  }

  lemma WrongFields(plan: Plan, domain: Domain, proof: Witness)
    requires PlanOk(plan, domain) && |proof.fields| != |plan.fieldRows|
    ensures !NamesMatch(plan, domain, proof)
  {
  }

  lemma Unnamed(plan: Plan, domain: Domain, proof: Witness, d: nat)
    requires PlanOk(plan, domain) && d < |plan.fieldRows| && !NamedOnce(proof.fields, FieldAt(plan, domain, d).name)
    ensures !NamesMatch(plan, domain, proof)
  {
  }

  lemma NothingSpelled(plan: Plan, domain: Domain, proof: Witness)
    requires PlanOk(plan, domain)
    ensures SpellsTo(plan, domain, proof, [], 0) && Encode(plan.counts, [], 0) == 0
  {
  }

  lemma SpellsNext(plan: Plan, domain: Domain, proof: Witness, options: seq<nat>, d: nat, option: nat)
    requires PlanOk(plan, domain) && d < |plan.fieldRows| && SpellsTo(plan, domain, proof, options, d)
    requires NamedOnce(proof.fields, FieldAt(plan, domain, d).name) && option < |FieldAt(plan, domain, d).values|
    requires FieldAt(plan, domain, d).values[option] == ValueOf(proof.fields, FieldAt(plan, domain, d).name)
    ensures |options| == d && SpellsTo(plan, domain, proof, options + [option], d + 1)
  {
    hide ValueOf, Product, Radices;
  }

  lemma EncodeNext(counts: seq<nat>, options: seq<nat>, option: nat)
    requires |options| < |counts|
    ensures Encode(counts, options + [option], |options| + 1) ==
            Encode(counts, options, |options|) + option * Product(counts, |options|)
  {
    EncodePrefix(counts, options, options + [option], |options|);
  }

  lemma NoOption(plan: Plan, domain: Domain, proof: Witness, d: nat)
    requires PlanOk(plan, domain) && d < |plan.fieldRows| && NamedOnce(proof.fields, FieldAt(plan, domain, d).name)
    requires ValueOf(proof.fields, FieldAt(plan, domain, d).name) !in FieldAt(plan, domain, d).values
    ensures NamesMatch(plan, domain, proof) ==>
              !exists options :: IsOptions(plan.counts, options) && Spells(plan, domain, proof, options)
  {
    if NamesMatch(plan, domain, proof) {
      forall options | IsOptions(plan.counts, options)
        ensures !Spells(plan, domain, proof, options)
      {
        assert !DigitSpells(plan, domain, proof, d, options[d]);
      }
    }
  }

  /** The evidence digit. Evidence the policies do not read must be the first scenario. */
  method AddEvidence(plan: Plan, domain: Domain, proof: Witness, ghost options: seq<nat>,
                     fields: nat) returns (ok: bool, index: nat)
    requires PlanOk(plan, domain) && |proof.fields| == |plan.fieldRows|
    requires SpellsTo(plan, domain, proof, options, |plan.fieldRows|)
    requires fields == Encode(plan.counts, options, |plan.fieldRows|)
    ensures NamesMatch(plan, domain, proof)
    ensures ok <==> exists options :: IsOptions(plan.counts, options) && Spells(plan, domain, proof, options)
    ensures ok ==> index < Product(plan.counts, |plan.counts|)
    ensures ok ==> IsOptions(plan.counts, Digits(plan.counts, index))
    ensures ok ==> Spells(plan, domain, proof, Digits(plan.counts, index))
  {
    hide Product, Encode, Digits, Spells, SpellsTo, NamesMatch, IsOptions, PlanOk, Radices;
    NamesSpelled(plan, domain, proof, options);
    LastStride(plan, domain);
    var n := |plan.fieldRows|;
    index := fields;
    var scenario := 0;
    if domain.evidenceSets == [] {
      if proof.evidence != [] {
        NoScenario(plan, domain, proof);
        return false, 0;
      }
    } else {
      var found;
      found, scenario := FindFirst(domain.evidenceSets, proof.evidence);
      if !found {
        NoScenario(plan, domain, proof);
        return false, 0;
      }
      index := index + scenario * plan.strides[n];
    }
    ok := index < Product(plan.counts, n + 1);
    EvidenceDecides(plan, domain, proof, options, scenario, index);
  }

  lemma NamesSpelled(plan: Plan, domain: Domain, proof: Witness, options: seq<nat>)
    requires PlanOk(plan, domain) && |proof.fields| == |plan.fieldRows|
    requires SpellsTo(plan, domain, proof, options, |plan.fieldRows|)
    ensures NamesMatch(plan, domain, proof)
  {
    hide ValueOf, NamedOnce;
  }

  lemma NoScenario(plan: Plan, domain: Domain, proof: Witness)
    requires PlanOk(plan, domain) && NamesMatch(plan, domain, proof)
    requires proof.evidence !in domain.evidenceSets && (domain.evidenceSets == [] ==> proof.evidence != [])
    ensures !exists options :: IsOptions(plan.counts, options) && Spells(plan, domain, proof, options)
  {
    hide DigitSpells, NamesMatch;
  }

  lemma EvidenceDecides(plan: Plan, domain: Domain, proof: Witness, options: seq<nat>, scenario: nat, index: nat)
    requires PlanOk(plan, domain) && |proof.fields| == |plan.fieldRows|
    requires SpellsTo(plan, domain, proof, options, |plan.fieldRows|) && FirstScenario(domain, proof, scenario)
    requires index == Encode(plan.counts, options, |plan.fieldRows|) + scenario * Product(plan.counts, |plan.fieldRows|)
    ensures NamesMatch(plan, domain, proof)
    ensures index < Product(plan.counts, |plan.counts|) <==>
            (exists o :: IsOptions(plan.counts, o) && Spells(plan, domain, proof, o))
    ensures index < Product(plan.counts, |plan.counts|) ==> IsOptions(plan.counts, Digits(plan.counts, index))
    ensures index < Product(plan.counts, |plan.counts|) ==> Spells(plan, domain, proof, Digits(plan.counts, index))
  {
    hide Product, Encode, Digits, Spells, SpellsTo, IsOptions, PlanOk, NamesMatch, Radices, FirstScenario;
    PlanFacts(plan, domain);
    OptionsLength(plan, domain, proof, options);
    NamesSpelled(plan, domain, proof, options);
    var n := |plan.fieldRows|;
    var full := options + [scenario];
    EncodeNext(plan.counts, options, scenario);
    if scenario < plan.counts[n] {
      FullSpells(plan, domain, proof, options, scenario);
      DigitsOfEncode(plan.counts, full);
    } else {
      OnlyScenario(plan, domain, proof, scenario);
      TooBig(plan, options, scenario);
    }
  }

  /** The first scenario with the evidence of the proof; none is needed without scenarios. */
  ghost predicate FirstScenario(domain: Domain, proof: Witness, scenario: nat) {
    if domain.evidenceSets == [] then proof.evidence == [] && scenario == 0
    else
      && scenario < |domain.evidenceSets| && domain.evidenceSets[scenario] == proof.evidence
      && forall q :: 0 <= q < scenario ==> domain.evidenceSets[q] != proof.evidence
  }

  lemma LastStride(plan: Plan, domain: Domain)
    requires PlanOk(plan, domain)
    ensures |plan.counts| == |plan.strides| == |plan.fieldRows| + 1
    ensures plan.strides[|plan.fieldRows|] == Product(plan.counts, |plan.fieldRows|)
  {
    hide Product;
  }

  lemma PlanFacts(plan: Plan, domain: Domain)
    requires PlanOk(plan, domain)
    ensures |plan.counts| == |plan.fieldRows| + 1 && Radices(plan.counts)
  {
  }

  lemma OptionsLength(plan: Plan, domain: Domain, proof: Witness, options: seq<nat>)
    requires PlanOk(plan, domain) && SpellsTo(plan, domain, proof, options, |plan.fieldRows|)
    ensures |options| == |plan.fieldRows|
  {
  }

  /** The options of the fields and an offered scenario spell the proof. */
  lemma FullSpells(plan: Plan, domain: Domain, proof: Witness, options: seq<nat>, scenario: nat)
    requires PlanOk(plan, domain) && NamesMatch(plan, domain, proof)
    requires SpellsTo(plan, domain, proof, options, |plan.fieldRows|) && FirstScenario(domain, proof, scenario)
    requires scenario < plan.counts[|plan.fieldRows|]
    ensures IsOptions(plan.counts, options + [scenario]) && Spells(plan, domain, proof, options + [scenario])
  {
    hide Product, ValueOf, Radices;
    var full := options + [scenario];
    forall d | 0 <= d < |plan.fieldRows|
      ensures full[d] < plan.counts[d] && DigitSpells(plan, domain, proof, d, full[d])
    {
    }
  }

  /** A search without scenarios does not offer a later one. */
  lemma OnlyScenario(plan: Plan, domain: Domain, proof: Witness, scenario: nat)
    requires PlanOk(plan, domain) && NamesMatch(plan, domain, proof) && FirstScenario(domain, proof, scenario)
    requires scenario >= plan.counts[|plan.fieldRows|]
    ensures plan.counts[|plan.fieldRows|] == 1 && scenario >= 1
    ensures !exists o :: IsOptions(plan.counts, o) && Spells(plan, domain, proof, o)
  {
    hide Product, DigitSpells, NamesMatch;
    forall o | IsOptions(plan.counts, o)
      ensures !Spells(plan, domain, proof, o)
    {
      assert o[|plan.fieldRows|] == 0;
    }
  }

  lemma TooBig(plan: Plan, options: seq<nat>, scenario: nat)
    requires Radices(plan.counts) && |plan.counts| == |options| + 1
    requires plan.counts[|options|] == 1 && scenario >= 1
    ensures Encode(plan.counts, options, |options|) + scenario * Product(plan.counts, |options|) >=
            Product(plan.counts, |options| + 1)
  {
    MulMonotone(1, scenario, Product(plan.counts, |options|));
  }
}
