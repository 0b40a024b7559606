/** The candidate masks of the applicability index. A mask is the set of requirement
    rows whose bits are set. */
module PolicyIndex {
  import opened Truth
  import opened Programs
  import opened Constants
  import opened Applicability

  /** Requirement `row` needs the field to hold one of the values. */
  datatype Constraint = Constraint(row: nat, field: FieldId, values: seq<SymbolId>)

  /** Per field the rows it does not restrict, and per value the rows it admits. */
  datatype Index = Index(wildcards: map<FieldId, set<nat>>, masks: map<FieldId, map<SymbolId, set<nat>>>, rows: nat)

  /** Some constraint restricts the row by the field. */
  predicate Restricted(constraints: seq<Constraint>, row: nat, field: FieldId) {
    exists k :: 0 <= k < |constraints| && constraints[k].row == row && constraints[k].field == field
  }

  /** The row's constraint on the field lists the value. */
  predicate Lists(constraints: seq<Constraint>, row: nat, field: FieldId, value: SymbolId) {
    exists k :: 0 <= k < |constraints| && constraints[k].row == row &&
      constraints[k].field == field && value in constraints[k].values
  }

  /** A value of the field leaves the row in: unrestricted, or listed. */
  predicate Admits(constraints: seq<Constraint>, row: nat, field: FieldId, value: SymbolId) {
    !Restricted(constraints, row, field) || Lists(constraints, row, field, value)
  }

  predicate Mentioned(constraints: seq<Constraint>, field: FieldId) {
    exists k :: 0 <= k < |constraints| && constraints[k].field == field
  }

  predicate Valued(constraints: seq<Constraint>, field: FieldId, value: SymbolId) {
    exists k :: 0 <= k < |constraints| && constraints[k].field == field && value in constraints[k].values
  }

  /** The rows the field does not restrict. */
  ghost predicate WildcardOk(constraints: seq<Constraint>, rows: nat, field: FieldId, wildcard: set<nat>) {
    forall row :: row in wildcard <==> 0 <= row < rows && !Restricted(constraints, row, field)
  }

  /** The rows that list each value. */
  ghost predicate MasksOk(constraints: seq<Constraint>, rows: nat, field: FieldId, masks: map<SymbolId, set<nat>>) {
    && (forall v :: v in masks <==> Valued(constraints, field, v))
    && forall v, row :: v in masks ==> (row in masks[v] <==> 0 <= row < rows && Lists(constraints, row, field, v))
  }

  ghost predicate FieldEntered(constraints: seq<Constraint>, index: Index, f: FieldId) {
    && (f in index.wildcards <==> Mentioned(constraints, f))
    && (f in index.masks <==> Mentioned(constraints, f))
    && (f in index.wildcards ==> WildcardOk(constraints, index.rows, f, index.wildcards[f]))
    && (f in index.masks ==> MasksOk(constraints, index.rows, f, index.masks[f]))
  }

  /** The masks while constraints are entered. */
  ghost predicate Entered(constraints: seq<Constraint>, index: Index) {
    forall f :: FieldEntered(constraints, index, f)
  }

  function AllOf(rows: nat): (s: set<nat>)
    ensures forall r :: r in s <==> 0 <= r < rows
  {
    if rows == 0 then {} else AllOf(rows - 1) + {rows - 1}
  }

  /** Enter one value of a constraint into a field's masks. */
  function WithValue(masks: map<SymbolId, set<nat>>, value: SymbolId, row: nat): map<SymbolId, set<nat>> {
    masks[value := (if value in masks then masks[value] else {}) + {row}]
  }

  function WithValues(masks: map<SymbolId, set<nat>>, values: seq<SymbolId>, row: nat): (r: map<SymbolId, set<nat>>)
    ensures forall v :: v in r <==> v in masks || v in values
    ensures forall v, x :: v in r ==> (x in r[v] <==> (v in masks && x in masks[v]) || (v in values && x == row))
  {
    if values == [] then masks else WithValue(WithValues(masks, values[..|values| - 1], row), values[|values| - 1], row)
  }

  /** Enter one constraint. */
  function Enter(index: Index, c: Constraint): Index {
    var wildcard := if c.field in index.wildcards then index.wildcards[c.field] else AllOf(index.rows);
    var masks := if c.field in index.masks then index.masks[c.field] else map[];
    Index(index.wildcards[c.field := wildcard - {c.row}], index.masks[c.field := WithValues(masks, c.values, c.row)],
          index.rows)
  }

  lemma WildcardStep(constraints: seq<Constraint>, rows: nat, c: Constraint, wildcard: set<nat>)
    requires WildcardOk(constraints, rows, c.field, wildcard)
    ensures WildcardOk(constraints + [c], rows, c.field, wildcard - {c.row})
  {
    Grows(constraints, c, c.field);
    hide Restricted;
  }

  lemma MasksStep(constraints: seq<Constraint>, rows: nat, c: Constraint, masks: map<SymbolId, set<nat>>)
    requires MasksOk(constraints, rows, c.field, masks) && c.row < rows
    ensures MasksOk(constraints + [c], rows, c.field, WithValues(masks, c.values, c.row))
  {
    Grows(constraints, c, c.field);
    var next := WithValues(masks, c.values, c.row);
    hide Lists, Valued, WithValues;
    forall v, row | v in next
      ensures row in next[v] <==> 0 <= row < rows && Lists(constraints + [c], row, c.field, v)
    {
      if v !in masks && row >= 0 {
        NotListed(constraints, row, c.field, v);
      }
    }
  }

  lemma NotListed(constraints: seq<Constraint>, row: nat, field: FieldId, v: SymbolId)
    requires !Valued(constraints, field, v)
    ensures !Lists(constraints, row, field, v)
  {
  }

  lemma FreshField(constraints: seq<Constraint>, rows: nat, field: FieldId)
    requires !Mentioned(constraints, field)
    ensures WildcardOk(constraints, rows, field, AllOf(rows)) && MasksOk(constraints, rows, field, map[])
  {
  }

  lemma OtherField(constraints: seq<Constraint>, rows: nat, c: Constraint, f: FieldId, wildcard: set<nat>,
                   masks: map<SymbolId, set<nat>>)
    requires f != c.field
    ensures WildcardOk(constraints, rows, f, wildcard) ==> WildcardOk(constraints + [c], rows, f, wildcard)
    ensures MasksOk(constraints, rows, f, masks) ==> MasksOk(constraints + [c], rows, f, masks)
    ensures Mentioned(constraints + [c], f) <==> Mentioned(constraints, f)
  {
    Grows(constraints, c, f);
    hide Restricted, Lists, Valued, Mentioned;
  }

  lemma EnterKeeps(constraints: seq<Constraint>, index: Index, c: Constraint)
    requires Entered(constraints, index) && c.row < index.rows
    ensures Entered(constraints + [c], Enter(index, c))
  {
    var more, next := constraints + [c], Enter(index, c);
    hide WildcardOk, MasksOk, Mentioned;
    forall f
      ensures FieldEntered(more, next, f)
    {
      assert FieldEntered(constraints, index, f);
      if f == c.field {
        if !Mentioned(constraints, f) {
          FreshField(constraints, index.rows, f);
        }
        var wildcard := if f in index.wildcards then index.wildcards[f] else AllOf(index.rows);
        var masks := if f in index.masks then index.masks[f] else map[];
        WildcardStep(constraints, index.rows, c, wildcard);
        MasksStep(constraints, index.rows, c, masks);
        Grows(constraints, c, f);
      } else {
        OtherField(constraints, index.rows, c, f, if f in index.wildcards then index.wildcards[f] else {},
                   if f in index.masks then index.masks[f] else map[]);
      }
    }
  }

  lemma Grows(constraints: seq<Constraint>, c: Constraint, f: FieldId)
    ensures Mentioned(constraints + [c], f) <==> Mentioned(constraints, f) || f == c.field
    ensures forall row :: Restricted(constraints + [c], row, f) <==>
            (Restricted(constraints, row, f) || (f == c.field && row == c.row))
    ensures forall v :: Valued(constraints + [c], f, v) <==>
            (Valued(constraints, f, v) || (f == c.field && v in c.values))
    ensures forall row, v :: Lists(constraints + [c], row, f, v) <==>
            (Lists(constraints, row, f, v) || (f == c.field && row == c.row && v in c.values))
  {
    var more := constraints + [c];
    assert forall k :: 0 <= k < |constraints| ==> more[k] == constraints[k];
    assert more[|constraints|] == c;
  }

  /** Every value mask also admits the rows the field does not restrict. */
  function Widened(wildcard: set<nat>, masks: map<SymbolId, set<nat>>): map<SymbolId, set<nat>> {
    map v | v in masks :: masks[v] + wildcard
  }

  /** The finished index: a value's mask holds the rows it admits. */
  ghost predicate Built(constraints: seq<Constraint>, index: Index) {
    && (forall f :: f in index.wildcards <==> Mentioned(constraints, f))
    && (forall f :: f in index.masks <==> Mentioned(constraints, f))
    && (forall f, v, row :: f in index.wildcards ==>
          (row in MaskFor(index, f, v) <==> 0 <= row < index.rows && Admits(constraints, row, f, v)))
  }

  /** The mask a present fact selects: its own, or the wildcard of the field. */
  function MaskFor(index: Index, f: FieldId, v: SymbolId): set<nat>
    requires f in index.wildcards
  {
    if f in index.masks && v in index.masks[f] then index.masks[f][v] else index.wildcards[f]
  }

  predicate ConstraintOk(rows: nat, c: Constraint) {
    c.row < rows && c.field != 0 && c.values != [] && 0 !in c.values
  }

  /** Well-formed constraints, at most one per requirement and field. */
  predicate ConstraintsOk(rows: nat, constraints: seq<Constraint>) {
    && (forall k :: 0 <= k < |constraints| ==> ConstraintOk(rows, constraints[k]))
    && (forall j, k :: 0 <= j < k < |constraints| ==>
         constraints[j].row != constraints[k].row || constraints[j].field != constraints[k].field)
  }

  method Build(rows: nat, constraints: seq<Constraint>) returns (ok: bool, index: Index)
    ensures ok <==> ConstraintsOk(rows, constraints)
    ensures ok ==> Built(constraints, index) && index.rows == rows
  {
    index := Index(map[], map[], rows);
    NothingEntered(index);
    for k := 0 to |constraints|
      invariant ConstraintsOk(rows, constraints[..k])
      invariant index.rows == rows && Entered(constraints[..k], index)
    {
      hide Entered, Enter;
      var c := constraints[k];
      assert constraints[..k + 1] == constraints[..k] + [c];
      if !ConstraintOk(rows, c) || Restricted(constraints[..k], c.row, c.field) {
        return false, index;
      }
      EnterKeeps(constraints[..k], index, c);
      EnterRows(index, c);
      index := Enter(index, c);
    }
    assert constraints[..|constraints|] == constraints;
    ok := true;
    var entered := index;
    index := Index(entered.wildcards,
                   map f | f in entered.masks ::
                      Widened(if f in entered.wildcards then entered.wildcards[f] else {}, entered.masks[f]), rows);
    WidenedIsBuilt(constraints, entered, index);
  }

  lemma NothingEntered(index: Index)
    requires index.wildcards == map[] && index.masks == map[]
    ensures Entered([], index)
  {
  }

  lemma EnterRows(index: Index, c: Constraint)
    ensures Enter(index, c).rows == index.rows
  {
  }

  lemma WidenedIsBuilt(constraints: seq<Constraint>, entered: Index, index: Index)
    requires Entered(constraints, entered) && index.rows == entered.rows && index.wildcards == entered.wildcards
    requires index.masks.Keys == entered.masks.Keys
    requires forall f :: f in entered.masks ==>
               index.masks[f] == Widened(if f in entered.wildcards then entered.wildcards[f] else {}, entered.masks[f])
    ensures Built(constraints, index)
  {
    hide Mentioned, Valued, Lists, Restricted;
    forall f
      ensures f in index.wildcards <==> Mentioned(constraints, f)
      ensures f in index.masks <==> Mentioned(constraints, f)
    {
      assert FieldEntered(constraints, entered, f);
    }
    forall f, v, row | f in index.wildcards
      ensures row in MaskFor(index, f, v) <==> 0 <= row < index.rows && Admits(constraints, row, f, v)
    {
      assert FieldEntered(constraints, entered, f);
      assert index.masks[f] == Widened(entered.wildcards[f], entered.masks[f]);
      if v !in entered.masks[f] && row >= 0 {
        NotListed(constraints, row, f, v);
      }
      if row >= 0 {
        ListedIsRestricted(constraints, row, f, v);
      }
    }
  }

  lemma ListedIsRestricted(constraints: seq<Constraint>, row: nat, field: FieldId, v: SymbolId)
    ensures Lists(constraints, row, field, v) ==> Restricted(constraints, row, field)
  {
  }

  /** The requirement rows left in by the present facts of the given fields. */
  method Candidates(index: Index, ghost constraints: seq<Constraint>, fields: seq<FieldId>,
                    facts: Facts) returns (rows: set<nat>)
    requires Built(constraints, index)
    ensures forall r :: r in rows <==>
              0 <= r < index.rows && forall k :: 0 <= k < |fields| && facts(fields[k]).Some? ==>
                Admits(constraints, r, fields[k], facts(fields[k]).value)
  {
    rows := AllOf(index.rows);
    for k := 0 to |fields|
      invariant forall r :: r in rows <==>
                  0 <= r < index.rows && forall j :: 0 <= j < k && facts(fields[j]).Some? ==>
                    Admits(constraints, r, fields[j], facts(fields[j]).value)
    {
      var f := fields[k];
      if facts(f).Some? {
        if f in index.wildcards {
          rows := rows * MaskFor(index, f, facts(f).value);
        } else {
          assert forall r: nat :: !Restricted(constraints, r, f);
        }
      }
    }
  }

  // ----- from programs to filtered requirements -----

  /** A constraint restates a test that the requirement's root conjoins. */
  ghost predicate Justified(p: Program, c: Canonical, symbolFields: seq<bool>, roots: seq<InstructionId>,
                            con: Constraint) {
    && con.row < |roots| && 1 <= roots[con.row] <= |p.rows|
    && exists i :: Selects(p, symbolFields, i, con.field) &&
         Conjoined(p, roots[con.row] - 1, i) && SelectorValues(p, c, i) == con.values
  }

  /** Row i is conjoined by the root and selects on the field. */
  ghost predicate Selector(p: Program, symbolFields: seq<bool>, root: nat, i: nat, f: FieldId)
    requires root < |p.rows|
  {
    Selects(p, symbolFields, i, f) && Conjoined(p, root, i)
  }

  /** What a root says of a field: nothing, the values of its only selector, or too much. */
  ghost function StateOf(p: Program, c: Canonical, symbolFields: seq<bool>, root: nat, f: FieldId): FieldState
    requires root < |p.rows|
  {
    if !exists i :: Selector(p, symbolFields, root, i, f) then Unseen
    else
      var i :| Selector(p, symbolFields, root, i, f);
      if forall j :: Selector(p, symbolFields, root, j, f) ==> j == i then Single(SelectorValues(p, c, i))
      else Ambiguous
  }

  ghost function StatesOf(p: Program, c: Canonical, symbolFields: seq<bool>, root: nat): seq<FieldState>
    requires root < |p.rows|
  {
    seq(|symbolFields|, f requires 0 <= f < |symbolFields| => StateOf(p, c, symbolFields, root, f + 1))
  }

  /** The states after an exact search are what the root says. */
  lemma ExactStates(p: Program, c: Canonical, symbolFields: seq<bool>, root: nat, visited: seq<bool>,
                    states: seq<FieldState>)
    requires root < |p.rows| && StatesOk(p, c, symbolFields, visited, states)
    requires forall i :: 0 <= i < |p.rows| ==> (visited[i] <==> Conjoined(p, root, i))
    ensures states == StatesOf(p, c, symbolFields, root)
  {
    hide Conjoined, SelectorValues;
    forall f | 0 <= f < |states|
      ensures states[f] == StateOf(p, c, symbolFields, root, f + 1)
    {
      var field := f + 1;
      assert StateOk(p, c, symbolFields, visited, field, StateAt(states, field));
      assert forall i: nat :: Seen(p, symbolFields, visited, i, field) <==> Selector(p, symbolFields, root, i, field);
    }
  }

  /** The constraints of one requirement, in field order, up to a field. */
  function Emitted(row: nat, states: seq<FieldState>, n: nat): seq<Constraint>
    requires n <= |states|
  {
    if n == 0 then [] else
      Emitted(row, states, n - 1) +
      if states[n - 1].Single? then [Constraint(row, n, states[n - 1].values)] else []
  }

  function ValueTotal(constraints: seq<Constraint>): nat {
    if constraints == [] then 0
    else ValueTotal(constraints[..|constraints| - 1]) + |constraints[|constraints| - 1].values|
  }

  /** The constraint columns can be addressed. */
  predicate Fits(constraints: seq<Constraint>) {
    |constraints| <= MAX_UINT32 && ValueTotal(constraints) <= MAX_UINT32
  }

  lemma {:induction false} FitsPrefix(a: seq<Constraint>, b: seq<Constraint>)
    ensures ValueTotal(a) <= ValueTotal(a + b)
    ensures Fits(a + b) ==> Fits(a)
  {
    if b == [] {
      assert a + b == a;
    } else {
      FitsPrefix(a, b[..|b| - 1]);
      assert (a + b)[..|a + b| - 1] == a + b[..|b| - 1];
    }
  }

  lemma TotalNext(constraints: seq<Constraint>, con: Constraint)
    ensures ValueTotal(constraints + [con]) == ValueTotal(constraints) + |con.values|
  {
    assert (constraints + [con])[..|constraints|] == constraints;
  }

  lemma {:induction false} EmittedGrows(row: nat, states: seq<FieldState>, n: nat, m: nat)
    requires n <= m <= |states|
    ensures Emitted(row, states, n) <= Emitted(row, states, m)
  {
    if n < m {
      EmittedGrows(row, states, n, m - 1);
    }
  }

  /** Append the constraints of one requirement to those of the ones before. `total` is
      the number of their values. */
  method EmitConstraints(before: seq<Constraint>, total: nat, row: nat, states: seq<FieldState>)
    returns (status: Status, constraints: seq<Constraint>, total': nat)
    requires Fits(before) && total == ValueTotal(before)
    ensures status == if Fits(before + Emitted(row, states, |states|)) then Done else TooLarge
    ensures status == Done ==>
              constraints == before + Emitted(row, states, |states|) && total' == ValueTotal(constraints)
  {
    hide ValueTotal;
    constraints, total' := before, total;
    assert before + [] == before;
    for f := 0 to |states|
      invariant constraints == before + Emitted(row, states, f) && Fits(constraints)
      invariant total' == ValueTotal(constraints)
    {
      if states[f].Single? {
        var con := Constraint(row, f + 1, states[f].values);
        TotalNext(constraints, con);
        assert constraints + [con] == before + Emitted(row, states, f + 1);
        if |constraints| >= MAX_UINT32 || total' + |con.values| > MAX_UINT32 {
          WouldNotFit(before, row, states, f + 1);
          return TooLarge, constraints, total';
        }
        constraints, total' := constraints + [con], total' + |con.values|;
      } else {
        assert Emitted(row, states, f + 1) == Emitted(row, states, f);
      }
    }
    status := Done;
  }

  lemma WouldNotFit(before: seq<Constraint>, row: nat, states: seq<FieldState>, n: nat)
    requires n <= |states| && !Fits(before + Emitted(row, states, n))
    ensures !Fits(before + Emitted(row, states, |states|))
  {
    hide Fits;
    EmittedGrows(row, states, n, |states|);
    var some, all := Emitted(row, states, n), Emitted(row, states, |states|);
    FitsPrefix(before + some, all[|some|..]);
    assert before + some + all[|some|..] == before + all;
  }

  /** Constraints of one requirement: justified by its conjoined selectors, in ascending
      field order and never empty. */
  ghost predicate RowOfConstraints(p: Program, c: Canonical, symbolFields: seq<bool>, roots: seq<InstructionId>,
                                   row: nat, constraints: seq<Constraint>, n: nat) {
    && (forall k :: 0 <= k < |constraints| ==>
          && constraints[k].row == row && Justified(p, c, symbolFields, roots, constraints[k])
          && 0 < constraints[k].field <= n && constraints[k].values != [] && 0 !in constraints[k].values)
    && (forall j, k :: 0 <= j < k < |constraints| ==> constraints[j].field < constraints[k].field)
  }

  lemma RowExtends(p: Program, c: Canonical, symbolFields: seq<bool>, roots: seq<InstructionId>, row: nat,
                   constraints: seq<Constraint>, n: nat, con: Constraint)
    requires RowOfConstraints(p, c, symbolFields, roots, row, constraints, n)
    ensures RowOfConstraints(p, c, symbolFields, roots, row, constraints, n + 1)
    ensures con.row == row && con.field == n + 1 && con.values != [] && 0 !in con.values &&
            Justified(p, c, symbolFields, roots, con) ==>
              RowOfConstraints(p, c, symbolFields, roots, row, constraints + [con], n + 1)
  {
    hide Justified;
  }

  lemma {:induction false} EmittedIsJustified(p: Program, c: Canonical, symbolFields: seq<bool>,
                                              roots: seq<InstructionId>, row: nat, states: seq<FieldState>,
                                              visited: seq<bool>, n: nat)
    requires row < |roots| && 1 <= roots[row] <= |p.rows| && StatesOk(p, c, symbolFields, visited, states)
    requires SelectorsOk(p, c, symbolFields) && n <= |states|
    requires forall i :: 0 <= i < |p.rows| ==> (visited[i] <==> Conjoined(p, roots[row] - 1, i))
    ensures RowOfConstraints(p, c, symbolFields, roots, row, Emitted(row, states, n), n)
  {
    hide Justified, Conjoined, SelectorValues, SelectorsOk, StatesOk;
    if n > 0 {
      EmittedIsJustified(p, c, symbolFields, roots, row, states, visited, n - 1);
      hide RowOfConstraints;
      RowExtends(p, c, symbolFields, roots, row, Emitted(row, states, n - 1), n - 1,
                 Constraint(row, n, if states[n - 1].Single? then states[n - 1].values else []));
      if states[n - 1].Single? {
        SingleIsJustified(p, c, symbolFields, roots, row, states, visited, n);
      }
    }
  }

  /** No field with a single conjoined selector is left out. */
  lemma {:induction false} SingleIsEmitted(row: nat, states: seq<FieldState>, n: nat, f: nat)
    requires f < n <= |states| && states[f].Single?
    ensures Constraint(row, f + 1, states[f].values) in Emitted(row, states, n)
  {
    if f < n - 1 {
      SingleIsEmitted(row, states, n - 1, f);
    }
  }

  lemma SingleIsJustified(p: Program, c: Canonical, symbolFields: seq<bool>, roots: seq<InstructionId>, row: nat,
                          states: seq<FieldState>, visited: seq<bool>, f: FieldId)
    requires row < |roots| && 1 <= roots[row] <= |p.rows| && StatesOk(p, c, symbolFields, visited, states)
    requires SelectorsOk(p, c, symbolFields)
    requires forall i :: 0 <= i < |p.rows| ==> (visited[i] <==> Conjoined(p, roots[row] - 1, i))
    requires 1 <= f <= |states| && StateAt(states, f).Single?
    ensures Justified(p, c, symbolFields, roots, Constraint(row, f, StateAt(states, f).values))
    ensures StateAt(states, f).values != [] && 0 !in StateAt(states, f).values
  {
    assert StateOk(p, c, symbolFields, visited, f, StateAt(states, f));
    var i :| Seen(p, symbolFields, visited, i, f) && SelectorValues(p, c, i) == StateAt(states, f).values;
    hide Conjoined, SelectorValues;
  }

  /** The constraints of the first n requirements. */
  ghost function AllConstraints(p: Program, c: Canonical, symbolFields: seq<bool>, roots: seq<InstructionId>,
                                n: nat): seq<Constraint>
    requires n <= |roots| && forall r :: 0 <= r < |roots| ==> 1 <= roots[r] <= |p.rows|
  {
    if n == 0 then [] else
      AllConstraints(p, c, symbolFields, roots, n - 1) +
      Emitted(n - 1, StatesOf(p, c, symbolFields, roots[n - 1] - 1), |symbolFields|)
  }

  lemma {:induction false} AllConstraintsGrow(p: Program, c: Canonical, symbolFields: seq<bool>,
                                              roots: seq<InstructionId>, n: nat, m: nat)
    requires n <= m <= |roots| && forall r :: 0 <= r < |roots| ==> 1 <= roots[r] <= |p.rows|
    ensures AllConstraints(p, c, symbolFields, roots, n) <= AllConstraints(p, c, symbolFields, roots, m)
  {
    hide Emitted, StatesOf;
    if n < m {
      AllConstraintsGrow(p, c, symbolFields, roots, n, m - 1);
    }
  }

  lemma AllWouldNotFit(p: Program, c: Canonical, symbolFields: seq<bool>, roots: seq<InstructionId>, n: nat)
    requires n <= |roots| && forall r :: 0 <= r < |roots| ==> 1 <= roots[r] <= |p.rows|
    requires !Fits(AllConstraints(p, c, symbolFields, roots, n))
    ensures !Fits(AllConstraints(p, c, symbolFields, roots, |roots|))
  {
    AllConstraintsGrow(p, c, symbolFields, roots, n, |roots|);
    hide Fits, AllConstraints;
    var some, all := AllConstraints(p, c, symbolFields, roots, n), AllConstraints(p, c, symbolFields, roots, |roots|);
    FitsPrefix(some, all[|some|..]);
    assert some + all[|some|..] == all;
  }

  /** Every walk collects few enough values to address them. */
  predicate WalksFit(p: Program, c: Canonical, symbolFields: seq<bool>, roots: seq<InstructionId>)
    requires Topological(p) && forall r :: 0 <= r < |roots| ==> 1 <= roots[r] <= |p.rows|
  {
    forall r :: 0 <= r < |roots| ==> Collected(p, c, symbolFields, WalkOf(p, roots[r])) <= MAX_UINT32
  }

  /** What holds of the constraints of the first n requirements. */
  ghost predicate Gathered(p: Program, c: Canonical, symbolFields: seq<bool>, roots: seq<InstructionId>,
                           constraints: seq<Constraint>, n: nat) {
    && ConstraintsOk(|roots|, constraints)
    && forall k :: 0 <= k < |constraints| ==>
         constraints[k].row < n && Justified(p, c, symbolFields, roots, constraints[k])
  }

  lemma GatherRow(p: Program, c: Canonical, symbolFields: seq<bool>, roots: seq<InstructionId>,
                  before: seq<Constraint>, more: seq<Constraint>, row: nat, n: nat)
    requires row < |roots| && Gathered(p, c, symbolFields, roots, before, row)
    requires RowOfConstraints(p, c, symbolFields, roots, row, more, n)
    ensures Gathered(p, c, symbolFields, roots, before + more, row + 1)
  {
    hide Justified;
  }

  /** The constraints of all requirements, unless a column could not be addressed. */
  method ExtractApplicability(p: Program, c: Canonical, symbolFields: seq<bool>, roots: seq<InstructionId>)
    returns (status: Status, constraints: seq<Constraint>)
    requires Topological(p) && SelectorsOk(p, c, symbolFields)
    requires forall r :: 0 <= r < |roots| ==> 1 <= roots[r] <= |p.rows|
    ensures status == if WalksFit(p, c, symbolFields, roots) &&
                         Fits(AllConstraints(p, c, symbolFields, roots, |roots|)) then Done else TooLarge
    ensures status == Done ==>
              constraints == AllConstraints(p, c, symbolFields, roots, |roots|) && ConstraintsOk(|roots|, constraints)
    ensures status == Done ==>
              forall k :: 0 <= k < |constraints| ==> Justified(p, c, symbolFields, roots, constraints[k])
  {
    hide Topological, SelectorsOk, Justified, StatesOk, Fits, ValueTotal, Emitted, StatesOf, WalkOf, Collected;
    hide ConstraintsOk, RowOfConstraints, Conjoined;
    NothingGathered(p, c, symbolFields, roots);
    constraints := [];
    var total := 0;
    for row := 0 to |roots|
      invariant constraints == AllConstraints(p, c, symbolFields, roots, row) && Fits(constraints)
      invariant total == ValueTotal(constraints)
      invariant Gathered(p, c, symbolFields, roots, constraints, row)
      invariant forall r :: 0 <= r < row ==> Collected(p, c, symbolFields, WalkOf(p, roots[r])) <= MAX_UINT32
    {
      var states;
      ghost var visited;
      status, states, visited := ExtractConstraints(p, c, symbolFields, roots[row]);
      if status != Done {
        return;
      }
      ExactStates(p, c, symbolFields, roots[row] - 1, visited, states);
      StatesLength(p, c, symbolFields, visited, states);
      EmittedIsJustified(p, c, symbolFields, roots, row, states, visited, |states|);
      GatherRow(p, c, symbolFields, roots, constraints, Emitted(row, states, |states|), row, |states|);
      status, constraints, total := EmitConstraints(constraints, total, row, states);
      if status != Done {
        AllWouldNotFit(p, c, symbolFields, roots, row + 1);
        return;
      }
    }
    status := Done;
  }

  lemma NothingGathered(p: Program, c: Canonical, symbolFields: seq<bool>, roots: seq<InstructionId>)
    ensures Fits([]) && ValueTotal([]) == 0 && Gathered(p, c, symbolFields, roots, [], 0)
  {
  }

  /** A fact outside a justified constraint makes the requirement's root false. */
  lemma JustifiedIsNecessary(p: Program, c: Canonical, symbolFields: seq<bool>, roots: seq<InstructionId>,
                             con: Constraint,
                             leaf: Payload -> Cell, facts: Facts)
    requires Topological(p) && ReadsFacts(p, c, symbolFields, leaf, facts) && Justified(p, c, symbolFields, roots, con)
    ensures Value(p, leaf, roots[con.row] - 1).positive ==>
              facts(con.field).Some? && facts(con.field).value in con.values
    ensures facts(con.field).Some? && facts(con.field).value !in con.values ==>
              !Value(p, leaf, roots[con.row] - 1).positive && Value(p, leaf, roots[con.row] - 1).negative
  {
    hide Value, Topological, ReadsFacts, Conjoined, SelectorValues;
    var root := roots[con.row] - 1;
    var i :| Selects(p, symbolFields, i, con.field) && Conjoined(p, root, i) && SelectorValues(p, c, i) == con.values;
    ConjoinedTest(p, c, symbolFields, leaf, facts, root, i, con.field);
  }

  /** A requirement that the index leaves out has a false root, so skipping it gives
      what evaluating it would. */
  lemma FilteredIsFalse(p: Program, c: Canonical, symbolFields: seq<bool>, roots: seq<InstructionId>,
                        constraints: seq<Constraint>,
                        leaf: Payload -> Cell, facts: Facts, row: nat, field: FieldId)
    requires Topological(p) && ReadsFacts(p, c, symbolFields, leaf, facts) && row < |roots|
    requires 1 <= roots[row] <= |p.rows|
    requires forall k :: 0 <= k < |constraints| ==> Justified(p, c, symbolFields, roots, constraints[k])
    requires facts(field).Some? && !Admits(constraints, row, field, facts(field).value)
    ensures !Value(p, leaf, roots[row] - 1).positive && Value(p, leaf, roots[row] - 1).negative
  {
    hide Value, Topological, ReadsFacts, Justified;
    var k :| 0 <= k < |constraints| && constraints[k].row == row && constraints[k].field == field;
    assert facts(field).value !in constraints[k].values;
    JustifiedIsNecessary(p, c, symbolFields, roots, constraints[k], leaf, facts);
  }
}
