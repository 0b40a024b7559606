/** The applicability index: symbolic restrictions that a requirement's root implies,
    and the requirements they rule out for given facts. */
module Applicability {
  import opened Optional
  import opened Truth
  import opened Programs
  import opened Constants

  type FieldId = nat
  type SymbolId = nat
  type Facts = FieldId -> Option<SymbolId>

  /** Row i is the root, or an operand of a conjunction that the root conjoins. */
  ghost predicate Conjoined(p: Program, root: nat, i: nat)
    requires root < |p.rows| && i < |p.rows|
    decreases |p.rows| - i
  {
    i == root || exists j :: i < j < |p.rows| && Conjoined(p, root, j) && OpcodeAt(p, j) == ALL && i + 1 in Ops(p, j)
  }

  /** A positive root makes every conjoined row positive. */
  lemma {:induction false} ConjoinedPositive(p: Program, leaf: Payload -> Cell, root: nat, i: nat)
    requires Topological(p) && root < |p.rows| && i < |p.rows| && Conjoined(p, root, i)
    requires Value(p, leaf, root).positive
    ensures Value(p, leaf, i).positive
    decreases |p.rows| - i
  {
    hide Value, Ops;
    if i != root {
      var j :| i < j < |p.rows| && Conjoined(p, root, j) && OpcodeAt(p, j) == ALL && i + 1 in Ops(p, j);
      ConjoinedPositive(p, leaf, root, j);
      OperandOfAll(p, leaf, j, i);
    }
  }

  /** A false conjoined row makes the root false. */
  lemma {:induction false} ConjoinedFalse(p: Program, leaf: Payload -> Cell, root: nat, i: nat)
    requires Topological(p) && root < |p.rows| && i < |p.rows| && Conjoined(p, root, i)
    requires !Value(p, leaf, i).positive && Value(p, leaf, i).negative
    ensures !Value(p, leaf, root).positive && Value(p, leaf, root).negative
    decreases |p.rows| - i
  {
    hide Value, Ops;
    if i != root {
      var j :| i < j < |p.rows| && Conjoined(p, root, j) && OpcodeAt(p, j) == ALL && i + 1 in Ops(p, j);
      OperandOfAll(p, leaf, j, i);
      ConjoinedFalse(p, leaf, root, j);
    }
  }

  lemma OperandOfAll(p: Program, leaf: Payload -> Cell, j: nat, i: nat)
    requires Topological(p) && i < j < |p.rows| && OpcodeAt(p, j) == ALL && i + 1 in Ops(p, j)
    ensures Value(p, leaf, j).positive ==> Value(p, leaf, i).positive
    ensures Value(p, leaf, i).negative ==> Value(p, leaf, j).negative
  {
    hide Value, Ops;
    ValueUnfold(p, leaf, j);
    var k :| 0 <= k < |Ops(p, j)| && Ops(p, j)[k] == i + 1;
    assert Values(p, leaf, Ops(p, j))[k] == Value(p, leaf, i);
    assert Value(p, leaf, i) in Values(p, leaf, Ops(p, j));
  }

  // ----- selectors -----

  /** The symbol a canonical value stands for; 0 when it is not a symbol. */
  function SelectorSymbol(c: Canonical, value: nat): SymbolId {
    if 1 <= value <= |c.values| && c.values[value - 1].SymbolKey? && 1 <= c.values[value - 1].id <= |c.symbols|
    then c.values[value - 1].id else 0
  }

  /** The values an equality or membership row tests for. */
  function TestedValues(payload: Payload): seq<nat> {
    if payload.opcode == EQUAL then [payload.value] else payload.list
  }

  function Symbols(c: Canonical, values: seq<nat>): seq<SymbolId> {
    seq(|values|, k requires 0 <= k < |values| => SelectorSymbol(c, values[k]))
  }

  /** Row i selects on symbol field f: an equality or membership test of the field. */
  predicate Selects(p: Program, symbolFields: seq<bool>, i: nat, f: FieldId) {
    && i < |p.rows| && (OpcodeAt(p, i) == EQUAL || OpcodeAt(p, i) == IN)
    && p.rows[i].payload.field == f && 1 <= f <= |symbolFields| && symbolFields[f - 1]
  }

  function SelectorValues(p: Program, c: Canonical, i: nat): seq<SymbolId>
    requires i < |p.rows|
  {
    Symbols(c, TestedValues(p.rows[i].payload))
  }

  /** What the compiler guarantees of tests on symbol fields: the field exists, every
      tested value is a symbol, and there is at least one. */
  ghost predicate SelectorsOk(p: Program, c: Canonical, symbolFields: seq<bool>) {
    && (forall i :: 0 <= i < |p.rows| && (OpcodeAt(p, i) == EQUAL || OpcodeAt(p, i) == IN) ==>
          1 <= p.rows[i].payload.field <= |symbolFields|)
    && (forall i, f :: Selects(p, symbolFields, i, f) ==>
          SelectorValues(p, c, i) != [] && 0 !in SelectorValues(p, c, i))
  }

  /** How the evaluator tests a symbol field: a missing fact decides nothing, and a
      present one is positive or negative. */
  ghost predicate ReadsFacts(p: Program, c: Canonical, symbolFields: seq<bool>, leaf: Payload -> Cell, facts: Facts) {
    forall i: nat, f: nat :: Selects(p, symbolFields, i, f) ==>
      && (leaf(p.rows[i].payload).positive <==> facts(f).Some? && facts(f).value in SelectorValues(p, c, i))
      && (leaf(p.rows[i].payload).negative <==> facts(f).Some? && facts(f).value !in SelectorValues(p, c, i))
  }

  lemma SelectorCell(p: Program, c: Canonical, symbolFields: seq<bool>, leaf: Payload -> Cell, facts: Facts, i: nat,
                     f: FieldId)
    requires Topological(p) && Selects(p, symbolFields, i, f) && ReadsFacts(p, c, symbolFields, leaf, facts)
    ensures Value(p, leaf, i).positive <==> facts(f).Some? && facts(f).value in SelectorValues(p, c, i)
    ensures Value(p, leaf, i).negative <==> facts(f).Some? && facts(f).value !in SelectorValues(p, c, i)
  {
    hide Value;
    ValueUnfold(p, leaf, i);
  }

  // ----- extraction -----

  datatype FieldState = Unseen | Single(values: seq<SymbolId>) | Ambiguous

  /** What has been seen of field f among the visited rows. */
  ghost predicate StateOk(p: Program, c: Canonical, symbolFields: seq<bool>, visited: seq<bool>, f: FieldId,
                          state: FieldState)
    requires |visited| == |p.rows|
  {
    match state
    case Unseen => forall i :: Seen(p, symbolFields, visited, i, f) ==> false
    case Single(values) =>
      exists i :: Seen(p, symbolFields, visited, i, f) && SelectorValues(p, c, i) == values &&
                  forall j :: Seen(p, symbolFields, visited, j, f) ==> j == i
    case Ambiguous =>
      exists i, j :: i < j && Seen(p, symbolFields, visited, i, f) && Seen(p, symbolFields, visited, j, f)
  }

  predicate Seen(p: Program, symbolFields: seq<bool>, visited: seq<bool>, i: nat, f: FieldId)
    requires |visited| == |p.rows|
  {
    Selects(p, symbolFields, i, f) && visited[i]
  }

  ghost predicate StatesOk(p: Program, c: Canonical, symbolFields: seq<bool>, visited: seq<bool>,
                           states: seq<FieldState>) {
    && |visited| == |p.rows| && |states| == |symbolFields|
    && forall f :: 1 <= f <= |states| ==> StateOk(p, c, symbolFields, visited, f, StateAt(states, f))
  }

  function StateAt(states: seq<FieldState>, f: FieldId): FieldState {
    if 1 <= f <= |states| then states[f - 1] else Unseen
  }

  /** The search so far: only conjoined rows are visited or waiting, and the operands
      of visited conjunctions are visited or waiting. */
  ghost predicate Searching(p: Program, root: nat, visited: seq<bool>, stack: seq<InstructionId>) {
    && root < |p.rows| && |visited| == |p.rows|
    && (forall i :: 0 <= i < |visited| && visited[i] ==> Conjoined(p, root, i))
    && (forall k :: 0 <= k < |stack| ==> 1 <= stack[k] <= |p.rows| && Conjoined(p, root, stack[k] - 1))
    && (visited[root] || root + 1 in stack)
    && (forall j, id :: 0 <= j < |visited| && visited[j] && OpcodeAt(p, j) == ALL && id in Ops(p, j) ==>
         Handled(visited, stack, id))
  }

  predicate Handled(visited: seq<bool>, stack: seq<InstructionId>, id: InstructionId) {
    (1 <= id <= |visited| && visited[id - 1]) || id in stack
  }

  lemma {:induction false} SearchFindsAll(p: Program, root: nat, visited: seq<bool>, i: nat)
    requires Searching(p, root, visited, []) && i < |p.rows| && Conjoined(p, root, i)
    ensures visited[i]
    decreases |p.rows| - i
  {
    hide Ops;
    if i != root {
      var j :| i < j < |p.rows| && Conjoined(p, root, j) && OpcodeAt(p, j) == ALL && i + 1 in Ops(p, j);
      SearchFindsAll(p, root, visited, j);
      assert Handled(visited, [], i + 1);
    }
  }

  lemma PopVisited(p: Program, root: nat, visited: seq<bool>, stack: seq<InstructionId>)
    requires Searching(p, root, visited, stack) && stack != [] && visited[stack[|stack| - 1] - 1]
    ensures Searching(p, root, visited, stack[..|stack| - 1])
  {
    hide Conjoined, Ops;
    var id, rest := stack[|stack| - 1], stack[..|stack| - 1];
    assert stack == rest + [id];
    forall j, x | 0 <= j < |visited| && visited[j] && OpcodeAt(p, j) == ALL && x in Ops(p, j)
      ensures Handled(visited, rest, x)
    {
      assert Handled(visited, stack, x);
    }
  }

  lemma OperandConjoined(p: Program, root: nat, row: nat, id: InstructionId)
    requires Topological(p) && root < |p.rows| && row < |p.rows| && Conjoined(p, root, row)
    requires OpcodeAt(p, row) == ALL && id in Ops(p, row)
    ensures 1 <= id <= |p.rows| && Conjoined(p, root, id - 1)
  {
    hide Ops;
    assert RowOk(p, row);
  }

  /** Visiting the top row and pushing the operands of a conjunction. */
  lemma Visit(p: Program, root: nat, visited: seq<bool>, stack: seq<InstructionId>, pushed: seq<InstructionId>)
    requires Topological(p) && Searching(p, root, visited, stack) && stack != []
    requires var row := stack[|stack| - 1] - 1;
             if OpcodeAt(p, row) == ALL then forall x :: x in pushed <==> x in Ops(p, row) else pushed == []
    ensures Searching(p, root, visited[stack[|stack| - 1] - 1 := true], stack[..|stack| - 1] + pushed)
  {
    hide Ops, Topological, Conjoined;
    var id, rest := stack[|stack| - 1], stack[..|stack| - 1];
    var row := id - 1;
    var visited', stack' := visited[row := true], rest + pushed;
    assert stack == rest + [id];
    forall k | 0 <= k < |stack'|
      ensures 1 <= stack'[k] <= |p.rows| && Conjoined(p, root, stack'[k] - 1)
    {
      if k >= |rest| {
        assert stack'[k] in pushed;
        OperandConjoined(p, root, row, stack'[k]);
      }
    }
    forall j, x | 0 <= j < |visited'| && visited'[j] && OpcodeAt(p, j) == ALL && x in Ops(p, j)
      ensures Handled(visited', stack', x)
    {
      if j != row {
        assert Handled(visited, stack, x);
      }
    }
  }

  /** The new state of a field when another row selects on it. */
  function Noticed(state: FieldState, values: seq<SymbolId>): FieldState {
    match state
    case Unseen => Single(values)
    case _ => Ambiguous
  }

  /** The states after visiting one more row. */
  function NextStates(p: Program, c: Canonical, symbolFields: seq<bool>, states: seq<FieldState>,
                      row: nat): seq<FieldState>
    requires row < |p.rows| && |states| == |symbolFields|
  {
    var f := p.rows[row].payload.field;
    if Selects(p, symbolFields, row, f) then states[f - 1 := Noticed(states[f - 1], SelectorValues(p, c, row))]
    else states
  }

  lemma StateStep(p: Program, c: Canonical, symbolFields: seq<bool>, visited: seq<bool>, state: FieldState, row: nat,
                  f: FieldId)
    requires |visited| == |p.rows| && row < |p.rows| && !visited[row] && StateOk(p, c, symbolFields, visited, f, state)
    ensures StateOk(p, c, symbolFields, visited[row := true], f,
                    if Selects(p, symbolFields, row, f) then Noticed(state, SelectorValues(p, c, row)) else state)
  {
    hide SelectorValues;
    var visited' := visited[row := true];
    assert forall i: nat :: Seen(p, symbolFields, visited', i, f) <==>
                  Seen(p, symbolFields, visited, i, f) || (i == row && Selects(p, symbolFields, row, f));
    if Selects(p, symbolFields, row, f) {
      assert Seen(p, symbolFields, visited', row, f);
      if state.Single? {
        var i :| Seen(p, symbolFields, visited, i, f);
        assert Seen(p, symbolFields, visited', i, f);
      }
    }
  }

  lemma StatesStep(p: Program, c: Canonical, symbolFields: seq<bool>, visited: seq<bool>, states: seq<FieldState>,
                   row: nat)
    requires StatesOk(p, c, symbolFields, visited, states) && row < |p.rows| && !visited[row]
    ensures StatesOk(p, c, symbolFields, visited[row := true], NextStates(p, c, symbolFields, states, row))
  {
    hide StateOk, SelectorValues;
    var states' := NextStates(p, c, symbolFields, states, row);
    forall f | 1 <= f <= |states'|
      ensures StateOk(p, c, symbolFields, visited[row := true], f, StateAt(states', f))
    {
      StateStep(p, c, symbolFields, visited, StateAt(states, f), row, f);
    }
  }

  function Unvisited(visited: seq<bool>): set<nat> {
    set i | 0 <= i < |visited| && !visited[i]
  }

  function Reversed(ids: seq<InstructionId>): (r: seq<InstructionId>)
    ensures forall x :: x in r <==> x in ids
  {
    if ids == [] then [] else Reversed(ids[1..]) + [ids[0]]
  }

  // ----- the values a walk collects -----

  predicate InRange(p: Program, stack: seq<InstructionId>) {
    forall k :: 0 <= k < |stack| ==> 1 <= stack[k] <= |p.rows|
  }

  /** What visiting a row pushes: the operands of a conjunction, the first on top. */
  function Pushed(p: Program, row: nat): seq<InstructionId>
    requires row < |p.rows|
  {
    if OpcodeAt(p, row) == ALL then Reversed(Ops(p, row)) else []
  }

  lemma PushedInRange(p: Program, row: nat)
    requires Topological(p) && row < |p.rows|
    ensures InRange(p, Pushed(p, row))
  {
    assert RowOk(p, row);
    forall k | 0 <= k < |Pushed(p, row)|
      ensures 1 <= Pushed(p, row)[k] <= |p.rows|
    {
      assert Pushed(p, row)[k] in Ops(p, row);
    }
  }

  lemma VisitShrinks(visited: seq<bool>, row: nat)
    requires row < |visited| && !visited[row]
    ensures Unvisited(visited[row := true]) < Unvisited(visited)
  {
    assert row in Unvisited(visited);
  }

  /** The rows that the rest of a walk visits, in its order. */
  function Order(p: Program, visited: seq<bool>, stack: seq<InstructionId>): seq<nat>
    requires Topological(p) && |visited| == |p.rows| && InRange(p, stack)
    decreases Unvisited(visited), |stack|
  {
    if stack == [] then [] else
      var row, rest := stack[|stack| - 1] - 1, stack[..|stack| - 1];
      if visited[row] then Order(p, visited, rest)
      else
        VisitShrinks(visited, row);
        PushedInRange(p, row);
        [row] + Order(p, visited[row := true], rest + Pushed(p, row))
  }

  /** The conjunctions under a root in the order the walk visits them. */
  function WalkOf(p: Program, root: InstructionId): seq<nat>
    requires Topological(p) && 1 <= root <= |p.rows|
  {
    Order(p, seq(|p.rows|, _ => false), [root])
  }

  /** The row is the first of the walk to select on its field. */
  predicate SelectsFirst(p: Program, symbolFields: seq<bool>, before: seq<nat>, row: nat)
    requires row < |p.rows|
  {
    var f := p.rows[row].payload.field;
    Selects(p, symbolFields, row, f) && forall i :: i in before ==> !Selects(p, symbolFields, i, f)
  }

  /** The number of values collected from a walk: those of the first selector of every field. */
  function Collected(p: Program, c: Canonical, symbolFields: seq<bool>, order: seq<nat>): nat {
    if order == [] then 0 else
      var before, row := order[..|order| - 1], order[|order| - 1];
      Collected(p, c, symbolFields, before) +
      if row < |p.rows| && SelectsFirst(p, symbolFields, before, row) then |SelectorValues(p, c, row)| else 0
  }

  lemma {:induction false} CollectedGrows(p: Program, c: Canonical, symbolFields: seq<bool>, order: seq<nat>,
                                          more: seq<nat>)
    ensures Collected(p, c, symbolFields, order) <= Collected(p, c, symbolFields, order + more)
  {
    if more == [] {
      assert order + more == order;
    } else {
      CollectedGrows(p, c, symbolFields, order, more[..|more| - 1]);
      assert (order + more)[..|order + more| - 1] == order + more[..|more| - 1];
    }
  }

  /** What reading a row adds to the values collected. */
  function Added(p: Program, c: Canonical, symbolFields: seq<bool>, states: seq<FieldState>, row: nat): nat
    requires row < |p.rows| && |states| == |symbolFields|
  {
    var f := p.rows[row].payload.field;
    if Selects(p, symbolFields, row, f) && states[f - 1].Unseen? then |SelectorValues(p, c, row)| else 0
  }

  ghost predicate Visits(visited: seq<bool>, order: seq<nat>) {
    forall i :: i in order <==> 0 <= i < |visited| && visited[i]
  }

  lemma CollectedNext(p: Program, c: Canonical, symbolFields: seq<bool>, visited: seq<bool>, states: seq<FieldState>,
                      order: seq<nat>, row: nat)
    requires StatesOk(p, c, symbolFields, visited, states) && Visits(visited, order) && row < |p.rows|
    ensures Collected(p, c, symbolFields, order + [row]) ==
            Collected(p, c, symbolFields, order) + Added(p, c, symbolFields, states, row)
    ensures Visits(visited[row := true], order + [row])
  {
    hide SelectorValues, Collected;
    CollectedLast(p, c, symbolFields, order, row);
    var f := p.rows[row].payload.field;
    if Selects(p, symbolFields, row, f) {
      assert StateOk(p, c, symbolFields, visited, f, StateAt(states, f));
      if states[f - 1].Unseen? {
        forall i | i in order
          ensures !Selects(p, symbolFields, i, f)
        {
          assert !Seen(p, symbolFields, visited, i, f);
        }
      } else {
        var i :| Seen(p, symbolFields, visited, i, f);
        assert i in order;
      }
    }
  }

  lemma CollectedLast(p: Program, c: Canonical, symbolFields: seq<bool>, order: seq<nat>, row: nat)
    requires row < |p.rows|
    ensures Collected(p, c, symbolFields, order + [row]) ==
            Collected(p, c, symbolFields, order) +
            if SelectsFirst(p, symbolFields, order, row) then |SelectorValues(p, c, row)| else 0
  {
    assert (order + [row])[..|order|] == order;
  }

  /** Read one selector row into the field states. `total` is the number of values
      collected so far. */
  method AppendSelectorValues(p: Program, c: Canonical, symbolFields: seq<bool>, states: seq<FieldState>, row: nat,
                              total: nat)
    returns (status: Status, states': seq<FieldState>, total': nat)
    requires row < |p.rows| && |states| == |symbolFields| && SelectorsOk(p, c, symbolFields) && total <= MAX_UINT32
    ensures total' == total + Added(p, c, symbolFields, states, row)
    ensures status == if total' <= MAX_UINT32 then Done else TooLarge
    ensures status == Done ==> states' == NextStates(p, c, symbolFields, states, row)
  {
    hide SelectorValues;
    states', total' := states, total;
    var payload := p.rows[row].payload;
    if payload.opcode != EQUAL && payload.opcode != IN {
      return Done, states, total;
    }
    var field := payload.field;
    if field == 0 || field > |symbolFields| {
      return InvalidProgram, states, total;
    }
    if !symbolFields[field - 1] {
      return Done, states, total;
    }
    assert Selects(p, symbolFields, row, field);
    var values := SelectorValues(p, c, row);
    if 0 in values || values == [] {
      return InvalidProgram, states, total;
    }
    if states[field - 1].Unseen? {
      total' := total + |values|;
      if total' > MAX_UINT32 {
        return TooLarge, states, total';
      }
    }
    states' := states[field - 1 := Noticed(states[field - 1], values)];
    status := Done;
  }

  /** Walk the conjunctions under one requirement root. At the end the states tell,
      for every symbol field, whether no conjoined row, exactly one, or several
      select on it. */
  method ExtractConstraints(p: Program, c: Canonical, symbolFields: seq<bool>, root: InstructionId)
    returns (status: Status, states: seq<FieldState>, ghost visited: seq<bool>)
    requires Topological(p) && 1 <= root <= |p.rows| && SelectorsOk(p, c, symbolFields)
    ensures status == if Collected(p, c, symbolFields, WalkOf(p, root)) <= MAX_UINT32 then Done else TooLarge
    ensures status == Done ==> StatesOk(p, c, symbolFields, visited, states)
    ensures status == Done ==>
              |visited| == |p.rows| && forall i :: 0 <= i < |p.rows| ==> (visited[i] <==> Conjoined(p, root - 1, i))
  {
    hide Topological, SelectorsOk, StatesOk, Searching, NextStates, Order, Collected, Visits, Pushed, Added;
    var seen, stack := seq(|p.rows|, _ => false), [root];
    var total := 0;
    ghost var order: seq<nat> := [];
    states := seq(|symbolFields|, _ => Unseen);
    StartOk(p, c, symbolFields, seen, states, root - 1);
    NothingCollected(p, c, symbolFields, seen);
    while stack != []
      invariant Searching(p, root - 1, seen, stack) && StatesOk(p, c, symbolFields, seen, states)
      invariant |seen| == |p.rows| && |states| == |symbolFields| && InRange(p, stack)
      invariant Visits(seen, order) && WalkOf(p, root) == order + Order(p, seen, stack)
      invariant total == Collected(p, c, symbolFields, order) <= MAX_UINT32
      decreases Unvisited(seen), |stack|
    {
      var row := stack[|stack| - 1] - 1;
      OrderUnfold(p, seen, stack);
      if seen[row] {
        PopVisited(p, root - 1, seen, stack);
        stack := stack[..|stack| - 1];
      } else {
        var pushed := Pushed(p, row);
        PushedIs(p, row);
        Visit(p, root - 1, seen, stack, pushed);
        StatesStep(p, c, symbolFields, seen, states, row);
        CollectedNext(p, c, symbolFields, seen, states, order, row);
        status, states, total := AppendSelectorValues(p, c, symbolFields, states, row, total);
        stack := stack[..|stack| - 1] + pushed;
        VisitShrinks(seen, row);
        seen := seen[row := true];
        assert order + ([row] + Order(p, seen, stack)) == order + [row] + Order(p, seen, stack);
        order := order + [row];
        if status != Done {
          CollectedGrows(p, c, symbolFields, order, Order(p, seen, stack));
          return status, states, seen;
        }
        StatesLength(p, c, symbolFields, seen, states);
      }
    }
    OrderEnds(p, seen);
    assert order + [] == order;
    status, visited := Done, seen;
    SearchExact(p, root - 1, seen);
  }

  lemma NothingCollected(p: Program, c: Canonical, symbolFields: seq<bool>, visited: seq<bool>)
    requires forall i :: 0 <= i < |visited| ==> !visited[i]
    ensures Visits(visited, []) && Collected(p, c, symbolFields, []) == 0
  {
  }

  lemma PushedIs(p: Program, row: nat)
    requires row < |p.rows|
    ensures if OpcodeAt(p, row) == ALL then forall x :: x in Pushed(p, row) <==> x in Ops(p, row)
            else Pushed(p, row) == []
  {
  }

  lemma OrderEnds(p: Program, visited: seq<bool>)
    requires Topological(p) && |visited| == |p.rows|
    ensures Order(p, visited, []) == []
  {
  }

  /** One step of the walk. */
  lemma OrderUnfold(p: Program, visited: seq<bool>, stack: seq<InstructionId>)
    requires Topological(p) && |visited| == |p.rows| && InRange(p, stack) && stack != []
    ensures var row, rest := stack[|stack| - 1] - 1, stack[..|stack| - 1];
            && InRange(p, rest) && InRange(p, rest + Pushed(p, row))
            && Order(p, visited, stack) ==
               if visited[row] then Order(p, visited, rest)
               else [row] + Order(p, visited[row := true], rest + Pushed(p, row))
  {
    PushedInRange(p, stack[|stack| - 1] - 1);
  }

  lemma StatesLength(p: Program, c: Canonical, symbolFields: seq<bool>, visited: seq<bool>, states: seq<FieldState>)
    requires StatesOk(p, c, symbolFields, visited, states)
    ensures |states| == |symbolFields|
  {
  }

  lemma StartOk(p: Program, c: Canonical, symbolFields: seq<bool>, visited: seq<bool>, states: seq<FieldState>,
                root: nat)
    requires root < |p.rows| == |visited| && |states| == |symbolFields|
    requires forall i :: 0 <= i < |visited| ==> !visited[i]
    requires forall f :: 0 <= f < |states| ==> states[f] == Unseen
    ensures Searching(p, root, visited, [root + 1]) && StatesOk(p, c, symbolFields, visited, states)
  {
    assert root + 1 in [root + 1];
  }

  lemma SearchExact(p: Program, root: nat, visited: seq<bool>)
    requires Searching(p, root, visited, [])
    ensures forall i :: 0 <= i < |p.rows| ==> (visited[i] <==> Conjoined(p, root, i))
  {
    forall i | 0 <= i < |p.rows| && Conjoined(p, root, i)
      ensures visited[i]
    {
      SearchFindsAll(p, root, visited, i);
    }
  }

  /** A conjoined test of a symbol field decides the root when it fails. */
  lemma ConjoinedTest(p: Program, c: Canonical, symbolFields: seq<bool>, leaf: Payload -> Cell, facts: Facts, root: nat,
                      i: nat, f: FieldId)
    requires Topological(p) && ReadsFacts(p, c, symbolFields, leaf, facts) && root < |p.rows|
    requires Selects(p, symbolFields, i, f) && Conjoined(p, root, i)
    ensures Value(p, leaf, root).positive ==> facts(f).Some? && facts(f).value in SelectorValues(p, c, i)
    ensures facts(f).Some? && facts(f).value !in SelectorValues(p, c, i) ==>
              !Value(p, leaf, root).positive && Value(p, leaf, root).negative
  {
    hide Value, Topological, ReadsFacts, Conjoined, SelectorValues;
    SelectorCell(p, c, symbolFields, leaf, facts, i, f);
    if Value(p, leaf, root).positive {
      ConjoinedPositive(p, leaf, root, i);
    }
    if facts(f).Some? && facts(f).value !in SelectorValues(p, c, i) {
      ConjoinedFalse(p, leaf, root, i);
    }
  }
}
