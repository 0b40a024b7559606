/** The executor: one scratch memory of slots, instructions run in row order,
    and groups reduced in place in their destination slot. */
module Machine {
  import opened Truth
  import opened Programs
  import opened Slots

  /** A program with its slot bindings. */
  datatype Bound = Bound(program: Program, slots: seq<nat>, slotCount: nat)

  /** Each slot in range, and the plan safe for the given last uses. */
  ghost predicate Runnable(b: Bound, roots: seq<bool>, last: seq<nat>) {
    && Topological(b.program)
    && LastUsesOk(b.program, roots, last)
    && NoClash(last, seq(|last|, _ => true), b.slots)
    && forall i :: 0 <= i < |b.slots| ==> 1 <= b.slots[i] <= b.slotCount
  }

  /** The memory holds the value of every row below r that is still to be read. */
  ghost predicate Holding(b: Bound, last: seq<nat>, leaf: Payload -> Cell, memory: seq<Cell>, r: nat) {
    && Topological(b.program) && |b.slots| == |last| == |b.program.rows| && r <= |last|
    && |memory| == b.slotCount
    && forall i :: 0 <= i < r && last[i] >= r ==>
         1 <= b.slots[i] <= b.slotCount && memory[b.slots[i] - 1] == Value(b.program, leaf, i)
  }

  function Cells(memory: seq<Cell>, slots: seq<nat>): seq<Cell>
    requires forall k :: 0 <= k < |slots| ==> 1 <= slots[k] <= |memory|
  {
    seq(|slots|, k requires 0 <= k < |slots| => memory[slots[k] - 1])
  }

  /** The reduction so far: the driver and the first i operands. */
  function Partial(conjunction: bool, cells: seq<Cell>, driver: nat, i: nat): Cell
    requires driver < |cells| && i <= |cells|
  {
    GroupOf(conjunction, [cells[driver]] + cells[..i])
  }

  lemma PartialStart(conjunction: bool, cells: seq<Cell>, driver: nat)
    requires driver < |cells|
    ensures Partial(conjunction, cells, driver, 0) == cells[driver]
    ensures Partial(conjunction, cells, driver, |cells|) == GroupOf(conjunction, cells)
  {
    assert [cells[driver]] + cells[..0] == [cells[driver]];
    GroupSingle(conjunction, cells[driver]);
    assert cells[..|cells|] == cells;
    GroupSameElements(conjunction, [cells[driver]] + cells, cells);
  }

  /** Joining the next operand, or skipping one equal to the driver. */
  lemma PartialStep(conjunction: bool, cells: seq<Cell>, driver: nat, i: nat)
    requires driver < |cells| && i < |cells|
    ensures Partial(conjunction, cells, driver, i + 1) ==
            Join(conjunction, Partial(conjunction, cells, driver, i), cells[i])
    ensures cells[i] == cells[driver] ==>
              Partial(conjunction, cells, driver, i + 1) == Partial(conjunction, cells, driver, i)
  {
    var xs := [cells[driver]] + cells[..i];
    assert [cells[driver]] + cells[..i + 1] == xs + [cells[i]];
    GroupConcat(conjunction, xs, [cells[i]]);
    GroupSingle(conjunction, cells[i]);
    if cells[i] == cells[driver] {
      GroupSameElements(conjunction, xs + [cells[i]], xs);
    }
  }

  /** The first operand that lives in the destination slot, if any. */
  method FindDriver(operandSlots: seq<nat>, dst: nat) returns (driver: int)
    ensures -1 <= driver < |operandSlots|
    ensures driver >= 0 ==> operandSlots[driver] == dst
    ensures driver < 0 ==> dst !in operandSlots
  {
    for i := 0 to |operandSlots|
      invariant forall k :: 0 <= k < i ==> operandSlots[k] != dst
    {
      if operandSlots[i] == dst {
        return i;
      }
    }
    return -1;
  }

  /** Reduce a group of slots into slot `dst`. When the destination already holds
      an operand, that operand drives the reduction in place; otherwise the first
      operand is copied there. */
  method ReduceGroup(memory: seq<Cell>, conjunction: bool, operandSlots: seq<nat>, dst: nat) returns (result: seq<Cell>)
    requires |operandSlots| > 0 && 1 <= dst <= |memory|
    requires forall k :: 0 <= k < |operandSlots| ==> 1 <= operandSlots[k] <= |memory|
    ensures |result| == |memory| && result[dst - 1] == GroupOf(conjunction, Cells(memory, operandSlots))
    ensures forall s :: 0 <= s < |memory| && s != dst - 1 ==> result[s] == memory[s]
  {
    hide Join, Partial, GroupOf, Cells, Reducing;
    ghost var cells := Cells(memory, operandSlots);
    var driver := FindDriver(operandSlots, dst);
    result := memory;
    if driver < 0 {
      driver := 0;
      result := result[dst - 1 := result[operandSlots[0] - 1]];
    }
    ReduceStart(memory, conjunction, operandSlots, dst, driver, result);
    for i := 0 to |operandSlots|
      invariant Reducing(memory, conjunction, cells, driver, dst, i, result)
    {
      ReduceStep(memory, conjunction, operandSlots, dst, driver, i, result);
      if i == driver {
        continue;
      }
      result := result[dst - 1 := Join(conjunction, result[dst - 1], result[operandSlots[i] - 1])];
    }
    ReduceEnd(memory, conjunction, operandSlots, dst, driver, result);
  }

  /** The destination holds the reduction of the driver and the first i operands; the
      other slots are as before. */
  ghost predicate Reducing(memory: seq<Cell>, conjunction: bool, cells: seq<Cell>, driver: nat, dst: nat, i: nat,
                           result: seq<Cell>) {
    && driver < |cells| && i <= |cells| && 1 <= dst <= |memory| == |result|
    && result[dst - 1] == Partial(conjunction, cells, driver, i)
    && forall s :: 0 <= s < |memory| && s != dst - 1 ==> result[s] == memory[s]
  }

  lemma ReduceStart(memory: seq<Cell>, conjunction: bool, slots: seq<nat>, dst: nat, driver: nat, result: seq<Cell>)
    requires driver < |slots| && 1 <= dst <= |memory| && (forall k :: 0 <= k < |slots| ==> 1 <= slots[k] <= |memory|)
    requires result == memory[dst - 1 := memory[slots[driver] - 1]]
    ensures Reducing(memory, conjunction, Cells(memory, slots), driver, dst, 0, result)
  {
    hide Partial;
    PartialStart(conjunction, Cells(memory, slots), driver);
  }

  /** Joining the next operand; one in the destination slot is the driver again. */
  lemma ReduceStep(memory: seq<Cell>, conjunction: bool, slots: seq<nat>, dst: nat, driver: nat, i: nat,
                   result: seq<Cell>)
    requires 1 <= dst <= |memory| && (forall k :: 0 <= k < |slots| ==> 1 <= slots[k] <= |memory|)
    requires Reducing(memory, conjunction, Cells(memory, slots), driver, dst, i, result) && i < |slots|
    requires dst in slots ==> slots[driver] == dst
    ensures |result| == |memory|
    ensures i == driver ==> Reducing(memory, conjunction, Cells(memory, slots), driver, dst, i + 1, result)
    ensures var joined := result[dst - 1 := Join(conjunction, result[dst - 1], result[slots[i] - 1])];
            Reducing(memory, conjunction, Cells(memory, slots), driver, dst, i + 1, joined)
  {
    hide Partial, Join;
    var cells := Cells(memory, slots);
    PartialStep(conjunction, cells, driver, i);
    if slots[i] == dst {
      JoinIdempotent(conjunction, result[dst - 1]);
    }
  }

  lemma ReduceEnd(memory: seq<Cell>, conjunction: bool, slots: seq<nat>, dst: nat, driver: nat, result: seq<Cell>)
    requires forall k :: 0 <= k < |slots| ==> 1 <= slots[k] <= |memory|
    requires Reducing(memory, conjunction, Cells(memory, slots), driver, dst, |slots|, result)
    ensures |result| == |memory| && result[dst - 1] == GroupOf(conjunction, Cells(memory, slots))
    ensures forall s :: 0 <= s < |memory| && s != dst - 1 ==> result[s] == memory[s]
  {
    hide Partial, GroupOf;
    PartialStart(conjunction, Cells(memory, slots), driver);
  }

  lemma JoinIdempotent(conjunction: bool, c: Cell)
    ensures Join(conjunction, c, c) == c
  {
  }

  /** Run one instruction. */
  method ExecuteRow(b: Bound, leaf: Payload -> Cell, memory: seq<Cell>, row: nat) returns (result: seq<Cell>)
    requires Topological(b.program) && |b.slots| == |b.program.rows| && row < |b.slots|
    requires |memory| == b.slotCount && forall i :: 0 <= i < |b.slots| ==> 1 <= b.slots[i] <= b.slotCount
    ensures RowOk(b.program, row)
    ensures var operands := Ops(b.program, row);
            var read := Cells(memory, seq(|operands|, k requires 0 <= k < |operands| => b.slots[operands[k] - 1]));
            result == memory[b.slots[row] - 1 := Combine(b.program.rows[row].payload, read, leaf)]
  {
    assert RowOk(b.program, row);
    hide Ops, GroupOf;
    var operands := Ops(b.program, row);
    var slots := seq(|operands|, k requires 0 <= k < |operands| => b.slots[operands[k] - 1]);
    var payload, dst := b.program.rows[row].payload, b.slots[row];
    if IsGroup(payload.opcode) {
      result := ReduceGroup(memory, payload.opcode == ALL, slots, dst);
    } else if payload.opcode == NOT {
      result := memory[dst - 1 := Not(memory[slots[0] - 1])];
    } else {
      result := memory[dst - 1 := leaf(payload)];
    }
  }

  /** The operands of row r are still held, so it computes its value and leaves
      every value read later in place. */
  lemma RowKeepsHolding(b: Bound, roots: seq<bool>, last: seq<nat>, leaf: Payload -> Cell, memory: seq<Cell>,
                        result: seq<Cell>, r: nat)
    requires Runnable(b, roots, last) && r < |last| && Holding(b, last, leaf, memory, r)
    requires RowOk(b.program, r)
    requires var operands := Ops(b.program, r);
             var read := Cells(memory, seq(|operands|, k requires 0 <= k < |operands| => b.slots[operands[k] - 1]));
             result == memory[b.slots[r] - 1 := Combine(b.program.rows[r].payload, read, leaf)]
    ensures Holding(b, last, leaf, result, r + 1)
  {
    hide Ops, Combine, Value;
    var operands := Ops(b.program, r);
    var read := Cells(memory, seq(|operands|, k requires 0 <= k < |operands| => b.slots[operands[k] - 1]));
    forall k | 0 <= k < |operands|
      ensures read[k] == Value(b.program, leaf, operands[k] - 1)
    {
      var i := operands[k] - 1;
      assert LastUseOk(b.program, roots, last, i);
      assert i + 1 in operands;
    }
    assert read == Values(b.program, leaf, operands);
    ValueUnfold(b.program, leaf, r);
  }

  /** Running the reused-slot plan leaves, at the end, every root's slot holding
      the value the row has when nothing is ever overwritten. */
  method Execute(b: Bound, ghost roots: seq<bool>, ghost last: seq<nat>, leaf: Payload -> Cell,
                 initial: seq<Cell>) returns (memory: seq<Cell>)
    requires Runnable(b, roots, last) && |initial| == b.slotCount
    ensures |memory| == b.slotCount
    ensures forall i :: 0 <= i < |roots| && roots[i] ==> memory[b.slots[i] - 1] == Value(b.program, leaf, i)
  {
    memory := initial;
    for row := 0 to |b.program.rows|
      invariant Holding(b, last, leaf, memory, row)
    {
      hide Value, Ops, Combine;
      var result := ExecuteRow(b, leaf, memory, row);
      RowKeepsHolding(b, roots, last, leaf, memory, result, row);
      memory := result;
    }
    forall i | 0 <= i < |roots| && roots[i]
      ensures memory[b.slots[i] - 1] == Value(b.program, leaf, i)
    {
      assert LastUseOk(b.program, roots, last, i);
    }
  }
}
