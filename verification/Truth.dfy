/** Four-valued truth with uncertainty reasons.

    A cell is one row of the evaluator's bit planes: the positive plane, the
    negative plane, and the reason planes. (true, false) is true, (false, true)
    is false, neither is unknown, and both is a conflict. */
module Truth {

  type Reason = nat

  datatype Cell = Cell(positive: bool, negative: bool, reasons: set<Reason>)

  /** A truth without doubt. */
  function Decided(holds: bool): Cell {
    Cell(holds, !holds, {})
  }

  /** Conjunction: positive where both are, negative where either is. */
  function And(a: Cell, b: Cell): Cell {
    Cell(a.positive && b.positive, a.negative || b.negative, a.reasons + b.reasons)
  }

  /** Disjunction: positive where either is, negative where both are. */
  function Or(a: Cell, b: Cell): Cell {
    Cell(a.positive || b.positive, a.negative && b.negative, a.reasons + b.reasons)
  }

  /** Negation swaps the planes and keeps the reasons. */
  function Not(a: Cell): Cell {
    Cell(a.negative, a.positive, a.reasons)
  }

  function Reasons(cells: seq<Cell>): set<Reason> {
    set c, r | c in cells && r in c.reasons :: r
  }

  /** The meaning of an All group, stated without an evaluation order. */
  function AllOf(cells: seq<Cell>): Cell {
    Cell(forall c :: c in cells ==> c.positive, exists c :: c in cells && c.negative, Reasons(cells))
  }

  /** The meaning of an Any group, stated without an evaluation order. */
  function AnyOf(cells: seq<Cell>): Cell {
    Cell(exists c :: c in cells && c.positive, forall c :: c in cells ==> c.negative, Reasons(cells))
  }

  /** The meaning of either kind of group. */
  function GroupOf(conjunction: bool, cells: seq<Cell>): Cell {
    if conjunction then AllOf(cells) else AnyOf(cells)
  }

  function Join(conjunction: bool, a: Cell, b: Cell): Cell {
    if conjunction then And(a, b) else Or(a, b)
  }

  /** A group of two concatenated lists is the join of the two groups. */
  lemma GroupConcat(conjunction: bool, xs: seq<Cell>, ys: seq<Cell>)
    ensures GroupOf(conjunction, xs + ys) == Join(conjunction, GroupOf(conjunction, xs), GroupOf(conjunction, ys))
  {
    assert forall c :: c in xs + ys <==> c in xs || c in ys;
    assert Reasons(xs + ys) == Reasons(xs) + Reasons(ys);
  }

  lemma GroupSingle(conjunction: bool, x: Cell)
    ensures GroupOf(conjunction, [x]) == x
  {
    assert x in [x];
    assert Reasons([x]) == x.reasons;
  }

  /** A group depends only on which cells occur, not on order or repetition. */
  lemma GroupSameElements(conjunction: bool, xs: seq<Cell>, ys: seq<Cell>)
    requires forall c :: c in xs <==> c in ys
    ensures GroupOf(conjunction, xs) == GroupOf(conjunction, ys)
  {
    assert Reasons(xs) == Reasons(ys);
  }
}
