/** The builder of the semantic table: typed, limit-checked appends to flat columns. */
module SemanticBuilders {
  import opened Optional
  import opened SemanticTables
  import Programs

  const MAX_UINT16: nat := Programs.MAX_UINT16

  // ----- the columns -----

  datatype RowKind = BooleanRow | CompareRow | AllRow | AnyRow | NotRow | DefinedRow | ExistsRow

  /** A comparison code: absent, an operation, or membership. */
  datatype Code = NoCode | Op(op: Operation) | InCode

  datatype Row = Row(kind: RowKind, code: Code, field: nat, literal: nat, childStart: nat, childCount: nat,
                     listStart: nat, listCount: nat)

  datatype LiteralRow = LiteralRow(kind: ValueKind, ref: nat)

  datatype Table = Table(
    rows: seq<Row>,
    children: seq<nat>,
    lists: seq<nat>,
    literals: seq<LiteralRow>,
    symbolStarts: seq<nat>,
    symbolLengths: seq<nat>,
    symbolBytes: string,
    integers: seq<int>,
    booleans: seq<nat>,
    depths: seq<nat>)

  /** A literal row spells a literal. */
  ghost predicate Spells(t: Table, id: nat, literal: Literal) {
    && 1 <= id <= |t.literals|
    && var row := t.literals[id - 1];
    && row.kind == KindOf(literal)
    && match literal
       case Str(bytes) =>
         && row.ref < |t.symbolStarts| == |t.symbolLengths|
         && t.symbolStarts[row.ref] + t.symbolLengths[row.ref] <= |t.symbolBytes|
         && t.symbolBytes[t.symbolStarts[row.ref]..t.symbolStarts[row.ref] + t.symbolLengths[row.ref]] == bytes
       case Int(value) => row.ref < |t.integers| && t.integers[row.ref] == value
       case Bool(flag) => row.ref < |t.booleans| && t.booleans[row.ref] == (if flag then 1 else 0)
  }

  /** A literal row that can be read. */
  predicate LiteralOk(t: Table, row: LiteralRow) {
    match row.kind
    case StringKind =>
      && row.ref < |t.symbolStarts| == |t.symbolLengths|
      && t.symbolStarts[row.ref] + t.symbolLengths[row.ref] <= |t.symbolBytes|
    case IntegerKind => row.ref < |t.integers|
    case BooleanKind => row.ref < |t.booleans| && t.booleans[row.ref] <= 1
  }

  predicate LiteralsOk(t: Table) {
    forall k :: 0 <= k < |t.literals| ==> LiteralOk(t, t.literals[k])
  }

  function LiteralIn(t: Table, row: LiteralRow): Literal
    requires LiteralOk(t, row)
  {
    match row.kind
    case StringKind =>
      Str(t.symbolBytes[t.symbolStarts[row.ref]..t.symbolStarts[row.ref] + t.symbolLengths[row.ref]])
    case IntegerKind => Int(t.integers[row.ref])
    case BooleanKind => Bool(t.booleans[row.ref] == 1)
  }

  /** Reading a literal row gives what it spells. */
  lemma SpellsRead(t: Table, id: nat, literal: Literal)
    requires Spells(t, id, literal)
    ensures LiteralOk(t, t.literals[id - 1]) && LiteralIn(t, t.literals[id - 1]) == literal
  {
  }

  lemma LiteralsGrow(t: Table, u: Table, literal: Literal)
    requires Grows(t, u) && |u.literals| == |t.literals| + 1 && Spells(u, |u.literals|, literal) && LiteralsOk(t)
    ensures LiteralsOk(u)
  {
    forall k | 0 <= k < |u.literals|
      ensures LiteralOk(u, u.literals[k])
    {
      if k < |t.literals| {
        assert u.literals[k] == t.literals[k] && LiteralOk(t, t.literals[k]);
      } else {
        SpellsRead(u, |u.literals|, literal);
      }
    }
  }

  ghost predicate SpellsAll(t: Table, start: nat, list: seq<Literal>) {
    && start + |list| <= |t.lists|
    && forall k :: 0 <= k < |list| ==> Spells(t, t.lists[start + k], list[k])
  }

  /** A row stores a node. */
  ghost predicate Stores(t: Table, row: Row, node: Node) {
    match node
    case Boolean(flag) => row.kind == BooleanRow && Spells(t, row.literal, Bool(flag))
    case Defined(field) => row.kind == DefinedRow && row.field == field
    case Exists(field) => row.kind == ExistsRow && row.field == field
    case Compare(field, op, literal) =>
      row.kind == CompareRow && row.code == Op(op) && row.field == field && Spells(t, row.literal, literal)
    case In(field, list) =>
      && row.kind == CompareRow && row.code == InCode && row.field == field && row.listCount == |list|
      && SpellsAll(t, row.listStart, list)
    case Group(conjunction, children) =>
      && row.kind == (if conjunction then AllRow else AnyRow) && row.childCount == |children|
      && row.childStart + |children| <= |t.children|
      && t.children[row.childStart..row.childStart + |children|] == children
    case Negation(child) =>
      && row.kind == NotRow && row.childCount == 1
      && row.childStart < |t.children| && t.children[row.childStart] == child
  }

  /** Columns that have only been appended to. */
  ghost predicate Grows(t: Table, u: Table) {
    && t.children <= u.children && t.lists <= u.lists && t.literals <= u.literals
    && |t.symbolStarts| == |t.symbolLengths| && |u.symbolStarts| == |u.symbolLengths|
    && t.symbolStarts <= u.symbolStarts && t.symbolLengths <= u.symbolLengths && t.symbolBytes <= u.symbolBytes
    && t.integers <= u.integers && t.booleans <= u.booleans
  }

  lemma SpellsGrows(t: Table, u: Table, id: nat, literal: Literal)
    requires Grows(t, u) && Spells(t, id, literal)
    ensures Spells(u, id, literal)
  {
    var row := t.literals[id - 1];
    assert u.literals[id - 1] == row;
    if literal.Str? {
      var start, end := t.symbolStarts[row.ref], t.symbolStarts[row.ref] + t.symbolLengths[row.ref];
      assert u.symbolStarts[row.ref] == start && u.symbolLengths[row.ref] == t.symbolLengths[row.ref];
      assert u.symbolBytes[start..end] == t.symbolBytes[start..end];
    }
  }

  lemma StoresGrows(t: Table, u: Table, row: Row, node: Node)
    requires Grows(t, u) && Stores(t, row, node)
    ensures Stores(u, row, node)
  {
    hide Spells, Grows;
    if node.Boolean? {
      SpellsGrows(t, u, row.literal, Bool(node.flag));
    } else if node.Compare? {
      SpellsGrows(t, u, row.literal, node.literal);
    } else if node.In? {
      ListGrows(t, u, row.listStart, node.list);
    } else {
      EdgesGrow(t, u, row, node);
    }
  }

  lemma ListGrows(t: Table, u: Table, start: nat, list: seq<Literal>)
    requires Grows(t, u) && SpellsAll(t, start, list)
    ensures SpellsAll(u, start, list)
  {
    hide Spells;
    forall k | 0 <= k < |list|
      ensures start + k < |u.lists| && Spells(u, u.lists[start + k], list[k])
    {
      assert u.lists[start + k] == t.lists[start + k];
      SpellsGrows(t, u, t.lists[start + k], list[k]);
    }
  }

  lemma EdgesGrow(t: Table, u: Table, row: Row, node: Node)
    requires Grows(t, u) && Stores(t, row, node) && !node.Boolean? && !node.Compare? && !node.In?
    ensures Stores(u, row, node)
  {
    if node.Group? {
      var start, end := row.childStart, row.childStart + row.childCount;
      assert u.children[start..end] == t.children[start..end];
    }
  }

  /** A row stores one node at most: the columns determine what was added. */
  lemma StoresOne(t: Table, row: Row, a: Node, b: Node)
    requires Stores(t, row, a) && Stores(t, row, b)
    ensures a == b
  {
    if a.In? && b.In? {
      forall k | 0 <= k < |a.list|
        ensures a.list[k] == b.list[k]
      {
        SpellsOne(t, t.lists[row.listStart + k], a.list[k], b.list[k]);
      }
    } else if a.Compare? && b.Compare? {
      SpellsOne(t, row.literal, a.literal, b.literal);
    } else if a.Boolean? && b.Boolean? {
      SpellsOne(t, row.literal, Bool(a.flag), Bool(b.flag));
    }
  }

  lemma SpellsOne(t: Table, id: nat, a: Literal, b: Literal)
    requires Spells(t, id, a) && Spells(t, id, b)
    ensures a == b
  {
  }

  // ----- the table of nodes -----

  /** The columns store a list of nodes, and their sizes are its usage. */
  ghost predicate TableOk(t: Table, nodes: seq<Node>) {
    && |t.rows| == |nodes| && |t.symbolStarts| == |t.symbolLengths| && LiteralsOk(t)
    && (forall k :: 0 <= k < |nodes| ==> Stores(t, t.rows[k], nodes[k]))
    && |t.literals| == Total(nodes).literals && |t.children| + |t.lists| == Total(nodes).edges
    && t.depths == Depths(nodes)
  }

  /** Appending a row whose slabs have been appended. */
  lemma AppendKeeps(t: Table, u: Table, nodes: seq<Node>, row: Row, depth: nat, node: Node)
    requires TableOk(t, nodes) && Grows(t, u) && u.rows == t.rows && u.depths == t.depths && Stores(u, row, node)
    requires LiteralsOk(u)
    requires |u.literals| == |t.literals| + LiteralNeed(node)
    requires |u.children| + |u.lists| == |t.children| + |t.lists| + EdgeNeed(node)
    requires depth == 1 + Deepest(t.depths, Children(node))
    ensures TableOk(u.(rows := u.rows + [row], depths := u.depths + [depth]), nodes + [node])
  {
    hide Stores, Grows, Total, Depths, Deepest, LiteralsOk;
    var v := u.(rows := u.rows + [row], depths := u.depths + [depth]);
    SameLiterals(u, v);
    TotalSnoc(nodes, node);
    GrowsSizes(t, u);
    forall k | 0 <= k < |nodes| + 1
      ensures Stores(v, v.rows[k], (nodes + [node])[k])
    {
      if k < |nodes| {
        assert v.rows[k] == t.rows[k];
        StoresGrows(t, u, t.rows[k], nodes[k]);
        SameSlabs(u, v, t.rows[k], nodes[k]);
      } else {
        assert v.rows[k] == row;
        SameSlabs(u, v, row, node);
      }
    }
  }

  lemma SameLiterals(t: Table, u: Table)
    requires LiteralsOk(t) && u == t.(rows := u.rows, depths := u.depths, children := u.children, lists := u.lists)
    ensures LiteralsOk(u)
  {
    forall k | 0 <= k < |u.literals|
      ensures LiteralOk(u, u.literals[k])
    {
      assert LiteralOk(t, t.literals[k]);
    }
  }

  lemma GrowsSizes(t: Table, u: Table)
    requires Grows(t, u)
    ensures |u.symbolStarts| == |u.symbolLengths|
  {
  }

  lemma SameSlabs(t: Table, u: Table, row: Row, node: Node)
    requires Stores(t, row, node) && u == t.(rows := u.rows, depths := u.depths)
    requires |t.symbolStarts| == |t.symbolLengths|
    ensures Stores(u, row, node)
  {
    hide Stores;
    StoresGrows(t, u, row, node);
  }

  // ----- typing -----

  predicate Ordered(op: Operation) {
    !op.Equal? && !op.NotEqual?
  }

  predicate FieldOk(kinds: seq<ValueKind>, field: nat) {
    1 <= field <= |kinds|
  }

  predicate ListTyped(kind: ValueKind, list: seq<Literal>) {
    forall k :: 0 <= k < |list| ==> KindOf(list[k]) == kind
  }

  /** A node the builder admits after `rows` others. */
  predicate WellTyped(kinds: seq<ValueKind>, rows: nat, node: Node) {
    match node
    case Boolean(_) => true
    case Defined(field) => FieldOk(kinds, field)
    case Exists(field) => FieldOk(kinds, field)
    case Compare(field, op, literal) =>
      FieldOk(kinds, field) && KindOf(literal) == kinds[field - 1] && (Ordered(op) ==> kinds[field - 1] == IntegerKind)
    case In(field, list) => FieldOk(kinds, field) && 0 < |list| <= MAX_UINT16 && ListTyped(kinds[field - 1], list)
    case Group(_, children) => 2 <= |children| <= MAX_UINT16 && Closed(node, rows)
    case Negation(_) => Closed(node, rows)
  }

  /** Every row was admitted when it was appended. */
  predicate RowsTyped(kinds: seq<ValueKind>, nodes: seq<Node>) {
    forall k :: 0 <= k < |nodes| ==> WellTyped(kinds, k, nodes[k])
  }

  lemma RowsTypedSnoc(kinds: seq<ValueKind>, nodes: seq<Node>, node: Node)
    requires RowsTyped(kinds, nodes) && WellTyped(kinds, |nodes|, node)
    ensures RowsTyped(kinds, nodes + [node])
  {
    hide WellTyped;
  }

  predicate Admits(kinds: seq<ValueKind>, limits: Limits, base: nat, nodes: seq<Node>, node: Node) {
    WellTyped(kinds, |nodes|, node) && Room(limits, base, nodes, node)
  }

  /** The row of a leaf node other than a membership. */
  ghost predicate Leaf(kind: RowKind, code: Code, field: nat, literal: Option<Literal>, node: Node) {
    match node
    case Boolean(flag) => kind == BooleanRow && literal == Some(Bool(flag))
    case Defined(f) => kind == DefinedRow && field == f && literal == None
    case Exists(f) => kind == ExistsRow && field == f && literal == None
    case Compare(f, op, value) => kind == CompareRow && code == Op(op) && field == f && literal == Some(value)
    case _ => false
  }

  lemma LeafNeeds(kind: RowKind, code: Code, field: nat, literal: Option<Literal>, node: Node, nodes: seq<Node>)
    requires Leaf(kind, code, field, literal, node)
    ensures LiteralNeed(node) == (if literal.Some? then 1 else 0) && EdgeNeed(node) == 0
    ensures Deepest(Depths(nodes), Children(node)) == 0
    ensures ByteNeed(node) == if literal.Some? then BytesOf(literal.value) else 0
  {
  }

  lemma LeafDepth(nodes: seq<Node>)
    ensures Deepest(Depths(nodes), []) == 0
  {
  }

  lemma DeepestNone(depths: seq<nat>)
    ensures Deepest(depths, []) == 0
  {
  }

  lemma DeepestSnoc(depths: seq<nat>, children: seq<nat>, child: nat)
    requires 1 <= child <= |depths|
    ensures Deepest(depths, children + [child]) ==
            if depths[child - 1] > Deepest(depths, children) then depths[child - 1] else Deepest(depths, children)
  {
    assert (children + [child])[..|children|] == children;
  }

  lemma LeafStored(t: Table, kind: RowKind, code: Code, field: nat, ref: nat, literal: Option<Literal>, node: Node)
    requires Leaf(kind, code, field, literal, node) && (literal.Some? ==> Spells(t, ref, literal.value))
    ensures Stores(t, Row(kind, code, field, ref, 0, 0, 0, 0), node)
  {
    hide Spells;
  }

  lemma GrowsSelf(t: Table)
    requires |t.symbolStarts| == |t.symbolLengths|
    ensures Grows(t, t)
  {
  }

  lemma SpellsNone(t: Table)
    ensures SpellsAll(t, |t.lists|, [])
  {
  }

  lemma ListAppended(before: Table, now: Table, next: Table, list: seq<Literal>, k: nat, id: nat)
    requires k < |list| && Grows(before, now) && Grows(now, next) && next.lists == now.lists
    requires |now.lists| == |before.lists| + k
    requires SpellsAll(now, |before.lists|, list[..k]) && Spells(next, id, list[k])
    ensures var u := next.(lists := next.lists + [id]);
            Grows(before, u) && SpellsAll(u, |before.lists|, list[..k + 1])
  {
    var u := next.(lists := next.lists + [id]);
    assert Grows(now, u) && Grows(next, u);
    assert Grows(before, u);
    hide Grows, Spells;
    ListGrows(now, u, |before.lists|, list[..k]);
    SpellsGrows(next, u, id, list[k]);
    var head := list[..k + 1];
    forall j | 0 <= j < |head|
      ensures |before.lists| + j < |u.lists| && Spells(u, u.lists[|before.lists| + j], head[j])
    {
      if j < k {
        assert list[..k][j] == head[j];
      }
    }
  }

  /** The row of a node over children. */
  ghost predicate Inner(kind: RowKind, children: seq<nat>, node: Node) {
    match node
    case Group(conjunction, list) =>
      kind == (if conjunction then AllRow else AnyRow) && children == list && 2 <= |children| <= MAX_UINT16
    case Negation(child) => kind == NotRow && children == [child]
    case _ => false
  }

  lemma InnerStored(t: Table, kind: RowKind, children: seq<nat>, node: Node)
    requires Inner(kind, children, node) && |t.symbolStarts| == |t.symbolLengths|
    ensures var u := t.(children := t.children + children);
            Grows(t, u) && Stores(u, Row(kind, NoCode, 0, 0, |t.children|, |children|, 0, 0), node)
    ensures LiteralNeed(node) == 0 && EdgeNeed(node) == |children| && ByteNeed(node) == 0 && Children(node) == children
  {
  }

  class Builder {
    const kinds: seq<ValueKind>
    const limits: Limits
    const base: nat
    var table: Table
    var stringBytes: nat
    ghost var nodes: seq<Node>

    ghost predicate Valid()
      reads this
    {
      && TableOk(table, nodes) && Rooted(nodes) && RowsTyped(kinds, nodes) && Fits(limits, base, nodes)
      && stringBytes == base + Total(nodes).bytes
    }

    constructor (kinds: seq<ValueKind>, limits: Limits, base: nat)
      ensures Valid() && nodes == [] && this.kinds == kinds && this.limits == limits && this.base == base
    {
      this.kinds, this.limits, this.base, stringBytes, nodes := kinds, limits, base, base, [];
      table := Table([], [], [], [], [], [], "", [], [], []);
    }

    /** The limits that every append checks first. */
    method CheckAppend(depth: nat, literals: nat, edges: nat, bytes: nat) returns (ok: bool)
      requires Valid()
      ensures ok <==> && |nodes| + 1 <= limits.maxNodes && Total(nodes).literals + literals <= limits.maxLiterals
                      && Total(nodes).edges + edges <= limits.maxChildren && 0 < depth <= limits.maxDepth
                      && base + Total(nodes).bytes + bytes <= limits.maxStringBytes
    {
      ok := !(|table.rows| + 1 > limits.maxNodes || |table.literals| + literals > limits.maxLiterals
        || |table.children| + |table.lists| + edges > limits.maxChildren || depth == 0 || depth > limits.maxDepth
        || stringBytes + bytes > limits.maxStringBytes);
    }

    /** Append a literal; it spells the new entry and nothing stored before it changes. */
    method AppendLiteral(literal: Literal) returns (id: nat)
      requires |table.symbolStarts| == |table.symbolLengths|
      modifies this`table, this`stringBytes
      ensures Grows(old(table), table) && Spells(table, id, literal)
      ensures id == |table.literals| == old(|table.literals|) + 1
      ensures table.rows == old(table).rows && table.depths == old(table).depths
      ensures table.children == old(table).children && table.lists == old(table).lists
      ensures stringBytes == old(stringBytes) + BytesOf(literal)
      ensures LiteralsOk(old(table)) ==> LiteralsOk(table)
    {
      ghost var before := table;
      id := PushLiteral(literal);
      if LiteralsOk(before) {
        LiteralsGrow(before, table, literal);
      }
    }

    method PushLiteral(literal: Literal) returns (id: nat)
      requires |table.symbolStarts| == |table.symbolLengths|
      modifies this`table, this`stringBytes
      ensures Grows(old(table), table) && Spells(table, id, literal)
      ensures id == |table.literals| == old(|table.literals|) + 1
      ensures table.rows == old(table).rows && table.depths == old(table).depths
      ensures table.children == old(table).children && table.lists == old(table).lists
      ensures stringBytes == old(stringBytes) + BytesOf(literal)
    {
      match literal
      case Str(bytes) =>
        table := table.(
          literals := table.literals + [LiteralRow(StringKind, |table.symbolStarts|)],
          symbolStarts := table.symbolStarts + [|table.symbolBytes|],
          symbolLengths := table.symbolLengths + [|bytes|],
          symbolBytes := table.symbolBytes + bytes);
        stringBytes := stringBytes + |bytes|;
        return |table.literals|;
      case Int(value) =>
        table := table.(
          literals := table.literals + [LiteralRow(IntegerKind, |table.integers|)],
          integers := table.integers + [value]);
        return |table.literals|;
      case Bool(flag) =>
        table := table.(
          literals := table.literals + [LiteralRow(BooleanKind, |table.booleans|)],
          booleans := table.booleans + [if flag then 1 else 0]);
        return |table.literals|;
    }

    /** Append the row of a node whose slabs are in place. */
    method AppendNode(row: Row, depth: nat, ghost before: Table, ghost node: Node) returns (id: nat)
      requires TableOk(before, nodes) && Rooted(nodes) && RowsTyped(kinds, nodes) && Fits(limits, base, nodes)
      requires Grows(before, table) && Stores(table, row, node) && LiteralsOk(table)
      requires table.rows == before.rows && table.depths == before.depths
      requires |table.literals| == |before.literals| + LiteralNeed(node)
      requires |table.children| + |table.lists| == |before.children| + |before.lists| + EdgeNeed(node)
      requires depth == 1 + Deepest(before.depths, Children(node)) && Admits(kinds, limits, base, nodes, node)
      requires stringBytes == base + Total(nodes).bytes + ByteNeed(node)
      modifies this`table, this`nodes
      ensures Valid() && nodes == old(nodes) + [node] && id == |nodes|
    {
      hide TableOk, Stores, Grows, Fits, Rooted, Total, RowsTyped, WellTyped, LiteralsOk;
      RowsTypedSnoc(kinds, nodes, node);
      AppendKeeps(before, table, nodes, row, depth, node);
      FitsSnoc(limits, base, nodes, node);
      TotalSnoc(nodes, node);
      AdmittedClosed(kinds, limits, base, nodes, node);
      RootedSnoc(nodes, node);
      table := table.(rows := table.rows + [row], depths := table.depths + [depth]);
      nodes := nodes + [node];
      TableRows(table, nodes);
      id := |table.rows|;
    }

    /** Append a leaf that holds at most one literal. */
    method AddLeaf(kind: RowKind, code: Code, field: nat, literal: Option<Literal>,
                   ghost node: Node) returns (ok: bool, id: nat)
      requires Valid() && WellTyped(kinds, |nodes|, node) && Leaf(kind, code, field, literal, node)
      modifies this`table, this`stringBytes, this`nodes
      ensures Valid()
      ensures ok <==> Room(limits, base, old(nodes), node)
      ensures ok ==> nodes == old(nodes) + [node] && id == |nodes|
      ensures !ok ==> id == 0 && nodes == old(nodes) && table == old(table)
    {
      hide TableOk, Fits, Rooted, Grows, Stores, Total, Spells, WellTyped, RowsTyped, LiteralsOk;
      LeafNeeds(kind, code, field, literal, node, nodes);
      var need, bytes := 0, 0;
      if literal.Some? {
        need, bytes := 1, BytesOf(literal.value);
      }
      var room := CheckAppend(1, need, 0, bytes);
      if !room {
        return false, 0;
      }
      ghost var before := table;
      TableRows(table, nodes);
      var ref := 0;
      if literal.Some? {
        ref := AppendLiteral(literal.value);
      } else {
        GrowsSelf(table);
      }
      LeafStored(table, kind, code, field, ref, literal, node);
      id := AppendNode(Row(kind, code, field, ref, 0, 0, 0, 0), 1, before, node);
      ok := true;
    }

    method AddBoolean(value: bool) returns (ok: bool, id: nat)
      requires Valid()
      modifies this`table, this`stringBytes, this`nodes
      ensures Valid()
      ensures ok <==> Admits(kinds, limits, base, old(nodes), Boolean(value))
      ensures ok ==> nodes == old(nodes) + [Boolean(value)] && id == |nodes|
      ensures !ok ==> id == 0 && nodes == old(nodes) && table == old(table)
    {
      hide Valid, Room;
      ok, id := AddLeaf(BooleanRow, NoCode, 0, Some(Bool(value)), Boolean(value));
    }

    method AddDefined(field: nat) returns (ok: bool, id: nat)
      requires Valid()
      modifies this`table, this`stringBytes, this`nodes
      ensures Valid()
      ensures ok <==> Admits(kinds, limits, base, old(nodes), Defined(field))
      ensures ok ==> nodes == old(nodes) + [Defined(field)] && id == |nodes|
      ensures !ok ==> id == 0 && nodes == old(nodes) && table == old(table)
    {
      hide Valid, Room;
      if !FieldOk(kinds, field) {
        return false, 0;
      }
      ok, id := AddLeaf(DefinedRow, NoCode, field, None, Defined(field));
    }

    method AddExists(field: nat) returns (ok: bool, id: nat)
      requires Valid()
      modifies this`table, this`stringBytes, this`nodes
      ensures Valid()
      ensures ok <==> Admits(kinds, limits, base, old(nodes), Exists(field))
      ensures ok ==> nodes == old(nodes) + [Exists(field)] && id == |nodes|
      ensures !ok ==> id == 0 && nodes == old(nodes) && table == old(table)
    {
      hide Valid, Room;
      if !FieldOk(kinds, field) {
        return false, 0;
      }
      ok, id := AddLeaf(ExistsRow, NoCode, field, None, Exists(field));
    }

    method AddCompare(field: nat, op: Operation, literal: Literal) returns (ok: bool, id: nat)
      requires Valid()
      modifies this`table, this`stringBytes, this`nodes
      ensures Valid()
      ensures ok <==> Admits(kinds, limits, base, old(nodes), Compare(field, op, literal))
      ensures ok ==> nodes == old(nodes) + [Compare(field, op, literal)] && id == |nodes|
      ensures !ok ==> id == 0 && nodes == old(nodes) && table == old(table)
    {
      hide Valid, Room;
      if !FieldOk(kinds, field) || KindOf(literal) != kinds[field - 1] {
        return false, 0;
      }
      if Ordered(op) && kinds[field - 1] != IntegerKind {
        return false, 0;
      }
      ok, id := AddLeaf(CompareRow, Op(op), field, Some(literal), Compare(field, op, literal));
    }

    method CheckList(kind: ValueKind, list: seq<Literal>) returns (ok: bool, bytes: nat)
      ensures ok <==> ListTyped(kind, list)
      ensures ok ==> bytes == ListBytes(list)
    {
      bytes := 0;
      for k := 0 to |list|
        invariant ListTyped(kind, list[..k]) && bytes == ListBytes(list[..k])
      {
        assert list[..k + 1] == list[..k] + [list[k]];
        if KindOf(list[k]) != kind {
          return false, 0;
        }
        bytes := bytes + BytesOf(list[k]);
      }
      assert list[..|list|] == list;
      ok := true;
    }

    /** Append the literals of a list to the slabs. */
    method AppendList(list: seq<Literal>, ghost before: Table, ghost start: nat)
      requires table == before && |before.symbolStarts| == |before.symbolLengths|
      modifies this`table, this`stringBytes
      ensures Grows(before, table) && table.rows == before.rows && table.depths == before.depths
      ensures table.children == before.children
      ensures |table.literals| == |before.literals| + |list| && |table.lists| == |before.lists| + |list|
      ensures SpellsAll(table, |before.lists|, list) && stringBytes == old(stringBytes) + ListBytes(list)
      ensures LiteralsOk(before) ==> LiteralsOk(table)
    {
      hide Grows, SpellsAll, Spells, LiteralsOk;
      GrowsSelf(table);
      SpellsNone(table);
      for k := 0 to |list|
        invariant Grows(before, table) && table.rows == before.rows && table.depths == before.depths
        invariant table.children == before.children
        invariant |table.literals| == |before.literals| + k && |table.lists| == |before.lists| + k
        invariant SpellsAll(table, |before.lists|, list[..k]) && stringBytes == old(stringBytes) + ListBytes(list[..k])
        invariant LiteralsOk(before) ==> LiteralsOk(table)
      {
        ghost var now := table;
        GrowsSizes(before, now);
        var id := AppendLiteral(list[k]);
        ListAppended(before, now, table, list, k, id);
        ghost var extended := table.(lists := table.lists + [id]);
        if LiteralsOk(table) {
          SameLiterals(table, extended);
        }
        table := table.(lists := table.lists + [id]);
        assert list[..k + 1] == list[..k] + [list[k]];
      }
      assert list[..|list|] == list;
    }

    method AddIn(field: nat, list: seq<Literal>) returns (ok: bool, id: nat)
      requires Valid()
      modifies this`table, this`stringBytes, this`nodes
      ensures Valid()
      ensures ok <==> Admits(kinds, limits, base, old(nodes), In(field, list))
      ensures ok ==> nodes == old(nodes) + [In(field, list)] && id == |nodes|
      ensures !ok ==> id == 0 && nodes == old(nodes) && table == old(table)
    {
      hide TableOk, Fits, Rooted, Grows, SpellsAll, Total, Spells, ListTyped, ListBytes, RowsTyped, LiteralsOk;
      if !FieldOk(kinds, field) {
        return false, 0;
      }
      if |list| == 0 || |list| > MAX_UINT16 {
        return false, 0;
      }
      var typed, bytes := CheckList(kinds[field - 1], list);
      if !typed {
        return false, 0;
      }
      LeafDepth(nodes);
      var room := CheckAppend(1, |list|, |list|, bytes);
      if !room {
        return false, 0;
      }
      ghost var before := table;
      TableRows(table, nodes);
      var start := |table.lists|;
      AppendList(list, before, start);
      id := AppendNode(Row(CompareRow, InCode, field, 0, 0, 0, start, |list|), 1, before, In(field, list));
      ok := true;
    }

    lemma DepthOfEachRow()
      requires Valid()
      ensures |table.depths| == |nodes|
    {
      TableRows(table, nodes);
    }

    /** The depth of a group over existing children. */
    method GroupDepth(children: seq<nat>) returns (ok: bool, depth: nat)
      requires Valid()
      ensures ok <==> forall k :: 0 <= k < |children| ==> 1 <= children[k] <= |nodes|
      ensures ok ==> depth == 1 + Deepest(table.depths, children)
    {
      hide Valid, Deepest;
      DepthOfEachRow();
      DeepestNone(table.depths);
      depth := 0;
      for k := 0 to |children|
        invariant forall j :: 0 <= j < k ==> 1 <= children[j] <= |nodes|
        invariant depth == Deepest(table.depths, children[..k])
      {
        assert children[..k + 1] == children[..k] + [children[k]];
        if children[k] == 0 || children[k] > |table.depths| {
          return false, 0;
        }
        DeepestSnoc(table.depths, children[..k], children[k]);
        if table.depths[children[k] - 1] > depth {
          depth := table.depths[children[k] - 1];
        }
      }
      assert children[..|children|] == children;
      return true, depth + 1;
    }

    method AddGroup(conjunction: bool, children: seq<nat>) returns (ok: bool, id: nat)
      requires Valid()
      modifies this`table, this`stringBytes, this`nodes
      ensures Valid()
      ensures ok <==> Admits(kinds, limits, base, old(nodes), Group(conjunction, children))
      ensures ok ==> nodes == old(nodes) + [Group(conjunction, children)] && id == |nodes|
      ensures !ok ==> id == 0 && nodes == old(nodes) && table == old(table)
    {
      if |children| < 2 || |children| > MAX_UINT16 {
        return false, 0;
      }
      ok, id := AddInner(if conjunction then AllRow else AnyRow, children, Group(conjunction, children));
    }

    method AddNot(child: nat) returns (ok: bool, id: nat)
      requires Valid()
      modifies this`table, this`stringBytes, this`nodes
      ensures Valid()
      ensures ok <==> Admits(kinds, limits, base, old(nodes), Negation(child))
      ensures ok ==> nodes == old(nodes) + [Negation(child)] && id == |nodes|
      ensures !ok ==> id == 0 && nodes == old(nodes) && table == old(table)
    {
      ok, id := AddInner(NotRow, [child], Negation(child));
    }

    /** Append a node over children. */
    method AddInner(kind: RowKind, children: seq<nat>, ghost node: Node) returns (ok: bool, id: nat)
      requires Valid() && Inner(kind, children, node)
      modifies this`table, this`stringBytes, this`nodes
      ensures Valid()
      ensures ok <==> Admits(kinds, limits, base, old(nodes), node)
      ensures ok ==> nodes == old(nodes) + [node] && id == |nodes|
      ensures !ok ==> id == 0 && nodes == old(nodes) && table == old(table)
    {
      hide TableOk, Fits, Rooted, Total, Stores, Deepest, RowsTyped, LiteralsOk;
      var closed, depth := GroupDepth(children);
      if !closed {
        return false, 0;
      }
      TableRows(table, nodes);
      var room := CheckAppend(depth, 0, |children|, 0);
      if !room {
        return false, 0;
      }
      ghost var before := table;
      var start := |table.children|;
      InnerStored(table, kind, children, node);
      SameLiterals(table, table.(children := table.children + children));
      table := table.(children := table.children + children);
      id := AppendNode(Row(kind, NoCode, 0, 0, start, |children|, 0, 0), depth, before, node);
      ok := true;
    }
  }

  lemma AdmittedClosed(kinds: seq<ValueKind>, limits: Limits, base: nat, nodes: seq<Node>, node: Node)
    requires Admits(kinds, limits, base, nodes, node)
    ensures Closed(node, |nodes|) && Room(limits, base, nodes, node)
  {
  }

  lemma TableRows(t: Table, nodes: seq<Node>)
    requires TableOk(t, nodes)
    ensures |t.rows| == |nodes| && |t.symbolStarts| == |t.symbolLengths| && t.depths == Depths(nodes) && LiteralsOk(t)
  {
  }
}
