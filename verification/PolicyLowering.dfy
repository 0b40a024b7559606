/** Lowering a semantic table into a policy document, node by node through the document builder. */
module PolicyLowering {
  import opened Programs
  import opened Documents
  import opened PolicyMeanings
  import S = SemanticTables
  import B = SemanticBuilders

  // ----- sizes -----

  function SymbolSize(literal: Literal): nat {
    if literal.Symbol? then |literal.bytes| else 0
  }

  function SymbolTotal(literals: seq<Literal>): nat {
    if literals == [] then 0 else SymbolTotal(literals[..|literals| - 1]) + SymbolSize(literals[|literals| - 1])
  }

  lemma TotalNext(literals: seq<Literal>, literal: Literal)
    ensures SymbolTotal(literals + [literal]) == SymbolTotal(literals) + SymbolSize(literal)
  {
    assert (literals + [literal])[..|literals|] == literals;
  }

  lemma {:induction false} TotalGrows(literals: seq<Literal>, more: seq<Literal>)
    ensures SymbolTotal(literals) <= SymbolTotal(literals + more)
  {
    if more == [] {
      assert literals + more == literals;
    } else {
      TotalGrows(literals, more[..|more| - 1]);
      assert (literals + more)[..|literals + more| - 1] == literals + more[..|more| - 1];
    }
  }

  /** What rows add to the document: literals of constants, child edges and list entries. */
  datatype Need = Need(values: nat, edges: nat, lists: nat)

  function NeedOf(row: S.Node): Need {
    match row
    case Boolean(_) => Need(1, 0, 0)
    case In(_, list) => Need(0, 0, |list|)
    case Group(_, children) => Need(0, |children|, 0)
    case _ => Need(0, 0, 0)
  }

  function Plus(a: Need, b: Need): Need {
    Need(a.values + b.values, a.edges + b.edges, a.lists + b.lists)
  }

  function NeedTotal(rows: seq<S.Node>): Need {
    if rows == [] then Need(0, 0, 0) else Plus(NeedTotal(rows[..|rows| - 1]), NeedOf(rows[|rows| - 1]))
  }

  /** The rows can be appended to a document that already has `values` literals. */
  predicate RowsFit(values: nat, rows: seq<S.Node>) {
    var need := NeedTotal(rows);
    |rows| <= MAX_UINT32 && values + need.values <= MAX_UINT32 && need.edges <= MAX_UINT32 && need.lists <= MAX_UINT32
  }

  lemma NeedNext(rows: seq<S.Node>, k: nat)
    requires k < |rows|
    ensures NeedTotal(rows[..k + 1]) == Plus(NeedTotal(rows[..k]), NeedOf(rows[k]))
  {
    assert rows[..k + 1][..k] == rows[..k];
  }

  lemma {:induction false} FitPrefix(values: nat, rows: seq<S.Node>, k: nat)
    requires k <= |rows| && RowsFit(values, rows)
    ensures RowsFit(values, rows[..k])
    decreases |rows|
  {
    if k < |rows| {
      FitPrefix(values, rows[..|rows| - 1], k);
      assert rows[..|rows| - 1][..k] == rows[..k];
    } else {
      assert rows[..k] == rows;
    }
  }

  // ----- the document builder -----

  class AstBuilder {
    var nodes: seq<Node>
    var literals: seq<Literal>
    var symbolBytes: nat
    var edges: nat
    var lists: nat

    ghost predicate Valid()
      reads this
    {
      && symbolBytes == SymbolTotal(literals) <= MAX_UINT32
      && |literals| <= MAX_UINT32 && |nodes| <= MAX_UINT32 && edges <= MAX_UINT32 && lists <= MAX_UINT32
    }

    constructor ()
      ensures Valid() && nodes == [] && literals == [] && edges == 0 && lists == 0
    {
      nodes, literals, symbolBytes, edges, lists := [], [], 0, 0, 0;
    }

    /** Add a literal, unless there are too many or its bytes do not fit. */
    method AddValue(literal: Literal) returns (ok: bool, id: ValueId)
      requires Valid()
      modifies this`literals, this`symbolBytes
      ensures Valid()
      ensures ok <==> |old(literals)| < MAX_UINT32 && SymbolTotal(old(literals) + [literal]) <= MAX_UINT32
      ensures ok ==> literals == old(literals) + [literal] && id == |literals|
      ensures !ok ==> literals == old(literals) && id == 0
    {
      TotalNext(literals, literal);
      if |literals| >= MAX_UINT32 || symbolBytes + SymbolSize(literal) > MAX_UINT32 {
        return false, 0;
      }
      literals, symbolBytes := literals + [literal], symbolBytes + SymbolSize(literal);
      ok, id := true, |literals|;
    }

    /** Add a constant and its literal together. */
    method AddBoolean(value: bool) returns (ok: bool, id: NodeId)
      requires Valid()
      modifies this`nodes, this`literals
      ensures Valid()
      ensures ok <==> |old(nodes)| < MAX_UINT32 && |old(literals)| < MAX_UINT32
      ensures ok ==> literals == old(literals) + [Bool(value)] && nodes == old(nodes) + [Boolean(|literals|)]
      ensures ok ==> id == |nodes|
      ensures !ok ==> literals == old(literals) && nodes == old(nodes) && id == 0
    {
      if |nodes| >= MAX_UINT32 || |literals| >= MAX_UINT32 {
        return false, 0;
      }
      TotalNext(literals, Bool(value));
      literals := literals + [Bool(value)];
      nodes := nodes + [Boolean(|literals|)];
      ok, id := true, |nodes|;
    }

    method AddCompare(field: FieldId, op: nat, value: ValueId) returns (ok: bool, id: NodeId)
      requires Valid()
      modifies this`nodes
      ensures Valid()
      ensures ok <==> && field != 0 && COMPARE_EQUAL <= op <= COMPARE_DEFINED && op != COMPARE_IN
                      && (value == 0 <==> op == COMPARE_EXISTS || op == COMPARE_DEFINED)
                      && |old(nodes)| < MAX_UINT32
      ensures ok ==> nodes == old(nodes) + [Compare(field, op, value, [])] && id == |nodes|
      ensures !ok ==> nodes == old(nodes) && id == 0
    {
      if field == 0 || op < COMPARE_EQUAL || op > COMPARE_DEFINED || op == COMPARE_IN {
        return false, 0;
      }
      var needsValue := op != COMPARE_EXISTS && op != COMPARE_DEFINED;
      if (!needsValue && value != 0) || (needsValue && value == 0) || |nodes| >= MAX_UINT32 {
        return false, 0;
      }
      nodes := nodes + [Compare(field, op, value, [])];
      ok, id := true, |nodes|;
    }

    method AddIn(field: FieldId, values: seq<ValueId>) returns (ok: bool, id: NodeId)
      requires Valid()
      modifies this`nodes, this`lists
      ensures Valid()
      ensures ok <==> && field != 0 && |values| <= MAX_UINT16 && old(lists) + |values| <= MAX_UINT32
                      && 0 !in values && |old(nodes)| < MAX_UINT32
      ensures ok ==> nodes == old(nodes) + [Compare(field, COMPARE_IN, 0, values)] && id == |nodes|
      ensures ok ==> lists == old(lists) + |values|
      ensures !ok ==> nodes == old(nodes) && lists == old(lists) && id == 0
    {
      if field == 0 || |values| > MAX_UINT16 || lists + |values| > MAX_UINT32 || 0 in values || |nodes| >= MAX_UINT32 {
        return false, 0;
      }
      nodes, lists := nodes + [Compare(field, COMPARE_IN, 0, values)], lists + |values|;
      ok, id := true, |nodes|;
    }

    method AddGroup(conjunction: bool, children: seq<NodeId>) returns (ok: bool, id: NodeId)
      requires Valid()
      modifies this`nodes, this`edges
      ensures Valid()
      ensures ok <==> && |children| <= MAX_UINT16 && old(edges) + |children| <= MAX_UINT32
                      && 0 !in children && |old(nodes)| < MAX_UINT32
      ensures ok ==> nodes == old(nodes) + [Group(conjunction, children)] && id == |nodes|
      ensures ok ==> edges == old(edges) + |children|
      ensures !ok ==> nodes == old(nodes) && edges == old(edges) && id == 0
    {
      if |children| > MAX_UINT16 || edges + |children| > MAX_UINT32 || 0 in children || |nodes| >= MAX_UINT32 {
        return false, 0;
      }
      nodes, edges := nodes + [Group(conjunction, children)], edges + |children|;
      ok, id := true, |nodes|;
    }

    method AddNot(child: NodeId) returns (ok: bool, id: NodeId)
      requires Valid()
      modifies this`nodes
      ensures Valid()
      ensures ok <==> child != 0 && |old(nodes)| < MAX_UINT32
      ensures ok ==> nodes == old(nodes) + [Negation(child)] && id == |nodes|
      ensures !ok ==> nodes == old(nodes) && id == 0
    {
      if child == 0 || |nodes| >= MAX_UINT32 {
        return false, 0;
      }
      nodes := nodes + [Negation(child)];
      ok, id := true, |nodes|;
    }

    /** Add literals one by one. */
    method AddValues(values: seq<Literal>) returns (ok: bool, ids: seq<ValueId>)
      requires Valid()
      modifies this`literals, this`symbolBytes
      ensures Valid()
      ensures ok <==> |old(literals)| + |values| <= MAX_UINT32 && SymbolTotal(old(literals) + values) <= MAX_UINT32
      ensures ok ==> literals == old(literals) + values
      ensures ok ==> |ids| == |values| && forall k :: 0 <= k < |ids| ==> ids[k] == |old(literals)| + k + 1
    {
      hide SymbolTotal;
      ids := [];
      for k := 0 to |values|
        invariant Valid() && literals == old(literals) + values[..k]
        invariant |ids| == k && forall j :: 0 <= j < k ==> ids[j] == |old(literals)| + j + 1
      {
        assert literals + [values[k]] == old(literals) + values[..k + 1];
        var id;
        ok, id := AddValue(values[k]);
        if !ok {
          TotalGrows(old(literals) + values[..k + 1], values[k + 1..]);
          assert old(literals) + values[..k + 1] + values[k + 1..] == old(literals) + values;
          return;
        }
        ids := ids + [id];
      }
      assert values[..|values|] == values;
      ok := true;
    }
  }

  // ----- literals -----

  const OUTCOMES: seq<string> := ["Approve", "Reject", "Revise", "Escalate"]

  /** The literals of a table as the document spells them. */
  function Encoded(t: B.Table): seq<Literal>
    requires B.LiteralsOk(t)
  {
    seq(|t.literals|, k requires 0 <= k < |t.literals| => Encode(B.LiteralIn(t, t.literals[k])))
  }

  /** The names a document carries besides: of the policy, its version and the outcomes. */
  function Catalogue(name: string, version: string): seq<Literal> {
    [Symbol(BytesOf(name)), Symbol(BytesOf(version))] +
    seq(|OUTCOMES|, k requires 0 <= k < |OUTCOMES| => Symbol(BytesOf(OUTCOMES[k])))
  }

  /** The sizes within which a table can be lowered. */
  predicate LoweringFits(t: B.Table, rows: seq<S.Node>, name: string, version: string)
    requires B.LiteralsOk(t)
  {
    var values := Encoded(t) + Catalogue(name, version);
    && |values| <= MAX_UINT32 && SymbolTotal(values) <= MAX_UINT32 && RowsFit(|values|, rows)
    && |rows| + 2 <= MAX_UINT32 && NeedTotal(rows).edges + 2 <= MAX_UINT32
  }

  // ----- rows -----

  /** The identifiers given to the first n records. */
  predicate InOrder(ids: seq<nat>, n: nat) {
    |ids| == n && forall k :: 0 <= k < n ==> ids[k] == k + 1
  }

  function Renamed(ids: seq<nat>, list: seq<nat>): seq<nat>
    requires forall k :: 0 <= k < |list| ==> 1 <= list[k] <= |ids|
  {
    seq(|list|, k requires 0 <= k < |list| => ids[list[k] - 1])
  }

  lemma RenamedSame(ids: seq<nat>, list: seq<nat>)
    requires InOrder(ids, |ids|) && forall k :: 0 <= k < |list| ==> 1 <= list[k] <= |ids|
    ensures Renamed(ids, list) == list && (0 !in list)
  {
  }

  /** The literals of the table come first. */
  predicate Spelt(t: B.Table, literals: seq<Literal>)
    requires B.LiteralsOk(t)
  {
    Encoded(t) <= literals
  }

  lemma SpelledAs(t: B.Table, literals: seq<Literal>, id: nat, literal: S.Literal)
    requires B.LiteralsOk(t) && Spelt(t, literals) && B.Spells(t, id, literal)
    ensures Spelled(literals, id, Encode(literal))
  {
    B.SpellsRead(t, id, literal);
    assert literals[id - 1] == Encoded(t)[id - 1];
  }

  /** The literals a row names, with their identifiers in the document. */
  lemma ListSpelled(t: B.Table, literals: seq<Literal>, ids: seq<ValueId>, row: B.Row, list: seq<S.Literal>)
    requires B.LiteralsOk(t) && Spelt(t, literals) && InOrder(ids, |t.literals|)
    requires B.SpellsAll(t, row.listStart, list) && row.listCount == |list|
    ensures var named := t.lists[row.listStart..row.listStart + row.listCount];
            && (forall k :: 0 <= k < |named| ==> 1 <= named[k] <= |ids|)
            && Renamed(ids, named) == named && 0 !in named
            && forall k :: 0 <= k < |list| ==> Spelled(literals, named[k], Encode(list[k]))
  {
    hide B.Spells, Spelt, B.LiteralsOk;
    var named := t.lists[row.listStart..row.listStart + row.listCount];
    forall k | 0 <= k < |list|
      ensures 1 <= named[k] <= |t.literals| && Spelled(literals, named[k], Encode(list[k]))
    {
      assert named[k] == t.lists[row.listStart + k];
      SpelledAs(t, literals, named[k], list[k]);
      InLiterals(t, named[k], list[k]);
    }
    RenamedSame(ids, named);
  }

  lemma InLiterals(t: B.Table, id: nat, literal: S.Literal)
    requires B.Spells(t, id, literal)
    ensures 1 <= id <= |t.literals|
  {
  }

  /** What the rows before need still leaves room for one more. */
  predicate RoomFor(nodes: nat, literals: nat, edges: nat, lists: nat, need: Need) {
    && nodes < MAX_UINT32 && literals + need.values <= MAX_UINT32
    && edges + need.edges <= MAX_UINT32 && lists + need.lists <= MAX_UINT32
  }

  /** Lower a row without children. */
  method LowerLeaf(b: AstBuilder, t: B.Table, row: B.Row, values: seq<ValueId>, ghost kinds: seq<S.ValueKind>,
                   ghost node: S.Node)
    returns (ok: bool, id: NodeId)
    requires b.Valid() && B.LiteralsOk(t) && Spelt(t, b.literals) && InOrder(values, |t.literals|)
    requires B.Stores(t, row, node) && B.WellTyped(kinds, |b.nodes|, node) && !node.Group? && !node.Negation?
    modifies b
    ensures b.Valid() && b.edges == old(b.edges)
    ensures ok <==> RoomFor(|old(b.nodes)|, |old(b.literals)|, old(b.edges), old(b.lists), NeedOf(node))
    ensures ok ==> id == |b.nodes| && |b.nodes| == |old(b.nodes)| + 1 && old(b.nodes) <= b.nodes
    ensures ok ==> MatchesRow(b.literals, b.nodes[|old(b.nodes)|], node)
    ensures ok ==> old(b.literals) <= b.literals && |b.literals| == |old(b.literals)| + NeedOf(node).values
    ensures ok ==> b.lists == old(b.lists) + NeedOf(node).lists
  {
    hide B.Spells, B.SpellsAll, Spelt, B.LiteralsOk, SymbolTotal;
    match row.kind
    case BooleanRow =>
      SpelledAs(t, b.literals, row.literal, S.Bool(node.flag));
      InLiterals(t, row.literal, S.Bool(node.flag));
      ok, id := b.AddBoolean(b.literals[values[row.literal - 1] - 1] == Bool(true));
    case DefinedRow =>
      ok, id := b.AddCompare(row.field, COMPARE_DEFINED, 0);
    case ExistsRow =>
      ok, id := b.AddCompare(row.field, COMPARE_EXISTS, 0);
    case CompareRow =>
      if row.code.InCode? {
        ListSpelled(t, b.literals, values, row, node.list);
        ListRange(t, row, node.list);
        ok, id := b.AddIn(row.field, Renamed(values, t.lists[row.listStart..row.listStart + row.listCount]));
      } else {
        SpelledAs(t, b.literals, row.literal, node.literal);
        InLiterals(t, row.literal, node.literal);
        ok, id := b.AddCompare(row.field, OpFor(row.code.op), values[row.literal - 1]);
      }
  }

  lemma ListRange(t: B.Table, row: B.Row, list: seq<S.Literal>)
    requires B.SpellsAll(t, row.listStart, list)
    ensures row.listStart + |list| <= |t.lists|
  {
  }

  /** Lower a row over earlier rows. */
  method LowerInner(b: AstBuilder, t: B.Table, row: B.Row, ids: seq<NodeId>, ghost kinds: seq<S.ValueKind>,
                    ghost node: S.Node)
    returns (ok: bool, id: NodeId)
    requires b.Valid() && InOrder(ids, |b.nodes|)
    requires B.Stores(t, row, node) && B.WellTyped(kinds, |b.nodes|, node) && (node.Group? || node.Negation?)
    modifies b`nodes, b`edges
    ensures b.Valid()
    ensures ok <==> RoomFor(|old(b.nodes)|, |old(b.literals)|, old(b.edges), old(b.lists), NeedOf(node))
    ensures ok ==> id == |b.nodes| && |b.nodes| == |old(b.nodes)| + 1 && old(b.nodes) <= b.nodes
    ensures ok ==> MatchesRow(b.literals, b.nodes[|old(b.nodes)|], node)
    ensures ok ==> b.edges == old(b.edges) + NeedOf(node).edges
  {
    hide SymbolTotal;
    assert S.Closed(node, |ids|);
    if row.kind == B.NotRow {
      assert S.Children(node)[0] == node.child;
      ok, id := b.AddNot(ids[t.children[row.childStart] - 1]);
    } else {
      var children := t.children[row.childStart..row.childStart + row.childCount];
      assert children == S.Children(node);
      RenamedSame(ids, children);
      ok, id := b.AddGroup(row.kind == B.AllRow, Renamed(ids, children));
    }
  }

  // ----- all rows -----

  /** The builder holds the first k rows. */
  ghost predicate Holds(b: AstBuilder, t: B.Table, rows: seq<S.Node>, k: nat, values: nat)
    requires B.LiteralsOk(t) && k <= |rows|
    reads b
  {
    && b.Valid() && Spelt(t, b.literals) && |b.nodes| == k && RowsMatch(b.literals, b.nodes, rows[..k])
    && RowsFit(values, rows[..k])
    && |b.literals| == values + NeedTotal(rows[..k]).values
    && b.edges == NeedTotal(rows[..k]).edges && b.lists == NeedTotal(rows[..k]).lists
  }

  lemma StillMatches(literals: seq<Literal>, more: seq<Literal>, node: Node, row: S.Node)
    requires MatchesRow(literals, node, row) && literals <= more
    ensures MatchesRow(more, node, row)
  {
    match row
    case In(field, list) =>
      forall k | 0 <= k < |list|
        ensures Spelled(more, node.list[k], Encode(list[k]))
      {
        assert Spelled(literals, node.list[k], Encode(list[k]));
      }
    case _ =>
  }

  lemma RowsMatchNext(literals: seq<Literal>, more: seq<Literal>, before: seq<Node>, nodes: seq<Node>,
                      rows: seq<S.Node>, k: nat)
    requires k < |rows| && |before| == k && RowsMatch(literals, before, rows[..k]) && literals <= more
    requires |nodes| == k + 1 && before <= nodes && MatchesRow(more, nodes[k], rows[k])
    ensures RowsMatch(more, nodes, rows[..k + 1])
  {
    hide MatchesRow;
    forall j | 0 <= j < k
      ensures MatchesRow(more, nodes[j], rows[..k + 1][j])
    {
      assert nodes[j] == before[j] && rows[..k][j] == rows[j] && rows[..k + 1][j] == rows[j];
      StillMatches(literals, more, before[j], rows[j]);
    }
  }

  /** There is room for a row exactly when the rows up to it fit. */
  lemma RoomIsFit(rows: seq<S.Node>, k: nat, values: nat)
    requires k < |rows| && RowsFit(values, rows[..k])
    ensures var need := NeedTotal(rows[..k]);
            RoomFor(k, values + need.values, need.edges, need.lists, NeedOf(rows[k])) <==>
            RowsFit(values, rows[..k + 1])
  {
    hide NeedTotal, NeedOf;
    NeedNext(rows, k);
    assert |rows[..k + 1]| == k + 1 && |rows[..k]| == k;
  }

  /** Lower the row after the first k. */
  method LowerRow(b: AstBuilder, t: B.Table, k: nat, values: seq<ValueId>, ids: seq<NodeId>,
                  ghost kinds: seq<S.ValueKind>, ghost rows: seq<S.Node>, ghost base: nat)
    returns (ok: bool, id: NodeId)
    requires B.TableOk(t, rows) && B.RowsTyped(kinds, rows) && k < |rows| && B.LiteralsOk(t)
    requires Holds(b, t, rows, k, base) && InOrder(values, |t.literals|) && InOrder(ids, k)
    modifies b
    ensures ok <==> RowsFit(base, rows[..k + 1])
    ensures ok ==> Holds(b, t, rows, k + 1, base) && id == k + 1
  {
    assert B.Stores(t, t.rows[k], rows[k]) && B.WellTyped(kinds, k, rows[k]) && |t.rows| == |rows|;
    hide B.TableOk, B.RowsTyped, B.Stores, B.WellTyped, B.LiteralsOk, NeedTotal, RowsMatch, MatchesRow, InOrder,
         RowsFit, SymbolTotal;
    ghost var literals, nodes := b.literals, b.nodes;
    RoomIsFit(rows, k, base);
    NeedNext(rows, k);
    ghost var node := rows[k];
    KindOfRow(t, t.rows[k], node);
    if t.rows[k].kind in {B.AllRow, B.AnyRow, B.NotRow} {
      ok, id := LowerInner(b, t, t.rows[k], ids, kinds, node);
    } else {
      ok, id := LowerLeaf(b, t, t.rows[k], values, kinds, node);
    }
    if ok {
      RowsMatchNext(literals, b.literals, nodes, b.nodes, rows, k);
    }
  }

  lemma KindOfRow(t: B.Table, row: B.Row, node: S.Node)
    requires B.Stores(t, row, node)
    ensures row.kind in {B.AllRow, B.AnyRow, B.NotRow} <==> node.Group? || node.Negation?
  {
  }

  /** Lower all rows. */
  method LowerRows(b: AstBuilder, t: B.Table, values: seq<ValueId>, ghost kinds: seq<S.ValueKind>,
                   ghost rows: seq<S.Node>)
    returns (ok: bool, ids: seq<NodeId>)
    requires B.TableOk(t, rows) && B.RowsTyped(kinds, rows) && B.LiteralsOk(t) && InOrder(values, |t.literals|)
    requires b.Valid() && Spelt(t, b.literals) && b.nodes == [] && b.edges == 0 && b.lists == 0
    modifies b
    ensures ok <==> RowsFit(|old(b.literals)|, rows)
    ensures ok ==> Holds(b, t, rows, |rows|, |old(b.literals)|) && InOrder(ids, |rows|)
  {
    hide B.TableOk, B.RowsTyped, B.LiteralsOk, RowsFit, Holds;
    ghost var base := |b.literals|;
    TableRowCount(t, rows);
    HoldsNone(b, t, rows);
    ids := [];
    for k := 0 to |t.rows|
      invariant Holds(b, t, rows, k, base) && InOrder(ids, k)
    {
      var id;
      ok, id := LowerRow(b, t, k, values, ids, kinds, rows, base);
      if !ok {
        if RowsFit(base, rows) {
          FitPrefix(base, rows, k + 1);
        }
        return;
      }
      ids := ids + [id];
    }
    HoldsAll(b, t, rows, base);
    ok := true;
  }

  lemma TableRowCount(t: B.Table, rows: seq<S.Node>)
    requires B.TableOk(t, rows)
    ensures |t.rows| == |rows|
  {
  }

  lemma HoldsNone(b: AstBuilder, t: B.Table, rows: seq<S.Node>)
    requires B.LiteralsOk(t) && b.Valid() && Spelt(t, b.literals) && b.nodes == [] && b.edges == 0 && b.lists == 0
    ensures Holds(b, t, rows, 0, |b.literals|)
  {
  }

  lemma HoldsAll(b: AstBuilder, t: B.Table, rows: seq<S.Node>, values: nat)
    requires B.LiteralsOk(t) && Holds(b, t, rows, |rows|, values)
    ensures RowsFit(values, rows)
    ensures |b.nodes| == |rows| && RowsMatch(b.literals, b.nodes, rows) && b.Valid() && b.edges == NeedTotal(rows).edges
  {
    assert rows[..|rows|] == rows;
  }

  /** Lower a table: its literals, the names of the catalogue, its rows, and the one
      requirement with its clause. */
  method LowerPolicy(t: B.Table, root: nat, name: string, version: string, ghost kinds: seq<S.ValueKind>,
                     ghost rows: seq<S.Node>)
    returns (ok: bool, doc: Document)
    requires B.TableOk(t, rows) && B.RowsTyped(kinds, rows) && 1 <= root <= |rows|
    ensures ok <==> LoweringFits(t, rows, name, version)
    ensures ok ==> Represents(doc, rows, root)
  {
    hide B.TableOk, B.RowsTyped, B.LiteralsOk, RowsFit, Holds, SymbolTotal, NeedTotal, RowsMatch;
    LiteralsRead(t, rows);
    doc := Document([], [], [], []);
    var b := new AstBuilder();
    var encoded, catalogue := Encoded(t), Catalogue(name, version);
    var values, others, ids;
    ok, values := b.AddValues(encoded);
    assert [] + encoded == encoded;
    if !ok {
      TotalGrows(encoded, catalogue);
      return;
    }
    ok, others := b.AddValues(catalogue);
    if !ok {
      return;
    }
    ok, ids := LowerRows(b, t, values, kinds, rows);
    if !ok {
      return;
    }
    HoldsAll(b, t, rows, |encoded + catalogue|);
    ghost var nodes := b.nodes;
    var negated, applicability;
    ok, negated := b.AddNot(ids[root - 1]);
    if !ok {
      return;
    }
    ok, applicability := b.AddGroup(false, [ids[root - 1], negated]);
    if !ok {
      return;
    }
    Extended(b.literals, nodes, b.nodes, rows);
    doc := Document(b.nodes, [Requirement(applicability, [1])], [Clause(ids[root - 1], [], false)], b.literals);
  }

  lemma LiteralsRead(t: B.Table, rows: seq<S.Node>)
    requires B.TableOk(t, rows)
    ensures B.LiteralsOk(t)
  {
  }

  lemma Extended(literals: seq<Literal>, nodes: seq<Node>, more: seq<Node>, rows: seq<S.Node>)
    requires RowsMatch(literals, nodes, rows) && nodes <= more
    ensures RowsMatch(literals, more, rows)
  {
    hide MatchesRow;
  }
}
