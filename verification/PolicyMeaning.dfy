/** The policy document of a semantic table: one requirement that applies where the table's
    root is decided, with one clause that asserts the root. */
module PolicyMeanings {
  import opened Optional
  import opened Truth
  import opened Programs
  import opened Documents
  import opened Meanings
  import opened Roots
  import opened Lowerers
  import opened Facts
  import opened ExecutorGate
  import S = SemanticTables
  import B = SemanticBuilders
  import T = TableShapes
  import V = Predicates

  // ----- literals, kinds and operations -----

  /** Characters of a source stand for its bytes. */
  function BytesOf(text: string): seq<nat> {
    seq(|text|, i requires 0 <= i < |text| => text[i] as int)
  }

  function Encode(literal: S.Literal): Literal {
    match literal
    case Str(text) => Symbol(BytesOf(text))
    case Int(value) => Integer(value)
    case Bool(flag) => Bool(flag)
  }

  lemma EncodeApart(a: S.Literal, b: S.Literal)
    ensures Encode(a) == Encode(b) <==> a == b
  {
    if a.Str? && b.Str? && BytesOf(a.bytes) == BytesOf(b.bytes) {
      forall i | 0 <= i < |a.bytes|
        ensures i < |b.bytes| && a.bytes[i] == b.bytes[i]
      {
        assert |BytesOf(a.bytes)| == |BytesOf(b.bytes)|;
        assert BytesOf(a.bytes)[i] == BytesOf(b.bytes)[i];
      }
    }
  }

  function KindFor(kind: S.ValueKind): Kind {
    match kind
    case StringKind => SymbolKind
    case IntegerKind => IntegerKind
    case BooleanKind => BooleanKind
  }

  function KindsFor(kinds: seq<S.ValueKind>): seq<Kind> {
    seq(|kinds|, k requires 0 <= k < |kinds| => KindFor(kinds[k]))
  }

  lemma EncodeKeepsKind(literal: S.Literal)
    ensures KindOf(Encode(literal)) == KindFor(S.KindOf(literal))
  {
  }

  function OpFor(op: S.Operation): nat {
    match op
    case Equal => COMPARE_EQUAL
    case NotEqual => NOT_EQUAL
    case Less => LESS
    case LessEqual => V.LESS_EQUAL
    case Greater => V.GREATER
    case GreaterEqual => GREATER_EQUAL
  }

  /** A comparison holds of encoded literals exactly when it holds of the literals. */
  lemma ComparisonKept(op: S.Operation, a: S.Literal, b: S.Literal)
    ensures Holds(OpFor(op), Encode(a), Some(Encode(b)), []) <==> S.Holds(op, a, b)
  {
    EncodeApart(a, b);
  }

  lemma MembershipKept(a: S.Literal, list: seq<S.Literal>, encoded: seq<Literal>)
    requires |encoded| == |list| && forall k :: 0 <= k < |list| ==> encoded[k] == Encode(list[k])
    ensures Encode(a) in encoded <==> a in list
  {
    if a in list {
      var k :| 0 <= k < |list| && list[k] == a;
      assert encoded[k] == Encode(a);
    }
    if Encode(a) in encoded {
      var k :| 0 <= k < |encoded| && encoded[k] == Encode(a);
      EncodeApart(a, list[k]);
    }
  }

  // ----- the document of a table -----

  predicate Spelled(literals: seq<Literal>, id: ValueId, literal: Literal) {
    1 <= id <= |literals| && literals[id - 1] == literal
  }

  /** A document node says what a table row says. */
  predicate MatchesRow(literals: seq<Literal>, node: Node, row: S.Node) {
    match row
    case Boolean(flag) => node.Boolean? && Spelled(literals, node.value, Bool(flag))
    case Defined(field) => node == Compare(field, COMPARE_DEFINED, 0, [])
    case Exists(field) => node == Compare(field, COMPARE_EXISTS, 0, [])
    case Compare(field, op, literal) =>
      && node.Compare? && node.field == field && node.op == OpFor(op) && node.list == []
      && Spelled(literals, node.operand, Encode(literal))
    case In(field, list) =>
      && node.Compare? && node.field == field && node.op == COMPARE_IN && node.operand == 0 && |node.list| == |list|
      && forall k :: 0 <= k < |list| ==> Spelled(literals, node.list[k], Encode(list[k]))
    case Group(conjunction, children) => node == Group(conjunction, children)
    case Negation(child) => node == Negation(child)
  }

  predicate RowsMatch(literals: seq<Literal>, nodes: seq<Node>, rows: seq<S.Node>) {
    |rows| <= |nodes| && forall k :: 0 <= k < |rows| ==> MatchesRow(literals, nodes[k], rows[k])
  }

  /** The document asserts the root of the rows, where the root or its negation holds. */
  predicate Represents(doc: Document, rows: seq<S.Node>, root: nat) {
    && 1 <= root <= |rows| && |doc.nodes| == |rows| + 2 && RowsMatch(doc.literals, doc.nodes, rows)
    && doc.nodes[|rows|] == Negation(root) && doc.nodes[|rows| + 1] == Group(false, [root, |rows| + 1])
    && doc.clauses == [Clause(root, [], false)] && doc.requirements == [Requirement(|rows| + 2, [1])]
  }

  // ----- the compiler's demands hold -----

  lemma TargetsOf(literals: seq<Literal>, node: Node, row: S.Node)
    requires MatchesRow(literals, node, row)
    ensures Targets(node) == S.Children(row) && !node.Corrupt? && (node.Group? <==> row.Group?)
  {
  }

  /** Every edge of the document leads to an earlier node. */
  lemma EdgesDescend(doc: Document, rows: seq<S.Node>, root: nat, u: NodeId, k: nat)
    requires Represents(doc, rows, root) && S.Rooted(rows) && 1 <= u <= |doc.nodes| && k < |Targets(doc.nodes[u - 1])|
    ensures 1 <= Targets(doc.nodes[u - 1])[k] < u
  {
    if u <= |rows| {
      TargetsOf(doc.literals, doc.nodes[u - 1], rows[u - 1]);
      assert S.Closed(rows[u - 1], u - 1);
    }
  }

  lemma AllReadable(doc: Document, rows: seq<S.Node>, root: nat, u: NodeId)
    requires Represents(doc, rows, root) && 1 <= u <= |doc.nodes|
    ensures Readable(doc, u)
  {
    if u <= |rows| {
      TargetsOf(doc.literals, doc.nodes[u - 1], rows[u - 1]);
    }
  }

  lemma LowersAcyclic(doc: Document, rows: seq<S.Node>, root: nat)
    requires Represents(doc, rows, root) && S.Rooted(rows)
    ensures Acyclic(doc)
  {
    hide Represents;
    var rank := seq(|doc.nodes|, i => i);
    forall u, v | Edge(doc, u, v)
      ensures rank[v - 1] < rank[u - 1]
    {
      var k :| 0 <= k < |Out(doc, u)| && Out(doc, u)[k] == v;
      EdgesDescend(doc, rows, root, u, k);
    }
    assert Ranked(doc, rank);
  }

  lemma LeafFine(doc: Document, kinds: seq<S.ValueKind>, n: nat, node: Node, row: S.Node)
    requires MatchesRow(doc.literals, node, row) && B.WellTyped(kinds, n, row)
    ensures LeafOk(doc, node) && LeafTyped(doc, KindsFor(kinds), node)
  {
    match row
    case Compare(field, op, literal) =>
      EncodeKeepsKind(literal);
    case In(field, list) =>
      forall k | 0 <= k < |list|
        ensures HasKind(doc, node.list[k], KindFor(kinds[field - 1]))
      {
        assert Spelled(doc.literals, node.list[k], Encode(list[k]));
        EncodeKeepsKind(list[k]);
      }
    case _ =>
  }

  lemma NodeFine(doc: Document, rows: seq<S.Node>, root: nat, kinds: seq<S.ValueKind>, u: NodeId)
    requires Represents(doc, rows, root) && S.Rooted(rows) && B.RowsTyped(kinds, rows) && 1 <= u <= |doc.nodes|
    ensures NodeClean(doc, u) && LeafTyped(doc, KindsFor(kinds), doc.nodes[u - 1])
    ensures doc.nodes[u - 1].Group? ==> |doc.nodes[u - 1].children| >= 2
  {
    AllReadable(doc, rows, root, u);
    forall k | 0 <= k < |Out(doc, u)|
      ensures Readable(doc, Out(doc, u)[k])
    {
      EdgesDescend(doc, rows, root, u, k);
      AllReadable(doc, rows, root, Out(doc, u)[k]);
    }
    if u <= |rows| {
      LeafFine(doc, kinds, u - 1, doc.nodes[u - 1], rows[u - 1]);
      assert B.WellTyped(kinds, u - 1, rows[u - 1]);
    }
  }

  /** The document is structurally clean and typed. */
  lemma LowersClean(doc: Document, rows: seq<S.Node>, root: nat, kinds: seq<S.ValueKind>)
    requires Represents(doc, rows, root) && S.Rooted(rows) && B.RowsTyped(kinds, rows)
    ensures Clean(doc) && Typed(doc, KindsFor(kinds)) && StructurallyClean(doc)
  {
    hide NodeClean, LeafTyped, B.RowsTyped, S.Rooted;
    LowersAcyclic(doc, rows, root);
    RootsOfPolicy(doc, rows, root);
    forall u | 1 <= u <= |doc.nodes|
      ensures NodeClean(doc, u) && LeafTyped(doc, KindsFor(kinds), doc.nodes[u - 1])
    {
      NodeFine(doc, rows, root, kinds, u);
    }
    forall i | 0 <= i < |doc.nodes|
      ensures LeafTyped(doc, KindsFor(kinds), doc.nodes[i])
    {
      assert NodeClean(doc, i + 1);
    }
  }

  lemma RootsOfPolicy(doc: Document, rows: seq<S.Node>, root: nat)
    requires Represents(doc, rows, root)
    ensures AllRoots(doc) == [|rows| + 2, root] && InTable(doc, AllRoots(doc))
    ensures SemanticRoots(doc) == {|rows| + 2, root}
  {
    assert EvidenceEdges(doc.clauses[..0]) == [];
    assert EvidenceRoots(doc) == [];
    assert AllRoots(doc) == [|rows| + 2, root];
    assert doc.requirements[0].applicability == |rows| + 2;
    assert 1 in doc.requirements[0].clauses && Referenced(doc, 0 + 1);
    assert SemanticRoot(doc, |rows| + 2) && SemanticRoot(doc, root);
    forall id | SemanticRoot(doc, id)
      ensures id == |rows| + 2 || id == root
    {
    }
  }

  // ----- reachability -----

  lemma TableEdge(doc: Document, rows: seq<S.Node>, root: nat, u: NodeId, v: NodeId)
    requires Represents(doc, rows, root) && S.Rooted(rows) && 1 <= u <= |rows|
    ensures Edge(doc, u, v) <==> v in S.Children(rows[u - 1])
  {
    TargetsOf(doc.literals, doc.nodes[u - 1], rows[u - 1]);
    if v in S.Children(rows[u - 1]) {
      T.ParentIsLater(rows, u - 1, v);
      AllReadable(doc, rows, root, v);
    }
  }

  lemma {:induction false} BelowIsReachable(doc: Document, rows: seq<S.Node>, root: nat, id: NodeId)
    requires Represents(doc, rows, root) && S.Rooted(rows) && 1 <= id <= |rows| && T.Below(rows, root, id)
    ensures Reachable(doc, SemanticRoots(doc), id)
    decreases |rows| - id
  {
    hide Reachable, Represents;
    RootsOfPolicy(doc, rows, root);
    if id == root {
      AllReadable(doc, rows, root, id);
      ReachableRoot(doc, SemanticRoots(doc), id);
    } else {
      var u :| id < u <= |rows| && T.Below(rows, root, u) && id in S.Children(rows[u - 1]);
      BelowIsReachable(doc, rows, root, u);
      TableEdge(doc, rows, root, u, id);
      ReachableStep(doc, SemanticRoots(doc), u, id);
    }
  }

  lemma AddedAreReachable(doc: Document, rows: seq<S.Node>, root: nat)
    requires Represents(doc, rows, root)
    ensures Reachable(doc, SemanticRoots(doc), |rows| + 1) && Reachable(doc, SemanticRoots(doc), |rows| + 2)
  {
    RootsOfPolicy(doc, rows, root);
    AllReadable(doc, rows, root, |rows| + 2);
    AllReadable(doc, rows, root, |rows| + 1);
    hide Reachable;
    ReachableRoot(doc, SemanticRoots(doc), |rows| + 2);
    assert |rows| + 1 in Out(doc, |rows| + 2);
    ReachableStep(doc, SemanticRoots(doc), |rows| + 2, |rows| + 1);
  }

  /** The rows below the root, and the two nodes added. */
  ghost function Rows(rows: seq<S.Node>, root: nat): set<NodeId> {
    set u: nat | 1 <= u <= |rows| + 2 && (u > |rows| || T.Below(rows, root, u))
  }

  lemma RowsClosed(doc: Document, rows: seq<S.Node>, root: nat, u: NodeId, v: NodeId)
    requires Represents(doc, rows, root) && S.Rooted(rows) && u in Rows(rows, root) && Edge(doc, u, v)
    ensures v in Rows(rows, root)
  {
    if u <= |rows| {
      TableEdge(doc, rows, root, u, v);
      T.ParentIsLater(rows, u - 1, v);
    } else {
      assert v == root || v > |rows|;
    }
  }

  lemma ReachableIsBelow(doc: Document, rows: seq<S.Node>, root: nat, id: NodeId)
    requires Represents(doc, rows, root) && S.Rooted(rows) && 1 <= id <= |rows|
    requires Reachable(doc, SemanticRoots(doc), id)
    ensures T.Below(rows, root, id)
  {
    RootsOfPolicy(doc, rows, root);
    RepresentsSizes(doc, rows, root);
    assert root in Rows(rows, root) && |rows| + 2 in Rows(rows, root);
    hide Represents, S.Rooted, Edge, Path, T.Below;
    forall u: nat, v: nat | u in Rows(rows, root) && Edge(doc, u, v)
      ensures v in Rows(rows, root)
    {
      RowsClosed(doc, rows, root, u, v);
    }
    var p :| Path(doc, p) && p[0] in SemanticRoots(doc) && p[|p| - 1] == id;
    ClosedHoldsPath(doc, Rows(rows, root), p);
  }

  /** The compiler's validator accepts the document exactly when the table is whole. */
  lemma AcceptedIsWhole(doc: Document, rows: seq<S.Node>, root: nat, kinds: seq<S.ValueKind>)
    requires Represents(doc, rows, root) && S.Rooted(rows) && B.RowsTyped(kinds, rows)
    ensures Accepted(doc) <==> T.Whole(rows, root)
  {
    LowersClean(doc, rows, root, kinds);
    RootsOfPolicy(doc, rows, root);
    RepresentsSizes(doc, rows, root);
    hide Represents, S.Rooted, B.RowsTyped, Clean, Reachable, T.Whole, T.Below, SemanticRoots;
    if T.Whole(rows, root) {
      AddedAreReachable(doc, rows, root);
      forall u | 1 <= u <= |doc.nodes|
        ensures Reachable(doc, SemanticRoots(doc), u)
      {
        if u <= |rows| {
          T.WholeIsBelow(rows, root, u);
          BelowIsReachable(doc, rows, root, u);
        }
      }
    }
    if Accepted(doc) {
      forall id | 1 <= id <= |rows|
        ensures T.Below(rows, root, id)
      {
        ReachableIsBelow(doc, rows, root, id);
      }
      T.BelowIsWhole(rows, root);
    }
  }

  lemma RepresentsSizes(doc: Document, rows: seq<S.Node>, root: nat)
    requires Represents(doc, rows, root)
    ensures |doc.nodes| == |rows| + 2 && 1 <= root <= |rows|
  {
  }

  /** The executor never refuses such a document: no group is narrow. */
  lemma NoGroupIsNarrow(doc: Document, rows: seq<S.Node>, root: nat, kinds: seq<S.ValueKind>)
    requires Represents(doc, rows, root) && S.Rooted(rows) && B.RowsTyped(kinds, rows) && Clean(doc)
    ensures !exists u :: NarrowGroup(doc, u)
  {
    hide Clean, Represents, B.RowsTyped, S.Rooted, AllRoots, StandsUnder, Flattened;
    forall u: nat
      ensures !NarrowGroup(doc, u)
    {
      if 1 <= u <= |doc.nodes| && doc.nodes[u - 1].Group? {
        NodeFine(doc, rows, root, kinds, u);
        FlattenedBelow(doc, u, |Out(doc, u)|);
      }
    }
  }

  // ----- lowering preserves meaning -----

  predicate SamePlanes(a: Cell, b: Cell) {
    a.positive == b.positive && a.negative == b.negative
  }

  /** A row of facts says what a request says of the declared fields. */
  predicate Says(kinds: seq<S.ValueKind>, row: FactRow, facts: S.Facts) {
    forall f :: 1 <= f <= |kinds| ==> row(f) == if f in facts then Known(Encode(facts[f])) else Absent
  }

  lemma LeafKept(doc: Document, kinds: seq<S.ValueKind>, n: nat, node: Node, rows: seq<S.Node>, id: nat,
                 facts: S.Facts, row: FactRow, evidence: Atom -> Cell)
    requires S.Rooted(rows) && 1 <= id <= |rows| && MatchesRow(doc.literals, node, rows[id - 1])
    requires B.WellTyped(kinds, n, rows[id - 1]) && Says(kinds, row, facts) && S.Children(rows[id - 1]) == []
    requires !rows[id - 1].Group?
    ensures IsLeaf(node) && LeafOk(doc, node)
    ensures SamePlanes(AtomTruth(row, evidence, AtomOf(doc, node)), S.Meaning(rows, id, facts))
  {
    LeafFine(doc, kinds, n, node, rows[id - 1]);
    match rows[id - 1]
    case Compare(field, op, literal) =>
      if field in facts {
        ComparisonKept(op, facts[field], literal);
      }
    case In(field, list) =>
      if field in facts {
        var encoded := seq(|node.list|, k requires 0 <= k < |node.list| => LiteralAt(doc, node.list[k]));
        forall k | 0 <= k < |list|
          ensures encoded[k] == Encode(list[k])
        {
          assert Spelled(doc.literals, node.list[k], Encode(list[k]));
        }
        MembershipKept(facts[field], list, encoded);
      }
    case _ =>
  }

  lemma GroupPlanes(conjunction: bool, xs: seq<Cell>, ys: seq<Cell>)
    requires |xs| == |ys| && forall k :: 0 <= k < |xs| ==> SamePlanes(xs[k], ys[k])
    ensures SamePlanes(GroupOf(conjunction, xs), GroupOf(conjunction, ys))
  {
    forall c | c in xs
      ensures exists d :: d in ys && SamePlanes(c, d)
    {
      var k :| 0 <= k < |xs| && xs[k] == c;
      assert ys[k] in ys;
    }
    forall d | d in ys
      ensures exists c :: c in xs && SamePlanes(c, d)
    {
      var k :| 0 <= k < |ys| && ys[k] == d;
      assert xs[k] in xs;
    }
  }

  /** Every row keeps its truth: the document decides a node as the table decides the row. */
  lemma {:induction false} TableMeaningKept(doc: Document, rows: seq<S.Node>, root: nat,
                                                    kinds: seq<S.ValueKind>, facts: S.Facts, row: FactRow,
                                                    evidence: Atom -> Cell, id: nat)
    requires Represents(doc, rows, root) && S.Rooted(rows) && B.RowsTyped(kinds, rows) && Clean(doc)
    requires Says(kinds, row, facts) && 1 <= id <= |rows|
    ensures SamePlanes(Meaning(doc, FactTruth(row, evidence), id), S.Meaning(rows, id, facts))
    decreases id
  {
    hide Clean;
    var truth := FactTruth(row, evidence);
    var node := doc.nodes[id - 1];
    assert MatchesRow(doc.literals, node, rows[id - 1]) && B.WellTyped(kinds, id - 1, rows[id - 1]);
    MeaningUnfold(doc, truth, id);
    match rows[id - 1]
    case Group(conjunction, children) =>
      ChildrenKeep(doc, rows, root, kinds, facts, row, evidence, id);
    case Negation(child) =>
      assert S.Closed(rows[id - 1], id - 1) && S.Children(rows[id - 1])[0] == child;
      TableMeaningKept(doc, rows, root, kinds, facts, row, evidence, child);
    case _ =>
      LeafKept(doc, kinds, id - 1, node, rows, id, facts, row, evidence);
      MeaningLeaf(doc, truth, id);
  }

  lemma {:induction false} ChildrenKeep(doc: Document, rows: seq<S.Node>, root: nat, kinds: seq<S.ValueKind>,
                                        facts: S.Facts, row: FactRow, evidence: Atom -> Cell, id: nat)
    requires Represents(doc, rows, root) && S.Rooted(rows) && B.RowsTyped(kinds, rows) && Clean(doc)
    requires Says(kinds, row, facts) && 1 <= id <= |rows| && rows[id - 1].Group?
    ensures SamePlanes(Meaning(doc, FactTruth(row, evidence), id), S.Meaning(rows, id, facts))
    decreases id, 0
  {
    hide Clean, Says, GroupOf;
    var truth := FactTruth(row, evidence);
    var children := rows[id - 1].children;
    assert MatchesRow(doc.literals, doc.nodes[id - 1], rows[id - 1]);
    MeaningUnfold(doc, truth, id);
    forall k | 0 <= k < |children|
      ensures 1 <= children[k] < id
      ensures SamePlanes(Meaning(doc, truth, children[k]), S.Meaning(rows, children[k], facts))
    {
      assert S.Closed(rows[id - 1], id - 1) && S.Children(rows[id - 1])[k] == children[k];
      TableMeaningKept(doc, rows, root, kinds, facts, row, evidence, children[k]);
    }
    GroupPlanes(rows[id - 1].conjunction, MeaningOf(doc, truth, children),
                seq(|children|, k requires 0 <= k < |children| => S.Meaning(rows, children[k], facts)));
  }

  /** The requirement applies exactly where the root is decided. */
  lemma AppliesWhereDecided(doc: Document, rows: seq<S.Node>, root: nat, kinds: seq<S.ValueKind>, facts: S.Facts,
                            row: FactRow, evidence: Atom -> Cell)
    requires Represents(doc, rows, root) && S.Rooted(rows) && B.RowsTyped(kinds, rows) && Clean(doc)
    requires Says(kinds, row, facts)
    ensures var cell := S.Meaning(rows, root, facts);
            Meaning(doc, FactTruth(row, evidence), |rows| + 2).positive <==> cell.positive || cell.negative
  {
    hide Clean, S.Meaning, Meaning;
    var truth := FactTruth(row, evidence);
    TableMeaningKept(doc, rows, root, kinds, facts, row, evidence, root);
    MeaningUnfold(doc, truth, |rows| + 2);
    MeaningUnfold(doc, truth, |rows| + 1);
    var cells := MeaningOf(doc, truth, [root, |rows| + 1]);
    assert cells == [Meaning(doc, truth, root), Meaning(doc, truth, |rows| + 1)];
    assert cells[0] in cells && cells[1] in cells;
  }
}
