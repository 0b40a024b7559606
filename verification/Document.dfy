/** The policy AST as the compiler reads it: a table of nodes addressed by
    one-based NodeIDs, the clause and requirement tables that name its roots,
    and the table of source literals. */
module Documents {

  type NodeId = nat
  type ValueId = nat
  type FieldId = nat

  /** Comparison operations are numbered as in the AST package. */
  const COMPARE_EQUAL: nat := 1
  const COMPARE_IN: nat := 3
  const COMPARE_EXISTS: nat := 4
  const COMPARE_DEFINED: nat := 9

  /** One AST node. `Corrupt` is a row the structural phase marked unsafe: its
      payload cannot be read, so the graph phase skips it. Value 0 means absent. */
  datatype Node =
    | Corrupt
    | Boolean(value: ValueId)
    | Compare(field: FieldId, op: nat, operand: ValueId, list: seq<ValueId>)
    | Group(conjunction: bool, children: seq<NodeId>)
    | Negation(child: NodeId)
    | Evidence(kind: nat, state: nat, subject: ValueId, scope: ValueId, timing: ValueId)

  datatype Clause = Clause(assertion: NodeId, evidence: seq<NodeId>, corrupt: bool)

  datatype Requirement = Requirement(applicability: NodeId, clauses: seq<nat>)

  /** Source literals. Equal literals may occur under several ValueIDs. */
  datatype Literal =
    | Symbol(bytes: seq<nat>)
    | Integer(integer: int)
    | Bool(boolean: bool)
    | Timestamp(timestamp: int)

  datatype Document = Document(
    nodes: seq<Node>,
    requirements: seq<Requirement>,
    clauses: seq<Clause>,
    literals: seq<Literal>)

  /** The outgoing edges of a node, in order; leaves have none. */
  function Targets(node: Node): seq<NodeId> {
    match node
    case Group(_, children) => children
    case Negation(child) => [child]
    case _ => []
  }

  /** A NodeID that names a readable row. */
  predicate Readable(doc: Document, id: NodeId) {
    1 <= id <= |doc.nodes| && !doc.nodes[id - 1].Corrupt?
  }

  /** The edges out of a NodeID; an unreadable row has none. */
  function Out(doc: Document, id: NodeId): seq<NodeId> {
    if Readable(doc, id) then Targets(doc.nodes[id - 1]) else []
  }

  predicate Edge(doc: Document, u: NodeId, v: NodeId) {
    v in Out(doc, u) && Readable(doc, v)
  }

  /** A walk along edges, with at least one node. */
  ghost predicate Path(doc: Document, p: seq<NodeId>) {
    && |p| > 0
    && (forall i :: 0 <= i < |p| ==> Readable(doc, p[i]))
    && (forall i, j :: 0 <= i < j <= i + 1 < |p| ==> Edge(doc, p[i], p[j]))
  }

  ghost predicate Reachable(doc: Document, roots: set<NodeId>, v: NodeId) {
    exists p :: Path(doc, p) && p[0] in roots && p[|p| - 1] == v
  }

  ghost predicate Cycle(doc: Document, p: seq<NodeId>) {
    Path(doc, p) && |p| >= 2 && p[0] == p[|p| - 1]
  }

  /** A ranking under which every edge goes down. */
  ghost predicate Ranked(doc: Document, rank: seq<nat>) {
    && |rank| == |doc.nodes|
    && forall u, v :: Edge(doc, u, v) ==> rank[v - 1] < rank[u - 1]
  }

  ghost predicate Acyclic(doc: Document) {
    exists rank :: Ranked(doc, rank)
  }

  ghost function RankOf(doc: Document): (rank: seq<nat>)
    requires Acyclic(doc)
    ensures Ranked(doc, rank)
  {
    var rank :| Ranked(doc, rank); rank
  }

  /** Along a path the rank never rises, so a ranked graph has no cycle. */
  lemma {:induction false} RankedPathDescends(doc: Document, rank: seq<nat>, p: seq<NodeId>)
    requires Ranked(doc, rank) && Path(doc, p)
    ensures rank[p[|p| - 1] - 1] + |p| <= rank[p[0] - 1] + 1
  {
    if |p| > 1 {
      var q := p[..|p| - 1];
      RankedPathDescends(doc, rank, q);
      assert Edge(doc, p[|p| - 2], p[|p| - 1]);
    }
  }

  lemma RankedHasNoCycle(doc: Document, rank: seq<nat>, p: seq<NodeId>)
    requires Ranked(doc, rank)
    ensures !Cycle(doc, p)
  {
    if Cycle(doc, p) {
      RankedPathDescends(doc, rank, p);
    }
  }

  lemma ReachableStep(doc: Document, roots: set<NodeId>, u: NodeId, v: NodeId)
    requires Reachable(doc, roots, u) && Edge(doc, u, v)
    ensures Reachable(doc, roots, v)
  {
    var p :| Path(doc, p) && p[0] in roots && p[|p| - 1] == u;
    var q := p + [v];
    assert forall i, j :: 0 <= i < j <= i + 1 < |q| ==> Edge(doc, q[i], q[j]);
    assert Path(doc, q);
  }

  lemma ReachableRoot(doc: Document, roots: set<NodeId>, u: NodeId)
    requires u in roots && Readable(doc, u)
    ensures Reachable(doc, roots, u)
  {
    assert Path(doc, [u]);
  }

  /** A set that holds the roots and is closed under edges holds what is reachable. */
  lemma {:induction false} ClosedHoldsPath(doc: Document, closed: set<NodeId>, p: seq<NodeId>)
    requires forall u, v :: u in closed && Edge(doc, u, v) ==> v in closed
    requires Path(doc, p) && p[0] in closed
    ensures p[|p| - 1] in closed
  {
    if |p| > 1 {
      var q := p[..|p| - 1];
      ClosedHoldsPath(doc, closed, q);
      assert Edge(doc, p[|p| - 2], p[|p| - 1]);
    }
  }

  /** The roots the validator traverses: every applicability root, and the
      assertion and evidence nodes of clauses some requirement references. */
  predicate Referenced(doc: Document, clause: nat) {
    exists i :: 0 <= i < |doc.requirements| && clause in doc.requirements[i].clauses
  }

  ghost predicate SemanticRoot(doc: Document, id: NodeId) {
    || (exists i :: 0 <= i < |doc.requirements| && doc.requirements[i].applicability == id)
    || (exists c :: 0 <= c < |doc.clauses| && !doc.clauses[c].corrupt && Referenced(doc, c + 1) &&
          (doc.clauses[c].assertion == id || id in doc.clauses[c].evidence))
  }

  ghost function SemanticRoots(doc: Document): set<NodeId> {
    set id | 1 <= id <= |doc.nodes| && SemanticRoot(doc, id)
  }
}
