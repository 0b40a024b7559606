/** The semantic table that source-language frontends build: flat node rows over child,
    list and literal slabs, appended only after every limit has been checked. */
module SemanticTables {
  import opened Truth

  // ----- what a table says -----

  datatype Literal = Str(bytes: string) | Int(value: int) | Bool(flag: bool)

  datatype ValueKind = StringKind | IntegerKind | BooleanKind

  datatype Operation = Equal | NotEqual | Less | LessEqual | Greater | GreaterEqual

  /** One node; children are one-based rows, fields one-based declarations. */
  datatype Node =
    | Boolean(flag: bool)
    | Defined(field: nat)
    | Exists(field: nat)
    | Compare(field: nat, op: Operation, literal: Literal)
    | In(field: nat, list: seq<Literal>)
    | Group(conjunction: bool, children: seq<nat>)
    | Negation(child: nat)

  function KindOf(literal: Literal): ValueKind {
    match literal
    case Str(_) => StringKind
    case Int(_) => IntegerKind
    case Bool(_) => BooleanKind
  }

  function Children(node: Node): seq<nat> {
    match node
    case Group(_, children) => children
    case Negation(child) => [child]
    case _ => []
  }

  /** Every child is an earlier row. */
  predicate Closed(node: Node, rows: nat) {
    forall k :: 0 <= k < |Children(node)| ==> 1 <= Children(node)[k] <= rows
  }

  predicate Rooted(nodes: seq<Node>) {
    forall k :: 0 <= k < |nodes| ==> Closed(nodes[k], k)
  }

  type Facts = map<nat, Literal>

  const UNDECIDED: Cell := Cell(false, false, {})

  function Holds(op: Operation, left: Literal, right: Literal): bool {
    match op
    case Equal => left == right
    case NotEqual => left != right
    case Less => left.Int? && right.Int? && left.value < right.value
    case LessEqual => left.Int? && right.Int? && left.value <= right.value
    case Greater => left.Int? && right.Int? && left.value > right.value
    case GreaterEqual => left.Int? && right.Int? && left.value >= right.value
  }

  /** The four-valued truth of a row. A comparison with a missing field is undecided. */
  function Meaning(nodes: seq<Node>, id: nat, facts: Facts): Cell
    requires Rooted(nodes) && 1 <= id <= |nodes|
    decreases id
  {
    var node := nodes[id - 1];
    assert Closed(node, id - 1);
    match node
    case Boolean(flag) => Decided(flag)
    case Defined(field) => Decided(field in facts)
    case Exists(field) => if field in facts then Decided(true) else UNDECIDED
    case Compare(field, op, literal) => if field in facts then Decided(Holds(op, facts[field], literal)) else UNDECIDED
    case In(field, list) => if field in facts then Decided(facts[field] in list) else UNDECIDED
    case Group(conjunction, children) =>
      GroupOf(conjunction, seq(|children|, k requires 0 <= k < |children| =>
              assert Children(node)[k] == children[k]; Meaning(nodes, children[k], facts)))
    case Negation(child) => assert Children(node)[0] == child; Not(Meaning(nodes, child, facts))
  }

  /** Later rows do not change what a row means. */
  lemma {:induction false} MeaningStable(nodes: seq<Node>, more: seq<Node>, id: nat, facts: Facts)
    requires Rooted(nodes) && Rooted(more) && nodes <= more && 1 <= id <= |nodes|
    ensures Meaning(more, id, facts) == Meaning(nodes, id, facts)
    decreases id
  {
    var node := nodes[id - 1];
    assert Closed(node, id - 1);
    match node
    case Group(conjunction, children) =>
      forall k | 0 <= k < |children|
        ensures 1 <= children[k] < id && Meaning(more, children[k], facts) == Meaning(nodes, children[k], facts)
      {
        assert Children(node)[k] == children[k];
        MeaningStable(nodes, more, children[k], facts);
      }
      assert seq(|children|, k requires 0 <= k < |children| => Meaning(more, children[k], facts))
          == seq(|children|, k requires 0 <= k < |children| => Meaning(nodes, children[k], facts));
    case Negation(child) =>
      assert Children(node)[0] == child;
      MeaningStable(nodes, more, child, facts);
    case _ =>
  }

  lemma RootedSnoc(nodes: seq<Node>, node: Node)
    requires Rooted(nodes) && Closed(node, |nodes|)
    ensures Rooted(nodes + [node])
  {
  }

  /** The meaning of a group of two that has just been appended. */
  lemma PairMeaning(nodes: seq<Node>, conjunction: bool, left: nat, right: nat, facts: Facts)
    requires Rooted(nodes) && 1 <= left <= |nodes| && 1 <= right <= |nodes|
    ensures var more := nodes + [Group(conjunction, [left, right])];
            Rooted(more) && Meaning(more, |more|, facts) ==
              Join(conjunction, Meaning(nodes, left, facts), Meaning(nodes, right, facts))
  {
    var node := Group(conjunction, [left, right]);
    var more := nodes + [node];
    RootedSnoc(nodes, node);
    MeaningStable(nodes, more, left, facts);
    MeaningStable(nodes, more, right, facts);
    var a, b := Meaning(nodes, left, facts), Meaning(nodes, right, facts);
    assert seq(2, k requires 0 <= k < 2 => Meaning(more, [left, right][k], facts)) == [a] + [b];
    GroupConcat(conjunction, [a], [b]);
    GroupSingle(conjunction, a);
    GroupSingle(conjunction, b);
  }

  lemma NegationMeaning(nodes: seq<Node>, child: nat, facts: Facts)
    requires Rooted(nodes) && 1 <= child <= |nodes|
    ensures var more := nodes + [Negation(child)];
            Rooted(more) && Meaning(more, |more|, facts) == Not(Meaning(nodes, child, facts))
  {
    RootedSnoc(nodes, Negation(child));
    MeaningStable(nodes, nodes + [Negation(child)], child, facts);
  }

  // ----- the limits -----

  datatype Limits = Limits(maxNodes: nat, maxDepth: nat, maxLiterals: nat, maxChildren: nat, maxStringBytes: nat)

  function LiteralNeed(node: Node): nat {
    match node
    case Boolean(_) => 1
    case Compare(_, _, _) => 1
    case In(_, list) => |list|
    case _ => 0
  }

  function EdgeNeed(node: Node): nat {
    match node
    case In(_, list) => |list|
    case _ => |Children(node)|
  }

  function BytesOf(literal: Literal): nat {
    match literal
    case Str(bytes) => |bytes|
    case _ => 0
  }

  function ListBytes(list: seq<Literal>): nat {
    if list == [] then 0 else ListBytes(list[..|list| - 1]) + BytesOf(list[|list| - 1])
  }

  function ByteNeed(node: Node): nat {
    match node
    case Compare(_, _, literal) => BytesOf(literal)
    case In(_, list) => ListBytes(list)
    case _ => 0
  }

  datatype Usage = Usage(literals: nat, edges: nat, bytes: nat)

  function Total(nodes: seq<Node>): Usage {
    if nodes == [] then Usage(0, 0, 0)
    else
      var before, node := Total(nodes[..|nodes| - 1]), nodes[|nodes| - 1];
      Usage(before.literals + LiteralNeed(node), before.edges + EdgeNeed(node), before.bytes + ByteNeed(node))
  }

  function Deepest(depths: seq<nat>, children: seq<nat>): nat {
    if children == [] then 0
    else
      var rest, last := Deepest(depths, children[..|children| - 1]), children[|children| - 1];
      if 1 <= last <= |depths| && depths[last - 1] > rest then depths[last - 1] else rest
  }

  /** The height of every row. */
  function Depths(nodes: seq<Node>): (depths: seq<nat>)
    ensures |depths| == |nodes|
  {
    if nodes == [] then []
    else
      var before := Depths(nodes[..|nodes| - 1]);
      before + [1 + Deepest(before, Children(nodes[|nodes| - 1]))]
  }

  lemma TotalSnoc(nodes: seq<Node>, node: Node)
    ensures Total(nodes + [node]) == Usage(Total(nodes).literals + LiteralNeed(node),
                                           Total(nodes).edges + EdgeNeed(node), Total(nodes).bytes + ByteNeed(node))
    ensures Depths(nodes + [node]) == Depths(nodes) + [1 + Deepest(Depths(nodes), Children(node))]
  {
    assert (nodes + [node])[..|nodes|] == nodes;
  }

  /** One more node keeps every limit. `base` counts the bytes of the declarations. */
  predicate Room(limits: Limits, base: nat, nodes: seq<Node>, node: Node) {
    && |nodes| + 1 <= limits.maxNodes
    && Total(nodes).literals + LiteralNeed(node) <= limits.maxLiterals
    && Total(nodes).edges + EdgeNeed(node) <= limits.maxChildren
    && 1 + Deepest(Depths(nodes), Children(node)) <= limits.maxDepth
    && base + Total(nodes).bytes + ByteNeed(node) <= limits.maxStringBytes
  }

  /** Every node had room when it was appended. */
  predicate Fits(limits: Limits, base: nat, nodes: seq<Node>) {
    nodes == [] || (Fits(limits, base, nodes[..|nodes| - 1]) &&
                    Room(limits, base, nodes[..|nodes| - 1], nodes[|nodes| - 1]))
  }

  lemma FitsSnoc(limits: Limits, base: nat, nodes: seq<Node>, node: Node)
    ensures Fits(limits, base, nodes + [node]) <==> Fits(limits, base, nodes) && Room(limits, base, nodes, node)
  {
    assert (nodes + [node])[..|nodes|] == nodes;
  }

  lemma {:induction false} FitsPrefix(limits: Limits, base: nat, nodes: seq<Node>, more: seq<Node>)
    requires nodes <= more && Fits(limits, base, more)
    ensures Fits(limits, base, nodes)
    decreases |more|
  {
    if |nodes| < |more| {
      FitsPrefix(limits, base, nodes, more[..|more| - 1]);
    } else {
      assert nodes == more;
    }
  }

  ghost predicate WithinLimits(limits: Limits, base: nat, nodes: seq<Node>) {
    && |nodes| <= limits.maxNodes && Total(nodes).literals <= limits.maxLiterals
    && Total(nodes).edges <= limits.maxChildren
    && base + Total(nodes).bytes <= limits.maxStringBytes
    && forall k :: 0 <= k < |nodes| ==> Depths(nodes)[k] <= limits.maxDepth
  }

  /** Fitting step by step is keeping the limits in total. */
  lemma {:induction false} FitsInTotal(limits: Limits, base: nat, nodes: seq<Node>)
    ensures Fits(limits, base, nodes) <==> nodes == [] || WithinLimits(limits, base, nodes)
  {
    if nodes != [] {
      var init, node := nodes[..|nodes| - 1], nodes[|nodes| - 1];
      FitsInTotal(limits, base, init);
      assert nodes == init + [node];
      TotalSnoc(init, node);
      FitsSnoc(limits, base, init, node);
      hide Fits, Total, Depths, Deepest;
      DepthsBelow(Depths(init), 1 + Deepest(Depths(init), Children(node)), limits.maxDepth);
    }
  }

  lemma DepthsBelow(depths: seq<nat>, last: nat, bound: nat)
    ensures (forall k :: 0 <= k < |depths| + 1 ==> (depths + [last])[k] <= bound) <==>
            ((forall k :: 0 <= k < |depths| ==> depths[k] <= bound) && last <= bound)
  {
    assert (depths + [last])[|depths|] == last;
    assert forall k :: 0 <= k < |depths| ==> (depths + [last])[k] == depths[k];
  }
}
