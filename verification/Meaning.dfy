/** What a policy document means: every node denotes a four-valued truth cell,
    given the truth of its atoms. Atoms are leaves with their literals spelled
    out, so the meaning does not depend on how literals are numbered. */
module Meanings {
  import opened Optional
  import opened Truth
  import opened Documents

  datatype Atom =
    | BooleanAtom(literal: Literal)
    | CompareAtom(field: FieldId, op: nat, operand: Option<Literal>, list: seq<Literal>)
    | EvidenceAtom(kind: nat, state: nat, subject: Option<seq<nat>>, scope: Option<seq<nat>>, timing: Option<seq<nat>>)

  predicate IsValue(doc: Document, id: ValueId) {
    1 <= id <= |doc.literals|
  }

  predicate OptionalSymbol(doc: Document, id: ValueId) {
    id == 0 || (IsValue(doc, id) && doc.literals[id - 1].Symbol?)
  }

  function LiteralAt(doc: Document, id: ValueId): Literal
    requires IsValue(doc, id)
  {
    doc.literals[id - 1]
  }

  function SymbolAt(doc: Document, id: ValueId): Option<seq<nat>>
    requires OptionalSymbol(doc, id)
  {
    if id == 0 then None else Some(doc.literals[id - 1].bytes)
  }

  predicate IsLeaf(node: Node) {
    node.Boolean? || node.Compare? || node.Evidence?
  }

  /** The payload of a node that the structural phases of the validator accept. */
  predicate LeafOk(doc: Document, node: Node) {
    match node
    case Boolean(value) => IsValue(doc, value)
    case Compare(_, op, operand, list) =>
      && COMPARE_EQUAL <= op <= COMPARE_DEFINED
      && (if op == COMPARE_IN then forall k :: 0 <= k < |list| ==> IsValue(doc, list[k])
          else operand == 0 || IsValue(doc, operand))
    case Evidence(_, _, subject, scope, timing) =>
      OptionalSymbol(doc, subject) && OptionalSymbol(doc, scope) && OptionalSymbol(doc, timing)
    case _ => true
  }

  predicate NodeClean(doc: Document, u: NodeId) {
    && Readable(doc, u)
    && LeafOk(doc, doc.nodes[u - 1])
    && (doc.nodes[u - 1].Group? ==> |doc.nodes[u - 1].children| > 0)
    && forall k :: 0 <= k < |Out(doc, u)| ==> Readable(doc, Out(doc, u)[k])
  }

  /** A document without diagnostics: every row is readable, edges and values are
      in range, groups have children, and the child graph has no cycle. */
  ghost predicate Clean(doc: Document) {
    Acyclic(doc) && forall u :: 1 <= u <= |doc.nodes| ==> NodeClean(doc, u)
  }

  ghost function Rank(doc: Document, u: NodeId): nat
    requires Clean(doc) && 1 <= u <= |doc.nodes|
  {
    RankOf(doc)[u - 1]
  }

  lemma TargetsDescend(doc: Document, u: NodeId, k: nat)
    requires Clean(doc) && 1 <= u <= |doc.nodes| && k < |Out(doc, u)|
    ensures Readable(doc, Out(doc, u)[k]) && Rank(doc, Out(doc, u)[k]) < Rank(doc, u)
  {
    assert NodeClean(doc, u);
    assert Edge(doc, u, Out(doc, u)[k]);
  }

  /** A leaf with its literals spelled out. */
  function AtomOf(doc: Document, node: Node): Atom
    requires IsLeaf(node) && LeafOk(doc, node)
  {
    match node
    case Boolean(value) => BooleanAtom(LiteralAt(doc, value))
    case Compare(field, op, operand, list) =>
      if op == COMPARE_IN then
        CompareAtom(field, op, None, seq(|list|, k requires 0 <= k < |list| => LiteralAt(doc, list[k])))
      else
        CompareAtom(field, op, if operand == 0 then None else Some(LiteralAt(doc, operand)), [])
    case Evidence(kind, state, subject, scope, timing) =>
      EvidenceAtom(kind, state, SymbolAt(doc, subject), SymbolAt(doc, scope), SymbolAt(doc, timing))
  }

  /** The recursive meaning of a node. */
  ghost function Meaning(doc: Document, truth: Atom -> Cell, u: NodeId): Cell
    requires Clean(doc) && 1 <= u <= |doc.nodes|
    decreases Rank(doc, u)
  {
    assert NodeClean(doc, u);
    var node := doc.nodes[u - 1];
    if IsLeaf(node) then truth(AtomOf(doc, node))
    else
      var cells := seq(|Out(doc, u)|, k requires 0 <= k < |Out(doc, u)| =>
                       TargetsDescend(doc, u, k); Meaning(doc, truth, Out(doc, u)[k]));
      if node.Group? then GroupOf(node.conjunction, cells) else Not(cells[0])
  }

  ghost predicate InRange(doc: Document, ids: seq<NodeId>) {
    forall k :: 0 <= k < |ids| ==> 1 <= ids[k] <= |doc.nodes|
  }

  ghost function MeaningOf(doc: Document, truth: Atom -> Cell, ids: seq<NodeId>): seq<Cell>
    requires Clean(doc) && InRange(doc, ids)
  {
    seq(|ids|, k requires 0 <= k < |ids| => Meaning(doc, truth, ids[k]))
  }

  lemma MeaningUnfold(doc: Document, truth: Atom -> Cell, u: NodeId)
    requires Clean(doc) && 1 <= u <= |doc.nodes|
    ensures NodeClean(doc, u) && InRange(doc, Out(doc, u))
    ensures doc.nodes[u - 1].Group? ==>
              Meaning(doc, truth, u) == GroupOf(doc.nodes[u - 1].conjunction, MeaningOf(doc, truth, Out(doc, u)))
    ensures doc.nodes[u - 1].Negation? ==> Meaning(doc, truth, u) == Not(Meaning(doc, truth, doc.nodes[u - 1].child))
  {
    assert NodeClean(doc, u);
    var cells := seq(|Out(doc, u)|, k requires 0 <= k < |Out(doc, u)| =>
                     TargetsDescend(doc, u, k); Meaning(doc, truth, Out(doc, u)[k]));
    assert MeaningOf(doc, truth, Out(doc, u)) == cells;
  }

  lemma MeaningLeaf(doc: Document, truth: Atom -> Cell, u: NodeId)
    requires Clean(doc) && 1 <= u <= |doc.nodes| && IsLeaf(doc.nodes[u - 1])
    ensures LeafOk(doc, doc.nodes[u - 1]) && Meaning(doc, truth, u) == truth(AtomOf(doc, doc.nodes[u - 1]))
  {
    assert NodeClean(doc, u);
  }

  /** A child that merges into a group of the given kind. */
  predicate Merges(doc: Document, conjunction: bool, u: NodeId) {
    1 <= u <= |doc.nodes| && doc.nodes[u - 1].Group? && doc.nodes[u - 1].conjunction == conjunction
  }

  /** The first n children of group u, with children of its own kind replaced by
      their own flattened children. */
  ghost function Flattened(doc: Document, u: NodeId, n: nat): seq<NodeId>
    requires Clean(doc) && 1 <= u <= |doc.nodes| && doc.nodes[u - 1].Group? && n <= |Out(doc, u)|
    decreases Rank(doc, u), n
  {
    if n == 0 then []
    else Flattened(doc, u, n - 1) + Piece(doc, u, n - 1)
  }

  /** What child k contributes to the flattened operands of group u. */
  ghost function Piece(doc: Document, u: NodeId, k: nat): seq<NodeId>
    requires Clean(doc) && 1 <= u <= |doc.nodes| && doc.nodes[u - 1].Group? && k < |Out(doc, u)|
    decreases Rank(doc, u), k
  {
    TargetsDescend(doc, u, k);
    var child := Out(doc, u)[k];
    if Merges(doc, doc.nodes[u - 1].conjunction, child) then Flattened(doc, child, |Out(doc, child)|) else [child]
  }

  ghost function Flat(doc: Document, u: NodeId): seq<NodeId>
    requires Clean(doc) && 1 <= u <= |doc.nodes| && doc.nodes[u - 1].Group?
  {
    Flattened(doc, u, |Out(doc, u)|)
  }

  /** Flattened operands lie below the group and never merge into it. */
  lemma {:induction false} FlattenedBelow(doc: Document, u: NodeId, n: nat)
    requires Clean(doc) && 1 <= u <= |doc.nodes| && doc.nodes[u - 1].Group? && n <= |Out(doc, u)|
    ensures forall k :: 0 <= k < |Flattened(doc, u, n)| ==>
              && 1 <= Flattened(doc, u, n)[k] <= |doc.nodes|
              && Rank(doc, Flattened(doc, u, n)[k]) < Rank(doc, u)
              && !Merges(doc, doc.nodes[u - 1].conjunction, Flattened(doc, u, n)[k])
    ensures |Flattened(doc, u, n)| >= n
    decreases Rank(doc, u), n
  {
    hide Rank;
    if n > 0 {
      FlattenedBelow(doc, u, n - 1);
      TargetsDescend(doc, u, n - 1);
      var child := Out(doc, u)[n - 1];
      if Merges(doc, doc.nodes[u - 1].conjunction, child) {
        assert NodeClean(doc, child);
        FlattenedBelow(doc, child, |Out(doc, child)|);
      }
    }
  }

  lemma MeaningConcat(doc: Document, truth: Atom -> Cell, xs: seq<NodeId>, ys: seq<NodeId>)
    requires Clean(doc) && InRange(doc, xs) && InRange(doc, ys)
    ensures InRange(doc, xs + ys)
    ensures MeaningOf(doc, truth, xs + ys) == MeaningOf(doc, truth, xs) + MeaningOf(doc, truth, ys)
  {
  }

  lemma FlattenedInRange(doc: Document, u: NodeId, n: nat)
    requires Clean(doc) && 1 <= u <= |doc.nodes| && doc.nodes[u - 1].Group? && n <= |Out(doc, u)|
    ensures InRange(doc, Flattened(doc, u, n))
  {
    FlattenedBelow(doc, u, n);
  }

  /** Flattening preserves the meaning of a group. */
  lemma {:induction false} FlatteningPreservesMeaning(doc: Document, truth: Atom -> Cell, u: NodeId, n: nat)
    requires Clean(doc) && 1 <= u <= |doc.nodes| && doc.nodes[u - 1].Group? && n <= |Out(doc, u)|
    ensures InRange(doc, Flattened(doc, u, n)) && InRange(doc, Out(doc, u)[..n])
    ensures GroupOf(doc.nodes[u - 1].conjunction, MeaningOf(doc, truth, Flattened(doc, u, n))) ==
            GroupOf(doc.nodes[u - 1].conjunction, MeaningOf(doc, truth, Out(doc, u)[..n]))
    decreases Rank(doc, u), n
  {
    hide Rank, GroupOf, Meaning;
    MeaningUnfold(doc, truth, u);
    FlattenedInRange(doc, u, n);
    var kind, targets := doc.nodes[u - 1].conjunction, Out(doc, u);
    if n == 0 {
      assert targets[..0] == Flattened(doc, u, 0);
    } else {
      var child := targets[n - 1];
      FlatteningPreservesMeaning(doc, truth, u, n - 1);
      PieceMeaning(doc, truth, u, n - 1);
      var before, piece := Flattened(doc, u, n - 1), Piece(doc, u, n - 1);
      MeaningConcat(doc, truth, before, piece);
      GroupConcat(kind, MeaningOf(doc, truth, before), MeaningOf(doc, truth, piece));
      MeaningConcat(doc, truth, targets[..n - 1], [child]);
      GroupConcat(kind, MeaningOf(doc, truth, targets[..n - 1]), MeaningOf(doc, truth, [child]));
      assert targets[..n] == targets[..n - 1] + [child];
    }
  }

  lemma {:induction false} PieceMeaning(doc: Document, truth: Atom -> Cell, u: NodeId, k: nat)
    requires Clean(doc) && 1 <= u <= |doc.nodes| && doc.nodes[u - 1].Group? && k < |Out(doc, u)|
    ensures InRange(doc, Piece(doc, u, k)) && InRange(doc, [Out(doc, u)[k]])
    ensures GroupOf(doc.nodes[u - 1].conjunction, MeaningOf(doc, truth, Piece(doc, u, k))) ==
            GroupOf(doc.nodes[u - 1].conjunction, MeaningOf(doc, truth, [Out(doc, u)[k]]))
    decreases Rank(doc, u), k
  {
    hide Rank, GroupOf, Meaning;
    TargetsDescend(doc, u, k);
    var kind, child := doc.nodes[u - 1].conjunction, Out(doc, u)[k];
    if Merges(doc, kind, child) {
      var all := Out(doc, child);
      FlatteningPreservesMeaning(doc, truth, child, |all|);
      assert all[..|all|] == all;
      MeaningUnfold(doc, truth, child);
      GroupSingle(kind, Meaning(doc, truth, child));
      assert MeaningOf(doc, truth, [child]) == [Meaning(doc, truth, child)];
    }
  }
}
