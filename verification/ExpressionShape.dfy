/** The table that a SQL expression emits is whole: every row hangs below its root. */
module ExpressionShapes {
  import opened SemanticTables
  import opened SqlGrammar
  import opened SqlMeaning
  import opened SqlAcceptance
  import opened TableShapes

  // Only the root of the new rows is loose.

  lemma TieLeaf(nodes: seq<Node>, node: Node, ids: set<nat>)
    requires LooseWithin(nodes, ids) && Children(node) == []
    ensures LooseWithin(Append(nodes, node).nodes, ids + {Append(nodes, node).id})
  {
    hide LooseWithin;
    assert ids + (set c | c in Children(node)) == ids;
    AppendTies(nodes, node, ids);
  }

  lemma TieNot(e: Emitted, ids: set<nat>)
    requires LooseWithin(e.nodes, ids + {e.id})
    ensures LooseWithin(e.nodes + [Negation(e.id)], ids + {|e.nodes| + 1})
  {
    hide LooseWithin;
    assert ids + {e.id} == ids + set c | c in Children(Negation(e.id));
    AppendTies(e.nodes, Negation(e.id), ids);
  }

  lemma TiePair(nodes: seq<Node>, conjunction: bool, left: nat, right: nat, ids: set<nat>)
    requires LooseWithin(nodes, ids + {left} + {right})
    ensures LooseWithin(nodes + [Group(conjunction, [left, right])], ids + {|nodes| + 1})
  {
    hide LooseWithin;
    var node := Group(conjunction, [left, right]);
    assert ids + {left} + {right} == ids + set c | c in Children(node);
    AppendTies(nodes, node, ids);
  }

  lemma {:induction false} OrsTie(t: Ors, nodes: seq<Node>, ids: set<nat>)
    requires LooseWithin(nodes, ids)
    ensures LooseWithin(EmitOrs(t, nodes).nodes, ids + {EmitOrs(t, nodes).id})
    decreases t, 0
  {
    hide LooseWithin;
    AndsTie(t.term, nodes, ids);
    if t.MoreOr? {
      OrsRestTie(t.rest, EmitAnds(t.term, nodes), ids);
    }
  }

  lemma {:induction false} OrsRestTie(t: Ors, left: Emitted, ids: set<nat>)
    requires LooseWithin(left.nodes, ids + {left.id})
    ensures LooseWithin(EmitOrsRest(t, left).nodes, ids + {EmitOrsRest(t, left).id})
    decreases t, 0
  {
    hide LooseWithin;
    var e := EmitAnds(t.term, left.nodes);
    AndsTie(t.term, left.nodes, ids + {left.id});
    TiePair(e.nodes, false, left.id, e.id, ids);
    if t.MoreOr? {
      OrsRestTie(t.rest, Append(e.nodes, Group(false, [left.id, e.id])), ids);
    }
  }

  lemma {:induction false} AndsTie(t: Ands, nodes: seq<Node>, ids: set<nat>)
    requires LooseWithin(nodes, ids)
    ensures LooseWithin(EmitAnds(t, nodes).nodes, ids + {EmitAnds(t, nodes).id})
    decreases t, 0
  {
    hide LooseWithin;
    NotsTie(t.term, nodes, ids);
    if t.MoreAnd? {
      AndsRestTie(t.rest, EmitNots(t.term, nodes), ids);
    }
  }

  lemma {:induction false} AndsRestTie(t: Ands, left: Emitted, ids: set<nat>)
    requires LooseWithin(left.nodes, ids + {left.id})
    ensures LooseWithin(EmitAndsRest(t, left).nodes, ids + {EmitAndsRest(t, left).id})
    decreases t, 0
  {
    hide LooseWithin;
    var e := EmitNots(t.term, left.nodes);
    NotsTie(t.term, left.nodes, ids + {left.id});
    TiePair(e.nodes, true, left.id, e.id, ids);
    if t.MoreAnd? {
      AndsRestTie(t.rest, Append(e.nodes, Group(true, [left.id, e.id])), ids);
    }
  }

  lemma {:induction false} NotsTie(t: Nots, nodes: seq<Node>, ids: set<nat>)
    requires LooseWithin(nodes, ids)
    ensures LooseWithin(EmitNots(t, nodes).nodes, ids + {EmitNots(t, nodes).id})
    decreases t, 0
  {
    hide LooseWithin;
    if t.Negated? {
      NotsTie(t.inner, nodes, ids);
      TieNot(EmitNots(t.inner, nodes), ids);
    } else {
      TestTie(t.test, nodes, ids);
    }
  }

  lemma {:induction false} TestTie(t: Test, nodes: seq<Node>, ids: set<nat>)
    requires LooseWithin(nodes, ids)
    ensures LooseWithin(EmitTest(t, nodes).nodes, ids + {EmitTest(t, nodes).id})
    decreases t, 0
  {
    hide LooseWithin;
    if t.Bare? && t.primary.Paren? {
      OrsTie(t.primary.inner, nodes, ids);
    } else {
      TieLeaf(nodes, LeafOf(t), ids);
      if t.NullTest? && !t.negated {
        TieNot(Append(nodes, LeafOf(t)), ids);
      }
    }
  }

  /** The table of an expression is whole. */
  lemma ExpressionIsWhole(t: Ors)
    ensures Whole(EmitOrs(t, []).nodes, EmitOrs(t, []).id)
  {
    hide EmitOrs;
    OrsExtends(t, []);
    OrsTie(t, [], {});
    assert {} + {EmitOrs(t, []).id} == {EmitOrs(t, []).id};
  }
}
