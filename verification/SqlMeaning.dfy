/** The three-valued truth of SQL expressions, the rows their lowering appends, and the
    proof that the rows mean what the expression means. */
module SqlMeaning {
  import opened Truth
  import opened SemanticTables
  import opened SemanticBuilders
  import opened SqlGrammar

  // ----- SQL's three truth values -----

  datatype Tri = True | False | Unknown

  /** Conjunction by its table in section 8.12 of SQL-92. */
  function TriAnd(a: Tri, b: Tri): Tri {
    if a == False || b == False then False else if a == True && b == True then True else Unknown
  }

  function TriOr(a: Tri, b: Tri): Tri {
    if a == True || b == True then True else if a == False && b == False then False else Unknown
  }

  function TriNot(a: Tri): Tri {
    match a
    case True => False
    case False => True
    case Unknown => Unknown
  }

  function Of(holds: bool): Tri {
    if holds then True else False
  }

  /** A comparison with null is unknown. */
  function Comparison(op: Operation, facts: Facts, field: nat, literal: Literal, reversed: bool): Tri {
    if field !in facts then Unknown
    else if reversed then Of(Holds(op, literal, facts[field]))
    else Of(Holds(op, facts[field], literal))
  }

  /** Membership is the disjunction of the equalities. */
  function Membership(facts: Facts, field: nat, list: seq<Value>): Tri {
    if list == [] then False
    else TriOr(Comparison(Equal, facts, field, LiteralOf(list[0]), false), Membership(facts, field, list[1..]))
  }

  function OrsTruth(t: Ors, facts: Facts): Tri {
    match t
    case LastOr(term) => AndsTruth(term, facts)
    case MoreOr(term, rest) => TriOr(AndsTruth(term, facts), OrsTruth(rest, facts))
  }

  function AndsTruth(t: Ands, facts: Facts): Tri {
    match t
    case LastAnd(term) => NotsTruth(term, facts)
    case MoreAnd(term, rest) => TriAnd(NotsTruth(term, facts), AndsTruth(rest, facts))
  }

  function NotsTruth(t: Nots, facts: Facts): Tri {
    match t
    case Negated(inner) => TriNot(NotsTruth(inner, facts))
    case Plain(test) => TestTruth(test, facts)
  }

  function TestTruth(t: Test, facts: Facts): Tri {
    match t
    case Bare(primary) => PrimaryTruth(primary, facts)
    case NullTest(field, negated) => Of((field in facts) == negated)
    case Member(field, first, rest) => Membership(facts, field, [first] + rest)
    case Compared(field, op, value, reversed) => Comparison(op, facts, field, LiteralOf(value), reversed)
  }

  /** A boolean column is its value; a boolean literal is itself. */
  function PrimaryTruth(t: Primary, facts: Facts): Tri {
    match t
    case Paren(inner) => OrsTruth(inner, facts)
    case FieldRef(field) => if field !in facts then Unknown else Of(facts[field] == Bool(true))
    case Scalar(value) => Of(LiteralOf(value) == Bool(true))
    case NullValue => Unknown
  }

  // ----- typing and nesting -----

  predicate OrsTyped(kinds: seq<ValueKind>, t: Ors) {
    AndsTyped(kinds, t.term) && (t.MoreOr? ==> OrsTyped(kinds, t.rest))
  }

  predicate AndsTyped(kinds: seq<ValueKind>, t: Ands) {
    NotsTyped(kinds, t.term) && (t.MoreAnd? ==> AndsTyped(kinds, t.rest))
  }

  predicate NotsTyped(kinds: seq<ValueKind>, t: Nots) {
    match t
    case Negated(inner) => NotsTyped(kinds, inner)
    case Plain(test) => TestTyped(kinds, test)
  }

  predicate TestTyped(kinds: seq<ValueKind>, t: Test) {
    match t
    case Bare(Paren(inner)) => OrsTyped(kinds, inner)
    case Bare(FieldRef(field)) => FieldOk(kinds, field) && kinds[field - 1] == BooleanKind
    case Bare(Scalar(value)) => LiteralOf(value).Bool?
    case Bare(NullValue) => false
    case _ => WellTyped(kinds, 0, LeafOf(t))
  }

  /** Parentheses and negations nest no deeper than the limit allows. */
  predicate OrsNested(t: Ors, nesting: nat, bound: nat) {
    AndsNested(t.term, nesting, bound) && (t.MoreOr? ==> OrsNested(t.rest, nesting, bound))
  }

  predicate AndsNested(t: Ands, nesting: nat, bound: nat) {
    NotsNested(t.term, nesting, bound) && (t.MoreAnd? ==> AndsNested(t.rest, nesting, bound))
  }

  predicate NotsNested(t: Nots, nesting: nat, bound: nat) {
    match t
    case Negated(inner) => nesting + 1 <= bound && NotsNested(inner, nesting + 1, bound)
    case Plain(test) => test.Bare? ==> PrimaryNested(test.primary, nesting, bound)
  }

  predicate PrimaryNested(t: Primary, nesting: nat, bound: nat) {
    t.Paren? ==> nesting + 1 <= bound && OrsNested(t.inner, nesting + 1, bound)
  }

  // ----- the rows that lowering appends -----

  /** Swap the sides of a comparison. */
  function Reverse(op: Operation): Operation {
    match op
    case Less => Greater
    case LessEqual => GreaterEqual
    case Greater => Less
    case GreaterEqual => LessEqual
    case _ => op
  }

  lemma ReverseSwaps(op: Operation, a: Literal, b: Literal)
    ensures Holds(Reverse(op), a, b) <==> Holds(op, b, a)
  {
  }

  function Literals(list: seq<Value>): seq<Literal> {
    seq(|list|, k requires 0 <= k < |list| => LiteralOf(list[k]))
  }

  lemma NoLiterals()
    ensures Literals([]) == []
  {
  }

  lemma LiteralsSnoc(list: seq<Value>, value: Value)
    ensures Literals(list + [value]) == Literals(list) + [LiteralOf(value)]
  {
    hide LiteralOf;
  }

  /** The leaf row of a test that is not parenthesised. */
  function LeafOf(t: Test): Node {
    match t
    case Bare(Paren(_)) => Boolean(false)
    case Bare(FieldRef(field)) => Compare(field, Equal, Bool(true))
    case Bare(Scalar(value)) => Boolean(LiteralOf(value) == Bool(true))
    case Bare(NullValue) => Boolean(false)
    case NullTest(field, _) => Defined(field)
    case Member(field, first, rest) => In(field, Literals([first] + rest))
    case Compared(field, op, value, reversed) => Compare(field, if reversed then Reverse(op) else op, LiteralOf(value))
  }

  datatype Emitted = Emitted(nodes: seq<Node>, id: nat)

  function Append(nodes: seq<Node>, node: Node): Emitted {
    Emitted(nodes + [node], |nodes| + 1)
  }

  function EmitOrs(t: Ors, nodes: seq<Node>): Emitted
    decreases t, 0
  {
    var e := EmitAnds(t.term, nodes);
    if t.LastOr? then e else EmitOrsRest(t.rest, e)
  }

  /** Further terms join what stands to their left. */
  function EmitOrsRest(t: Ors, left: Emitted): Emitted
    decreases t, 0
  {
    var e := EmitAnds(t.term, left.nodes);
    var joined := Append(e.nodes, Group(false, [left.id, e.id]));
    if t.LastOr? then joined else EmitOrsRest(t.rest, joined)
  }

  function EmitAnds(t: Ands, nodes: seq<Node>): Emitted
    decreases t, 0
  {
    var e := EmitNots(t.term, nodes);
    if t.LastAnd? then e else EmitAndsRest(t.rest, e)
  }

  function EmitAndsRest(t: Ands, left: Emitted): Emitted
    decreases t, 0
  {
    var e := EmitNots(t.term, left.nodes);
    var joined := Append(e.nodes, Group(true, [left.id, e.id]));
    if t.LastAnd? then joined else EmitAndsRest(t.rest, joined)
  }

  function EmitNots(t: Nots, nodes: seq<Node>): Emitted
    decreases t, 0
  {
    match t
    case Negated(inner) => var e := EmitNots(inner, nodes); Append(e.nodes, Negation(e.id))
    case Plain(test) => EmitTest(test, nodes)
  }

  function EmitTest(t: Test, nodes: seq<Node>): Emitted
    decreases t, 0
  {
    match t
    case Bare(Paren(inner)) => EmitOrs(inner, nodes)
    case NullTest(_, negated) =>
      var e := Append(nodes, LeafOf(t));
      if negated then e else Append(e.nodes, Negation(e.id))
    case _ => Append(nodes, LeafOf(t))
  }

  // ----- lowering preserves meaning -----

  /** Truth values as planes: unknown decides neither way. */
  function Planes(tri: Tri): Cell {
    match tri
    case True => Decided(true)
    case False => Decided(false)
    case Unknown => UNDECIDED
  }

  lemma PlanesJoin(conjunction: bool, a: Tri, b: Tri)
    ensures Join(conjunction, Planes(a), Planes(b)) == Planes(if conjunction then TriAnd(a, b) else TriOr(a, b))
  {
  }

  lemma PlanesNot(a: Tri)
    ensures Not(Planes(a)) == Planes(TriNot(a))
  {
  }

  /** Rows appended after `nodes` whose last value has the truth `tri` on a row of facts. */
  ghost predicate Lowered(nodes: seq<Node>, e: Emitted, facts: Facts, tri: Tri) {
    && nodes <= e.nodes && Rooted(e.nodes) && 1 <= e.id <= |e.nodes|
    && Meaning(e.nodes, e.id, facts) == Planes(tri)
  }

  lemma LowersLeaf(nodes: seq<Node>, node: Node, facts: Facts, tri: Tri)
    requires Rooted(nodes) && Children(node) == [] && Meaning([node], 1, facts) == Planes(tri)
    ensures Lowered(nodes, Append(nodes, node), facts, tri)
  {
    RootedSnoc(nodes, node);
  }

  lemma LowersNot(nodes: seq<Node>, e: Emitted, facts: Facts, tri: Tri)
    requires Lowered(nodes, e, facts, tri)
    ensures Lowered(nodes, Append(e.nodes, Negation(e.id)), facts, TriNot(tri))
  {
    hide Meaning, Rooted;
    NegationMeaning(e.nodes, e.id, facts);
    PlanesNot(tri);
  }

  lemma LowersJoin(nodes: seq<Node>, left: Emitted, e: Emitted, conjunction: bool, facts: Facts, a: Tri, b: Tri)
    requires Lowered(nodes, left, facts, a) && Lowered(left.nodes, e, facts, b)
    ensures Lowered(nodes, Append(e.nodes, Group(conjunction, [left.id, e.id])), facts,
                    if conjunction then TriAnd(a, b) else TriOr(a, b))
  {
    hide Meaning, Rooted;
    MeaningStable(left.nodes, e.nodes, left.id, facts);
    PairMeaning(e.nodes, conjunction, left.id, e.id, facts);
    PlanesJoin(conjunction, a, b);
  }

  lemma {:induction false} OrsLowered(kinds: seq<ValueKind>, t: Ors, nodes: seq<Node>, facts: Facts)
    requires OrsTyped(kinds, t) && Rooted(nodes)
    ensures Lowered(nodes, EmitOrs(t, nodes), facts, OrsTruth(t, facts))
    decreases t, 0
  {
    AndsLowered(kinds, t.term, nodes, facts);
    if t.MoreOr? {
      OrsRestLowered(kinds, t.rest, nodes, EmitAnds(t.term, nodes), facts, AndsTruth(t.term, facts));
    }
  }

  lemma {:induction false} OrsRestLowered(kinds: seq<ValueKind>, t: Ors, nodes: seq<Node>, left: Emitted, facts: Facts,
                                          tri: Tri)
    requires OrsTyped(kinds, t) && Lowered(nodes, left, facts, tri)
    ensures Lowered(nodes, EmitOrsRest(t, left), facts, TriOr(tri, OrsTruth(t, facts)))
    decreases t, 0
  {
    hide Meaning, Rooted;
    var e, truth := EmitAnds(t.term, left.nodes), AndsTruth(t.term, facts);
    AndsLowered(kinds, t.term, left.nodes, facts);
    LowersJoin(nodes, left, e, false, facts, tri, truth);
    if t.MoreOr? {
      OrsRestLowered(kinds, t.rest, nodes, Append(e.nodes, Group(false, [left.id, e.id])), facts, TriOr(tri, truth));
    }
  }

  lemma {:induction false} AndsLowered(kinds: seq<ValueKind>, t: Ands, nodes: seq<Node>, facts: Facts)
    requires AndsTyped(kinds, t) && Rooted(nodes)
    ensures Lowered(nodes, EmitAnds(t, nodes), facts, AndsTruth(t, facts))
    decreases t, 0
  {
    NotsLowered(kinds, t.term, nodes, facts);
    if t.MoreAnd? {
      AndsRestLowered(kinds, t.rest, nodes, EmitNots(t.term, nodes), facts, NotsTruth(t.term, facts));
    }
  }

  lemma {:induction false} AndsRestLowered(kinds: seq<ValueKind>, t: Ands, nodes: seq<Node>, left: Emitted,
                                           facts: Facts, tri: Tri)
    requires AndsTyped(kinds, t) && Lowered(nodes, left, facts, tri)
    ensures Lowered(nodes, EmitAndsRest(t, left), facts, TriAnd(tri, AndsTruth(t, facts)))
    decreases t, 0
  {
    hide Meaning, Rooted;
    var e, truth := EmitNots(t.term, left.nodes), NotsTruth(t.term, facts);
    NotsLowered(kinds, t.term, left.nodes, facts);
    LowersJoin(nodes, left, e, true, facts, tri, truth);
    if t.MoreAnd? {
      AndsRestLowered(kinds, t.rest, nodes, Append(e.nodes, Group(true, [left.id, e.id])), facts, TriAnd(tri, truth));
    }
  }

  lemma {:induction false} NotsLowered(kinds: seq<ValueKind>, t: Nots, nodes: seq<Node>, facts: Facts)
    requires NotsTyped(kinds, t) && Rooted(nodes)
    ensures Lowered(nodes, EmitNots(t, nodes), facts, NotsTruth(t, facts))
    decreases t, 0
  {
    hide Lowered;
    if t.Negated? {
      NotsLowered(kinds, t.inner, nodes, facts);
      LowersNot(nodes, EmitNots(t.inner, nodes), facts, NotsTruth(t.inner, facts));
    } else {
      TestLowered(kinds, t.test, nodes, facts);
    }
  }

  lemma {:induction false} TestLowered(kinds: seq<ValueKind>, t: Test, nodes: seq<Node>, facts: Facts)
    requires TestTyped(kinds, t) && Rooted(nodes)
    ensures Lowered(nodes, EmitTest(t, nodes), facts, TestTruth(t, facts))
    decreases t, 0
  {
    hide Lowered;
    if t.Bare? && t.primary.Paren? {
      OrsLowered(kinds, t.primary.inner, nodes, facts);
    } else if t.NullTest? {
      LowersLeaf(nodes, LeafOf(t), facts, Of(t.field in facts));
      if !t.negated {
        LowersNot(nodes, Append(nodes, LeafOf(t)), facts, Of(t.field in facts));
      }
    } else {
      LeafTruth(kinds, t, facts);
      LowersLeaf(nodes, LeafOf(t), facts, TestTruth(t, facts));
    }
  }

  lemma LeafTruth(kinds: seq<ValueKind>, t: Test, facts: Facts)
    requires TestTyped(kinds, t) && !t.NullTest? && !(t.Bare? && t.primary.Paren?)
    ensures Children(LeafOf(t)) == [] && Meaning([LeafOf(t)], 1, facts) == Planes(TestTruth(t, facts))
  {
    if t.Member? {
      MembershipIsElement(facts, t.field, [t.first] + t.rest);
    } else if t.Compared? && t.reversed && t.field in facts {
      ReverseSwaps(t.op, facts[t.field], LiteralOf(t.value));
    }
  }

  lemma {:induction false} MembershipIsElement(facts: Facts, field: nat, list: seq<Value>)
    ensures list != [] ==>
              Membership(facts, field, list) == if field !in facts then Unknown else Of(facts[field] in Literals(list))
    decreases |list|
  {
    if |list| > 1 {
      MembershipIsElement(facts, field, list[1..]);
      var all := Literals(list);
      assert all == [LiteralOf(list[0])] + Literals(list[1..]);
    } else if list != [] {
      assert Literals(list) == [LiteralOf(list[0])];
      assert Membership(facts, field, list[1..]) == False;
    }
  }
}
