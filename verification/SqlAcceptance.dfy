/** Which SQL sources the expression parser accepts, said at every position of the parse:
    the reference parser finds a tree, the tree is typed and not nested too deeply, and
    the rows it lowers to fit the limits. */
module SqlAcceptance {
  import opened SemanticTables
  import opened SemanticBuilders
  import opened SqlGrammar
  import opened SqlMeaning

  datatype Env = Env(words: seq<Word>, kinds: seq<ValueKind>, limits: Limits, base: nat)

  ghost predicate FitsIn(env: Env, nodes: seq<Node>) {
    Fits(env.limits, env.base, nodes)
  }

  ghost predicate OrsOk(env: Env, p: nat, nesting: nat, nodes: seq<Node>) {
    var r := ParseOrs(env.words, p);
    && r.Got? && OrsTyped(env.kinds, r.tree) && OrsNested(r.tree, nesting, env.limits.maxDepth)
    && FitsIn(env, EmitOrs(r.tree, nodes).nodes)
  }

  ghost predicate AndsOk(env: Env, p: nat, nesting: nat, nodes: seq<Node>) {
    var r := ParseAnds(env.words, p);
    && r.Got? && AndsTyped(env.kinds, r.tree) && AndsNested(r.tree, nesting, env.limits.maxDepth)
    && FitsIn(env, EmitAnds(r.tree, nodes).nodes)
  }

  ghost predicate NotsOk(env: Env, p: nat, nesting: nat, nodes: seq<Node>) {
    var r := ParseNots(env.words, p);
    && r.Got? && NotsTyped(env.kinds, r.tree) && NotsNested(r.tree, nesting, env.limits.maxDepth)
    && FitsIn(env, EmitNots(r.tree, nodes).nodes)
  }

  predicate TestNested(t: Test, nesting: nat, bound: nat) {
    t.Bare? ==> PrimaryNested(t.primary, nesting, bound)
  }

  ghost predicate TestOk(env: Env, p: nat, nesting: nat, nodes: seq<Node>) {
    var r := ParseTest(env.words, p);
    && r.Got? && TestTyped(env.kinds, r.tree) && TestNested(r.tree, nesting, env.limits.maxDepth)
    && FitsIn(env, EmitTest(r.tree, nodes).nodes)
  }

  /** A primary only appends rows inside parentheses. */
  ghost predicate PrimaryOk(env: Env, p: nat, nesting: nat, nodes: seq<Node>) {
    var r := ParsePrimary(env.words, p);
    && r.Got? && PrimaryNested(r.tree, nesting, env.limits.maxDepth)
    && (r.tree.Paren? ==> OrsTyped(env.kinds, r.tree.inner) && FitsIn(env, EmitOrs(r.tree.inner, nodes).nodes))
  }

  ghost function PrimaryNodes(t: Primary, nodes: seq<Node>): seq<Node> {
    if t.Paren? then EmitOrs(t.inner, nodes).nodes else nodes
  }

  // ----- lowering only appends -----

  predicate Extends(nodes: seq<Node>, e: Emitted) {
    nodes <= e.nodes && 1 <= e.id <= |e.nodes|
  }

  lemma {:induction false} OrsExtends(t: Ors, nodes: seq<Node>)
    ensures Extends(nodes, EmitOrs(t, nodes))
    decreases t, 0
  {
    AndsExtends(t.term, nodes);
    if t.MoreOr? {
      OrsRestExtends(t.rest, EmitAnds(t.term, nodes));
    }
  }

  lemma {:induction false} OrsRestExtends(t: Ors, left: Emitted)
    ensures Extends(left.nodes, EmitOrsRest(t, left))
    decreases t, 0
  {
    var e := EmitAnds(t.term, left.nodes);
    AndsExtends(t.term, left.nodes);
    if t.MoreOr? {
      OrsRestExtends(t.rest, Append(e.nodes, Group(false, [left.id, e.id])));
    }
  }

  lemma {:induction false} AndsExtends(t: Ands, nodes: seq<Node>)
    ensures Extends(nodes, EmitAnds(t, nodes))
    decreases t, 0
  {
    NotsExtends(t.term, nodes);
    if t.MoreAnd? {
      AndsRestExtends(t.rest, EmitNots(t.term, nodes));
    }
  }

  lemma {:induction false} AndsRestExtends(t: Ands, left: Emitted)
    ensures Extends(left.nodes, EmitAndsRest(t, left))
    decreases t, 0
  {
    var e := EmitNots(t.term, left.nodes);
    NotsExtends(t.term, left.nodes);
    if t.MoreAnd? {
      AndsRestExtends(t.rest, Append(e.nodes, Group(true, [left.id, e.id])));
    }
  }

  lemma {:induction false} NotsExtends(t: Nots, nodes: seq<Node>)
    ensures Extends(nodes, EmitNots(t, nodes))
    decreases t, 0
  {
    if t.Negated? {
      NotsExtends(t.inner, nodes);
    } else {
      TestExtends(t.test, nodes);
    }
  }

  lemma {:induction false} TestExtends(t: Test, nodes: seq<Node>)
    ensures Extends(nodes, EmitTest(t, nodes))
    decreases t, 0
  {
    if t.Bare? && t.primary.Paren? {
      OrsExtends(t.primary.inner, nodes);
    }
  }

  lemma FitsBack(env: Env, nodes: seq<Node>, more: seq<Node>)
    requires nodes <= more && FitsIn(env, more)
    ensures FitsIn(env, nodes)
  {
    FitsPrefix(env.limits, env.base, nodes, more);
  }

  // ----- the loops -----

  /** The further disjuncts from p on can be read and lowered. */
  ghost predicate OrsRestOk(env: Env, p: nat, nesting: nat, left: Emitted) {
    if WordAt(env.words, p) != OrWord then FitsIn(env, left.nodes)
    else
      var r := ParseOrs(env.words, p + 1);
      && r.Got? && OrsTyped(env.kinds, r.tree) && OrsNested(r.tree, nesting, env.limits.maxDepth)
      && FitsIn(env, EmitOrsRest(r.tree, left).nodes)
  }

  datatype Stop = Stop(next: nat, e: Emitted)

  ghost function OrsStop(env: Env, p: nat, left: Emitted): Stop {
    var r := ParseOrs(env.words, p + 1);
    if WordAt(env.words, p) != OrWord || r.Fail? then Stop(p, left) else Stop(r.next, EmitOrsRest(r.tree, left))
  }

  lemma OrsBegin(env: Env, p: nat, nesting: nat, nodes: seq<Node>)
    ensures OrsOk(env, p, nesting, nodes) ==> AndsOk(env, p, nesting, nodes)
    ensures AndsOk(env, p, nesting, nodes) ==>
              var r := ParseAnds(env.words, p);
              var e := EmitAnds(r.tree, nodes);
              && (OrsOk(env, p, nesting, nodes) <==> OrsRestOk(env, r.next, nesting, e))
              && (OrsOk(env, p, nesting, nodes) ==>
                OrsStop(env, r.next, e) ==
                Stop(ParseOrs(env.words, p).next, EmitOrs(ParseOrs(env.words, p).tree, nodes)))
  {
    hide FitsIn, AndsTyped, AndsNested, EmitAnds;
    var r := ParseAnds(env.words, p);
    if r.Got? && OrsOk(env, p, nesting, nodes) {
      var e := EmitAnds(r.tree, nodes);
      if WordAt(env.words, r.next) == OrWord {
        OrsRestExtends(ParseOrs(env.words, r.next + 1).tree, e);
        FitsBack(env, e.nodes, EmitOrsRest(ParseOrs(env.words, r.next + 1).tree, e).nodes);
      }
    }
  }

  lemma OrsStep(env: Env, p: nat, nesting: nat, left: Emitted)
    requires WordAt(env.words, p) == OrWord
    ensures OrsRestOk(env, p, nesting, left) ==> AndsOk(env, p + 1, nesting, left.nodes)
    ensures AndsOk(env, p + 1, nesting, left.nodes) ==>
              var r := ParseAnds(env.words, p + 1);
              var e := EmitAnds(r.tree, left.nodes);
              var joined := Append(e.nodes, Group(false, [left.id, e.id]));
              && (OrsRestOk(env, p, nesting, left) ==> FitsIn(env, joined.nodes))
              && (FitsIn(env, joined.nodes) ==>
                   (OrsRestOk(env, p, nesting, left) <==> OrsRestOk(env, r.next, nesting, joined)))
              && (OrsRestOk(env, p, nesting, left) ==> OrsStop(env, r.next, joined) == OrsStop(env, p, left))
  {
    hide FitsIn, AndsTyped, AndsNested, EmitAnds;
    var r := ParseAnds(env.words, p + 1);
    if r.Got? && OrsRestOk(env, p, nesting, left) {
      var e := EmitAnds(r.tree, left.nodes);
      var joined := Append(e.nodes, Group(false, [left.id, e.id]));
      if WordAt(env.words, r.next) == OrWord {
        OrsRestExtends(ParseOrs(env.words, r.next + 1).tree, joined);
        FitsBack(env, joined.nodes, EmitOrsRest(ParseOrs(env.words, r.next + 1).tree, joined).nodes);
      }
      FitsBack(env, e.nodes, joined.nodes);
    }
  }

  lemma OrsEnd(env: Env, p: nat, nesting: nat, left: Emitted)
    requires WordAt(env.words, p) != OrWord
    ensures OrsRestOk(env, p, nesting, left) <==> FitsIn(env, left.nodes)
    ensures OrsStop(env, p, left) == Stop(p, left)
  {
  }

  ghost predicate AndsRestOk(env: Env, p: nat, nesting: nat, left: Emitted) {
    if WordAt(env.words, p) != AndWord then FitsIn(env, left.nodes)
    else
      var r := ParseAnds(env.words, p + 1);
      && r.Got? && AndsTyped(env.kinds, r.tree) && AndsNested(r.tree, nesting, env.limits.maxDepth)
      && FitsIn(env, EmitAndsRest(r.tree, left).nodes)
  }

  ghost function AndsStop(env: Env, p: nat, left: Emitted): Stop {
    var r := ParseAnds(env.words, p + 1);
    if WordAt(env.words, p) != AndWord || r.Fail? then Stop(p, left) else Stop(r.next, EmitAndsRest(r.tree, left))
  }

  lemma AndsBegin(env: Env, p: nat, nesting: nat, nodes: seq<Node>)
    ensures AndsOk(env, p, nesting, nodes) ==> NotsOk(env, p, nesting, nodes)
    ensures NotsOk(env, p, nesting, nodes) ==>
              var r := ParseNots(env.words, p);
              var e := EmitNots(r.tree, nodes);
              && (AndsOk(env, p, nesting, nodes) <==> AndsRestOk(env, r.next, nesting, e))
              && (AndsOk(env, p, nesting, nodes) ==>
                AndsStop(env, r.next, e) ==
                Stop(ParseAnds(env.words, p).next, EmitAnds(ParseAnds(env.words, p).tree, nodes)))
  {
    hide FitsIn, NotsTyped, NotsNested, EmitNots;
    var r := ParseNots(env.words, p);
    if r.Got? && AndsOk(env, p, nesting, nodes) {
      var e := EmitNots(r.tree, nodes);
      if WordAt(env.words, r.next) == AndWord {
        AndsRestExtends(ParseAnds(env.words, r.next + 1).tree, e);
        FitsBack(env, e.nodes, EmitAndsRest(ParseAnds(env.words, r.next + 1).tree, e).nodes);
      }
    }
  }

  lemma AndsStep(env: Env, p: nat, nesting: nat, left: Emitted)
    requires WordAt(env.words, p) == AndWord
    ensures AndsRestOk(env, p, nesting, left) ==> NotsOk(env, p + 1, nesting, left.nodes)
    ensures NotsOk(env, p + 1, nesting, left.nodes) ==>
              var r := ParseNots(env.words, p + 1);
              var e := EmitNots(r.tree, left.nodes);
              var joined := Append(e.nodes, Group(true, [left.id, e.id]));
              && (AndsRestOk(env, p, nesting, left) ==> FitsIn(env, joined.nodes))
              && (FitsIn(env, joined.nodes) ==>
                   (AndsRestOk(env, p, nesting, left) <==> AndsRestOk(env, r.next, nesting, joined)))
              && (AndsRestOk(env, p, nesting, left) ==> AndsStop(env, r.next, joined) == AndsStop(env, p, left))
  {
    hide FitsIn, NotsTyped, NotsNested, EmitNots;
    var r := ParseNots(env.words, p + 1);
    if r.Got? && AndsRestOk(env, p, nesting, left) {
      var e := EmitNots(r.tree, left.nodes);
      var joined := Append(e.nodes, Group(true, [left.id, e.id]));
      if WordAt(env.words, r.next) == AndWord {
        AndsRestExtends(ParseAnds(env.words, r.next + 1).tree, joined);
        FitsBack(env, joined.nodes, EmitAndsRest(ParseAnds(env.words, r.next + 1).tree, joined).nodes);
      }
      FitsBack(env, e.nodes, joined.nodes);
    }
  }

  lemma AndsEnd(env: Env, p: nat, nesting: nat, left: Emitted)
    requires WordAt(env.words, p) != AndWord
    ensures AndsRestOk(env, p, nesting, left) <==> FitsIn(env, left.nodes)
    ensures AndsStop(env, p, left) == Stop(p, left)
  {
  }

  // ----- outcomes -----

  datatype Outcome = Outcome(ok: bool, next: nat, e: Emitted)

  /** How a parse at p that began with `nodes` ended. */
  ghost predicate OrsResult(env: Env, p: nat, nesting: nat, nodes: seq<Node>, out: Outcome) {
    && (out.ok <==> OrsOk(env, p, nesting, nodes))
    && (out.ok ==> var r := ParseOrs(env.words, p); out.next == r.next && out.e == EmitOrs(r.tree, nodes))
  }

  /** The parse from p0 is decided by what follows p, given what stands left of it. */
  ghost predicate OrsPending(env: Env, p0: nat, nesting: nat, nodes: seq<Node>, p: nat, left: Emitted) {
    && p0 < p
    && (OrsOk(env, p0, nesting, nodes) <==> OrsRestOk(env, p, nesting, left))
    && (OrsOk(env, p0, nesting, nodes) ==>
          OrsStop(env, p, left) == Stop(ParseOrs(env.words, p0).next, EmitOrs(ParseOrs(env.words, p0).tree, nodes)))
  }

  lemma OrsBegins(env: Env, p: nat, nesting: nat, nodes: seq<Node>, out: Outcome)
    requires AndsResult(env, p, nesting, nodes, out)
    ensures if out.ok then OrsPending(env, p, nesting, nodes, out.next, out.e) && Extends(nodes, out.e) && p < out.next
            else OrsResult(env, p, nesting, nodes, out)
  {
    hide OrsOk, AndsOk, OrsRestOk, OrsStop, EmitOrs, ParseOrs, ParseAnds;
    OrsBegin(env, p, nesting, nodes);
    if out.ok {
      AndsAdvance(env, p, nesting, nodes, out);
    }
  }

  lemma OrsContinues(env: Env, p0: nat, nesting: nat, nodes: seq<Node>, p: nat, left: Emitted, out: Outcome)
    requires OrsPending(env, p0, nesting, nodes, p, left) && WordAt(env.words, p) == OrWord
    requires AndsResult(env, p + 1, nesting, left.nodes, out)
    ensures !out.ok ==> OrsResult(env, p0, nesting, nodes, out)
    ensures out.ok ==>
              var joined := Append(out.e.nodes, Group(false, [left.id, out.e.id]));
              && Extends(left.nodes, out.e) && p < out.next
              && (FitsIn(env, joined.nodes) ==> OrsPending(env, p0, nesting, nodes, out.next, joined))
              && (!FitsIn(env, joined.nodes) ==>
                   forall next, e :: OrsResult(env, p0, nesting, nodes, Outcome(false, next, e)))
  {
    hide OrsOk, AndsOk, OrsRestOk, OrsStop, EmitOrs, ParseOrs, ParseAnds, FitsIn;
    OrsStep(env, p, nesting, left);
    if out.ok {
      AndsAdvance(env, p + 1, nesting, left.nodes, out);
    }
  }

  lemma OrsEnds(env: Env, p0: nat, nesting: nat, nodes: seq<Node>, p: nat, left: Emitted)
    requires OrsPending(env, p0, nesting, nodes, p, left) && WordAt(env.words, p) != OrWord && FitsIn(env, left.nodes)
    ensures OrsResult(env, p0, nesting, nodes, Outcome(true, p, left))
  {
    hide OrsOk, OrsRestOk, OrsStop, EmitOrs, ParseOrs, FitsIn;
    OrsEnd(env, p, nesting, left);
  }

  /** How a parse at p that began with `nodes` ended. */
  ghost predicate AndsResult(env: Env, p: nat, nesting: nat, nodes: seq<Node>, out: Outcome) {
    && (out.ok <==> AndsOk(env, p, nesting, nodes))
    && (out.ok ==> var r := ParseAnds(env.words, p); out.next == r.next && out.e == EmitAnds(r.tree, nodes))
  }

  lemma AndsAdvance(env: Env, p: nat, nesting: nat, nodes: seq<Node>, out: Outcome)
    requires AndsResult(env, p, nesting, nodes, out) && out.ok
    ensures p < out.next && Extends(nodes, out.e)
  {
    AndsExtends(ParseAnds(env.words, p).tree, nodes);
  }

  /** The parse from p0 is decided by what follows p, given what stands left of it. */
  ghost predicate AndsPending(env: Env, p0: nat, nesting: nat, nodes: seq<Node>, p: nat, left: Emitted) {
    && p0 < p
    && (AndsOk(env, p0, nesting, nodes) <==> AndsRestOk(env, p, nesting, left))
    && (AndsOk(env, p0, nesting, nodes) ==>
          AndsStop(env, p, left) == Stop(ParseAnds(env.words, p0).next, EmitAnds(ParseAnds(env.words, p0).tree, nodes)))
  }

  lemma AndsBegins(env: Env, p: nat, nesting: nat, nodes: seq<Node>, out: Outcome)
    requires NotsResult(env, p, nesting, nodes, out)
    ensures if out.ok then AndsPending(env, p, nesting, nodes, out.next, out.e) && Extends(nodes, out.e) && p < out.next
            else AndsResult(env, p, nesting, nodes, out)
  {
    hide AndsOk, NotsOk, AndsRestOk, AndsStop, EmitAnds, ParseAnds, ParseNots;
    AndsBegin(env, p, nesting, nodes);
    if out.ok {
      NotsAdvance(env, p, nesting, nodes, out);
    }
  }

  lemma AndsContinues(env: Env, p0: nat, nesting: nat, nodes: seq<Node>, p: nat, left: Emitted, out: Outcome)
    requires AndsPending(env, p0, nesting, nodes, p, left) && WordAt(env.words, p) == AndWord
    requires NotsResult(env, p + 1, nesting, left.nodes, out)
    ensures !out.ok ==> AndsResult(env, p0, nesting, nodes, out)
    ensures out.ok ==>
              var joined := Append(out.e.nodes, Group(true, [left.id, out.e.id]));
              && Extends(left.nodes, out.e) && p < out.next
              && (FitsIn(env, joined.nodes) ==> AndsPending(env, p0, nesting, nodes, out.next, joined))
              && (!FitsIn(env, joined.nodes) ==>
                   forall next, e :: AndsResult(env, p0, nesting, nodes, Outcome(false, next, e)))
  {
    hide AndsOk, NotsOk, AndsRestOk, AndsStop, EmitAnds, ParseAnds, ParseNots, FitsIn;
    AndsStep(env, p, nesting, left);
    if out.ok {
      NotsAdvance(env, p + 1, nesting, left.nodes, out);
    }
  }

  lemma AndsEnds(env: Env, p0: nat, nesting: nat, nodes: seq<Node>, p: nat, left: Emitted)
    requires AndsPending(env, p0, nesting, nodes, p, left) && WordAt(env.words, p) != AndWord && FitsIn(env, left.nodes)
    ensures AndsResult(env, p0, nesting, nodes, Outcome(true, p, left))
  {
    hide AndsOk, AndsRestOk, AndsStop, EmitAnds, ParseAnds, FitsIn;
    AndsEnd(env, p, nesting, left);
  }

  ghost predicate NotsResult(env: Env, p: nat, nesting: nat, nodes: seq<Node>, out: Outcome) {
    && (out.ok <==> NotsOk(env, p, nesting, nodes))
    && (out.ok ==> var r := ParseNots(env.words, p); out.next == r.next && out.e == EmitNots(r.tree, nodes))
  }

  lemma NotsAdvance(env: Env, p: nat, nesting: nat, nodes: seq<Node>, out: Outcome)
    requires NotsResult(env, p, nesting, nodes, out) && out.ok
    ensures p < out.next && Extends(nodes, out.e)
  {
    NotsExtends(ParseNots(env.words, p).tree, nodes);
  }

  // ----- negation and tests -----

  lemma NotsStep(env: Env, p: nat, nesting: nat, nodes: seq<Node>)
    requires WordAt(env.words, p) == NotWord
    ensures NotsOk(env, p, nesting, nodes) ==>
              nesting + 1 <= env.limits.maxDepth && NotsOk(env, p + 1, nesting + 1, nodes)
    ensures nesting + 1 <= env.limits.maxDepth && NotsOk(env, p + 1, nesting + 1, nodes) ==>
              var r := ParseNots(env.words, p + 1);
              var e := EmitNots(r.tree, nodes);
              && (NotsOk(env, p, nesting, nodes) <==> FitsIn(env, Append(e.nodes, Negation(e.id)).nodes))
              && ParseNots(env.words, p) == Got(Negated(r.tree), r.next)
  {
    hide FitsIn;
    var r := ParseNots(env.words, p + 1);
    if r.Got? && NotsOk(env, p, nesting, nodes) {
      var e := EmitNots(r.tree, nodes);
      FitsBack(env, e.nodes, Append(e.nodes, Negation(e.id)).nodes);
    }
  }

  lemma NotsPlain(env: Env, p: nat, nesting: nat, nodes: seq<Node>)
    requires WordAt(env.words, p) != NotWord
    ensures NotsOk(env, p, nesting, nodes) <==> TestOk(env, p, nesting, nodes)
    ensures TestOk(env, p, nesting, nodes) ==>
              ParseNots(env.words, p) == Got(Plain(ParseTest(env.words, p).tree), ParseTest(env.words, p).next)
  {
    hide FitsIn;
  }

  lemma TestBegin(env: Env, p: nat, nesting: nat, nodes: seq<Node>)
    ensures TestOk(env, p, nesting, nodes) ==> PrimaryOk(env, p, nesting, nodes)
  {
    hide FitsIn, ParsePrimary;
    var left := ParsePrimary(env.words, p);
    if TestOk(env, p, nesting, nodes) && left.tree.Paren? {
      assert ParseTest(env.words, p) == Got(Bare(left.tree), left.next);
    }
  }

  lemma ParenOk(env: Env, p: nat, nesting: nat, nodes: seq<Node>)
    requires WordAt(env.words, p) == OpenParen
    ensures var r := ParseOrs(env.words, p + 1);
            PrimaryOk(env, p, nesting, nodes) <==>
              && nesting + 1 <= env.limits.maxDepth
              && OrsOk(env, p + 1, nesting + 1, nodes) && WordAt(env.words, r.next) == CloseParen
  {
    hide FitsIn;
  }

  /** Reading a parenthesised expression, by how reading its inside ended. */
  lemma ParenResult(env: Env, p: nat, nesting: nat, nodes: seq<Node>, out: Outcome)
    requires WordAt(env.words, p) == OpenParen && nesting + 1 <= env.limits.maxDepth
    requires OrsResult(env, p + 1, nesting + 1, nodes, out)
    ensures out.ok && WordAt(env.words, out.next) == CloseParen ==>
              PrimaryResult(env, p, nesting, nodes, Reading(true, out.next + 1, out.e.nodes, NodeOperand(out.e.id)))
    ensures !out.ok || WordAt(env.words, out.next) != CloseParen ==> !PrimaryOk(env, p, nesting, nodes)
  {
    hide OrsOk, EmitOrs, ParseOrs;
    ParenOk(env, p, nesting, nodes);
    if out.ok && WordAt(env.words, out.next) == CloseParen {
      assert ParsePrimary(env.words, p) == Got(Paren(ParseOrs(env.words, p + 1).tree), out.next + 1);
    }
  }

  /** Reading any other primary. */
  lemma PlainResult(env: Env, p: nat, nesting: nat, nodes: seq<Node>, tree: Primary, next: nat)
    requires ParsePrimary(env.words, p) == Got(tree, next) && !tree.Paren?
    ensures PrimaryResult(env, p, nesting, nodes, Reading(true, next, nodes, OperandOf(tree, nodes)))
  {
    hide ParsePrimary;
  }

  lemma WordReads(env: Env, p: nat, nesting: nat, nodes: seq<Node>)
    ensures var word := WordAt(env.words, p);
            && (word.ConstantWord? ==>
                 PrimaryResult(env, p, nesting, nodes, Reading(true, p + 1, nodes, LiteralOperand(word.literal))))
            && (word.NumberWord? ==>
                 PrimaryResult(env, p, nesting, nodes, Reading(true, p + 1, nodes, LiteralOperand(Int(word.integer)))))
            && (word.NullWord? ==> PrimaryResult(env, p, nesting, nodes, Reading(true, p + 1, nodes, NullOperand)))
  {
    hide PrimaryResult;
    var r := ParsePrimary(env.words, p);
    if r.Got? && !r.tree.Paren? {
      PlainResult(env, p, nesting, nodes, r.tree, r.next);
    }
  }

  lemma MinusReads(env: Env, p: nat, nesting: nat, nodes: seq<Node>)
    requires WordAt(env.words, p) == MinusWord
    ensures var word := WordAt(env.words, p + 1);
            if word.NumberWord? then
              PrimaryResult(env, p, nesting, nodes,
                            Reading(true, p + 2, nodes, LiteralOperand(Int(Negate(word.integer)))))
            else !PrimaryOk(env, p, nesting, nodes)
  {
    var r := ParsePrimary(env.words, p);
    if r.Got? {
      PlainResult(env, p, nesting, nodes, r.tree, r.next);
    }
  }

  lemma NameReads(env: Env, p: nat, nesting: nat, nodes: seq<Node>)
    requires WordAt(env.words, p).NameWord?
    ensures if WordAt(env.words, p + 1) == OpenParen then !PrimaryOk(env, p, nesting, nodes)
            else PrimaryResult(env, p, nesting, nodes,
                               Reading(true, p + 1, nodes, FieldOperand(WordAt(env.words, p).field)))
  {
    var r := ParsePrimary(env.words, p);
    if r.Got? {
      PlainResult(env, p, nesting, nodes, r.tree, r.next);
    }
  }

  predicate Begins(word: Word) {
    word == OpenParen || word == NullWord || word == MinusWord || word.ConstantWord? ||
    word.NumberWord? || word.NameWord?
  }

  lemma NothingReads(env: Env, p: nat, nesting: nat, nodes: seq<Node>)
    requires !Begins(WordAt(env.words, p))
    ensures !PrimaryOk(env, p, nesting, nodes)
  {
  }

  lemma PrimaryFails(env: Env, p: nat, nesting: nat, nodes: seq<Node>, read: Reading)
    requires !PrimaryOk(env, p, nesting, nodes) && !read.ok
    ensures PrimaryResult(env, p, nesting, nodes, read)
  {
    hide PrimaryOk;
  }

  lemma ParenTooDeep(env: Env, p: nat, nesting: nat, nodes: seq<Node>)
    requires WordAt(env.words, p) == OpenParen && nesting + 1 > env.limits.maxDepth
    ensures !PrimaryOk(env, p, nesting, nodes)
  {
    hide PrimaryOk, OrsOk;
    ParenOk(env, p, nesting, nodes);
  }

  // ----- outcomes of negations and tests -----

  lemma NotsOfTest(env: Env, p: nat, nesting: nat, nodes: seq<Node>, out: Outcome)
    requires WordAt(env.words, p) != NotWord && TestResult(env, p, nesting, nodes, out)
    ensures NotsResult(env, p, nesting, nodes, out)
  {
    hide NotsOk, TestOk, EmitTest, ParseTest, ParseNots;
    NotsPlain(env, p, nesting, nodes);
  }

  lemma NotsTooDeep(env: Env, p: nat, nesting: nat, nodes: seq<Node>, out: Outcome)
    requires WordAt(env.words, p) == NotWord && nesting + 1 > env.limits.maxDepth && !out.ok
    ensures NotsResult(env, p, nesting, nodes, out)
  {
    hide NotsOk, ParseNots;
    NotsStep(env, p, nesting, nodes);
  }

  /** A negation ends as its child does, with one more row. */
  lemma NotsNegated(env: Env, p: nat, nesting: nat, nodes: seq<Node>, child: Outcome, out: Outcome)
    requires WordAt(env.words, p) == NotWord && nesting + 1 <= env.limits.maxDepth
    requires NotsResult(env, p + 1, nesting + 1, nodes, child)
    requires out.ok <==> child.ok && FitsIn(env, Append(child.e.nodes, Negation(child.e.id)).nodes)
    requires out.ok ==> out.next == child.next && out.e == Append(child.e.nodes, Negation(child.e.id))
    ensures NotsResult(env, p, nesting, nodes, out)
  {
    hide NotsOk, ParseNots, FitsIn;
    NotsStep(env, p, nesting, nodes);
  }

  ghost predicate TestResult(env: Env, p: nat, nesting: nat, nodes: seq<Node>, out: Outcome) {
    && (out.ok <==> TestOk(env, p, nesting, nodes))
    && (out.ok ==> var r := ParseTest(env.words, p); out.next == r.next && out.e == EmitTest(r.tree, nodes))
  }

  /** What a primary turned out to be. */
  datatype Operand = NodeOperand(id: nat) | FieldOperand(field: nat) | LiteralOperand(literal: Literal) | NullOperand

  function OperandOf(tree: Primary, nodes: seq<Node>): Operand {
    match tree
    case Paren(inner) => NodeOperand(EmitOrs(inner, nodes).id)
    case FieldRef(field) => FieldOperand(field)
    case Scalar(value) => LiteralOperand(LiteralOf(value))
    case NullValue => NullOperand
  }

  /** How reading a primary ended. */
  datatype Reading = Reading(ok: bool, next: nat, nodes: seq<Node>, operand: Operand)

  ghost predicate PrimaryResult(env: Env, p: nat, nesting: nat, nodes: seq<Node>, read: Reading) {
    && (read.ok <==> PrimaryOk(env, p, nesting, nodes))
    && (read.ok ==> var r := ParsePrimary(env.words, p);
                    && read.next == r.next
                    && read.nodes == PrimaryNodes(r.tree, nodes) && read.operand == OperandOf(r.tree, nodes))
  }

  /** No outcome but failure. */
  ghost predicate TestRefused(env: Env, p: nat, nesting: nat, nodes: seq<Node>) {
    !TestOk(env, p, nesting, nodes)
  }

  lemma TestFails(env: Env, p: nat, nesting: nat, nodes: seq<Node>, out: Outcome)
    requires TestRefused(env, p, nesting, nodes) && !out.ok
    ensures TestResult(env, p, nesting, nodes, out)
  {
    hide TestOk;
  }

  lemma PrimaryRefused(env: Env, p: nat, nesting: nat, nodes: seq<Node>, read: Reading)
    requires PrimaryResult(env, p, nesting, nodes, read) && !read.ok
    ensures TestRefused(env, p, nesting, nodes)
  {
    hide TestOk, PrimaryOk;
    TestBegin(env, p, nesting, nodes);
  }

  lemma PrimaryAdvance(env: Env, p: nat, nesting: nat, nodes: seq<Node>, read: Reading)
    requires PrimaryResult(env, p, nesting, nodes, read) && read.ok
    ensures p < read.next && (!read.operand.NodeOperand? ==> read.nodes == nodes)
  {
  }

  /** A test that is one row. */
  lemma LeafResult(env: Env, p: nat, nesting: nat, nodes: seq<Node>, t: Test, next: nat)
    requires ParseTest(env.words, p) == Got(t, next) && !t.NullTest? && !(t.Bare? && t.primary.Paren?)
    ensures var e := Append(nodes, LeafOf(t));
            if TestTyped(env.kinds, t) && FitsIn(env, e.nodes) then
              TestResult(env, p, nesting, nodes, Outcome(true, next, e))
            else TestRefused(env, p, nesting, nodes)
  {
    hide FitsIn, ParseTest, LeafOf;
  }

  lemma ParseRefused(env: Env, p: nat, nesting: nat, nodes: seq<Node>)
    requires ParseTest(env.words, p) == Fail
    ensures TestRefused(env, p, nesting, nodes)
  {
    hide ParseTest;
  }

  // ----- a test by the word after its first primary -----

  lemma NotInRefused(env: Env, p: nat, nesting: nat, nodes: seq<Node>, read: Reading)
    requires PrimaryResult(env, p, nesting, nodes, read) && read.ok
    requires WordAt(env.words, read.next) == NotWord && WordAt(env.words, read.next + 1) == InWord
    ensures TestRefused(env, p, nesting, nodes)
  {
    hide ParsePrimary;
    assert ParseTest(env.words, p) == Fail;
    ParseRefused(env, p, nesting, nodes);
  }

  lemma IsResult(env: Env, p: nat, nesting: nat, nodes: seq<Node>, read: Reading, negated: bool, end: nat)
    requires PrimaryResult(env, p, nesting, nodes, read) && read.ok && WordAt(env.words, read.next) == IsWord
    requires negated <==> WordAt(env.words, read.next + 1) == NotWord
    requires end == if negated then read.next + 2 else read.next + 1
    ensures !read.operand.FieldOperand? || WordAt(env.words, end) != NullWord ==> TestRefused(env, p, nesting, nodes)
    ensures read.operand.FieldOperand? && WordAt(env.words, end) == NullWord ==>
              ParseTest(env.words, p) == Got(NullTest(read.operand.field, negated), end + 1)
  {
    hide ParsePrimary, TestRefused;
    var left := ParsePrimary(env.words, p);
    assert ParseTest(env.words, p) == ParseIs(env.words, read.next, left.tree);
    if !read.operand.FieldOperand? || WordAt(env.words, end) != NullWord {
      ParseRefused(env, p, nesting, nodes);
    }
  }

  lemma NullResult(env: Env, p: nat, nesting: nat, nodes: seq<Node>, field: nat, negated: bool, next: nat)
    requires ParseTest(env.words, p) == Got(NullTest(field, negated), next)
    ensures var d := Append(nodes, Defined(field));
            var n := Append(d.nodes, Negation(d.id));
            && (!(FieldOk(env.kinds, field) && FitsIn(env, d.nodes)) ==> TestRefused(env, p, nesting, nodes))
            && (FieldOk(env.kinds, field) && FitsIn(env, d.nodes) && negated ==>
                 TestResult(env, p, nesting, nodes, Outcome(true, next, d)))
            && (FieldOk(env.kinds, field) && FitsIn(env, n.nodes) && !negated ==>
                 TestResult(env, p, nesting, nodes, Outcome(true, next, n)))
            && (!FitsIn(env, n.nodes) && !negated ==> TestRefused(env, p, nesting, nodes))
  {
    hide FitsIn, ParseTest;
    var d := Append(nodes, Defined(field));
    var n := Append(d.nodes, Negation(d.id));
    if FitsIn(env, n.nodes) {
      FitsBack(env, d.nodes, n.nodes);
    }
  }

  lemma InResult(env: Env, p: nat, nesting: nat, nodes: seq<Node>, read: Reading)
    requires PrimaryResult(env, p, nesting, nodes, read) && read.ok && WordAt(env.words, read.next) == InWord
    ensures var list := ParseValues(env.words, read.next + 2);
            if read.operand.FieldOperand? && WordAt(env.words, read.next + 1) == OpenParen && list.Got? then
              ParseTest(env.words, p) == Got(Member(read.operand.field, list.tree[0], list.tree[1..]), list.next)
            else TestRefused(env, p, nesting, nodes)
  {
    hide ParsePrimary, TestRefused, ParseValues;
    var left := ParsePrimary(env.words, p);
    assert ParseTest(env.words, p) == ParseIn(env.words, read.next, left.tree);
    if ParseTest(env.words, p).Fail? {
      ParseRefused(env, p, nesting, nodes);
    }
  }

  /** A membership over a list of values. */
  lemma MemberResult(env: Env, p: nat, nesting: nat, nodes: seq<Node>, field: nat, list: seq<Value>, next: nat)
    requires list != [] && ParseTest(env.words, p) == Got(Member(field, list[0], list[1..]), next)
    ensures var node := In(field, Literals(list));
            var e := Append(nodes, node);
            if WellTyped(env.kinds, |nodes|, node) && FitsIn(env, e.nodes) then
              TestResult(env, p, nesting, nodes, Outcome(true, next, e))
            else TestRefused(env, p, nesting, nodes)
  {
    hide FitsIn, ParseTest, TestResult, TestRefused, Literals;
    assert [list[0]] + list[1..] == list;
    LeafResult(env, p, nesting, nodes, Member(field, list[0], list[1..]), next);
  }

  /** A field compared with a literal. */
  predicate OneField(a: Operand, b: Operand) {
    a.FieldOperand? && b.LiteralOperand?
  }

  lemma ComparedResult(env: Env, p: nat, nesting: nat, nodes: seq<Node>, read: Reading, op: Operation, right: Reading)
    requires PrimaryResult(env, p, nesting, nodes, read) && read.ok && WordAt(env.words, read.next) == CompareWord(op)
    requires PrimaryResult(env, read.next + 1, nesting, read.nodes, right)
    ensures !right.ok ==> TestRefused(env, p, nesting, nodes)
    ensures right.ok && !OneField(read.operand, right.operand) && !OneField(right.operand, read.operand) ==>
              TestRefused(env, p, nesting, nodes)
    ensures right.ok && read.operand.FieldOperand? && right.operand.LiteralOperand? ==>
              CompareOutcome(env, p, nesting, nodes, Compare(read.operand.field, op, right.operand.literal), right.next)
    ensures right.ok && right.operand.FieldOperand? && read.operand.LiteralOperand? ==>
              CompareOutcome(env, p, nesting, nodes, Compare(right.operand.field, Reverse(op), read.operand.literal),
                             right.next)
  {
    hide ParsePrimary, TestRefused, CompareOutcome, PrimaryNested;
    var a, b := ParsePrimary(env.words, p), ParsePrimary(env.words, read.next + 1);
    assert ParseTest(env.words, p) == ParseCompared(env.words, read.next, a.tree, op);
    if !right.ok && b.Got? && !b.tree.Paren? {
      ScalarOk(env, read.next + 1, nesting, read.nodes);
    }
    if ParseTest(env.words, p).Fail? {
      ParseRefused(env, p, nesting, nodes);
    } else {
      var t := ParseTest(env.words, p).tree;
      LeafOutcome(env, p, nesting, nodes, t, ParseTest(env.words, p).next);
    }
  }

  /** A primary that is not parenthesised is read without more ado. */
  lemma ScalarOk(env: Env, p: nat, nesting: nat, nodes: seq<Node>)
    requires ParsePrimary(env.words, p).Got? && !ParsePrimary(env.words, p).tree.Paren?
    ensures PrimaryOk(env, p, nesting, nodes)
  {
  }

  ghost predicate CompareOutcome(env: Env, p: nat, nesting: nat, nodes: seq<Node>, node: Node, next: nat) {
    var e := Append(nodes, node);
    if WellTyped(env.kinds, |nodes|, node) && FitsIn(env, e.nodes) then
      TestResult(env, p, nesting, nodes, Outcome(true, next, e))
    else TestRefused(env, p, nesting, nodes)
  }

  lemma LeafOutcome(env: Env, p: nat, nesting: nat, nodes: seq<Node>, t: Test, next: nat)
    requires t.Compared? && ParseTest(env.words, p) == Got(t, next)
    ensures CompareOutcome(env, p, nesting, nodes, LeafOf(t), next)
  {
    hide ParseTest, TestResult, TestRefused, FitsIn;
    LeafResult(env, p, nesting, nodes, t, next);
  }

  predicate Continues(ws: seq<Word>, q: nat) {
    var word := WordAt(ws, q);
    (word == NotWord && WordAt(ws, q + 1) == InWord) || word == IsWord || word == InWord || word.CompareWord?
  }

  /** A primary that stands alone. */
  lemma BareResult(env: Env, p: nat, nesting: nat, nodes: seq<Node>, read: Reading)
    requires PrimaryResult(env, p, nesting, nodes, read) && read.ok && !Continues(env.words, read.next)
    ensures read.operand.NodeOperand? ==>
              TestResult(env, p, nesting, nodes, Outcome(true, read.next, Emitted(read.nodes, read.operand.id)))
    ensures read.operand.FieldOperand? ==>
              CompareOutcome(env, p, nesting, nodes, Compare(read.operand.field, Equal, Bool(true)), read.next)
    ensures read.operand.LiteralOperand? && read.operand.literal.Bool? ==>
              CompareOutcome(env, p, nesting, nodes, Boolean(read.operand.literal.flag), read.next)
    ensures read.operand.NullOperand? || (read.operand.LiteralOperand? && !read.operand.literal.Bool?) ==>
              TestRefused(env, p, nesting, nodes)
  {
    hide ParsePrimary, FitsIn;
    var tree := ParsePrimary(env.words, p).tree;
    assert ParseTest(env.words, p) == Got(Bare(tree), read.next);
    if !tree.Paren? {
      LeafResult(env, p, nesting, nodes, Bare(tree), read.next);
    }
  }

  // ----- lists of values -----

  /** The list from `start` is what has been read and what p on reads as. */
  ghost predicate ValuesPending(ws: seq<Word>, start: nat, list: seq<Value>, p: nat) {
    var r := ParseValues(ws, p);
    ParseValues(ws, start) == if r.Fail? then Fail else Got(list + r.tree, r.next)
  }

  lemma ValuesStep(env: Env, start: nat, list: seq<Value>, p: nat, nesting: nat, nodes: seq<Node>, read: Reading)
    requires ValuesPending(env.words, start, list, p) && PrimaryResult(env, p, nesting, nodes, read)
    ensures !read.ok || !read.operand.LiteralOperand? ==> ParseValues(env.words, start).Fail?
    ensures read.ok && read.operand.LiteralOperand? ==>
              && ParsePrimary(env.words, p).Got? && ParsePrimary(env.words, p).tree.Scalar?
              && var value := ParsePrimary(env.words, p).tree.value;
              && LiteralOf(value) == read.operand.literal
              && (WordAt(env.words, read.next) == CommaWord ==>
                   ValuesPending(env.words, start, list + [value], read.next + 1))
              && (WordAt(env.words, read.next) == CloseParen ==>
                   ParseValues(env.words, start) == Got(list + [value], read.next + 1))
              && (WordAt(env.words, read.next) != CommaWord && WordAt(env.words, read.next) != CloseParen ==>
                   ParseValues(env.words, start).Fail?)
  {
    hide ParsePrimary;
    var item := ParsePrimary(env.words, p);
    if item.Got? && item.tree.Scalar? {
      ScalarOk(env, p, nesting, nodes);
      if WordAt(env.words, item.next) == CommaWord && ParseValues(env.words, item.next + 1).Got? {
        var rest := ParseValues(env.words, item.next + 1).tree;
        assert list + ([item.tree.value] + rest) == (list + [item.tree.value]) + rest;
      }
    }
  }
}
