/** The shape of a semantic table: which rows hang below its root. */
module TableShapes {
  import opened SemanticTables
  import opened SemanticBuilders

  /** Some row has the row as a child. */
  predicate HasParent(nodes: seq<Node>, id: nat) {
    exists k :: 0 <= k < |nodes| && id in Children(nodes[k])
  }

  /** Every row without a parent is listed. */
  predicate LooseWithin(nodes: seq<Node>, ids: set<nat>) {
    forall id :: 1 <= id <= |nodes| && !HasParent(nodes, id) ==> id in ids
  }

  /** Every row but the root has a parent. */
  predicate Whole(nodes: seq<Node>, root: nat) {
    1 <= root <= |nodes| && LooseWithin(nodes, {root})
  }

  lemma ParentStays(nodes: seq<Node>, node: Node, id: nat)
    requires HasParent(nodes, id) || id in Children(node)
    ensures HasParent(nodes + [node], id)
  {
    if id in Children(node) {
      assert (nodes + [node])[|nodes|] == node;
    } else {
      var k :| 0 <= k < |nodes| && id in Children(nodes[k]);
      assert (nodes + [node])[k] == nodes[k];
    }
  }

  /** A new row is loose, and its children no longer are. */
  lemma AppendTies(nodes: seq<Node>, node: Node, ids: set<nat>)
    requires LooseWithin(nodes, ids + set c | c in Children(node))
    ensures LooseWithin(nodes + [node], ids + {|nodes| + 1})
  {
    hide HasParent;
    forall id | 1 <= id <= |nodes| && !HasParent(nodes + [node], id)
      ensures id in ids
    {
      if HasParent(nodes, id) || id in Children(node) {
        ParentStays(nodes, node, id);
      }
    }
  }

  // ----- reachability -----

  /** The row hangs below the root: it is the root, or a child of such a row. */
  ghost predicate Below(nodes: seq<Node>, root: nat, id: nat)
    requires 1 <= id <= |nodes|
    decreases |nodes| - id
  {
    id == root || exists u :: id < u <= |nodes| && Below(nodes, root, u) && id in Children(nodes[u - 1])
  }

  lemma ParentIsLater(nodes: seq<Node>, k: nat, id: nat)
    requires Rooted(nodes) && k < |nodes| && id in Children(nodes[k])
    ensures 1 <= id <= k
  {
    assert Closed(nodes[k], k);
    var c :| 0 <= c < |Children(nodes[k])| && Children(nodes[k])[c] == id;
  }

  /** In a whole table every row hangs below the root. */
  lemma {:induction false} WholeIsBelow(nodes: seq<Node>, root: nat, id: nat)
    requires Rooted(nodes) && Whole(nodes, root) && 1 <= id <= |nodes|
    ensures Below(nodes, root, id)
    decreases |nodes| - id
  {
    if id != root {
      assert HasParent(nodes, id);
      var k :| 0 <= k < |nodes| && id in Children(nodes[k]);
      ParentIsLater(nodes, k, id);
      WholeIsBelow(nodes, root, k + 1);
    }
  }

  lemma BelowIsWhole(nodes: seq<Node>, root: nat)
    requires 1 <= root <= |nodes| && forall id :: 1 <= id <= |nodes| ==> Below(nodes, root, id)
    ensures Whole(nodes, root)
  {
    forall id | 1 <= id <= |nodes| && id != root
      ensures HasParent(nodes, id)
    {
      assert Below(nodes, root, id);
      var u :| id < u <= |nodes| && Below(nodes, root, u) && id in Children(nodes[u - 1]);
      assert 0 <= u - 1 < |nodes|;
    }
  }

  // ----- the validator's search -----

  /** The rows that a stored row names as children. */
  function ChildrenAt(t: Table, row: Row): seq<nat> {
    if row.kind !in {AllRow, AnyRow, NotRow} || row.childStart + row.childCount > |t.children| then []
    else t.children[row.childStart..row.childStart + row.childCount]
  }

  /** Reached rows hang below the root, and so do those that wait. */
  ghost predicate Found(nodes: seq<Node>, root: nat, reached: seq<bool>, stack: seq<nat>) {
    && |reached| == |nodes| && 1 <= root <= |nodes|
    && (forall i :: 0 <= i < |reached| && reached[i] ==> Below(nodes, root, i + 1))
    && (forall k :: 0 <= k < |stack| ==> 1 <= stack[k] <= |nodes| && Below(nodes, root, stack[k]))
  }

  predicate Handled(reached: seq<bool>, stack: seq<nat>, id: nat) {
    (1 <= id <= |reached| && reached[id - 1]) || id in stack
  }

  /** The root is reached or waits, and so are the children of every reached row. */
  ghost predicate Followed(nodes: seq<Node>, root: nat, reached: seq<bool>, stack: seq<nat>)
    requires |reached| == |nodes|
  {
    && Handled(reached, stack, root)
    && forall i, c :: 0 <= i < |reached| && reached[i] && c in Children(nodes[i]) ==> Handled(reached, stack, c)
  }

  ghost predicate Searching(nodes: seq<Node>, root: nat, reached: seq<bool>, stack: seq<nat>) {
    Found(nodes, root, reached, stack) && Followed(nodes, root, reached, stack)
  }

  lemma PopReached(nodes: seq<Node>, root: nat, reached: seq<bool>, stack: seq<nat>)
    requires Searching(nodes, root, reached, stack) && stack != [] && reached[stack[|stack| - 1] - 1]
    ensures Searching(nodes, root, reached, stack[..|stack| - 1])
  {
    hide Below;
    var id, rest := stack[|stack| - 1], stack[..|stack| - 1];
    assert stack == rest + [id];
    assert Handled(reached, stack, root);
    forall i, c | 0 <= i < |reached| && reached[i] && c in Children(nodes[i])
      ensures Handled(reached, rest, c)
    {
      assert Handled(reached, stack, c);
    }
  }

  lemma ChildrenBelow(nodes: seq<Node>, root: nat, id: nat, c: nat)
    requires Rooted(nodes) && 1 <= id <= |nodes| && Below(nodes, root, id) && c in Children(nodes[id - 1])
    ensures 1 <= c <= |nodes| && Below(nodes, root, c)
  {
    ParentIsLater(nodes, id - 1, c);
  }

  lemma Reach(nodes: seq<Node>, root: nat, reached: seq<bool>, stack: seq<nat>)
    requires Rooted(nodes) && Searching(nodes, root, reached, stack) && stack != []
    ensures var id := stack[|stack| - 1];
            Searching(nodes, root, reached[id - 1 := true], stack[..|stack| - 1] + Children(nodes[id - 1]))
  {
    FoundNext(nodes, root, reached, stack);
    FollowedNext(nodes, root, reached, stack);
    hide Below, Rooted, Followed;
  }

  lemma FoundNext(nodes: seq<Node>, root: nat, reached: seq<bool>, stack: seq<nat>)
    requires Rooted(nodes) && Found(nodes, root, reached, stack) && stack != []
    ensures var id := stack[|stack| - 1];
            Found(nodes, root, reached[id - 1 := true], stack[..|stack| - 1] + Children(nodes[id - 1]))
  {
    hide Below, Rooted;
    var id, rest := stack[|stack| - 1], stack[..|stack| - 1];
    var next := rest + Children(nodes[id - 1]);
    forall k | 0 <= k < |next|
      ensures 1 <= next[k] <= |nodes| && Below(nodes, root, next[k])
    {
      if k >= |rest| {
        ChildrenBelow(nodes, root, id, next[k]);
      }
    }
  }

  lemma FollowedNext(nodes: seq<Node>, root: nat, reached: seq<bool>, stack: seq<nat>)
    requires |reached| == |nodes| && stack != [] && 1 <= stack[|stack| - 1] <= |nodes|
    requires Followed(nodes, root, reached, stack)
    ensures var id := stack[|stack| - 1];
            Followed(nodes, root, reached[id - 1 := true], stack[..|stack| - 1] + Children(nodes[id - 1]))
  {
    var id, rest := stack[|stack| - 1], stack[..|stack| - 1];
    var reached', next := reached[id - 1 := true], rest + Children(nodes[id - 1]);
    assert stack == rest + [id];
    forall c | Handled(reached, stack, c)
      ensures Handled(reached', next, c)
    {
    }
    forall i, c | 0 <= i < |reached'| && reached'[i] && c in Children(nodes[i])
      ensures Handled(reached', next, c)
    {
      if i != id - 1 {
        assert Handled(reached, stack, c);
      }
    }
  }

  lemma {:induction false} SearchFindsAll(nodes: seq<Node>, root: nat, reached: seq<bool>, id: nat)
    requires Searching(nodes, root, reached, []) && 1 <= id <= |nodes| && Below(nodes, root, id)
    ensures reached[id - 1]
    decreases |nodes| - id
  {
    if id == root {
      assert Handled(reached, [], root);
    } else {
      var u :| id < u <= |nodes| && Below(nodes, root, u) && id in Children(nodes[u - 1]);
      SearchFindsAll(nodes, root, reached, u);
      assert Handled(reached, [], id);
    }
  }

  lemma SearchExact(nodes: seq<Node>, root: nat, reached: seq<bool>)
    requires Rooted(nodes) && Searching(nodes, root, reached, [])
    ensures (forall i :: 0 <= i < |reached| ==> reached[i]) <==> Whole(nodes, root)
  {
    hide Whole;
    if forall i :: 0 <= i < |reached| ==> reached[i] {
      forall id | 1 <= id <= |nodes|
        ensures Below(nodes, root, id)
      {
        assert reached[id - 1];
      }
      BelowIsWhole(nodes, root);
    }
    if Whole(nodes, root) {
      forall i | 0 <= i < |reached|
        ensures reached[i]
      {
        WholeIsBelow(nodes, root, i + 1);
        SearchFindsAll(nodes, root, reached, i + 1);
      }
    }
  }

  function Unreached(reached: seq<bool>): set<nat> {
    set i | 0 <= i < |reached| && !reached[i]
  }

  lemma StoredChildren(t: Table, row: Row, node: Node)
    requires Stores(t, row, node)
    ensures ChildrenAt(t, row) == Children(node)
  {
  }

  lemma ChildrenStored(t: Table, nodes: seq<Node>, k: nat)
    requires TableOk(t, nodes) && k < |nodes|
    ensures ChildrenAt(t, t.rows[k]) == Children(nodes[k])
  {
    StoredChildren(t, t.rows[k], nodes[k]);
  }

  /** Search the table from its root. No row stays unreached exactly when the table is whole. */
  method ValidateReachability(t: Table, root: nat, ghost nodes: seq<Node>) returns (ok: bool)
    requires TableOk(t, nodes) && Rooted(nodes)
    ensures ok <==> Whole(nodes, root)
  {
    hide TableOk, Rooted, Searching, ChildrenAt, Below;
    TableSize(t, nodes);
    if root == 0 || root > |t.rows| {
      return false;
    }
    var reached, stack := seq(|t.rows|, _ => false), [root];
    StartSearch(nodes, root, reached);
    while stack != []
      invariant Searching(nodes, root, reached, stack) && |reached| == |t.rows|
      decreases Unreached(reached), |stack|
    {
      var id := stack[|stack| - 1];
      InSearch(nodes, root, reached, stack);
      if reached[id - 1] {
        PopReached(nodes, root, reached, stack);
        stack := stack[..|stack| - 1];
      } else {
        ChildrenStored(t, nodes, id - 1);
        Reach(nodes, root, reached, stack);
        stack := stack[..|stack| - 1] + ChildrenAt(t, t.rows[id - 1]);
        assert id - 1 in Unreached(reached);
        reached := reached[id - 1 := true];
      }
    }
    SearchExact(nodes, root, reached);
    hide Whole;
    ok := forall i :: 0 <= i < |reached| ==> reached[i];
  }

  lemma TableSize(t: Table, nodes: seq<Node>)
    requires TableOk(t, nodes)
    ensures |t.rows| == |nodes|
  {
  }

  lemma StartSearch(nodes: seq<Node>, root: nat, reached: seq<bool>)
    requires |reached| == |nodes| && 1 <= root <= |nodes| && forall i :: 0 <= i < |reached| ==> !reached[i]
    ensures Searching(nodes, root, reached, [root])
  {
    assert root in [root];
  }

  lemma InSearch(nodes: seq<Node>, root: nat, reached: seq<bool>, stack: seq<nat>)
    requires Searching(nodes, root, reached, stack) && stack != []
    ensures |reached| == |nodes| && 1 <= stack[|stack| - 1] <= |nodes|
  {
  }
}
