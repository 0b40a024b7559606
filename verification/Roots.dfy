/** The semantic roots as lowering seeds its traversal with them. */
module Roots {
  import opened Documents
  import opened Candidates
  import opened Constants

  function ApplicabilityRoots(doc: Document): seq<NodeId> {
    seq(|doc.requirements|, i requires 0 <= i < |doc.requirements| => doc.requirements[i].applicability)
  }

  function AssertionRoots(doc: Document): seq<NodeId> {
    seq(|doc.clauses|, i requires 0 <= i < |doc.clauses| => doc.clauses[i].assertion)
  }

  /** The evidence edges of the first n clauses, in order. */
  function EvidenceEdges(clauses: seq<Clause>): seq<NodeId> {
    if clauses == [] then [] else EvidenceEdges(clauses[..|clauses| - 1]) + clauses[|clauses| - 1].evidence
  }

  function EvidenceRoots(doc: Document): seq<NodeId> {
    EvidenceEdges(doc.clauses)
  }

  function AllRoots(doc: Document): seq<NodeId> {
    ApplicabilityRoots(doc) + AssertionRoots(doc) + EvidenceRoots(doc)
  }

  predicate InTable(doc: Document, ids: seq<NodeId>) {
    forall k :: 0 <= k < |ids| ==> 1 <= ids[k] <= |doc.nodes|
  }

  predicate HasRole(doc: Document, u: NodeId, r: Role) {
    match r
    case Applicability => u in ApplicabilityRoots(doc)
    case Assertion => u in AssertionRoots(doc)
    case EvidenceRole => u in EvidenceRoots(doc)
  }

  /** The role column: a node has exactly the roles it is a root for. */
  ghost predicate RolesOk(doc: Document, roots: seq<set<Role>>) {
    |roots| == |doc.nodes| && forall u, r :: 1 <= u <= |roots| ==> (r in roots[u - 1] <==> HasRole(doc, u, r))
  }

  /** Add one role to every listed node; an identifier out of range is refused. */
  method MarkRole(ids: seq<NodeId>, role: Role, roots: seq<set<Role>>) returns (ok: bool, marked: seq<set<Role>>)
    ensures ok <==> forall k :: 0 <= k < |ids| ==> 1 <= ids[k] <= |roots|
    ensures ok ==> |marked| == |roots|
    ensures ok ==> forall u :: 1 <= u <= |roots| ==> marked[u - 1] == roots[u - 1] + if u in ids then {role} else {}
  {
    marked := roots;
    for k := 0 to |ids|
      invariant MarkedTo(roots, marked, ids[..k], role)
      invariant forall l :: 0 <= l < k ==> 1 <= ids[l] <= |roots|
    {
      if ids[k] == 0 || ids[k] > |roots| {
        return false, marked;
      }
      MarkNext(roots, marked, ids[..k], role, ids[k]);
      assert ids[..k + 1] == ids[..k] + [ids[k]];
      marked := marked[ids[k] - 1 := marked[ids[k] - 1] + {role}];
    }
    assert ids[..|ids|] == ids;
    ok := true;
  }

  /** The role has been added to the nodes of a list. */
  ghost predicate MarkedTo(roots: seq<set<Role>>, marked: seq<set<Role>>, ids: seq<NodeId>, role: Role) {
    && |marked| == |roots|
    && forall u :: 1 <= u <= |roots| ==> marked[u - 1] == roots[u - 1] + if u in ids then {role} else {}
  }

  lemma MemberSnoc(ids: seq<NodeId>, id: NodeId, u: NodeId)
    requires u != id
    ensures u in ids + [id] <==> u in ids
  {
  }

  lemma MarkNext(roots: seq<set<Role>>, marked: seq<set<Role>>, ids: seq<NodeId>, role: Role, id: NodeId)
    requires MarkedTo(roots, marked, ids, role) && 1 <= id <= |roots|
    ensures MarkedTo(roots, marked[id - 1 := marked[id - 1] + {role}], ids + [id], role)
  {
    var next := marked[id - 1 := marked[id - 1] + {role}];
    forall u | 1 <= u <= |roots|
      ensures next[u - 1] == roots[u - 1] + if u in ids + [id] then {role} else {}
    {
      if u == id {
        assert (ids + [id])[|ids|] == u;
        assert marked[u - 1] == roots[u - 1] + if u in ids then {role} else {};
        assert next[u - 1] == roots[u - 1] + {role};
      } else {
        assert next[u - 1] == marked[u - 1];
        MemberSnoc(ids, id, u);
      }
    }
  }

  method MarkRootFlags(doc: Document) returns (status: Status, roots: seq<set<Role>>)
    ensures status == if InTable(doc, AllRoots(doc)) then Done else InvalidDocument
    ensures status == Done ==> RolesOk(doc, roots)
  {
    hide EvidenceEdges, ApplicabilityRoots, AssertionRoots;
    var a, b, c := ApplicabilityRoots(doc), AssertionRoots(doc), EvidenceRoots(doc);
    InTableConcat(doc, a, b);
    InTableConcat(doc, a + b, c);
    var none: seq<set<Role>> := seq(|doc.nodes|, _ => {});
    var ok, first := MarkRole(a, Applicability, none);
    if !ok {
      return InvalidDocument, none;
    }
    var second;
    ok, second := MarkRole(b, Assertion, first);
    if !ok {
      return InvalidDocument, none;
    }
    ok, roots := MarkRole(c, EvidenceRole, second);
    if !ok {
      return InvalidDocument, none;
    }
    status := Done;
    forall u, r | 1 <= u <= |roots|
      ensures r in roots[u - 1] <==> HasRole(doc, u, r)
    {
      assert first[u - 1] == {} + if u in a then {Applicability} else {};
      assert second[u - 1] == first[u - 1] + if u in b then {Assertion} else {};
      assert roots[u - 1] == second[u - 1] + if u in c then {EvidenceRole} else {};
      match r
      case Applicability => assert r in roots[u - 1] <==> u in a;
      case Assertion => assert r in roots[u - 1] <==> u in b;
      case EvidenceRole => assert r in roots[u - 1] <==> u in c;
    }
  }

  lemma InTableConcat(doc: Document, a: seq<NodeId>, b: seq<NodeId>)
    ensures InTable(doc, a + b) <==> InTable(doc, a) && InTable(doc, b)
  {
    if InTable(doc, a + b) {
      assert forall k :: 0 <= k < |a| ==> (a + b)[k] == a[k];
      assert forall k :: 0 <= k < |b| ==> (a + b)[|a| + k] == b[k];
    }
  }

  predicate Ascending(ids: seq<NodeId>) {
    forall i, j :: 0 <= i < j < |ids| ==> ids[i] <= ids[j]
  }

  predicate StrictlyAscending(ids: seq<NodeId>) {
    forall i, j :: 0 <= i < j < |ids| ==> ids[i] < ids[j]
  }

  lemma ShiftKeepsElements(r: seq<NodeId>, j: nat, x: NodeId)
    requires 0 < j < |r|
    ensures multiset(r[j := r[j - 1]][j - 1 := x]) == multiset(r[j := x])
  {
    var a, y, b := r[..j - 1], r[j - 1], r[j + 1..];
    assert r[j := x] == a + [y, x] + b;
    assert r[j := y][j - 1 := x] == a + [x, y] + b;
    SwapKeepsElements(a, x, y, b);
  }

  lemma SwapKeepsElements(a: seq<NodeId>, x: NodeId, y: NodeId, b: seq<NodeId>)
    ensures multiset(a + [x, y] + b) == multiset(a + [y, x] + b)
  {
    assert multiset([x, y]) == multiset([y, x]);
    assert multiset(a + [x, y] + b) == multiset(a) + multiset([x, y]) + multiset(b);
    assert multiset(a + [y, x] + b) == multiset(a) + multiset([y, x]) + multiset(b);
  }

  /** Position j is open for x: everything after it up to i is larger, the rest is sorted. */
  ghost predicate Sifting(ids: seq<NodeId>, r: seq<NodeId>, i: nat, j: nat, x: NodeId) {
    && j <= i < |r| == |ids| && multiset(r[j := x]) == multiset(ids)
    && (forall a, b :: 0 <= a < b <= i && a != j && b != j ==> r[a] <= r[b])
    && (forall b :: j < b <= i ==> x < r[b])
  }

  lemma SiftStart(ids: seq<NodeId>, i: nat)
    requires i < |ids| && Ascending(ids[..i])
    ensures Sifting(ids, ids, i, i, ids[i])
  {
    assert ids[i := ids[i]] == ids;
    assert forall a :: 0 <= a < i ==> ids[a] == ids[..i][a];
  }

  lemma SiftStep(ids: seq<NodeId>, r: seq<NodeId>, i: nat, j: nat, x: NodeId)
    requires Sifting(ids, r, i, j, x) && j > 0 && r[j - 1] > x
    ensures Sifting(ids, r[j := r[j - 1]], i, j - 1, x)
  {
    ShiftKeepsElements(r, j, x);
    var s := r[j := r[j - 1]];
    forall a, b | 0 <= a < b <= i && a != j - 1 && b != j - 1
      ensures s[a] <= s[b]
    {
      if a == j {
        assert s[a] == r[j - 1] <= r[b] == s[b];
      } else if b == j {
        assert s[a] == r[a] <= r[j - 1] == s[b];
      }
    }
  }

  lemma SiftEnd(ids: seq<NodeId>, r: seq<NodeId>, i: nat, j: nat, x: NodeId)
    requires Sifting(ids, r, i, j, x) && (j == 0 || r[j - 1] <= x)
    ensures var s := r[j := x]; |s| == |ids| && multiset(s) == multiset(ids) && Ascending(s[..i + 1])
  {
    var s := r[j := x];
    forall a, b | 0 <= a < b <= i
      ensures s[a] <= s[b]
    {
      if b == j && a < j - 1 {
        assert r[a] <= r[j - 1];
      }
    }
  }

  /** Sift element i down to its place among the sorted elements before it. */
  method Sift(ids: seq<NodeId>, i: nat) returns (r: seq<NodeId>)
    requires i < |ids| && Ascending(ids[..i])
    ensures |r| == |ids| && multiset(r) == multiset(ids) && Ascending(r[..i + 1])
  {
    hide Sifting;
    r := ids;
    var x, j := ids[i], i;
    SiftStart(ids, i);
    while j > 0 && r[j - 1] > x
      invariant 0 <= j <= i && |r| == |ids| && Sifting(ids, r, i, j, x)
    {
      SiftStep(ids, r, i, j, x);
      r := r[j := r[j - 1]];
      j := j - 1;
    }
    SiftEnd(ids, r, i, j, x);
    r := r[j := x];
  }

  method SortIds(ids: seq<NodeId>) returns (r: seq<NodeId>)
    ensures multiset(r) == multiset(ids) && Ascending(r)
  {
    r := ids;
    var i := 1;
    while i < |r|
      invariant 1 <= i && |r| == |ids| && multiset(r) == multiset(ids)
      invariant i <= |r| ==> Ascending(r[..i])
      invariant |r| == 0 || i <= |r|
    {
      r := Sift(r, i);
      i := i + 1;
    }
    assert |r| > 0 ==> r[..i] == r;
  }

  /** Compact a sorted list in place, keeping the first of equal neighbours. */
  method DropRepeats(sorted: seq<NodeId>) returns (r: seq<NodeId>)
    requires Ascending(sorted)
    ensures StrictlyAscending(r) && forall u :: u in r <==> u in sorted
  {
    r := sorted;
    var out := 0;
    for i := 0 to |sorted|
      invariant out <= i && |r| == |sorted|
      invariant forall k :: 0 <= k < |sorted| && i <= k + 1 ==> r[k] == sorted[k]
      invariant StrictlyAscending(r[..out])
      invariant forall u :: u in r[..out] <==> u in sorted[..i]
      invariant i > 0 ==> out > 0 && r[out - 1] == sorted[i - 1]
    {
      assert sorted[..i + 1] == sorted[..i] + [sorted[i]];
      if i > 0 && r[i] == r[i - 1] {
        continue;
      }
      ghost var before := r;
      r := r[out := r[i]];
      out := out + 1;
      assert r[..out] == before[..out - 1] + [sorted[i]];
    }
    assert sorted[..|sorted|] == sorted;
    r := r[..out];
  }

  /** The distinct root nodes in ascending order. */
  method CollectRoots(doc: Document) returns (roots: seq<NodeId>)
    ensures StrictlyAscending(roots)
    ensures forall u :: u in roots <==> u in AllRoots(doc)
  {
    hide AllRoots;
    var sorted := SortIds(AllRoots(doc));
    roots := DropRepeats(sorted);
    forall u
      ensures u in roots <==> u in AllRoots(doc)
    {
      assert u in sorted <==> u in multiset(sorted);
      assert u in AllRoots(doc) <==> u in multiset(AllRoots(doc));
    }
  }
}
