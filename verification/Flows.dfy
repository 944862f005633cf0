/** Dependency edges derived from a flow document's dataflow: flowDoc.toAdapterFlow
    (cmd/nilcore/flows.go), without titles, tools and runtime fields. */
module Flows {

  /** `needs` and `makes` are the artifacts the node requires and produces. */
  datatype Node = Node(id: string, needs: seq<string>, makes: seq<string>)

  datatype Edge = Edge(from: string, to: string)

  const ARROW := "->"

  function EdgeKey(e: Edge): (k: string) {
    e.from + ARROW + e.to
  }

  // --- What the edges should be ---

  /** Index of the first node that makes `art`; |nodes| when none does. */
  function FirstMaker(nodes: seq<Node>, art: string): (i: nat)
    ensures i <= |nodes|
    ensures i < |nodes| ==> art in nodes[i].makes
    ensures forall j :: 0 <= j < i ==> art !in nodes[j].makes
  {
    if nodes == [] || art in nodes[0].makes then 0 else 1 + FirstMaker(nodes[1..], art)
  }

  predicate Depends(nodes: seq<Node>, n: nat, art: string, e: Edge) {
    && n < |nodes| && art in nodes[n].needs
    && FirstMaker(nodes, art) < |nodes|
    && e == Edge(nodes[FirstMaker(nodes, art)].id, nodes[n].id)
    && e.from != e.to
  }

  /** `e` runs from the first producer of a required artifact to a node that requires it. */
  ghost predicate Derived(nodes: seq<Node>, e: Edge) {
    exists n, art :: Depends(nodes, n, art, e)
  }

  // --- The derivation ---

  /** One node's products, each credited to it unless an earlier node made it. */
  method Credit(producer: map<string, string>, n: Node) returns (r: map<string, string>)
    ensures forall art :: art in r <==> art in producer || art in n.makes
    ensures forall art :: art in r ==> r[art] == if art in producer then producer[art] else n.id
  {
    r := producer;
    var k := 0;
    while k < |n.makes|
      invariant 0 <= k <= |n.makes|
      invariant forall art :: art in r <==> art in producer || art in n.makes[..k]
      invariant forall art :: art in r ==> r[art] == if art in producer then producer[art] else n.id
    {
      if n.makes[k] !in r {
        r := r[n.makes[k] := n.id];
      }
      k := k + 1;
    }
  }

  lemma FirstMakerAt(nodes: seq<Node>, art: string, i: nat)
    requires i < |nodes| && i <= FirstMaker(nodes, art)
    ensures FirstMaker(nodes, art) == i <==> art in nodes[i].makes
  {
  }

  method Producers(nodes: seq<Node>) returns (producer: map<string, string>)
    ensures forall art :: art in producer <==> FirstMaker(nodes, art) < |nodes|
    ensures forall art :: art in producer ==> producer[art] == nodes[FirstMaker(nodes, art)].id
  {
    producer := map[];
    var i := 0;
    while i < |nodes|
      invariant 0 <= i <= |nodes|
      invariant forall art :: art in producer <==> FirstMaker(nodes, art) < i
      invariant forall art :: art in producer ==> producer[art] == nodes[FirstMaker(nodes, art)].id
    {
      forall art | art !in producer ensures FirstMaker(nodes, art) == i <==> art in nodes[i].makes {
        FirstMakerAt(nodes, art, i);
      }
      producer := Credit(producer, nodes[i]);
      i := i + 1;
    }
  }

  predicate HasKey(edges: seq<Edge>, k: string) {
    exists e :: e in edges && EdgeKey(e) == k
  }

  predicate DistinctKeys(edges: seq<Edge>) {
    forall i, j :: 0 <= i < j < |edges| ==> EdgeKey(edges[i]) != EdgeKey(edges[j])
  }

  /** `seen` holds the keys of `edges`, and no two edges share one. */
  ghost predicate Recorded(edges: seq<Edge>, seen: set<string>) {
    && DistinctKeys(edges)
    && (forall e :: e in edges ==> EdgeKey(e) in seen)
    && forall k :: k in seen ==> HasKey(edges, k)
  }

  method AddEdge(edges: seq<Edge>, seen: set<string>, e: Edge) returns (out: seq<Edge>, marked: set<string>)
    requires Recorded(edges, seen)
    ensures Recorded(out, marked) && marked == seen + {EdgeKey(e)}
    ensures forall x :: x in out ==> x in edges || x == e
  {
    out, marked := edges, seen;
    if EdgeKey(e) !in seen {
      marked := seen + {EdgeKey(e)};
      out := edges + [e];
      assert e in out;
    } else {
      assert marked == seen + {EdgeKey(e)};
    }
  }

  method AddEdgesInto(nodes: seq<Node>, producer: map<string, string>, i: nat, edges: seq<Edge>, seen: set<string>)
    returns (out: seq<Edge>, marked: set<string>)
    requires i < |nodes| && Recorded(edges, seen)
    requires forall art :: art in producer <==> FirstMaker(nodes, art) < |nodes|
    requires forall art :: art in producer ==> producer[art] == nodes[FirstMaker(nodes, art)].id
    ensures Recorded(out, marked) && seen <= marked
    ensures forall e :: e in out ==> e in edges || Derived(nodes, e)
    ensures forall art, e :: Depends(nodes, i, art, e) ==> EdgeKey(e) in marked
  {
    out, marked := edges, seen;
    var needs, k := nodes[i].needs, 0;
    while k < |needs|
      invariant 0 <= k <= |needs|
      invariant Recorded(out, marked) && seen <= marked
      invariant forall e :: e in out ==> e in edges || Derived(nodes, e)
      invariant forall art, e :: art in needs[..k] && Depends(nodes, i, art, e) ==> EdgeKey(e) in marked
    {
      var art := needs[k];
      assert needs[..k + 1] == needs[..k] + [art];
      if art in producer && producer[art] != nodes[i].id {
        var e := Edge(producer[art], nodes[i].id);
        assert Depends(nodes, i, art, e) && forall f :: Depends(nodes, i, art, f) ==> f == e;
        out, marked := AddEdge(out, marked, e);
      } else {
        assert forall f :: !Depends(nodes, i, art, f);
      }
      k := k + 1;
    }
    assert needs[..k] == needs;
  }

  /** Edges in document order. An edge is skipped when one with its key came before. */
  method DeriveEdges(nodes: seq<Node>) returns (edges: seq<Edge>)
    ensures EdgesOf(nodes, edges)
  {
    var producer := Producers(nodes);
    edges := [];
    var seen, i := {}, 0;
    while i < |nodes|
      invariant 0 <= i <= |nodes|
      invariant Recorded(edges, seen)
      invariant forall e :: e in edges ==> Derived(nodes, e)
      invariant forall n: nat, art, e :: n < i && Depends(nodes, n, art, e) ==> EdgeKey(e) in seen
    {
      edges, seen := AddEdgesInto(nodes, producer, i, edges, seen);
      i := i + 1;
    }
  }

  // --- When every edge is there ---

  /** What DeriveEdges promises of its result. */
  ghost predicate EdgesOf(nodes: seq<Node>, edges: seq<Edge>) {
    && (forall e :: e in edges ==> Derived(nodes, e))
    && DistinctKeys(edges)
    && forall e :: Derived(nodes, e) ==> HasKey(edges, EdgeKey(e))
  }

  ghost predicate KeysTellApart(nodes: seq<Node>) {
    forall e, f :: Derived(nodes, e) && Derived(nodes, f) && EdgeKey(e) == EdgeKey(f) ==> e == f
  }

  ghost predicate AllThere(nodes: seq<Node>, edges: seq<Edge>) {
    forall e :: Derived(nodes, e) ==> e in edges
  }

  /** Each derived edge is there, once, exactly when no two derived edges share a key. */
  lemma {:induction false} EdgesCompleteExactly(nodes: seq<Node>, edges: seq<Edge>)
    requires EdgesOf(nodes, edges)
    ensures AllThere(nodes, edges) <==> KeysTellApart(nodes)
    ensures forall i, j :: 0 <= i < j < |edges| ==> edges[i] != edges[j]
  {
  }

  predicate Arrowless(id: string) {
    forall i :: 0 <= i < |id| - 1 ==> !(id[i] == '-' && id[i + 1] == '>')
  }

  /** The first arrow of a key ends its arrowless `from`. */
  lemma {:induction false} ArrowlessKeysTellApart(e: Edge, f: Edge)
    requires Arrowless(e.from) && Arrowless(f.from) && EdgeKey(e) == EdgeKey(f)
    ensures e == f
  {
    var k := EdgeKey(e);
    assert k[|e.from|] == '-' && k[|e.from| + 1] == '>' && k[|f.from|] == '-' && k[|f.from| + 1] == '>';
    if |e.from| < |f.from| {
      ArrowInside(f, |e.from|);
    } else if |f.from| < |e.from| {
      ArrowInside(e, |f.from|);
    } else {
      assert k[..|e.from|] == e.from && k[..|f.from|] == f.from;
      assert k[|e.from| + 2..] == e.to && k[|f.from| + 2..] == f.to;
    }
  }

  lemma ArrowInside(e: Edge, i: nat)
    requires i < |e.from| && EdgeKey(e)[i] == '-' && EdgeKey(e)[i + 1] == '>'
    ensures !Arrowless(e.from)
  {
  }

  /** The derived edges are exactly the first-producer pairs, each once, when no producer id contains an
      arrow. */
  lemma {:induction false} ArrowlessFlowsAreComplete(nodes: seq<Node>, edges: seq<Edge>)
    requires EdgesOf(nodes, edges)
    requires forall n :: n in nodes && n.makes != [] ==> Arrowless(n.id)
    ensures forall e :: e in edges <==> Derived(nodes, e)
    ensures forall i, j :: 0 <= i < j < |edges| ==> edges[i] != edges[j]
  {
    forall e, f | Derived(nodes, e) && Derived(nodes, f) && EdgeKey(e) == EdgeKey(f) ensures e == f {
      DerivedFromMaker(nodes, e);
      DerivedFromMaker(nodes, f);
      ArrowlessKeysTellApart(e, f);
    }
    EdgesCompleteExactly(nodes, edges);
  }

  lemma {:induction false} DerivedFromMaker(nodes: seq<Node>, e: Edge)
    requires Derived(nodes, e)
    ensures exists n :: n in nodes && n.makes != [] && n.id == e.from
  {
  }

  /** Two documents' worth of ids that a key cannot tell apart: one of the two edges is lost. */
  lemma ArrowsLoseAnEdge() returns (nodes: seq<Node>)
    ensures !KeysTellApart(nodes)
  {
    nodes := [Node("a", [], ["x"]), Node("a->b", [], ["y"]), Node("b->c", ["x"], []), Node("c", ["y"], [])];
    var e, f := Edge("a", "b->c"), Edge("a->b", "c");
    assert FirstMaker(nodes, "x") == 0 && FirstMaker(nodes, "y") == 1;
    assert Depends(nodes, 2, "x", e) && Depends(nodes, 3, "y", f);
    assert EdgeKey(e) == "a->b->c" == EdgeKey(f);
    assert e != f by { assert |e.from| != |f.from|; }
  }

  // --- Acyclicity ---

  /** No node requires an artifact whose first producer comes after it. */
  predicate ProducedEarlier(nodes: seq<Node>) {
    forall n, art :: 0 <= n < |nodes| && art in nodes[n].needs && FirstMaker(nodes, art) < |nodes| ==>
        FirstMaker(nodes, art) <= n
  }

  function Position(nodes: seq<Node>, id: string): (i: nat)
    ensures i <= |nodes|
    ensures i < |nodes| ==> nodes[i].id == id
    ensures forall j :: 0 <= j < i ==> nodes[j].id != id
  {
    if nodes == [] || nodes[0].id == id then 0 else 1 + Position(nodes[1..], id)
  }

  ghost predicate Path(nodes: seq<Node>, p: seq<string>) {
    |p| >= 2 && forall i :: 0 <= i < |p| - 1 ==> Derived(nodes, Edge(p[i], p[i + 1]))
  }

  /** Equal ids stand side by side. */
  predicate Contiguous(ids: seq<string>) {
    forall i, j, k :: 0 <= i < j < k < |ids| && ids[i] == ids[k] ==> ids[j] == ids[i]
  }

  function Ids(nodes: seq<Node>): (r: seq<string>) {
    seq(|nodes|, i requires 0 <= i < |nodes| => nodes[i].id)
  }

  lemma {:induction false} EdgesGoForward(nodes: seq<Node>, e: Edge)
    requires Contiguous(Ids(nodes)) && ProducedEarlier(nodes) && Derived(nodes, e)
    ensures Position(nodes, e.from) < Position(nodes, e.to)
  {
    var n: nat, art :| Depends(nodes, n, art, e);
    var m, to := FirstMaker(nodes, art), Position(nodes, e.to);
    assert m <= n && Position(nodes, e.from) <= m && to <= n;
    assert Ids(nodes)[to] == e.to && Ids(nodes)[m] == e.from && Ids(nodes)[n] == e.to;
  }

  /** With equal ids side by side and every required artifact first produced earlier, no path of derived
      edges returns to where it started. */
  lemma {:induction false} OrderedFlowsAreAcyclic(nodes: seq<Node>, p: seq<string>)
    requires Contiguous(Ids(nodes)) && ProducedEarlier(nodes) && Path(nodes, p)
    ensures Position(nodes, p[0]) < Position(nodes, p[|p| - 1]) && p[0] != p[|p| - 1]
    decreases |p|
  {
    var n := |p| - 1;
    assert Derived(nodes, Edge(p[n - 1], p[n - 1 + 1]));
    EdgesGoForward(nodes, Edge(p[n - 1], p[n]));
    if n > 1 {
      OrderedFlowsAreAcyclic(nodes, p[..n]);
    }
  }

  ghost predicate Acyclic(nodes: seq<Node>) {
    forall p :: Path(nodes, p) ==> p[0] != p[|p| - 1]
  }

  ghost predicate OrderMakesAcyclic(ids: seq<string>) {
    forall nodes :: Ids(nodes) == ids && ProducedEarlier(nodes) ==> Acyclic(nodes)
  }

  /** A document with the ids `ids` in which node j consumes what node i makes, and node k what j makes. */
  function Looping(ids: seq<string>, i: nat, j: nat, k: nat): (nodes: seq<Node>) {
    seq(|ids|, n requires 0 <= n < |ids| =>
      Node(ids[n], if n == j then ["x"] else if n == k then ["y"] else [],
           if n == i then ["x"] else if n == j then ["y"] else []))
  }

  lemma FirstMakerIs(nodes: seq<Node>, art: string, i: nat)
    requires i < |nodes| && art in nodes[i].makes && forall j :: 0 <= j < i ==> art !in nodes[j].makes
    ensures FirstMaker(nodes, art) == i
  {
  }

  lemma {:induction false} LoopingIsOrdered(ids: seq<string>, i: nat, j: nat, k: nat)
    requires i < j < k < |ids|
    ensures var nodes := Looping(ids, i, j, k);
            Ids(nodes) == ids && ProducedEarlier(nodes) && FirstMaker(nodes, "x") == i && FirstMaker(nodes, "y") == j
  {
    var nodes := Looping(ids, i, j, k);
    assert "x" != "y" by { assert "x"[0] != "y"[0]; }
    FirstMakerIs(nodes, "x", i);
    FirstMakerIs(nodes, "y", j);
    forall n, art | 0 <= n < |nodes| && art in nodes[n].needs ensures FirstMaker(nodes, art) <= n {
      assert (n == j && art == "x") || (n == k && art == "y");
    }
  }

  lemma {:induction false} GapClosesACycle(ids: seq<string>, i: nat, j: nat, k: nat)
    requires i < j < k < |ids| && ids[i] == ids[k] != ids[j]
    ensures Path(Looping(ids, i, j, k), [ids[i], ids[j], ids[i]])
  {
    var nodes, p := Looping(ids, i, j, k), [ids[i], ids[j], ids[i]];
    LoopingIsOrdered(ids, i, j, k);
    assert Depends(nodes, j, "x", Edge(ids[i], ids[j]));
    assert Depends(nodes, k, "y", Edge(ids[j], ids[i]));
    assert Derived(nodes, Edge(p[0], p[1])) && Derived(nodes, Edge(p[1], p[2]));
  }

  /** Producing before requiring makes every document with these ids acyclic exactly when equal ids
      stand side by side. */
  lemma {:induction false} OrderMakesAcyclicExactly(ids: seq<string>)
    ensures OrderMakesAcyclic(ids) <==> Contiguous(ids)
  {
    if Contiguous(ids) {
      forall nodes, p | Ids(nodes) == ids && ProducedEarlier(nodes) && Path(nodes, p) ensures p[0] != p[|p| - 1] {
        OrderedFlowsAreAcyclic(nodes, p);
      }
    } else {
      var i, j, k :| 0 <= i < j < k < |ids| && ids[i] == ids[k] && ids[j] != ids[i];
      LoopingIsOrdered(ids, i, j, k);
      GapClosesACycle(ids, i, j, k);
      var p := [ids[i], ids[j], ids[i]];
      assert p[0] == p[|p| - 1];
    }
  }

  /** Ids repeated apart are enough: a repeated id closes a cycle although every producer comes first. */
  lemma RepeatedIdsCloseACycle() returns (nodes: seq<Node>, p: seq<string>)
    ensures ProducedEarlier(nodes) && Path(nodes, p) && p[0] == p[|p| - 1]
  {
    nodes := [Node("a", [], ["x"]), Node("b", ["x"], ["y"]), Node("a", ["y"], [])];
    p := ["a", "b", "a"];
    assert FirstMaker(nodes, "x") == 0 && FirstMaker(nodes, "y") == 1;
    assert Depends(nodes, 1, "x", Edge("a", "b")) && Depends(nodes, 2, "y", Edge("b", "a"));
    assert Derived(nodes, Edge(p[0], p[1])) && Derived(nodes, Edge(p[1], p[2]));
  }
}
