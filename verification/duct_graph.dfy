/** The directed graph the stream graph keeps its ducts in: an arena of
    vertices in insertion order and an ordered list of edges, an edge's
    position being its identity. */
module DuctGraphs {
  import opened Ducts
  import opened Seqs

  /** (source, target) */
  type Edge = (Duct, Duct)

  /** Targets of the edges leaving `d`, one per edge, in edge order. */
  function SuccessorsIn(es: seq<Edge>, d: Duct): seq<Duct> {
    if es == [] then []
    else
      var last := es[|es| - 1];
      SuccessorsIn(es[..|es| - 1], d) + (if last.0 == d then [last.1] else [])
  }

  /** x is listed among d's successors exactly when there is an edge d -> x. */
  lemma {:induction false} SuccessorsInMembership(es: seq<Edge>, d: Duct)
    ensures forall x :: x in SuccessorsIn(es, d) <==> (d, x) in es
  {
    if es != [] {
      var init := es[..|es| - 1];
      SuccessorsInMembership(init, d);
      assert es == init + [es[|es| - 1]];
    }
  }

  /** Sources of the edges entering `d`, one per edge, in edge order. */
  function PredecessorsIn(es: seq<Edge>, d: Duct): seq<Duct> {
    if es == [] then []
    else
      var last := es[|es| - 1];
      PredecessorsIn(es[..|es| - 1], d) + (if last.1 == d then [last.0] else [])
  }

  /** x is listed among d's predecessors exactly when there is an edge x -> d. */
  lemma {:induction false} PredecessorsInMembership(es: seq<Edge>, d: Duct)
    ensures forall x :: x in PredecessorsIn(es, d) <==> (x, d) in es
  {
    if es != [] {
      var init := es[..|es| - 1];
      PredecessorsInMembership(init, d);
      assert es == init + [es[|es| - 1]];
    }
  }

  /** Every edge turned round. */
  function Flipped(es: seq<Edge>): (r: seq<Edge>)
    ensures |r| == |es|
    ensures forall u, v :: (u, v) in r <==> (v, u) in es
  {
    if es == [] then []
    else
      var last := es[|es| - 1];
      Flipped(es[..|es| - 1]) + [(last.1, last.0)]
  }

  datatype DuctGraph = DuctGraph(vertices: seq<Duct>, edges: seq<Edge>) {

    /** A vertex set holds each duct once, and every edge joins two of its vertices. */
    ghost predicate WellFormed() {
      && Distinct(vertices)
      && forall e :: e in edges ==> e.0 in vertices && e.1 in vertices
    }

    /** No edge enters the head; no edge leaves the tail. */
    ghost predicate SentinelsWellPlaced() {
      forall e :: e in edges ==> e.1 != Head && e.0 != Tail
    }

    /** addVertex: adds `d` at the end of the vertex set unless it is already there. */
    function AddVertex(d: Duct): (g: DuctGraph)
      ensures g.edges == edges
      ensures vertices <= g.vertices && |g.vertices| <= |vertices| + 1
      ensures forall x :: x in g.vertices <==> x in vertices || x == d
      ensures Distinct(vertices) ==> Distinct(g.vertices)
    {
      if d in vertices then this else DuctGraph(vertices + [d], edges)
    }

    /** addEdge: appends the edge u -> v. */
    function AddEdge(u: Duct, v: Duct): DuctGraph {
      DuctGraph(vertices, edges + [(u, v)])
    }

    /** successorListOf */
    function Successors(d: Duct): seq<Duct> {
      SuccessorsIn(edges, d)
    }

    /** predecessorListOf */
    function Predecessors(d: Duct): seq<Duct> {
      PredecessorsIn(edges, d)
    }

    /** The size of outgoingEdgesOf(d): one successor entry per outgoing edge. */
    function OutDegree(d: Duct): nat {
      |Successors(d)|
    }

    /** getReversedGraph: the same vertices, every edge turned round. */
    function Reversed(): (g: DuctGraph)
      ensures g.vertices == vertices
      ensures forall u, v :: (u, v) in g.edges <==> (v, u) in edges
    {
      DuctGraph(vertices, Flipped(edges))
    }
  }

  /** Appending an edge to an edge list extends only its source's successors. */
  lemma SuccessorsInSnoc(es: seq<Edge>, e: Edge, d: Duct)
    ensures SuccessorsIn(es + [e], d) == SuccessorsIn(es, d) + (if e.0 == d then [e.1] else [])
  {
    assert (es + [e])[..|es|] == es;
  }
}
