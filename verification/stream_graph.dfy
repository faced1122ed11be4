/** The stream graph: a duct graph bounded by the head and tail sentinels,
    the edge insertions that keep the sentinels in place, the neighbour
    queries, and the three lifecycle passes. */
module StreamGraphs {
  import opened Ducts
  import opened Seqs
  import opened DuctGraphs
  import opened Synthesis
  import opened Lifecycle

  /** The graph after adding both ends as vertices and the edge between them. */
  function PathAdded(g: DuctGraph, source: Duct, target: Duct): DuctGraph {
    g.AddVertex(source).AddVertex(target).AddEdge(source, target)
  }

  class StreamGraph {
    var graph: DuctGraph

    /** The graph is well formed and no edge enters the head or leaves the tail. */
    ghost predicate Valid()
      reads this
    {
      graph.WellFormed() && graph.SentinelsWellPlaced()
    }

    constructor ()
      ensures Valid() && graph == DuctGraph([], [])
    {
      graph := DuctGraph([], []);
    }

    /** addPath: rejects two null ends, a tail source and a head target (in
        that order); otherwise a null source becomes the head and a null target
        the tail, both ends become vertices, the edge is added, and nothing
        else changes. */
    method AddPath(lhs: Option<Duct>, rhs: Option<Duct>) returns (r: Outcome)
      requires Valid()
      modifies this
      ensures Valid()
      ensures r == Fail(BothEndsNull) <==> lhs.None? && rhs.None?
      ensures r == Fail(LhsIsTail) <==> lhs == Some(Tail)
      ensures r == Fail(RhsIsHead) <==> rhs == Some(Head) && lhs != Some(Tail)
      ensures r.Fail? ==> r.error in {BothEndsNull, LhsIsTail, RhsIsHead} && graph == old(graph)
      ensures r.Pass? ==> graph == PathAdded(old(graph), lhs.GetOr(Head), rhs.GetOr(Tail))
      ensures r.Pass? ==>
                && graph.edges == old(graph.edges) + [(lhs.GetOr(Head), rhs.GetOr(Tail))]
                && old(graph.vertices) <= graph.vertices
                && forall d :: d in graph.vertices <==>
                                 d in old(graph.vertices) || d == lhs.GetOr(Head) || d == rhs.GetOr(Tail)
    {
      if lhs.None? && rhs.None? {
        return Fail(BothEndsNull);
      }
      if lhs == Some(Tail) {
        return Fail(LhsIsTail);
      }
      if rhs == Some(Head) {
        return Fail(RhsIsHead);
      }
      var source := lhs.GetOr(Head);
      var target := rhs.GetOr(Tail);
      graph := graph.AddVertex(source);
      graph := graph.AddVertex(target);
      graph := graph.AddEdge(source, target);
      return Pass;
    }

    /** addHead(d) is addPath(HEAD, d): it fails only for the head itself, and
        appends d (the tail for null) to the heads. */
    method AddHead(head: Option<Duct>) returns (r: Outcome)
      requires Valid()
      modifies this
      ensures Valid()
      ensures r == (if head == Some(Head) then Fail(RhsIsHead) else Pass)
      ensures r.Fail? ==> graph == old(graph)
      ensures r.Pass? ==> graph == PathAdded(old(graph), Head, head.GetOr(Tail))
      ensures r.Pass? ==> GetHeads(graph) == Ok(old(graph).Successors(Head) + [head.GetOr(Tail)])
      ensures r.Pass? && GetHeads(old(graph)).Ok? ==>
                GetHeads(graph).value == GetHeads(old(graph)).value + [head.GetOr(Tail)]
    {
      r := AddPath(Some(Head), head);
      if r.Pass? {
        SuccessorsInSnoc(old(graph).edges, (Head, head.GetOr(Tail)), Head);
      }
    }

    /** addTail(d) is addPath(d, TAIL): it fails only for the tail itself. */
    method AddTail(tail: Option<Duct>) returns (r: Outcome)
      requires Valid()
      modifies this
      ensures Valid()
      ensures r == (if tail == Some(Tail) then Fail(LhsIsTail) else Pass)
      ensures r.Fail? ==> graph == old(graph)
      ensures r.Pass? ==> graph == PathAdded(old(graph), tail.GetOr(Head), Tail)
    {
      r := AddPath(tail, Some(Tail));
    }

    /** findAllNextFor: fails for a duct that is not a vertex, and exactly
        when the head is a successor; otherwise the successors in edge order
        with every tail removed. */
    method FindAllNextFor(current: Duct) returns (r: Result<seq<Duct>>)
      ensures r == AllNext(graph, current)
      ensures r == Err(NoSuchVertex) <==> current !in graph.vertices
      ensures r == Err(HeadIsNext) <==> current in graph.vertices && Head in graph.Successors(current)
      ensures r.Err? ==> r.error in {NoSuchVertex, HeadIsNext}
      ensures r.Ok? ==> forall d :: d in r.value <==> d in graph.Successors(current) && d != Tail
      ensures Valid() && current in graph.vertices ==> r.Ok? && Tail !in r.value
    {
      SuccessorsInMembership(graph.edges, current);
      if current !in graph.vertices {
        return Err(NoSuchVertex);
      }
      var successors := graph.Successors(current);
      var kept: seq<Duct> := [];
      var i := 0;
      while i < |successors|
        invariant 0 <= i <= |successors|
        invariant Head !in successors[..i]
        invariant kept == Without(successors[..i], Tail)
      {
        var successor := successors[i];
        if successor == Head {
          return Err(HeadIsNext);
        }
        assert successors[..i + 1][..i] == successors[..i];
        if successor != Tail {
          kept := kept + [successor];
        }
        i := i + 1;
      }
      assert successors[..i] == successors;
      return Ok(kept);
    }

    /** findAllPreviousFor: fails for a duct that is not a vertex, and
        exactly when the tail is a predecessor; otherwise the predecessors in
        edge order with every head removed. */
    method FindAllPreviousFor(current: Duct) returns (r: Result<seq<Duct>>)
      ensures r == AllPrevious(graph, current)
      ensures r == Err(NoSuchVertex) <==> current !in graph.vertices
      ensures r == Err(TailIsPrevious) <==> current in graph.vertices && Tail in graph.Predecessors(current)
      ensures r.Err? ==> r.error in {NoSuchVertex, TailIsPrevious}
      ensures r.Ok? ==> forall d :: d in r.value <==> d in graph.Predecessors(current) && d != Head
      ensures Valid() && current in graph.vertices ==> r.Ok? && Head !in r.value
    {
      PredecessorsInMembership(graph.edges, current);
      if current !in graph.vertices {
        return Err(NoSuchVertex);
      }
      var predecessors := graph.Predecessors(current);
      var kept: seq<Duct> := [];
      var i := 0;
      while i < |predecessors|
        invariant 0 <= i <= |predecessors|
        invariant Tail !in predecessors[..i]
        invariant kept == Without(predecessors[..i], Head)
      {
        var predecessor := predecessors[i];
        if predecessor == Tail {
          return Err(TailIsPrevious);
        }
        assert predecessors[..i + 1][..i] == predecessors[..i];
        if predecessor != Head {
          kept := kept + [predecessor];
        }
        i := i + 1;
      }
      assert predecessors[..i] == predecessors;
      return Ok(kept);
    }

    /** getAllDucts: the vertex set, each duct once, holding both ends of every edge. */
    function GetAllDucts(): (r: seq<Duct>)
      reads this
      ensures Valid() ==> Distinct(r) && forall e :: e in graph.edges ==> e.0 in r && e.1 in r
    {
      graph.vertices
    }

    /** getAllPairs: one (source, target) pair per edge, in edge order. */
    method GetAllPairs() returns (pairs: seq<(Duct, Duct)>)
      ensures |pairs| == |graph.edges|
      ensures forall i :: 0 <= i < |pairs| ==> pairs[i].0 == graph.edges[i].0 && pairs[i].1 == graph.edges[i].1
      ensures Valid() ==> forall p :: p in pairs ==> p.0 in GetAllDucts() && p.1 in GetAllDucts()
    {
      pairs := [];
      var i := 0;
      while i < |graph.edges|
        invariant 0 <= i <= |graph.edges|
        invariant pairs == graph.edges[..i]
      {
        var edge := graph.edges[i];
        pairs := pairs + [(edge.0, edge.1)];
        i := i + 1;
      }
    }

    /** bind: calls bind on every duct in the given topological order, then
        initialize on every duct of the vertex set; a failure to build the
        order propagates before any hook runs. Over a topological order each
        duct is bound once and initialized once, sources are bound before
        their targets, and every bind precedes every initialize. */
    method Bind(order: Option<seq<Duct>>) returns (r: Result<seq<Event>>)
      ensures order.None? ==> r == Err(OrderUnavailable)
      ensures order.Some? ==> r == Ok(Calls(Bound, order.value) + Calls(Initialized, graph.vertices))
      ensures order.Some? && Valid() && IsTopologicalOrder(graph, order.value) ==>
                && OncePerVertex(r.value, Bound, graph)
                && OncePerVertex(r.value, Initialized, graph)
                && AlongEdges(r.value, Bound, graph)
                && AllBefore(r.value, Bound, Initialized)
    {
      if order.None? {
        return Err(OrderUnavailable);
      }
      var ducts := order.value;
      var trace: seq<Event> := [];
      var i := 0;
      while i < |ducts|
        invariant 0 <= i <= |ducts|
        invariant trace == Calls(Bound, ducts[..i])
      {
        trace := trace + [Event(Bound, ducts[i])];
        i := i + 1;
      }
      assert ducts[..i] == ducts;
      var all := GetAllDucts();
      var j := 0;
      while j < |all|
        invariant 0 <= j <= |all|
        invariant trace == Calls(Bound, ducts) + Calls(Initialized, all[..j])
      {
        trace := trace + [Event(Initialized, all[j])];
        j := j + 1;
      }
      assert all[..j] == all;
      if Valid() && IsTopologicalOrder(graph, ducts) {
        BindPass(graph, ducts);
      }
      return Ok(trace);
    }

    /** prepare: calls prepare on every duct in a topological order of the
        reversed graph. Over such an order each duct is prepared once, and for
        every edge the target is prepared before the source. */
    method Prepare(order: Option<seq<Duct>>) returns (r: Result<seq<Event>>)
      ensures order.None? ==> r == Err(OrderUnavailable)
      ensures order.Some? ==> r == Ok(Calls(Prepared, order.value))
      ensures order.Some? && IsTopologicalOrder(graph.Reversed(), order.value) ==>
                OncePerVertex(r.value, Prepared, graph) && AgainstEdges(r.value, Prepared, graph)
    {
      if order.None? {
        return Err(OrderUnavailable);
      }
      var ducts := order.value;
      var trace: seq<Event> := [];
      var i := 0;
      while i < |ducts|
        invariant 0 <= i <= |ducts|
        invariant trace == Calls(Prepared, ducts[..i])
      {
        trace := trace + [Event(Prepared, ducts[i])];
        i := i + 1;
      }
      assert ducts[..i] == ducts;
      if IsTopologicalOrder(graph.Reversed(), ducts) {
        ReversePass(graph, ducts, Prepared);
      }
      return Ok(trace);
    }

    /** cleanup: calls cleanup on every duct in a topological order. Over
        such an order each duct is cleaned up once, and for every edge the
        source is cleaned up before the target. */
    method Cleanup(order: Option<seq<Duct>>) returns (r: Result<seq<Event>>)
      ensures order.None? ==> r == Err(OrderUnavailable)
      ensures order.Some? ==> r == Ok(Calls(CleanedUp, order.value))
      ensures order.Some? && IsTopologicalOrder(graph, order.value) ==>
                OncePerVertex(r.value, CleanedUp, graph) && AlongEdges(r.value, CleanedUp, graph)
    {
      if order.None? {
        return Err(OrderUnavailable);
      }
      var ducts := order.value;
      var trace: seq<Event> := [];
      var i := 0;
      while i < |ducts|
        invariant 0 <= i <= |ducts|
        invariant trace == Calls(CleanedUp, ducts[..i])
      {
        trace := trace + [Event(CleanedUp, ducts[i])];
        i := i + 1;
      }
      assert ducts[..i] == ducts;
      if IsTopologicalOrder(graph, ducts) {
        ForwardPass(graph, ducts, CleanedUp);
      }
      return Ok(trace);
    }
  }
}
