/** The next-duct synthesis of the stream graph: the neighbour queries that
    hide the sentinels, and createNextFor, the case analysis that decides
    what a duct routes to. All of it reads the graph and changes nothing. */
module Synthesis {
  import opened Ducts
  import opened Seqs
  import opened DuctGraphs

  /** What findAllNextFor answers: fails for a duct that is not a vertex, or
      if the head is a successor; otherwise the successors with every tail
      removed. */
  function AllNext(g: DuctGraph, current: Duct): Result<seq<Duct>> {
    var successors := g.Successors(current);
    if current !in g.vertices then Err(NoSuchVertex)
    else if Head in successors then Err(HeadIsNext)
    else Ok(Without(successors, Tail))
  }

  /** What findAllPreviousFor answers: fails for a duct that is not a vertex,
      or if the tail is a predecessor; otherwise the predecessors with every
      head removed. */
  function AllPrevious(g: DuctGraph, current: Duct): Result<seq<Duct>> {
    var predecessors := g.Predecessors(current);
    if current !in g.vertices then Err(NoSuchVertex)
    else if Tail in predecessors then Err(TailIsPrevious)
    else Ok(Without(predecessors, Head))
  }

  /** getHeads: the successors of the head sentinel, which the graph only
      answers once the head is a vertex. */
  function GetHeads(g: DuctGraph): (r: Result<seq<Duct>>)
    ensures r.Err? <==> Head !in g.vertices
    ensures r.Err? ==> r.error == NoSuchVertex
    ensures r.Ok? ==> forall d :: d in r.value <==> (Head, d) in g.edges
    ensures r.Ok? && g.SentinelsWellPlaced() ==> Head !in r.value
  {
    SuccessorsInMembership(g.edges, Head);
    if Head !in g.vertices then Err(NoSuchVertex) else Ok(g.Successors(Head))
  }

  /** `n` routes along `current`'s outgoing edges: it holds a fork exactly
      when there are several outgoing edges and the first successor is not
      reused as is; a fork goes to every successor but the tail, in edge
      order, and anything else to the first successor. */
  ghost predicate RoutesAlongEdges(g: DuctGraph, current: Duct, n: Next) {
    var successors := g.Successors(current);
    && |successors| > 0
    && (HasFork(n) <==> |successors| > 1 && n != Existing(successors[0]))
    && (HasFork(n) ==> Targets(n) == Without(successors, Tail))
    && (!HasFork(n) ==> Targets(n) == [successors[0]])
  }

  /** createNextFor: None for a sentinel, otherwise the duct `current` routes
      to, wrapped in the window and fork ducts its position calls for. */
  function CreateNextFor(g: DuctGraph, current: Duct): (r: Result<Option<Next>>)
    ensures current.IsSentinel() <==> r == Ok(None)
    ensures r == Err(NoSuchVertex) <==> !current.IsSentinel() && current !in g.vertices
    ensures r == Err(NoOutgoingEdge) <==>
              !current.IsSentinel() && current in g.vertices && g.OutDegree(current) == 0
    ensures r == Err(TailBoundToNext) <==>
              current.IsOrdinary() && current in g.vertices && g.Successors(current) == [Tail]
    ensures r == Err(HeadIsNext) ==> g.OutDegree(current) > 1 && Head in g.Successors(current)
    ensures r.Err? ==> r.error in {NoSuchVertex, NoOutgoingEdge, TailBoundToNext, HeadIsNext}
    ensures r.Ok? && r.value.Some? ==> current in g.vertices && RoutesAlongEdges(g, current, r.value.value)
  {
    if current.IsSentinel() then Ok(None)
    else if current !in g.vertices then Err(NoSuchVertex)
    else
      var successors := g.Successors(current);
      if |successors| == 0 then Err(NoOutgoingEdge)
      else
        var next := successors[0];
        if current.IsGate() then
          if next.IsOpenWindow() then Ok(Some(Existing(next)))
          else if |successors| > 1 then
            match AllNext(g, current)
            case Err(e) => Err(e)
            case Ok(all) => assert HasFork(Fork(all)); Ok(Some(OpenWindow(Fork(all))))
          else if next.IsReducing() then Ok(Some(OpenReducingWindow(next)))
          else Ok(Some(OpenWindow(Existing(next))))
        else if current.IsReducing() then
          if next.IsReducing() then Ok(Some(Existing(next)))
          else if |successors| > 1 then
            match AllNext(g, current)
            case Err(e) => Err(e)
            case Ok(all) => assert HasFork(Fork(all)); Ok(Some(CloseWindow(Fork(all))))
          else Ok(Some(CloseWindow(Existing(next))))
        else if |successors| > 1 then
          match AllNext(g, current)
          case Err(e) => Err(e)
          case Ok(all) => Ok(Some(Fork(all)))
        else if next == Tail then Err(TailBoundToNext)
        else Ok(Some(Existing(next)))
  }

  /** After a gate (checked before the reducing capability, so a duct with
      both takes this branch) exactly one window is open: an existing window
      successor is reused, never duplicated; otherwise exactly one new
      window-open marker is synthesized, fused with the successor when that
      single successor aggregates. */
  lemma GateOpensOneWindow(g: DuctGraph, current: Duct)
    requires current.IsGate() && CreateNextFor(g, current).Ok?
    ensures var successors := g.Successors(current);
            var r := CreateNextFor(g, current).value;
            && |successors| > 0 && r.Some?
            && (successors[0].IsOpenWindow() ==> r.value == Existing(successors[0]))
            && (!successors[0].IsOpenWindow() ==> NewOpens(r.value) == 1 && NewCloses(r.value) == 0)
            && (!successors[0].IsOpenWindow() && |successors| > 1 ==>
                  r.value == OpenWindow(Fork(Without(successors, Tail))))
            && (r.value.OpenReducingWindow? <==>
                  !successors[0].IsOpenWindow() && |successors| == 1 && successors[0].IsReducing())
  {
  }

  /** After a reducing duct that is not a gate, a reducing successor
      continues the window with no marker between them; otherwise exactly one
      window-close marker is synthesized and no window is opened. */
  lemma ReducingClosesWindow(g: DuctGraph, current: Duct)
    requires current.IsReducing() && !current.IsGate() && CreateNextFor(g, current).Ok?
    ensures var successors := g.Successors(current);
            var r := CreateNextFor(g, current).value;
            && |successors| > 0 && r.Some?
            && (successors[0].IsReducing() ==> r.value == Existing(successors[0]))
            && (!successors[0].IsReducing() ==>
                  r.value.CloseWindow? && NewCloses(r.value) == 1 && NewOpens(r.value) == 0)
            && (!successors[0].IsReducing() && |successors| > 1 ==>
                  r.value == CloseWindow(Fork(Without(successors, Tail))))
  {
  }

  /** After an ordinary duct no window marker is synthesized: it routes to
      its single successor, which is never the tail, or to a fork. */
  lemma OrdinaryAddsNoMarker(g: DuctGraph, current: Duct)
    requires current.IsOrdinary() && CreateNextFor(g, current).Ok?
    ensures var successors := g.Successors(current);
            var r := CreateNextFor(g, current).value;
            && |successors| > 0 && r.Some?
            && NewOpens(r.value) == 0 && NewCloses(r.value) == 0
            && (|successors| == 1 ==> r.value == Existing(successors[0]) && successors[0] != Tail)
            && (|successors| > 1 ==> r.value == Fork(Without(successors, Tail)))
  {
  }

  /** Fan-out: an ordinary duct with k > 1 outgoing edges, none of them to a
      sentinel, gets exactly one fork with exactly its k successors as
      branches, in edge order. */
  lemma ForkCoversAllSuccessors(g: DuctGraph, current: Duct)
    requires current.IsOrdinary() && current in g.vertices && g.OutDegree(current) > 1
    requires Head !in g.Successors(current) && Tail !in g.Successors(current)
    ensures CreateNextFor(g, current) == Ok(Some(Fork(g.Successors(current))))
    ensures |CreateNextFor(g, current).value.value.branches| == g.OutDegree(current)
  {
    WithoutAbsent(g.Successors(current), Tail);
  }

  /** On a graph whose sentinels are well placed neither neighbour query
      fails on a vertex. */
  lemma QueriesSucceed(g: DuctGraph, d: Duct)
    requires g.SentinelsWellPlaced() && d in g.vertices
    ensures AllNext(g, d).Ok? && AllPrevious(g, d).Ok?
  {
    SuccessorsInMembership(g.edges, d);
    PredecessorsInMembership(g.edges, d);
  }

  /** On a graph whose sentinels are well placed createNextFor never fails
      with HeadIsNext and never routes to the head; it routes to the tail only
      as the direct content of a window marker, never bare and never through
      a fork. */
  lemma NextAvoidsSentinels(g: DuctGraph, current: Duct)
    requires g.SentinelsWellPlaced()
    ensures CreateNextFor(g, current) != Err(HeadIsNext)
    ensures var r := CreateNextFor(g, current);
            r.Ok? && r.value.Some? ==>
              && Head !in Targets(r.value.value)
              && (Tail in Targets(r.value.value) ==>
                    r.value.value == OpenWindow(Existing(Tail)) || r.value.value == CloseWindow(Existing(Tail)))
  {
    SuccessorsInMembership(g.edges, current);
    var successors := g.Successors(current);
    assert Head !in successors;
    var r := CreateNextFor(g, current);
    if r.Ok? && r.value.Some? {
      var n := r.value.value;
      assert RoutesAlongEdges(g, current, n);
      if HasFork(n) {
        assert Targets(n) == Without(successors, Tail);
      } else {
        assert Targets(n) == [successors[0]];
      }
    }
  }
}
