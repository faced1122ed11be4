/** Small concrete graphs and what the stream graph makes of them. */
module Scenarios {
  import opened Ducts
  import opened Seqs
  import opened DuctGraphs
  import opened Synthesis
  import opened Lifecycle

  /** head -> s1 -> s2 (gate) -> s3 (reducing) -> s4 (reducing) -> tail:
      s1 routes to s2, the gate opens a window fused with s3, s3 continues
      into s4 without a marker, and s4 closes the window before the tail. */
  lemma GroupedAggregationChain()
    ensures var s1, s2 := Stage(1, false, false, false), Stage(2, true, false, false);
            var s3, s4 := Stage(3, false, true, false), Stage(4, false, true, false);
            var g := DuctGraph([Head, s1, s2, s3, s4, Tail],
                               [(Head, s1), (s1, s2), (s2, s3), (s3, s4), (s4, Tail)]);
            && CreateNextFor(g, Head) == Ok(None)
            && CreateNextFor(g, s1) == Ok(Some(Existing(s2)))
            && CreateNextFor(g, s2) == Ok(Some(OpenReducingWindow(s3)))
            && CreateNextFor(g, s3) == Ok(Some(Existing(s4)))
            && CreateNextFor(g, s4) == Ok(Some(CloseWindow(Existing(Tail))))
            && CreateNextFor(g, Tail) == Ok(None)
  {
    var s1, s2 := Stage(1, false, false, false), Stage(2, true, false, false);
    var s3, s4 := Stage(3, false, true, false), Stage(4, false, true, false);
    FiveEdges((Head, s1), (s1, s2), (s2, s3), (s3, s4), (s4, Tail));
  }

  /** The successor lists of a five-edge graph whose edges leave five
      different ducts. */
  lemma FiveEdges(e0: Edge, e1: Edge, e2: Edge, e3: Edge, e4: Edge)
    requires e0.0 != e1.0 && e0.0 != e2.0 && e0.0 != e3.0 && e0.0 != e4.0
    requires e1.0 != e2.0 && e1.0 != e3.0 && e1.0 != e4.0
    requires e2.0 != e3.0 && e2.0 != e4.0 && e3.0 != e4.0
    ensures var es := [e0, e1, e2, e3, e4];
            && SuccessorsIn(es, e0.0) == [e0.1] && SuccessorsIn(es, e1.0) == [e1.1]
            && SuccessorsIn(es, e2.0) == [e2.1] && SuccessorsIn(es, e3.0) == [e3.1]
            && SuccessorsIn(es, e4.0) == [e4.1]
  {
    var es := [e0, e1, e2, e3, e4];
    forall d | d in {e0.0, e1.0, e2.0, e3.0, e4.0}
      ensures SuccessorsIn(es, d) == (if d == e0.0 then [e0.1] else [])
                                     + (if d == e1.0 then [e1.1] else [])
                                     + (if d == e2.0 then [e2.1] else [])
                                     + (if d == e3.0 then [e3.1] else [])
                                     + (if d == e4.0 then [e4.1] else [])
    {
      FiveEdgesAt(e0, e1, e2, e3, e4, d);
    }
  }

  /** The successors of `d` in a five-edge list, edge by edge. */
  lemma FiveEdgesAt(e0: Edge, e1: Edge, e2: Edge, e3: Edge, e4: Edge, d: Duct)
    ensures SuccessorsIn([e0, e1, e2, e3, e4], d) == (if d == e0.0 then [e0.1] else [])
                                                    + (if d == e1.0 then [e1.1] else [])
                                                    + (if d == e2.0 then [e2.1] else [])
                                                    + (if d == e3.0 then [e3.1] else [])
                                                    + (if d == e4.0 then [e4.1] else [])
  {
    ThreeEdgesAt(e0, e1, e2, d);
    SuccessorsInSnoc([e0, e1, e2], e3, d);
    assert [e0, e1, e2] + [e3] == [e0, e1, e2, e3];
    SuccessorsInSnoc([e0, e1, e2, e3], e4, d);
    assert [e0, e1, e2, e3] + [e4] == [e0, e1, e2, e3, e4];
  }

  /** The successors of `d` in a three-edge list, edge by edge. */
  lemma ThreeEdgesAt(e0: Edge, e1: Edge, e2: Edge, d: Duct)
    ensures SuccessorsIn([e0, e1, e2], d) == (if d == e0.0 then [e0.1] else [])
                                            + (if d == e1.0 then [e1.1] else [])
                                            + (if d == e2.0 then [e2.1] else [])
  {
    SuccessorsInSnoc([], e0, d);
    assert [] + [e0] == [e0];
    SuccessorsInSnoc([e0], e1, d);
    assert [e0] + [e1] == [e0, e1];
    SuccessorsInSnoc([e0, e1], e2, d);
    assert [e0, e1] + [e2] == [e0, e1, e2];
  }

  /** The fan-out graph: s1 -> s2, s1 -> s3, and a gate with edges to s2, the
      tail and s3, in that order. */
  function FanOutGraph(): DuctGraph {
    DuctGraph([S1, S2, S3, FanGate, Tail], [(S1, S2), (S1, S3), (FanGate, S2), (FanGate, Tail), (FanGate, S3)])
  }

  const S1: Duct := Stage(1, false, false, false)
  const S2: Duct := Stage(2, false, false, false)
  const S3: Duct := Stage(3, false, false, false)
  const FanGate: Duct := Stage(4, true, false, false)

  /** The successor lists of the fan-out graph. */
  lemma FanOutSuccessors()
    ensures FanOutGraph().Successors(S1) == [S2, S3]
    ensures FanOutGraph().Successors(FanGate) == [S2, Tail, S3]
  {
    FiveEdgesAt((S1, S2), (S1, S3), (FanGate, S2), (FanGate, Tail), (FanGate, S3), S1);
    FiveEdgesAt((S1, S2), (S1, S3), (FanGate, S2), (FanGate, Tail), (FanGate, S3), FanGate);
  }

  /** An ordinary duct with edges to s2 and s3 routes to one fork over both. */
  lemma FanOut()
    ensures CreateNextFor(FanOutGraph(), S1) == Ok(Some(Fork([S2, S3])))
  {
    FanOutSuccessors();
    WithoutAbsent([S2, S3], Tail);
  }

  /** A gate with edges to s2, the tail and s3 gets one window-open marker
      around a fork whose branches leave the tail out. */
  lemma FanOutBehindGate()
    ensures CreateNextFor(FanOutGraph(), FanGate) == Ok(Some(OpenWindow(Fork([S2, S3]))))
  {
    FanOutSuccessors();
    WithoutMiddleTail(S2, S3);
  }

  /** Removing the tail from [u, tail, v] leaves [u, v]. */
  lemma WithoutMiddleTail(u: Duct, v: Duct)
    requires u != Tail && v != Tail
    ensures Without([u, Tail, v], Tail) == [u, v]
  {
    assert [u, Tail] + [v] == [u, Tail, v];
    WithoutAppend([u, Tail], [v], Tail);
    assert [u] + [Tail] == [u, Tail];
    WithoutAppend([u], [Tail], Tail);
    WithoutAbsent([u], Tail);
    WithoutAbsent([v], Tail);
    assert [Tail][..0] == [];
  }

  const Agg: Duct := Stage(5, false, true, false)

  /** A reducing duct with edges to s2, the tail and s3. */
  function ReducingFanOutGraph(): DuctGraph {
    DuctGraph([Agg, S2, S3, Tail], [(Agg, S2), (Agg, Tail), (Agg, S3)])
  }

  /** A reducing duct whose first successor does not aggregate and which has
      several outgoing edges gets one window-close marker around a fork whose
      branches leave the tail out. */
  lemma ReducingFanOut()
    ensures CreateNextFor(ReducingFanOutGraph(), Agg) == Ok(Some(CloseWindow(Fork([S2, S3]))))
  {
    ThreeEdgesAt((Agg, S2), (Agg, Tail), (Agg, S3), Agg);
    assert ReducingFanOutGraph().Successors(Agg) == [S2, Tail, S3];
    WithoutMiddleTail(S2, S3);
    assert AllNext(ReducingFanOutGraph(), Agg) == Ok([S2, S3]);
  }

  /** A new stream graph has no head vertex yet, so asking for its heads
      fails; once a head is added, the heads are exactly what was added. */
  lemma HeadsOfNewGraph()
    ensures GetHeads(DuctGraph([], [])) == Err(NoSuchVertex)
    ensures GetHeads(DuctGraph([Head, S1], [(Head, S1)])) == Ok([S1])
  {
    SuccessorsInSnoc([], (Head, S1), Head);
    assert [] + [(Head, S1)] == [(Head, S1)];
    assert SuccessorsIn([(Head, S1)], Head) == [S1];
  }

  /** An ordinary stage whose only edge leads to the tail is a malformed
      topology; a duct with no outgoing edge is one too. */
  lemma OrdinaryIntoTail()
    ensures var s1, s2 := Stage(1, false, false, false), Stage(2, false, false, false);
            var g := DuctGraph([s1, s2, Tail], [(s1, Tail)]);
            && CreateNextFor(g, s1) == Err(TailBoundToNext)
            && CreateNextFor(g, s2) == Err(NoOutgoingEdge)
  {
    SuccessorsInSnoc([], (Stage(1, false, false, false), Tail), Stage(1, false, false, false));
    SuccessorsInSnoc([], (Stage(1, false, false, false), Tail), Stage(2, false, false, false));
    assert [] + [(Stage(1, false, false, false), Tail)] == [(Stage(1, false, false, false), Tail)];
  }

  /** Positions of a, b and c in a linearisation of the chain's reversed
      graph: c first, then b, then a, and nothing else. */
  lemma {:induction false} ChainReversedOrder(a: Duct, b: Duct, c: Duct, order: seq<Duct>)
    requires a != b && b != c && a != c
    requires IsTopologicalOrder(DuctGraph([a, b, c], [(a, b), (b, c)]).Reversed(), order)
    ensures order == [c, b, a]
  {
    var g := DuctGraph([a, b, c], [(a, b), (b, c)]);
    assert (b, a) in g.Reversed().edges && (c, b) in g.Reversed().edges;
    assert forall d :: d in [a, b, c] <==> d in [c, b, a];
    OnlyThreePositions(order, c, b, a);
  }

  /** A duplicate-free sequence of exactly three distinct ducts, x before y
      before z, is [x, y, z]. */
  lemma OnlyThreePositions(order: seq<Duct>, x: Duct, y: Duct, z: Duct)
    requires x != y && y != z && x != z
    requires Distinct(order) && forall d :: d in order <==> d in [x, y, z]
    requires forall i, j :: 0 <= i < |order| && 0 <= j < |order| && order[i] == x && order[j] == y ==> i < j
    requires forall i, j :: 0 <= i < |order| && 0 <= j < |order| && order[i] == y && order[j] == z ==> i < j
    ensures order == [x, y, z]
  {
    ThreeElements(order, x, y, z);
    assert x in order && y in order && z in order;
    var ix :| 0 <= ix < 3 && order[ix] == x;
    var iy :| 0 <= iy < 3 && order[iy] == y;
    var iz :| 0 <= iz < 3 && order[iz] == z;
    assert ix < iy < iz;
    assert ix == 0 && iy == 1 && iz == 2;
  }

  /** A duplicate-free sequence of exactly the three distinct ducts x, y and z
      has length three. */
  lemma ThreeElements(order: seq<Duct>, x: Duct, y: Duct, z: Duct)
    requires x != y && y != z && x != z
    requires Distinct(order) && forall d :: d in order <==> d in [x, y, z]
    ensures |order| == 3
  {
    DistinctCard(order);
    assert (set d | d in order) == {x, y, z};
  }

  /** A duplicate-free sequence has as many elements as its set of elements. */
  lemma {:induction false} DistinctCard(s: seq<Duct>)
    requires Distinct(s)
    ensures |set d | d in s| == |s|
  {
    if s != [] {
      var init := s[..|s| - 1];
      assert Distinct(init);
      DistinctCard(init);
      assert s == init + [s[|s| - 1]];
      assert (set d | d in s) == (set d | d in init) + {s[|s| - 1]};
      assert s[|s| - 1] !in init;
    }
  }

  /** For the chain a -> b -> c, prepare calls c, b, a and cleanup calls
      a, b, c, whatever linearisations the graph library picks. */
  lemma ChainLifecycleOrder(a: Duct, b: Duct, c: Duct, forward: seq<Duct>, backward: seq<Duct>)
    requires a != b && b != c && a != c
    requires IsTopologicalOrder(DuctGraph([a, b, c], [(a, b), (b, c)]), forward)
    requires IsTopologicalOrder(DuctGraph([a, b, c], [(a, b), (b, c)]).Reversed(), backward)
    ensures Calls(Prepared, backward) == [Event(Prepared, c), Event(Prepared, b), Event(Prepared, a)]
    ensures Calls(CleanedUp, forward) == [Event(CleanedUp, a), Event(CleanedUp, b), Event(CleanedUp, c)]
  {
    ChainReversedOrder(a, b, c, backward);
    var g := DuctGraph([a, b, c], [(a, b), (b, c)]);
    assert (a, b) in g.edges && (b, c) in g.edges;
    OnlyThreePositions(forward, a, b, c);
  }
}
