/** The orders in which the lifecycle passes call the duct hooks. The
    topological order itself comes from the graph library and is taken as
    given: any linearisation of the vertices consistent with the edges. */
module Lifecycle {
  import opened Ducts
  import opened Seqs
  import opened DuctGraphs

  /** `order` lists every vertex of `g` exactly once, and for every edge
      u -> v, u comes before v. */
  ghost predicate IsTopologicalOrder(g: DuctGraph, order: seq<Duct>) {
    && Distinct(order)
    && (forall d :: d in order <==> d in g.vertices)
    && (forall i, j :: 0 <= i < |order| && 0 <= j < |order| && (order[i], order[j]) in g.edges ==> i < j)
  }

  /** The events of calling hook `h` on each of `ducts` in turn. */
  function Calls(h: Hook, ducts: seq<Duct>): seq<Event> {
    seq(|ducts|, i requires 0 <= i < |ducts| => Event(h, ducts[i]))
  }

  /** In `trace`, every vertex of `g` gets exactly one `h` call and nothing
      else does. */
  ghost predicate OncePerVertex(trace: seq<Event>, h: Hook, g: DuctGraph) {
    && (forall d :: Event(h, d) in trace <==> d in g.vertices)
    && (forall i, j :: 0 <= i < j < |trace| && trace[i].hook == h ==> trace[i] != trace[j])
  }

  /** For every edge u -> v, u's `h` call precedes v's. */
  ghost predicate AlongEdges(trace: seq<Event>, h: Hook, g: DuctGraph) {
    forall i, j ::
      (0 <= i < |trace| && 0 <= j < |trace| && trace[i].hook == h && trace[j].hook == h
       && (trace[i].duct, trace[j].duct) in g.edges) ==> i < j
  }

  /** For every edge u -> v, v's `h` call precedes u's. */
  ghost predicate AgainstEdges(trace: seq<Event>, h: Hook, g: DuctGraph) {
    forall i, j ::
      (0 <= i < |trace| && 0 <= j < |trace| && trace[i].hook == h && trace[j].hook == h
       && (trace[j].duct, trace[i].duct) in g.edges) ==> i < j
  }

  /** Every `first` call precedes every `second` call. */
  ghost predicate AllBefore(trace: seq<Event>, first: Hook, second: Hook) {
    forall i, j :: 0 <= i < |trace| && 0 <= j < |trace| && trace[i].hook == first && trace[j].hook == second ==> i < j
  }

  /** A forward pass over a topological order calls `h` once per vertex,
      sources before their targets. */
  lemma ForwardPass(g: DuctGraph, order: seq<Duct>, h: Hook)
    requires IsTopologicalOrder(g, order)
    ensures OncePerVertex(Calls(h, order), h, g)
    ensures AlongEdges(Calls(h, order), h, g)
  {
    var t := Calls(h, order);
    forall d | d in g.vertices ensures Event(h, d) in t {
      var i :| 0 <= i < |order| && order[i] == d;
      assert t[i] == Event(h, d);
    }
  }

  /** A pass over a topological order of the reversed graph calls `h` once
      per vertex, targets before their sources. */
  lemma ReversePass(g: DuctGraph, order: seq<Duct>, h: Hook)
    requires IsTopologicalOrder(g.Reversed(), order)
    ensures OncePerVertex(Calls(h, order), h, g)
    ensures AgainstEdges(Calls(h, order), h, g)
  {
    ForwardPass(g.Reversed(), order, h);
  }

  /** The bind pass: binds in topological order, then initializations in
      vertex-set order. Every vertex is bound once and initialized once,
      sources are bound before their targets, and every bind precedes every
      initialization. */
  lemma BindPass(g: DuctGraph, order: seq<Duct>)
    requires g.WellFormed() && IsTopologicalOrder(g, order)
    ensures var t := Calls(Bound, order) + Calls(Initialized, g.vertices);
            && OncePerVertex(t, Bound, g)
            && OncePerVertex(t, Initialized, g)
            && AlongEdges(t, Bound, g)
            && AllBefore(t, Bound, Initialized)
  {
    var binds, inits := Calls(Bound, order), Calls(Initialized, g.vertices);
    ForwardPass(g, order, Bound);
    WithTrailingCalls(binds, inits, Bound, g);
    InitializeOnce(g);
    WithLeadingCalls(binds, inits, Initialized, g);
  }

  /** Appending calls of other hooks keeps a trace's `h` calls and their order. */
  lemma WithTrailingCalls(t: seq<Event>, u: seq<Event>, h: Hook, g: DuctGraph)
    requires forall k :: 0 <= k < |u| ==> u[k].hook != h
    requires OncePerVertex(t, h, g) && AlongEdges(t, h, g)
    ensures OncePerVertex(t + u, h, g) && AlongEdges(t + u, h, g)
  {
    forall d | Event(h, d) in t + u ensures Event(h, d) in t {
      var i :| 0 <= i < |t + u| && (t + u)[i] == Event(h, d);
      if i >= |t| {
        assert u[i - |t|].hook == h;
      }
    }
  }

  /** Prepending calls of other hooks keeps a trace's `h` calls. */
  lemma WithLeadingCalls(t: seq<Event>, u: seq<Event>, h: Hook, g: DuctGraph)
    requires forall k :: 0 <= k < |t| ==> t[k].hook != h
    requires OncePerVertex(u, h, g)
    ensures OncePerVertex(t + u, h, g)
  {
    forall d | Event(h, d) in t + u ensures Event(h, d) in u {
      var i :| 0 <= i < |t + u| && (t + u)[i] == Event(h, d);
      assert i >= |t|;
      assert u[i - |t|] == Event(h, d);
    }
    forall d | Event(h, d) in u ensures Event(h, d) in t + u {
      var i :| 0 <= i < |u| && u[i] == Event(h, d);
      assert (t + u)[|t| + i] == Event(h, d);
    }
    forall i, j | 0 <= i < j < |t + u| && (t + u)[i].hook == h ensures (t + u)[i] != (t + u)[j] {
      assert i >= |t|;
      assert (t + u)[i] == u[i - |t|] && (t + u)[j] == u[j - |t|];
    }
  }

  /** Initializing each vertex of a duplicate-free vertex set initializes each once. */
  lemma InitializeOnce(g: DuctGraph)
    requires g.WellFormed()
    ensures OncePerVertex(Calls(Initialized, g.vertices), Initialized, g)
  {
    var t := Calls(Initialized, g.vertices);
    forall d | d in g.vertices ensures Event(Initialized, d) in t {
      var i :| 0 <= i < |g.vertices| && g.vertices[i] == d;
      assert t[i] == Event(Initialized, d);
    }
  }
}
