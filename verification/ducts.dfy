/** Execution nodes ("ducts") of a stream graph, the values the compiler
    synthesizes from them, and the failures the stream graph raises. */
module Ducts {

  datatype Option<+T> = None | Some(value: T) {
    /** The wrapped value, or `default` for None (a null argument replaced). */
    function GetOr(default: T): T {
      if Some? then value else default
    }
  }

  /** Every exception the stream graph throws, one constructor each. */
  datatype Error =
    | BothEndsNull      // addPath called with two null ends
    | LhsIsTail         // addPath with the tail sentinel as source
    | RhsIsHead         // addPath with the head sentinel as target
    | HeadIsNext        // findAllNextFor met the head among the successors
    | TailIsPrevious    // findAllPreviousFor met the tail among the predecessors
    | NoOutgoingEdge    // createNextFor on a duct without outgoing edge
    | TailBoundToNext   // createNextFor on an ordinary duct whose only successor is the tail
    | NoSuchVertex      // a neighbour query on a duct that is not a vertex of the graph
    | OrderUnavailable  // the topological order iterator could not be built

  datatype Result<+T> = Ok(value: T) | Err(error: Error)

  datatype Outcome = Pass | Fail(error: Error)

  /** A vertex of the stream graph: one of the two sentinels that bound the
      graph, or a stage with its capability flags. Two stages are the same
      duct exactly when they are equal values. */
  datatype Duct =
    | Head
    | Tail
    | Stage(id: nat, gate: bool, reducing: bool, openWindow: bool)
  {
    predicate IsSentinel() { Head? || Tail? }

    /** `instanceof Gate`: a grouping boundary. */
    predicate IsGate() { Stage? && gate }

    /** `instanceof Reducing`: an aggregation over a group. */
    predicate IsReducing() { Stage? && reducing }

    /** `instanceof OpenWindow`: already opens a grouped window. */
    predicate IsOpenWindow() { Stage? && openWindow }

    /** A stage with neither capability. */
    predicate IsOrdinary() { Stage? && !gate && !reducing }
  }

  /** What createNextFor hands back: an existing vertex, or a freshly
      synthesized duct wrapping what follows it. */
  datatype Next =
    | Existing(duct: Duct)                // a successor returned unchanged
    | Fork(branches: seq<Duct>)           // fan-out to several successors
    | OpenWindow(inner: Next)             // opens a grouped window
    | OpenReducingWindow(duct: Duct)      // opens a window fused with its first aggregation
    | CloseWindow(inner: Next)            // closes the window after the last aggregation

  /** The existing vertices a synthesized value routes to, in order. */
  function Targets(n: Next): seq<Duct> {
    match n
    case Existing(d) => [d]
    case Fork(bs) => bs
    case OpenWindow(i) => Targets(i)
    case OpenReducingWindow(d) => [d]
    case CloseWindow(i) => Targets(i)
  }

  /** Number of window-open markers synthesized in `n` (existing vertices not counted). */
  function NewOpens(n: Next): nat {
    match n
    case Existing(_) => 0
    case Fork(_) => 0
    case OpenWindow(i) => 1 + NewOpens(i)
    case OpenReducingWindow(_) => 1
    case CloseWindow(i) => NewOpens(i)
  }

  /** Number of window-close markers synthesized in `n`. */
  function NewCloses(n: Next): nat {
    match n
    case Existing(_) => 0
    case Fork(_) => 0
    case OpenWindow(i) => NewCloses(i)
    case OpenReducingWindow(_) => 0
    case CloseWindow(i) => 1 + NewCloses(i)
  }

  predicate HasFork(n: Next) {
    match n
    case Existing(_) => false
    case Fork(_) => true
    case OpenWindow(i) => HasFork(i)
    case OpenReducingWindow(_) => false
    case CloseWindow(i) => HasFork(i)
  }

  /** The lifecycle hooks of a duct, whose bodies are not part of the model. */
  datatype Hook = Bound | Initialized | Prepared | CleanedUp

  /** One call of a lifecycle hook on one duct. */
  datatype Event = Event(hook: Hook, duct: Duct)
}
