# Stream graph model

A Dafny model of Cascading's stream graph (`StreamGraph`). A stream graph is the
directed graph of execution nodes ("ducts") that one flow step runs. It is
bounded by two sentinel vertices, the head and the tail. The model covers:

- **Edge insertion with sentinel rules.** `addPath`, `addHead` and `addTail`
  grow the graph and refuse to put an edge into the head or out of the tail.
- **Neighbour queries that hide the sentinels.** `findAllNextFor`,
  `findAllPreviousFor` and `getHeads`.
- **`createNextFor`.** This decides what a duct routes to: an existing
  successor, or a freshly synthesized window-open, reducing-window-open,
  window-close or fork duct that wraps the successors.
- **The lifecycle driver.** `bind`, `prepare` and `cleanup` call the duct
  hooks in topological, reversed-topological and topological order.
- **`getAllPairs` and `getAllDucts`.**

Layout:

- `ducts.dfy` (module `Ducts`) holds the value types:
  - ducts, with their capability flags (gate, reducing, already an open window);
  - the synthesized "next" values;
  - one error constructor per exception the stream graph throws;
  - the hook events.
- `seqs.dfy` (module `Seqs`) holds sequence helpers: distinctness, and removal of every occurrence of one element.
- `duct_graph.dfy` (module `DuctGraphs`) models the underlying directed graph.
  - Its vertex set is kept in insertion order.
  - Its edges form a list in which an edge's position is its identity.
  - It supports successor and predecessor lists in edge order, and the reversed graph.
- `synthesis.dfy` (module `Synthesis`) holds the side-effect-free decisions: `getHeads`, `createNextFor`, and the two query results as functions.
- `lifecycle.dfy` (module `Lifecycle`) holds:
  - what a topological order is;
  - the traces of hook calls;
  - the ordering guarantees of the three passes.
- `stream_graph.dfy` (module `StreamGraphs`) holds the `StreamGraph` class.
  - Its `graph` field is updated in place by `AddPath`, `AddHead` and `AddTail`.
  - The queries and lifecycle passes are loops proved against the functions above.
- `scenarios.dfy` (module `Scenarios`) holds concrete graphs and what `createNextFor` and the lifecycle passes make of them.

Error handling:
- Every exception becomes an `Err`/`Fail` value naming it. A caller that meets one returns it unchanged, which covers the log-and-rethrow blocks.
- A neighbour query on a duct that is not a vertex fails with `NoSuchVertex`. The graph library throws in that case.
- The topological order the graph library supplies is a parameter of type `Option<seq<Duct>>`. `None` stands for an iterator that could not be built, and the pass then fails with `OrderUnavailable` before any hook runs.
- The ordering guarantees are stated for any order that is a linearisation of the vertices consistent with the edges.

Consequences of `StreamGraph.java` that the contracts state:

- **Fork branches.** Every fork takes its branches from `findAllNextFor` (:221, :235, :241). That query drops every successor that is the tail (:177-178). So a duct with k outgoing edges gets a fork with k branches minus one per edge to the tail. `Synthesis.ForkCoversAllSuccessors` states k branches when no successor is a sentinel.
- **The tail inside a window marker.** A gate whose single successor is the tail gets a window-open marker around the tail (:226). A reducing duct whose single successor is the tail gets a window-close marker around the tail (:237). Only the ordinary branch rejects the tail (:243-244). `Synthesis.NextAvoidsSentinels` states exactly these two ways to reach the tail.
- **The predecessor error.** `findAllPreviousFor` raises the same "may not be next" wording as the successor query (:193-194). Here it is the constructor `TailIsPrevious`.

## Model

| member | source | states |
|---|---|---|
| StreamGraphs.StreamGraph.constructor | src/core/cascading/flow/stream/StreamGraph.java:69-71 | a new stream graph has no vertex and no edge, and its sentinels are trivially well placed |
| StreamGraphs.StreamGraph.AddPath | src/core/cascading/flow/stream/StreamGraph.java:98-127 | fails with BothEndsNull exactly when both ends are null, LhsIsTail exactly when the source is the tail, and RhsIsHead exactly when the target is the head and the source is not the tail; on failure the graph is unchanged; otherwise a null source becomes the head and a null target the tail, both ends become vertices, exactly one edge is appended, and no other vertex or edge changes; well-formedness and sentinel placement are preserved |
| StreamGraphs.StreamGraph.AddHead | src/core/cascading/flow/stream/StreamGraph.java:88-91 | is addPath(head, d): fails only for the head itself, and otherwise makes getHeads succeed with d (the tail for null) appended to the head's successors |
| StreamGraphs.StreamGraph.AddTail | src/core/cascading/flow/stream/StreamGraph.java:93-96 | is addPath(d, tail): fails only for the tail itself, and otherwise adds the edge from d (the head for null) to the tail |
| StreamGraphs.StreamGraph.FindAllNextFor | src/core/cascading/flow/stream/StreamGraph.java:165-182 | fails with NoSuchVertex exactly for a duct that is not a vertex, and with HeadIsNext exactly when a vertex has the head as a successor; otherwise returns the successors in edge order with every tail removed; returns exactly the non-tail successors; on a graph with well-placed sentinels it always succeeds on a vertex and never contains the tail |
| StreamGraphs.StreamGraph.FindAllPreviousFor | src/core/cascading/flow/stream/StreamGraph.java:184-201 | fails with NoSuchVertex exactly for a duct that is not a vertex, and with TailIsPrevious exactly when a vertex has the tail as a predecessor; otherwise returns the predecessors in edge order with every head removed; on a graph with well-placed sentinels it always succeeds on a vertex and never contains the head |
| StreamGraphs.StreamGraph.GetAllDucts | src/core/cascading/flow/stream/StreamGraph.java:320-323 | the vertex set holds each duct once and both ends of every edge |
| StreamGraphs.StreamGraph.GetAllPairs | src/core/cascading/flow/stream/StreamGraph.java:308-318 | exactly one (source, target) pair per edge, pair i being edge i, and both ends are among getAllDucts |
| StreamGraphs.StreamGraph.Bind | src/core/cascading/flow/stream/StreamGraph.java:129-140 | fails with OrderUnavailable before any hook runs when the order cannot be built; otherwise binds each duct of the order, then initializes each vertex; over a topological order every vertex is bound exactly once and initialized exactly once, sources are bound before their targets, and every bind precedes every initialize |
| StreamGraphs.StreamGraph.Prepare | src/core/cascading/flow/stream/StreamGraph.java:142-149 | fails with OrderUnavailable when the reversed order cannot be built; otherwise prepares each duct of the order; over a topological order of the reversed graph every vertex is prepared exactly once and for every edge u -> v, v is prepared before u |
| StreamGraphs.StreamGraph.Cleanup | src/core/cascading/flow/stream/StreamGraph.java:151-158 | fails with OrderUnavailable when the order cannot be built; otherwise cleans up each duct of the order; over a topological order every vertex is cleaned up exactly once and for every edge u -> v, u is cleaned up before v |
| Synthesis.GetHeads | src/core/cascading/flow/stream/StreamGraph.java:160-163 | fails with NoSuchVertex exactly when the head sentinel is not yet a vertex; otherwise d is a head exactly when there is an edge from the head sentinel to d, and with well-placed sentinels the head sentinel is never among the heads |
| Synthesis.CreateNextFor | src/core/cascading/flow/stream/StreamGraph.java:203-267 | nothing exactly for a sentinel; NoSuchVertex exactly for a non-sentinel that is not a vertex; NoOutgoingEdge exactly for a non-sentinel vertex without outgoing edge; TailBoundToNext exactly for an ordinary vertex whose only successor is the tail; HeadIsNext only with out-degree above one and the head among the successors; no other failure; a result routes along the outgoing edges: it holds a fork exactly when the out-degree is above one and the first successor is not returned as is, the fork goes to the successors minus the tail in edge order, and anything else goes to the first successor |
| Synthesis.GateOpensOneWindow | src/core/cascading/flow/stream/StreamGraph.java:215-227 | after a gate an existing window successor is reused, never duplicated; otherwise exactly one window-open marker and no window-close marker is synthesized; with several outgoing edges that one marker wraps a fork over all successors but the tail, in edge order; the reducing-window form is chosen exactly for a single aggregating successor that does not already open a window |
| Synthesis.ReducingClosesWindow | src/core/cascading/flow/stream/StreamGraph.java:229-238 | after a reducing non-gate duct, a reducing successor is returned as is; otherwise the result is a window-close marker with exactly one close and no open, and with several outgoing edges it wraps a fork over all successors but the tail, in edge order |
| Synthesis.OrdinaryAddsNoMarker | src/core/cascading/flow/stream/StreamGraph.java:240-246 | an ordinary duct gets no window marker: a single successor is returned unchanged and is never the tail, and several successors give a fork over the successors minus the tail |
| Synthesis.ForkCoversAllSuccessors | src/core/cascading/flow/stream/StreamGraph.java:240-241 | an ordinary duct with k > 1 outgoing edges, none to a sentinel, gets one fork whose branches are exactly its k successors in edge order |
| Synthesis.QueriesSucceed | src/core/cascading/flow/stream/StreamGraph.java:165-201 | when no edge enters the head or leaves the tail, neither neighbour query fails on a vertex |
| Synthesis.NextAvoidsSentinels | src/core/cascading/flow/stream/StreamGraph.java:203-247 | with well-placed sentinels, createNextFor never fails with HeadIsNext and never routes to the head; it routes to the tail only as the direct content of a window-open or window-close marker |
| Lifecycle.ForwardPass | src/core/cascading/flow/stream/StreamGraph.java:151-158 | a pass over a topological order calls the hook once per vertex, sources before targets |
| Lifecycle.ReversePass | src/core/cascading/flow/stream/StreamGraph.java:142-149 | a pass over a topological order of the reversed graph calls the hook once per vertex, targets before sources |
| Lifecycle.BindPass | src/core/cascading/flow/stream/StreamGraph.java:129-140 | binds in topological order followed by initializations in vertex order give one bind and one initialize per vertex, binds along the edges, and every bind before every initialize |
| DuctGraphs.SuccessorsInMembership | src/core/cascading/flow/stream/StreamGraph.java:162 | x is a listed successor of d exactly when there is an edge d -> x |
| DuctGraphs.PredecessorsInMembership | src/core/cascading/flow/stream/StreamGraph.java:186 | x is a listed predecessor of d exactly when there is an edge x -> d |
| DuctGraphs.SuccessorsInSnoc | src/core/cascading/flow/stream/StreamGraph.java:119 | appending an edge extends only its source's successor list, at its end |
| DuctGraphs.DuctGraph.AddVertex | src/core/cascading/flow/stream/StreamGraph.java:117-118 | adding a vertex leaves the edges alone, keeps the old vertices as a prefix, adds at most one, adds exactly d, and keeps the vertex set duplicate-free |
| DuctGraphs.DuctGraph.Reversed | src/core/cascading/flow/stream/StreamGraph.java:299-306 | the reversed graph has the same vertices and has an edge u -> v exactly when the graph has v -> u |
| DuctGraphs.Flipped | src/core/cascading/flow/stream/StreamGraph.java:303 | turning every edge round keeps the edge count and turns membership round |
| Seqs.Without | src/core/cascading/flow/stream/StreamGraph.java:177-178 | removing every occurrence of a sentinel keeps exactly the other elements and never lengthens the list |
| Seqs.WithoutAppend | src/core/cascading/flow/stream/StreamGraph.java:170-179 | removal distributes over concatenation, so the kept elements stay in their original order |
| Scenarios.GroupedAggregationChain | src/core/cascading/flow/stream/StreamGraph.java:203-247 | in head -> s1 -> gate -> reducing -> reducing -> tail, the gate opens one window fused with the first aggregation, the aggregations continue without a marker, and the last closes the window before the tail |
| Scenarios.FanOut | src/core/cascading/flow/stream/StreamGraph.java:240-241 | an ordinary duct with edges to s2 and s3 gets one fork over both, in edge order |
| Scenarios.FanOutBehindGate | src/core/cascading/flow/stream/StreamGraph.java:220-221 | a gate with edges to s2, the tail and s3 gets one window-open marker around a fork over s2 and s3 only |
| Scenarios.ReducingFanOut | src/core/cascading/flow/stream/StreamGraph.java:234-235 | a reducing duct with edges to s2, the tail and s3 gets one window-close marker around a fork over s2 and s3 only |
| Scenarios.HeadsOfNewGraph | src/core/cascading/flow/stream/StreamGraph.java:160-163 | a new graph has no head vertex, so getHeads fails; after one edge from the head it answers exactly that target |
| Scenarios.OrdinaryIntoTail | src/core/cascading/flow/stream/StreamGraph.java:208-211 | an ordinary duct whose only edge leads to the tail is rejected, and a duct without outgoing edge is rejected |
| Scenarios.ChainReversedOrder | src/core/cascading/flow/stream/StreamGraph.java:284-306 | the only topological order of the reversed chain a -> b -> c is c, b, a |
| Scenarios.ChainLifecycleOrder | src/core/cascading/flow/stream/StreamGraph.java:142-158 | for the chain a -> b -> c, prepare calls c, b, a and cleanup calls a, b, c, whichever linearisations are supplied |

## Left out

- **Diagnostics.** `printGraph`, the dot-file path property, and logging (StreamGraph.java:44-46, 73-76, 325-339) are file and diagnostic output. The log-and-rethrow blocks are modelled only as "the error propagates".
- **The topological order iterators** (StreamGraph.java:269-297). They come from the graph library, and so does their tie-breaking among valid orders. The order is a parameter. The ordering guarantees hold for every linearisation consistent with the edges.
- **The graph library's own edge policy.** The model does not say how the library treats a repeated edge, a self-loop or a cycle, because none of that is shown. `addEdge` always appends, and `addPath` claims no cycle detection.
- **Edge iteration order.** The model takes every edge iteration of the graph library to be in insertion order. That covers the edge set `getAllPairs` walks (:312-315), the successor and predecessor lists (:162, :167, :186), and the "first" outgoing edge `createNextFor` picks (:213). The library's actual iteration order is not shown.
- **Hook bodies.** The `bind`, `initialize`, `prepare` and `cleanup` hooks of a duct are not shown. They are recorded as trace events and assumed to return normally. A hook that throws midway is not modelled.
- **Concrete duct classes.** The classes built by `createOpenWindow`, `createOpenReducingWindow`, `createCloseWindow` and `createFork` (StreamGraph.java:249-267) are constructor tags of `Next`. Their behaviour is not part of the model.
- **Duct kinds.** A duct's class is modelled only through three flags: gate, reducing and already an open window. A stage's identity is its value, whereas in the source it is object identity.
- **Other files.** The pipe (`Every.java`), the input split, the sink tap and the flow tests are not part of this model.
