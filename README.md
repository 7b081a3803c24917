# Build-order scheduler and co-occurrence graph builder, modelled in Dafny

This project models two small graph tools.

- **Scheduler**: prints the build order for a target in a dependency graph. Its input is a graph with named vertices and directed edges, where an edge `u -> v` says that `u` must be built before `v`, and the name of a target. It:
  1. finds the first vertex carrying the target's name;
  2. runs a breadth-first search from it, following edges backwards, to collect the target and everything it depends on;
  3. sorts the whole graph topologically with a depth-first search that fails on a cycle;
  4. prints `build <name>` for every sorted vertex the search collected.

  The exit code is 1 on a wrong argument count, 2 when the graph description cannot be parsed and 3 when no vertex has the target's name. Once the target is found, a cycle anywhere in the graph ends the process through an uncaught exception.
- **Visualizer**: the co-occurrence graph builder. It reads lines of comma-separated names. Each line is split at commas, with runs of commas merged into one separator, and each piece is trimmed of white space. Every distinct name becomes one vertex, in order of first appearance. After each name of a line is taken, the two nested pair loops run over all names taken so far on that line. Each visited pair's undirected edge is created with weight 0 if it is missing, and then its 32-bit unsigned weight is raised by one.

## Modules

- `basics.dfy` holds `Option`, `Result`, `Distinct` and `CardBound` (a set of vertices below n has at most n members).
- `graph.dfy` (`DependencyGraph`) holds the dependency graph, paths, reachability and cycles. Every traversal takes an explicit `Direction`, and `Backward` plays the part of the source's reversed-graph view.
- `scheduler.dfy` (`Scheduler`) holds the target lookup, the breadth-first reachability search, the depth-first topological sort, the filter, the composed run and the process-level `Execute`.
- `tokenize.dfy` (`Tokenize`) covers the visualizer's line splitting and trimming.
- `counting.dfy` (`Counting`) states on names what the pair loops visit (`Visits(lines)`). It also proves the closed form of how often each pair is visited.
- `cooccurrence.dfy` (`Cooccurrence`) models the graph builder as a `CoGraph` class whose `names` and `edges` fields the methods update in place. The nested loops are methods whose invariant is `Records(trace)`:
  - every name the trace visits is a vertex (the full vertex list is the one `Parse` states);
  - there is one edge per visited pair;
  - every weight is the number of visits to its pair, modulo 2^32.

## Behaviour worth knowing

- **Edge direction.** An edge `u -> v` means that `u` is built before `v`. The program reverses the graph, collects what reaches the target and emits the finish order of the reversed graph. So for edges A -> B, B -> C and target A, the run prints only `build A`, because nothing has an edge into A (`ChainBuildOrder`).
- **Cycles.** The whole graph is sorted, not only the part the target depends on. So, once the target is found, a cycle anywhere in the graph aborts the run, even one that no path connects to the target. An unknown target name still exits with code 3 on a cyclic graph, because the lookup comes first.
- **How a cycle ends the run.** Boost's `not_a_dag` exception escapes uncaught. Nothing is printed and no vertex of the cycle is named. `Execute` models this as `Aborted`.

## Model

| member | source | states |
|---|---|---|
| Scheduler.FindStart | cpp/scheduler/scheduler.cpp:46-56 | a found vertex is the lowest-numbered vertex named exactly like the target; nothing is found exactly when no vertex has that name |
| Scheduler.Expand | cpp/scheduler/scheduler.cpp:113-126 | one breadth-first step keeps every discovered vertex reachable from the start and extends the queue without reordering it; afterwards every neighbour of the expanded vertex is discovered |
| Scheduler.ReachablePart | cpp/scheduler/scheduler.cpp:104-129 | the breadth-first search returns exactly the vertices reachable from the start in the given direction |
| Scheduler.ReachIsClosed | cpp/scheduler/scheduler.cpp:149-151 | the set of vertices reaching the target is closed under prerequisites: every prerequisite of a member is a member |
| Scheduler.Visit | cpp/scheduler/scheduler.cpp:132-139 | one depth-first visit either closes a cycle, and then the graph has one, or finishes the vertex. A finish keeps the search invariant, makes the vertex black, appends to the finish order without changing its prefix and never turns a finished vertex white again |
| Scheduler.BackEdgeCycle | cpp/scheduler/scheduler.cpp:136 | an edge from the top of the search path back onto the path means the graph has a cycle, which is when the sort gives up |
| Scheduler.Schedule | cpp/scheduler/scheduler.cpp:132-139 | a returned order lists every vertex exactly once, and each vertex comes after everything it leads to; a refusal comes only with a cycle |
| Scheduler.OrderRulesOutCycle | cpp/scheduler/scheduler.cpp:132-139 | a graph with such an order has no cycle, so the sort refuses exactly the cyclic graphs |
| Scheduler.Filter | cpp/scheduler/scheduler.cpp:156-160 | the filtered order holds exactly the vertices of the order that are in the kept set, and is no longer than the order |
| Scheduler.FilterDistinct | cpp/scheduler/scheduler.cpp:156-160 | filtering an order without repeats gives an order without repeats |
| Scheduler.FilterKeepsOrder | cpp/scheduler/scheduler.cpp:156-160 | filtering a topological order by a prerequisite-closed set leaves a topological order |
| Scheduler.Emit | cpp/scheduler/scheduler.cpp:156-160 | the emitting loop outputs exactly the sorted vertices that the search collected, in sorted order |
| Scheduler.ComposedIsBuildOrder | cpp/scheduler/scheduler.cpp:141-160 | the sorted order filtered by the reachable set is a build order. It ends with the target, contains exactly the vertices with a path to the target, each once, and puts every prerequisite before its dependents |
| Scheduler.ChainBuildOrder | cpp/scheduler/scheduler.cpp:141-160 | with edges A -> B and B -> C, the only build order for target A is A alone, because an edge names the prerequisite first |
| Scheduler.Run | cpp/scheduler/scheduler.cpp:141-162 | a run fails with "not found" exactly when no vertex has the target's name, and with "not a DAG" exactly when the target exists and the graph has a cycle; otherwise its output is a build order |
| Scheduler.BuildLines | cpp/scheduler/scheduler.cpp:156-160 | one output line `build <name>` per emitted vertex, in emitted order |
| Scheduler.Execute | cpp/scheduler/scheduler.cpp:165-177 | exit 1 with no output unless there are exactly two arguments; exit 2 with "parsing graph failed" when parsing fails; exit 3 with "start not found"; abort on a cycle; otherwise exit 0 with one `build` line per vertex of a build order |
| DependencyGraph.ReachesFlip | cpp/scheduler/scheduler.cpp:148-151 | a walks to b forwards exactly when b walks to a in the reversed graph, so the search on the reversed graph finds what the target depends on |
| DependencyGraph.CycleFlip | cpp/scheduler/scheduler.cpp:149-154 | the reversed graph has a cycle exactly when the graph has one, so sorting the reversed graph fails exactly on cyclic graphs |
| DependencyGraph.PathReverse | cpp/scheduler/scheduler.cpp:149 | reversing a path gives a path of the reversed graph |
| Tokenize.Trim | cpp/visualizer/visualizer.cpp:45 | a trimmed name is no longer than the piece and neither starts nor ends with white space |
| Tokenize.TrimShape | cpp/visualizer/visualizer.cpp:45 | a trimmed name is the piece with a run of white space cut from each end, and nothing else removed |
| Tokenize.TrimExample | cpp/visualizer/visualizer.cpp:45 | trimming keeps inner white space: " a b\t" becomes "a b" |
| Tokenize.Split | cpp/visualizer/visualizer.cpp:43 | splitting always yields at least one piece |
| Tokenize.SplitShape | cpp/visualizer/visualizer.cpp:43 | no piece contains a comma and only the first and last may be empty; the first is empty exactly when the line is empty or starts with a comma, the last exactly when it is empty or ends with a comma; there are several pieces exactly when the line has a comma |
| Tokenize.JoinSplit | cpp/visualizer/visualizer.cpp:43 | joining the pieces with single commas gives back the line with every run of commas merged into one, so splitting loses nothing but repeated commas |
| Tokenize.SplitExamples | cpp/visualizer/visualizer.cpp:43 | "a,,b" gives ["a", "b"], ",a" gives ["", "a"] and the empty line gives one empty piece |
| Tokenize.Tokens | cpp/visualizer/visualizer.cpp:43-45 | a line yields one name per comma-separated piece |
| Counting.LineWeight | cpp/visualizer/visualizer.cpp:44-75 | the visits to a pair while reading a line equal a closed-form sum in which the pair at positions i < j of an m-name line counts m - j times |
| Counting.ThreeNamesExample | cpp/visualizer/visualizer.cpp:44-75 | a line of three distinct names visits the first two twice, and each of the other two pairs once |
| Counting.LinePairVisited | cpp/visualizer/visualizer.cpp:58-73 | every pair of positions i < j on a line is visited at least once |
| Counting.RepeatedNameSelfPair | cpp/visualizer/visualizer.cpp:53-73 | a name standing twice on a line is visited paired with itself |
| Counting.LinePairWithin | cpp/visualizer/visualizer.cpp:58-73 | a line only visits pairs of its own names |
| Counting.VisitedPairsShareALine | cpp/visualizer/visualizer.cpp:39-76 | a visited pair of names stood together on some line |
| Counting.VisitsIncludeLine | cpp/visualizer/visualizer.cpp:39-76 | the visits of the whole input to a pair are at least those of any one of its lines |
| Counting.SharedLinePairVisited | cpp/visualizer/visualizer.cpp:39-76 | two positions i < j of any line make their names a visited pair of the whole input |
| Counting.FirstOccurrences | cpp/visualizer/visualizer.cpp:47-56 | the vertex names are exactly the names read, each once |
| Cooccurrence.CoGraph.constructor | cpp/visualizer/visualizer.cpp:100 | a new graph has no vertices and no edges |
| Cooccurrence.CoGraph.AddVertex | cpp/visualizer/visualizer.cpp:49-50 | a new vertex gets the next number and the name, and nothing else changes |
| Cooccurrence.CoGraph.FindEdge | cpp/visualizer/visualizer.cpp:62 | the lookup returns the first edge joining the two vertices in either orientation, and returns nothing exactly when no edge joins them |
| Cooccurrence.CoGraph.AddEdge | cpp/visualizer/visualizer.cpp:64-66 | a new edge is appended with weight 0, and nothing else changes |
| Cooccurrence.CoGraph.IncrementWeight | cpp/visualizer/visualizer.cpp:70-71 | exactly the one edge's weight goes up by one, wrapping at 2^32 |
| Cooccurrence.ModSucc | cpp/visualizer/visualizer.cpp:70-71 | adding one to a wrapped weight equals wrapping the next count |
| Cooccurrence.AddEdgeKeeps | cpp/visualizer/visualizer.cpp:64-66 | adding a weight-0 edge for an unvisited pair keeps every weight equal to its count |
| Cooccurrence.VisitExisting | cpp/visualizer/visualizer.cpp:62-71 | raising the existing edge of a pair by one records one more visit to that pair |
| Cooccurrence.VisitNew | cpp/visualizer/visualizer.cpp:62-71 | adding an edge for a new pair and raising it to 1 records its first visit |
| Cooccurrence.VisitPair | cpp/visualizer/visualizer.cpp:62-71 | one inner-loop step leaves the names alone and records exactly one more visit to the pair |
| Cooccurrence.VisitRow | cpp/visualizer/visualizer.cpp:59-72 | the inner loop records the visits of row i, pairing name i with every later name taken |
| Cooccurrence.VisitPairs | cpp/visualizer/visualizer.cpp:58-73 | the two nested loops record the visits of every pair i < j among the names taken |
| Cooccurrence.NewVertexKeeps | cpp/visualizer/visualizer.cpp:49-52 | adding a vertex for an unseen name keeps the graph recording the same visits |
| Cooccurrence.PairCountSym | cpp/visualizer/visualizer.cpp:62 | the graph is undirected: the visits to {x, y} equal those to {y, x} |
| Cooccurrence.Intern | cpp/visualizer/visualizer.cpp:47-56 | a seen name keeps its vertex and an unseen one gets a new vertex at the end; the edges are untouched and the lookup map stays exact |
| Cooccurrence.TakeName | cpp/visualizer/visualizer.cpp:44-74 | taking the next name of a line extends the line's vertices by one. The names stay the first occurrences of what was read, and the graph records every visit so far |
| Cooccurrence.ParseLine | cpp/visualizer/visualizer.cpp:39-75 | after a line, the names are the first occurrences of everything read, and the graph records all visits including this line's |
| Cooccurrence.Parse | cpp/visualizer/visualizer.cpp:29-77 | after the whole input, the vertex names are the distinct names in order of first appearance. There is one edge per visited pair, and each weight is the pair's visit count mod 2^32. It starts, as the source does, from the empty graph `Graph g;` |
| Cooccurrence.EdgeWasVisited | cpp/visualizer/visualizer.cpp:62-71 | every edge of a recording graph joins a pair that was visited |
| Cooccurrence.VisitedPairHasEdge | cpp/visualizer/visualizer.cpp:62-71 | every visited pair has an edge between its vertices |
| Cooccurrence.EdgeJoinsSharedLine | cpp/visualizer/visualizer.cpp:29-77 | every edge of the built graph joins two names that stood on a common line |
| Cooccurrence.SharedLineHasEdge | cpp/visualizer/visualizer.cpp:29-77 | any two names on a common line are joined by an edge of the built graph |
| Cooccurrence.RepeatedNameSelfLoop | cpp/visualizer/visualizer.cpp:53-73 | a name repeated on a line gets a self-loop |
| Cooccurrence.OneLineWeights | cpp/visualizer/visualizer.cpp:39-75 | for a one-line input every weight is the closed form, where positions i < j of m names count m - j times, mod 2^32 |

## Left out

- Reading files: both tools' input is a parameter. The scheduler's graph-description parser (`read_graphviz` with the `label` property) is a parameter of `Execute`, where `None` means it failed. The visualizer's lines are a parameter of `Parse`, with `std::getline` already applied.
- The visualizer's `write` (DOT output to standard output) and its `main` (argument check, usage text): they are output formatting and process handling only.
- Usage messages written to standard error are not modelled; only the exit code is.
- `LambdaVisitor` and the `reachable` filter struct are not modelled. They are generic plumbing, and `reachable` is never used.
- Boost's breadth-first search is modelled with a set of discovered vertices and a queue. Boost's depth-first search uses an explicit stack; it is modelled as a recursive visit in vertex order, with each vertex's edges taken in edge order.
- Scheduler.Schedule: the contract states that the result is a topological order of every vertex, not which order Boost's tie-breaking produces.
- Scheduler.Execute: on a cycle it states only that the process aborts with nothing printed. Boost's exception message is not modelled.
- Cooccurrence.VisitPairs: the source's `int` loop counters overflow for 2^31 or more names on one line; this is not modelled.
- Tokenize.Trim: white space is the six classic C-locale white-space characters. Locale-dependent classification is not modelled.
- Edge and graph name properties are not modelled because neither tool uses them.
