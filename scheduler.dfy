/**
 * The build-order scheduler: find the target by name, collect every vertex
 * it depends on (a breadth-first search along edges followed backwards), sort
 * the whole graph topologically (a depth-first search whose finish order puts
 * prerequisites first, failing on a cycle), and emit the sorted vertices that
 * the search collected.
 */
module Scheduler {
  import opened Basics
  import opened DependencyGraph

  /** `v` is the lowest-numbered vertex whose name is exactly `target`. */
  ghost predicate IsFirstNamed(g: Graph, target: string, v: Vertex) {
    v < |g.names| && g.names[v] == target && forall u :: 0 <= u < v ==> g.names[u] != target
  }

  /** No vertex is named `target`. */
  ghost predicate NoneNamed(g: Graph, target: string) {
    forall v :: 0 <= v < |g.names| ==> g.names[v] != target
  }

  /** Linear lookup of the target by name, in vertex order, stopping at the first match. */
  method FindStart(g: Graph, target: string) returns (r: Option<Vertex>)
    ensures r.Some? ==> IsFirstNamed(g, target, r.value)
    ensures r.None? <==> NoneNamed(g, target)
  {
    for v := 0 to |g.names|
      invariant forall u :: 0 <= u < v ==> g.names[u] != target
    {
      if g.names[v] == target {
        return Some(v);
      }
    }
    return None;
  }

  // ---------------------------------------------------------------------------
  // Reachability: breadth-first search with a visited set
  // ---------------------------------------------------------------------------

  /** Vertices discovered so far: `queue` lists `reach` in discovery order, all reachable from `start`. */
  ghost predicate Discovered(g: Graph, d: Direction, start: Vertex, reach: set<Vertex>, queue: seq<Vertex>) {
    && |queue| == |reach|
    && start in reach
    && (forall v :: v in reach <==> v in queue)
    && (forall v :: v in reach ==> v < |g.names| && Reaches(g, d, start, v))
  }

  /** Discover, in edge order, every undiscovered vertex one step from `u`. */
  method Expand(g: Graph, d: Direction, start: Vertex, u: Vertex, reach: set<Vertex>, queue: seq<Vertex>)
    returns (reach': set<Vertex>, queue': seq<Vertex>)
    requires g.Valid() && Discovered(g, d, start, reach, queue) && u in reach
    ensures Discovered(g, d, start, reach', queue')
    ensures reach <= reach' && |queue| <= |queue'| && queue'[..|queue|] == queue
    ensures forall k :: 0 <= k < |g.edges| && From(g.edges[k], d) == u ==> To(g.edges[k], d) in reach'
  {
    reach', queue' := reach, queue;
    for k := 0 to |g.edges|
      invariant Discovered(g, d, start, reach', queue')
      invariant reach <= reach' && |queue| <= |queue'| && queue'[..|queue|] == queue
      invariant forall k' :: 0 <= k' < k && From(g.edges[k'], d) == u ==> To(g.edges[k'], d) in reach'
    {
      var w := To(g.edges[k], d);
      if From(g.edges[k], d) == u && w !in reach' {
        assert Step(g, d, u, w);
        ReachesStep(g, d, start, u, w);
        reach' := reach' + {w};
        queue' := queue' + [w];
      }
    }
  }

  /**
   * Breadth-first search from `start`: every vertex is recorded when it is
   * discovered. `queue` holds the discovered vertices in discovery order;
   * those before `head` have been expanded.
   */
  method ReachablePart(g: Graph, d: Direction, start: Vertex) returns (reach: set<Vertex>)
    requires g.Valid() && start < |g.names|
    ensures forall v :: v in reach <==> Reaches(g, d, start, v)
  {
    reach := {start};
    var queue := [start];
    var head := 0;
    ReachesSelf(g, d, start);
    while head < |queue|
      invariant 0 <= head <= |queue|
      invariant Discovered(g, d, start, reach, queue)
      invariant forall i, k :: 0 <= i < head && 0 <= k < |g.edges| && From(g.edges[k], d) == queue[i] ==> To(g.edges[k], d) in reach
      decreases |g.names| - head
    {
      CardBound(reach, |g.names|);
      var u := queue[head];
      ghost var before := queue;
      reach, queue := Expand(g, d, start, u, reach, queue);
      assert forall i :: 0 <= i <= head ==> queue[i] == before[i];
      head := head + 1;
    }
    assert forall k :: 0 <= k < |g.edges| && From(g.edges[k], d) in reach ==> To(g.edges[k], d) in reach;
    forall v | Reaches(g, d, start, v)
      ensures v in reach
    {
      ClosedHoldsReach(g, d, reach, start, v);
    }
  }

  // ---------------------------------------------------------------------------
  // Topological order: depth-first search, vertices recorded when finished
  // ---------------------------------------------------------------------------

  datatype Color = White | Gray | Black

  /** The vertices the search has not reached yet. */
  ghost function Whites(color: seq<Color>): (whites: set<Vertex>) {
    set v | 0 <= v < |color| && color[v] == White
  }

  /**
   * Every vertex of `s` comes after all vertices it leads to in direction `d`.
   * With `d == Backward`: for every edge, the prerequisite precedes the dependent.
   */
  ghost predicate SuccessorsFirst(g: Graph, d: Direction, s: seq<Vertex>) {
    forall i, k :: 0 <= i < |s| && 0 <= k < |g.edges| && From(g.edges[k], d) == s[i] ==> To(g.edges[k], d) in s[..i]
  }

  /** `s` lists every vertex of `g` exactly once. */
  ghost predicate ListsEachVertexOnce(g: Graph, s: seq<Vertex>) {
    && Distinct(s)
    && (forall i :: 0 <= i < |s| ==> s[i] < |g.names|)
    && (forall v :: 0 <= v < |g.names| ==> v in s)
  }

  /**
   * The state of the depth-first search: black vertices are the finished ones,
   * recorded in `order` in finish order; gray vertices are those on the current
   * search path `stack`.
   */
  ghost predicate SearchState(g: Graph, d: Direction, color: seq<Color>, order: seq<Vertex>, stack: seq<Vertex>) {
    && |color| == |g.names|
    && Distinct(order)
    && (forall i :: 0 <= i < |order| ==> order[i] < |g.names|)
    && (forall v :: 0 <= v < |color| ==> (color[v] == Black <==> v in order))
    && (forall v :: 0 <= v < |color| ==> (color[v] == Gray <==> v in stack))
    && (stack != [] ==> IsPath(g, d, stack))
    && SuccessorsFirst(g, d, order)
  }

  /** A step from the top of the search path back onto the path closes a cycle. */
  lemma BackEdgeCycle(g: Graph, d: Direction, path: seq<Vertex>, w: Vertex)
    requires g.Valid() && IsPath(g, d, path) && w in path && Step(g, d, path[|path| - 1], w)
    ensures CycleIn(g, d)
  {
    var i :| 0 <= i < |path| && path[i] == w;
    var tail := path[i..];
    assert IsPath(g, d, tail) by {
      forall j | 0 <= j < |tail| - 1
        ensures Step(g, d, tail[j], tail[j + 1])
      {
        assert tail[j] == path[i + j] && tail[j + 1] == path[i + j + 1];
      }
    }
    PathExtend(g, d, tail, w);
    var c := tail + [w];
    assert c[0] == w && c[|c| - 1] == w && |c| >= 2;
  }

  /**
   * Visit `u`: mark it gray, visit every white vertex it leads to (in edge
   * order), fail on a gray one (a back edge), then mark `u` black and append
   * it to `order`.
   */
  method Visit(g: Graph, d: Direction, u: Vertex, color: seq<Color>, order: seq<Vertex>, ghost stack: seq<Vertex>)
    returns (color': seq<Color>, order': seq<Vertex>, acyclic: bool)
    requires g.Valid() && u < |g.names| && SearchState(g, d, color, order, stack)
    requires color[u] == White
    requires stack != [] ==> Step(g, d, stack[|stack| - 1], u)
    ensures acyclic ==> SearchState(g, d, color', order', stack)
    ensures acyclic ==> color'[u] == Black && Whites(color') <= Whites(color) - {u}
    ensures acyclic ==> |order| <= |order'| && order'[..|order|] == order
    ensures !acyclic ==> CycleIn(g, d)
    decreases Whites(color)
  {
    var path := stack + [u];
    EnterVertex(g, d, color, order, stack, u);
    color' := color[u := Gray];
    order' := order;
    for k := 0 to |g.edges|
      invariant SearchState(g, d, color', order', path)
      invariant color'[u] == Gray
      invariant Whites(color') <= Whites(color) - {u}
      invariant |order| <= |order'| && order'[..|order|] == order
      invariant forall k' :: 0 <= k' < k && From(g.edges[k'], d) == u ==> To(g.edges[k'], d) in order'
    {
      if From(g.edges[k], d) == u {
        var w := To(g.edges[k], d);
        assert Step(g, d, u, w);
        if color'[w] == Gray {
          BackEdgeCycle(g, d, path, w);
          return color', order', false;
        } else if color'[w] == White {
          ghost var before := order';
          var ok;
          color', order', ok := Visit(g, d, w, color', order', path);
          if !ok {
            return color', order', false;
          }
          assert order'[..|order|] == before[..|order|];
        }
      }
    }
    FinishVertex(g, d, color', order', stack, u);
    assert (order' + [u])[..|order|] == order'[..|order|];
    color' := color'[u := Black];
    order' := order' + [u];
    acyclic := true;
  }

  /** Entering a white vertex adjacent to the top of the search path extends the path and grays the vertex. */
  lemma EnterVertex(g: Graph, d: Direction, color: seq<Color>, order: seq<Vertex>, stack: seq<Vertex>, u: Vertex)
    requires g.Valid() && u < |g.names| && SearchState(g, d, color, order, stack)
    requires color[u] == White
    requires stack != [] ==> Step(g, d, stack[|stack| - 1], u)
    ensures SearchState(g, d, color[u := Gray], order, stack + [u])
  {
    var path := stack + [u];
    if stack == [] {
      assert path == [u];
    } else {
      PathExtend(g, d, stack, u);
    }
  }

  /** Finishing a gray vertex whose successors have all finished blackens it and pops it off the path. */
  lemma FinishVertex(g: Graph, d: Direction, color: seq<Color>, order: seq<Vertex>, stack: seq<Vertex>, u: Vertex)
    requires SearchState(g, d, color, order, stack + [u]) && u < |color| && color[u] == Gray
    requires stack != [] ==> IsPath(g, d, stack)
    requires u !in stack
    requires forall k :: 0 <= k < |g.edges| && From(g.edges[k], d) == u ==> To(g.edges[k], d) in order
    ensures SearchState(g, d, color[u := Black], order + [u], stack)
  {
    FinishKeepsOrder(g, d, order, u);
  }

  /** Finishing a vertex all of whose successors have finished keeps successors first. */
  lemma FinishKeepsOrder(g: Graph, d: Direction, finished: seq<Vertex>, u: Vertex)
    requires SuccessorsFirst(g, d, finished)
    requires forall k :: 0 <= k < |g.edges| && From(g.edges[k], d) == u ==> To(g.edges[k], d) in finished
    ensures SuccessorsFirst(g, d, finished + [u])
  {
    var s := finished + [u];
    forall i, k | 0 <= i < |s| && 0 <= k < |g.edges| && From(g.edges[k], d) == s[i]
      ensures To(g.edges[k], d) in s[..i]
    {
      if i < |finished| {
        assert s[..i] == finished[..i];
      } else {
        assert s[..i] == finished;
      }
    }
  }

  /** The outcome of a topological sort. */
  datatype Sorted = Order(order: seq<Vertex>) | NotADag

  /**
   * Depth-first topological sort: start a search from every still-white
   * vertex in ascending order, recording vertices as they finish.
   */
  method Schedule(g: Graph, d: Direction) returns (r: Sorted)
    requires g.Valid()
    ensures r.Order? ==> ListsEachVertexOnce(g, r.order) && SuccessorsFirst(g, d, r.order)
    ensures r.NotADag? ==> CycleIn(g, d)
  {
    var color := seq(|g.names|, _ => White);
    var order: seq<Vertex> := [];
    for v := 0 to |g.names|
      invariant SearchState(g, d, color, order, [])
      invariant forall u :: 0 <= u < v ==> color[u] == Black
    {
      if color[v] == White {
        var ok;
        color, order, ok := Visit(g, d, v, color, order, []);
        if !ok {
          return NotADag;
        }
      }
    }
    return Order(order);
  }

  // ---------------------------------------------------------------------------
  // Facts about orders produced by the search
  // ---------------------------------------------------------------------------

  /** Walking a path in direction `d` from a vertex of `s` only meets vertices listed earlier in `s`. */
  lemma {:induction false} PathEndsEarlier(g: Graph, d: Direction, s: seq<Vertex>, p: seq<Vertex>, j: nat)
    requires SuccessorsFirst(g, d, s) && IsPath(g, d, p) && |p| >= 2
    requires j < |s| && s[j] == p[0]
    ensures p[|p| - 1] in s[..j]
    decreases |p|
  {
    assert Step(g, d, p[0], p[1]);
    var k :| 0 <= k < |g.edges| && From(g.edges[k], d) == p[0] && To(g.edges[k], d) == p[1];
    assert p[1] in s[..j];
    var j' :| 0 <= j' < |s[..j]| && s[..j][j'] == p[1];
    assert s[j'] == p[1];
    if |p| > 2 {
      var rest := p[1..];
      assert IsPath(g, d, rest) by {
        forall i | 0 <= i < |rest| - 1
          ensures Step(g, d, rest[i], rest[i + 1])
        {
          assert rest[i] == p[i + 1] && rest[i + 1] == p[i + 2];
        }
      }
      PathEndsEarlier(g, d, s, rest, j');
      assert s[..j'] <= s[..j];
      assert rest[|rest| - 1] == p[|p| - 1];
    }
  }

  /** An order that lists every vertex once and puts successors first rules out every cycle. */
  lemma OrderRulesOutCycle(g: Graph, d: Direction, s: seq<Vertex>)
    requires ListsEachVertexOnce(g, s) && SuccessorsFirst(g, d, s)
    ensures !CycleIn(g, d)
  {
    if CycleIn(g, d) {
      var p :| IsPath(g, d, p) && |p| >= 2 && p[0] == p[|p| - 1];
      assert p[0] in s;
      var j :| 0 <= j < |s| && s[j] == p[0];
      PathEndsEarlier(g, d, s, p, j);
    }
  }

  // ---------------------------------------------------------------------------
  // Filtering the order by the reachable set
  // ---------------------------------------------------------------------------

  /** The elements of `s` that are in `keep`, in the order of `s`. */
  function Filter(s: seq<Vertex>, keep: set<Vertex>): (r: seq<Vertex>)
    ensures |r| <= |s|
    ensures forall v :: v in r <==> v in s && v in keep
  {
    if s == [] then []
    else Filter(s[..|s| - 1], keep) + (if s[|s| - 1] in keep then [s[|s| - 1]] else [])
  }

  /** Filtering never duplicates. */
  lemma {:induction false} FilterDistinct(s: seq<Vertex>, keep: set<Vertex>)
    requires Distinct(s)
    ensures Distinct(Filter(s, keep))
  {
    if s != [] {
      var init := s[..|s| - 1];
      assert Distinct(init);
      FilterDistinct(init, keep);
      assert s[|s| - 1] !in init;
    }
  }

  /** `keep` is closed under steps in direction `d`. */
  ghost predicate Closed(g: Graph, d: Direction, keep: set<Vertex>) {
    forall k :: 0 <= k < |g.edges| && From(g.edges[k], d) in keep ==> To(g.edges[k], d) in keep
  }

  /** Filtering an order by a closed set keeps successors first. */
  lemma {:induction false} FilterKeepsOrder(g: Graph, d: Direction, s: seq<Vertex>, keep: set<Vertex>)
    requires SuccessorsFirst(g, d, s) && Closed(g, d, keep)
    ensures SuccessorsFirst(g, d, Filter(s, keep))
  {
    if s != [] {
      var init := s[..|s| - 1];
      var x := s[|s| - 1];
      assert SuccessorsFirst(g, d, init) by {
        forall i, k | 0 <= i < |init| && 0 <= k < |g.edges| && From(g.edges[k], d) == init[i]
          ensures To(g.edges[k], d) in init[..i]
        {
          assert init[..i] == s[..i];
        }
      }
      FilterKeepsOrder(g, d, init, keep);
      var fi := Filter(init, keep);
      var r := Filter(s, keep);
      if x in keep {
        assert r == fi + [x];
        forall i, k | 0 <= i < |r| && 0 <= k < |g.edges| && From(g.edges[k], d) == r[i]
          ensures To(g.edges[k], d) in r[..i]
        {
          if i < |fi| {
            assert r[..i] == fi[..i];
          } else {
            assert To(g.edges[k], d) in s[..|s| - 1];
            assert r[..i] == fi;
          }
        }
      } else {
        assert r == fi;
      }
    }
  }

  // ---------------------------------------------------------------------------
  // The run: find, search, sort, filter
  // ---------------------------------------------------------------------------

  /**
   * What a successful run emits: the target last, exactly the vertices that
   * have a path to it, each once, every prerequisite of an emitted vertex
   * emitted before it.
   */
  ghost predicate IsBuildOrder(g: Graph, target: string, out: seq<Vertex>) {
    && |out| >= 1
    && (forall i :: 0 <= i < |out| ==> out[i] < |g.names|)
    && IsFirstNamed(g, target, out[|out| - 1])
    && Distinct(out)
    && (forall v :: v in out <==> Reaches(g, Forward, v, out[|out| - 1]))
    && SuccessorsFirst(g, Backward, out)
  }

  datatype RunError = TargetNotFound | NotADagError

  /** The last step of a path of at least one edge enters its last vertex. */
  lemma PathEntersLast(g: Graph, p: seq<Vertex>)
    requires IsPath(g, Forward, p) && |p| >= 2
    ensures exists k :: 0 <= k < |g.edges| && g.edges[k].dst == p[|p| - 1]
  {
    assert Step(g, Forward, p[|p| - 2], p[|p| - 1]);
  }

  /** A sequence of at least two zeros repeats its first entry. */
  lemma ZerosRepeat(s: seq<Vertex>)
    requires |s| >= 2 && forall i :: 0 <= i < |s| ==> s[i] == 0
    ensures s[0] == s[1]
  {
  }

  /** Nothing reaches a vertex that no edge enters, except the vertex itself. */
  lemma NoEdgeIn(g: Graph, v: Vertex, t: Vertex)
    requires forall k :: 0 <= k < |g.edges| ==> g.edges[k].dst != t
    requires Reaches(g, Forward, v, t)
    ensures v == t
  {
    var p :| IsPath(g, Forward, p) && p[0] == v && p[|p| - 1] == t;
    if |p| >= 2 {
      PathEntersLast(g, p);
      assert false;
    }
  }

  /**
   * With edges A -> B and B -> C (A before B before C), the build order for A
   * is A alone: an edge names the prerequisite first.
   */
  lemma ChainBuildOrder(out: seq<Vertex>)
    requires IsBuildOrder(Graph(["A", "B", "C"], [Edge(0, 1), Edge(1, 2)]), "A", out)
    ensures out == [0]
  {
    var g := Graph(["A", "B", "C"], [Edge(0, 1), Edge(1, 2)]);
    assert out[|out| - 1] == 0;
    forall i | 0 <= i < |out|
      ensures out[i] == 0
    {
      assert out[i] in out;
      NoEdgeIn(g, out[i], 0);
    }
    if |out| >= 2 {
      ZerosRepeat(out);
      assert false;
    }
  }

  /** What a vertex reaches backwards is closed under backward steps. */
  lemma ReachIsClosed(g: Graph, start: Vertex, reach: set<Vertex>)
    requires g.Valid()
    requires forall v :: v in reach <==> Reaches(g, Backward, start, v)
    ensures Closed(g, Backward, reach)
  {
    forall k | 0 <= k < |g.edges| && From(g.edges[k], Backward) in reach
      ensures To(g.edges[k], Backward) in reach
    {
      assert Step(g, Backward, From(g.edges[k], Backward), To(g.edges[k], Backward));
      ReachesStep(g, Backward, start, From(g.edges[k], Backward), To(g.edges[k], Backward));
    }
  }

  /** The composition: the order restricted to what the start reaches backwards is a build order. */
  lemma ComposedIsBuildOrder(g: Graph, target: string, start: Vertex, reach: set<Vertex>, order: seq<Vertex>, out: seq<Vertex>)
    requires g.Valid() && IsFirstNamed(g, target, start)
    requires forall v :: v in reach <==> Reaches(g, Backward, start, v)
    requires ListsEachVertexOnce(g, order) && SuccessorsFirst(g, Backward, order)
    requires out == Filter(order, reach)
    ensures IsBuildOrder(g, target, out)
  {
    ReachesSelf(g, Backward, start);
    assert start in out;
    FilterDistinct(order, reach);
    ReachIsClosed(g, start, reach);
    FilterKeepsOrder(g, Backward, order, reach);
    var j :| 0 <= j < |out| && out[j] == start;
    // every other emitted vertex is a prerequisite of the start, so it comes earlier
    forall v | v in out && v != start
      ensures v in out[..j]
    {
      var p :| IsPath(g, Backward, p) && p[0] == start && p[|p| - 1] == v;
      PathEndsEarlier(g, Backward, out, p, j);
    }
    assert out[|out| - 1] in out;
    assert j == |out| - 1;
    forall i | 0 <= i < |out|
      ensures out[i] < |g.names|
    {
      assert out[i] in out;
    }
    forall v
      ensures v in out <==> Reaches(g, Forward, v, start)
    {
      ReachesFlip(g, Backward, start, v);
    }
  }

  /** Walk the order and collect the vertices that are in `keep`, in order. */
  method Emit(order: seq<Vertex>, keep: set<Vertex>) returns (out: seq<Vertex>)
    ensures out == Filter(order, keep)
  {
    out := [];
    for i := 0 to |order|
      invariant out == Filter(order[..i], keep)
    {
      if order[i] in keep {
        out := out + [order[i]];
      }
      assert order[..i + 1][..i] == order[..i];
    }
    assert order[..|order|] == order;
  }

  /**
   * Find the target, collect what it depends on, sort the whole graph and
   * emit the sorted vertices that were collected.
   */
  method Run(g: Graph, target: string) returns (r: Result<seq<Vertex>, RunError>)
    requires g.Valid()
    ensures r == Failure(TargetNotFound) <==> NoneNamed(g, target)
    ensures r == Failure(NotADagError) <==> !NoneNamed(g, target) && HasCycle(g)
    ensures r.Success? ==> IsBuildOrder(g, target, r.value)
  {
    var start := FindStart(g, target);
    if start.None? {
      return Failure(TargetNotFound);
    }
    var reach := ReachablePart(g, Backward, start.value);
    var sorted := Schedule(g, Backward);
    CycleFlip(g, Backward);
    if sorted.NotADag? {
      return Failure(NotADagError);
    }
    var order := sorted.order;
    OrderRulesOutCycle(g, Backward, order);
    var out := Emit(order, reach);
    ComposedIsBuildOrder(g, target, start.value, reach, order, out);
    return Success(out);
  }

  // ---------------------------------------------------------------------------
  // The program: argument check, parse outcome, run, output
  // ---------------------------------------------------------------------------

  /** How the process ends: an exit code, or abnormal termination on an uncaught exception. */
  datatype Exit = Code(code: int) | Aborted

  /** One output line per emitted vertex. */
  function BuildLines(g: Graph, out: seq<Vertex>): (lines: seq<string>)
    requires forall i :: 0 <= i < |out| ==> out[i] < |g.names|
    ensures |lines| == |out|
    ensures forall i :: 0 <= i < |out| ==> lines[i] == "build " + g.names[out[i]]
  {
    if out == [] then [] else BuildLines(g, out[..|out| - 1]) + ["build " + g.names[out[|out| - 1]]]
  }

  /**
   * The whole program. `argv` are the command-line arguments including the
   * program name; `parsed` is what the external graph-description parser made
   * of the file named by argv[1] (None when it failed). Returns the lines
   * written to standard output and how the process ends.
   */
  method Execute(argv: seq<string>, parsed: Option<Graph>) returns (stdout: seq<string>, exit: Exit)
    requires parsed.Some? ==> parsed.value.Valid()
    ensures |argv| != 3 ==> stdout == [] && exit == Code(1)
    ensures |argv| == 3 && parsed.None? ==> stdout == ["parsing graph failed"] && exit == Code(2)
    ensures |argv| == 3 && parsed.Some? && NoneNamed(parsed.value, argv[2]) ==>
      stdout == ["start not found"] && exit == Code(3)
    ensures |argv| == 3 && parsed.Some? && !NoneNamed(parsed.value, argv[2]) && HasCycle(parsed.value) ==>
      stdout == [] && exit == Aborted
    ensures |argv| == 3 && parsed.Some? && !NoneNamed(parsed.value, argv[2]) && !HasCycle(parsed.value) ==>
      exit == Code(0) &&
      exists out :: IsBuildOrder(parsed.value, argv[2], out) && stdout == BuildLines(parsed.value, out)
  {
    if |argv| != 3 {
      return [], Code(1);
    }
    if parsed.None? {
      return ["parsing graph failed"], Code(2);
    }
    var g := parsed.value;
    var r := Run(g, argv[2]);
    match r {
      case Failure(TargetNotFound) =>
        return ["start not found"], Code(3);
      case Failure(NotADagError) =>
        return [], Aborted;
      case Success(out) =>
        stdout := BuildLines(g, out);
        return stdout, Code(0);
    }
  }
}
