/**
 * The dependency graph the scheduler works on: vertices 0..|names|-1, each
 * carrying its display name, and a sequence of directed edges. An edge
 * `Edge(src, dst)` says that `src` is a prerequisite of `dst`: `src` has to be
 * built before `dst`.
 *
 * Traversals take their direction as a parameter instead of building a
 * reversed copy of the graph: `Forward` follows an edge from `src` to `dst`,
 * `Backward` from `dst` to `src` (from a dependent to its prerequisites).
 */
module DependencyGraph {

  type Vertex = nat

  datatype Edge = Edge(src: Vertex, dst: Vertex)

  datatype Graph = Graph(names: seq<string>, edges: seq<Edge>) {
    /** Every edge joins two existing vertices (what the parser guarantees). */
    ghost predicate Valid() {
      forall k :: 0 <= k < |edges| ==> edges[k].src < |names| && edges[k].dst < |names|
    }
  }

  datatype Direction = Forward | Backward

  function Flip(d: Direction): (flipped: Direction) {
    if d == Forward then Backward else Forward
  }

  /** The end an edge is left from when it is followed in direction `d`. */
  function From(e: Edge, d: Direction): (v: Vertex) {
    if d == Forward then e.src else e.dst
  }

  /** The end an edge leads to when it is followed in direction `d`. */
  function To(e: Edge, d: Direction): (v: Vertex) {
    if d == Forward then e.dst else e.src
  }

  /** Some edge leads from `a` to `b` in direction `d`. */
  ghost predicate Step(g: Graph, d: Direction, a: Vertex, b: Vertex) {
    exists k :: 0 <= k < |g.edges| && From(g.edges[k], d) == a && To(g.edges[k], d) == b
  }

  /** `p` is a walk of one or more vertices, each step along an edge in direction `d`. */
  ghost predicate IsPath(g: Graph, d: Direction, p: seq<Vertex>) {
    && |p| >= 1
    && (forall i :: 0 <= i < |p| ==> p[i] < |g.names|)
    && (forall i :: 0 <= i < |p| - 1 ==> Step(g, d, p[i], p[i + 1]))
  }

  /** There is a path from `a` to `b` in direction `d` (possibly of no edges, when a == b). */
  ghost predicate Reaches(g: Graph, d: Direction, a: Vertex, b: Vertex) {
    exists p :: IsPath(g, d, p) && p[0] == a && p[|p| - 1] == b
  }

  /** There is a closed path of at least one edge in direction `d`. */
  ghost predicate CycleIn(g: Graph, d: Direction) {
    exists p :: IsPath(g, d, p) && |p| >= 2 && p[0] == p[|p| - 1]
  }

  /** The graph has a directed cycle. */
  ghost predicate HasCycle(g: Graph) {
    CycleIn(g, Forward)
  }

  function Reverse(p: seq<Vertex>): (r: seq<Vertex>)
    ensures |r| == |p|
    ensures forall i :: 0 <= i < |p| ==> r[i] == p[|p| - 1 - i]
  {
    seq(|p|, i requires 0 <= i < |p| => p[|p| - 1 - i])
  }

  /** Following an edge one way is following it the other way backwards. */
  lemma StepFlip(g: Graph, d: Direction, a: Vertex, b: Vertex)
    requires Step(g, d, a, b)
    ensures Step(g, Flip(d), b, a)
  {
    var k :| 0 <= k < |g.edges| && From(g.edges[k], d) == a && To(g.edges[k], d) == b;
    assert From(g.edges[k], Flip(d)) == b && To(g.edges[k], Flip(d)) == a;
  }

  /** A path read backwards is a path in the opposite direction. */
  lemma PathReverse(g: Graph, d: Direction, p: seq<Vertex>)
    requires IsPath(g, d, p)
    ensures IsPath(g, Flip(d), Reverse(p))
  {
    var r := Reverse(p);
    forall i | 0 <= i < |r| - 1
      ensures Step(g, Flip(d), r[i], r[i + 1])
    {
      var j := |p| - 2 - i;
      assert r[i] == p[j + 1] && r[i + 1] == p[j];
      StepFlip(g, d, p[j], p[j + 1]);
    }
  }

  /** `b` is reachable from `a` one way iff `a` is reachable from `b` the other way. */
  lemma ReachesFlip(g: Graph, d: Direction, a: Vertex, b: Vertex)
    ensures Reaches(g, d, a, b) <==> Reaches(g, Flip(d), b, a)
  {
    if Reaches(g, d, a, b) {
      var p :| IsPath(g, d, p) && p[0] == a && p[|p| - 1] == b;
      PathReverse(g, d, p);
      assert Reverse(p)[0] == b && Reverse(p)[|p| - 1] == a;
    }
    if Reaches(g, Flip(d), b, a) {
      var p :| IsPath(g, Flip(d), p) && p[0] == b && p[|p| - 1] == a;
      PathReverse(g, Flip(d), p);
      assert Flip(Flip(d)) == d;
      assert Reverse(p)[0] == a && Reverse(p)[|p| - 1] == b;
    }
  }

  /** The graph has a cycle followed forwards iff it has one followed backwards. */
  lemma CycleFlip(g: Graph, d: Direction)
    ensures CycleIn(g, d) <==> CycleIn(g, Flip(d))
  {
    if CycleIn(g, d) {
      var p :| IsPath(g, d, p) && |p| >= 2 && p[0] == p[|p| - 1];
      PathReverse(g, d, p);
      assert Reverse(p)[0] == Reverse(p)[|p| - 1];
    }
    if CycleIn(g, Flip(d)) {
      var p :| IsPath(g, Flip(d), p) && |p| >= 2 && p[0] == p[|p| - 1];
      PathReverse(g, Flip(d), p);
      assert Flip(Flip(d)) == d;
      assert Reverse(p)[0] == Reverse(p)[|p| - 1];
    }
  }

  /** A path extended by one more step is a path. */
  lemma PathExtend(g: Graph, d: Direction, p: seq<Vertex>, b: Vertex)
    requires g.Valid() && IsPath(g, d, p) && Step(g, d, p[|p| - 1], b)
    ensures IsPath(g, d, p + [b])
  {
    var k :| 0 <= k < |g.edges| && From(g.edges[k], d) == p[|p| - 1] && To(g.edges[k], d) == b;
    var q := p + [b];
    forall i | 0 <= i < |q| - 1
      ensures Step(g, d, q[i], q[i + 1])
    {
      if i < |p| - 1 {
        assert q[i] == p[i] && q[i + 1] == p[i + 1];
      } else {
        assert q[i] == p[|p| - 1] && q[i + 1] == b;
      }
    }
  }

  /** Reachability is extended by one step. */
  lemma ReachesStep(g: Graph, d: Direction, a: Vertex, b: Vertex, c: Vertex)
    requires g.Valid() && Reaches(g, d, a, b) && Step(g, d, b, c)
    ensures Reaches(g, d, a, c)
  {
    var p :| IsPath(g, d, p) && p[0] == a && p[|p| - 1] == b;
    PathExtend(g, d, p, c);
    assert (p + [c])[0] == a;
  }

  /** Every vertex reaches itself. */
  lemma ReachesSelf(g: Graph, d: Direction, a: Vertex)
    requires a < |g.names|
    ensures Reaches(g, d, a, a)
  {
    assert IsPath(g, d, [a]);
  }

  /** A set of vertices that holds `a` and is closed under steps in direction `d` holds everything `a` reaches. */
  lemma {:induction false} ClosedHoldsReach(g: Graph, d: Direction, s: set<Vertex>, a: Vertex, b: Vertex)
    requires a in s && Reaches(g, d, a, b)
    requires forall k :: 0 <= k < |g.edges| && From(g.edges[k], d) in s ==> To(g.edges[k], d) in s
    ensures b in s
  {
    var p :| IsPath(g, d, p) && p[0] == a && p[|p| - 1] == b;
    var i := 0;
    while i < |p| - 1
      invariant 0 <= i <= |p| - 1
      invariant p[i] in s
    {
      assert Step(g, d, p[i], p[i + 1]);
      i := i + 1;
    }
  }
}
