/**
 * The co-occurrence graph builder: an undirected graph with one vertex per
 * distinct name and one weighted edge per pair of names that ever stood on a
 * common line. Lines are read one by one; each is split into names, every new
 * name becomes a vertex, and after each name is taken every pair among the
 * names taken so far on that line has its edge created (weight 0) if missing
 * and its weight raised by one.
 *
 * The weights are 32-bit unsigned integers, so they are kept modulo 2^32.
 * What the weights count is stated through the visit trace of `Counting`:
 * `Records(trace)` says that the graph holds exactly the pairs the trace
 * visits, and that every weight is the number of visits to its pair.
 */
module Cooccurrence {
  import opened Basics
  import opened Tokenize
  import opened Counting

  /** Edge weights are `unsigned`, 32 bits wide. */
  const WeightModulus: nat := 0x1_0000_0000

  type VertexId = nat

  datatype WeightedEdge = WeightedEdge(u: VertexId, v: VertexId, weight: nat)

  /** The undirected edge `e` joins a and b. */
  predicate Joins(e: WeightedEdge, a: VertexId, b: VertexId) {
    (e.u == a && e.v == b) || (e.u == b && e.v == a)
  }

  ghost predicate HasEdge(edges: seq<WeightedEdge>, a: VertexId, b: VertexId) {
    exists k :: 0 <= k < |edges| && Joins(edges[k], a, b)
  }

  /** No two edges join the same pair of vertices. */
  ghost predicate NoParallelEdges(edges: seq<WeightedEdge>) {
    forall k, l :: 0 <= k < l < |edges| ==> !Joins(edges[l], edges[k].u, edges[k].v)
  }

  /** Every edge joins existing vertices and its weight fits in 32 bits. */
  ghost predicate EdgesWithin(names: seq<string>, edges: seq<WeightedEdge>) {
    forall k :: 0 <= k < |edges| ==> edges[k].u < |names| && edges[k].v < |names| && edges[k].weight < WeightModulus
  }

  /** The visits to the pair an edge joins, given the edge joins existing vertices. */
  ghost function EdgeCount(names: seq<string>, trace: seq<NamePair>, e: WeightedEdge): (count: nat)
    requires e.u < |names| && e.v < |names|
  {
    PairCount(trace, names[e.u], names[e.v])
  }

  /** Every weight is the number of visits to its pair, modulo 2^32. */
  ghost predicate WeightsCount(names: seq<string>, edges: seq<WeightedEdge>, trace: seq<NamePair>)
    requires EdgesWithin(names, edges)
  {
    forall k :: 0 <= k < |edges| ==> edges[k].weight == EdgeCount(names, trace, edges[k]) % WeightModulus
  }

  /** Every visited pair of vertices has an edge. */
  ghost predicate Covered(names: seq<string>, edges: seq<WeightedEdge>, trace: seq<NamePair>) {
    forall a, b {:trigger HasEdge(edges, a, b)} :: 0 <= a < |names| && 0 <= b < |names| && PairCount(trace, names[a], names[b]) > 0 ==> HasEdge(edges, a, b)
  }

  /** Every edge's pair has been visited. */
  ghost predicate Visited(names: seq<string>, edges: seq<WeightedEdge>, trace: seq<NamePair>, skip: int)
    requires EdgesWithin(names, edges)
  {
    forall k :: 0 <= k < |edges| && k != skip ==> EdgeCount(names, trace, edges[k]) > 0
  }

  /**
   * The graph (names, edges) is what the visits of `trace` build: distinct
   * names, at most one edge per pair, an edge exactly for the visited pairs,
   * and the weights counting the visits.
   */
  ghost predicate RecordsOn(names: seq<string>, edges: seq<WeightedEdge>, trace: seq<NamePair>) {
    && Distinct(names)
    && EdgesWithin(names, edges)
    && NoParallelEdges(edges)
    && VisitsWithin(trace, names)
    && WeightsCount(names, edges, trace)
    && Covered(names, edges, trace)
    && Visited(names, edges, trace, -1)
  }

  /** The edges with the weight of edge k raised by one, wrapping at 2^32. */
  function Bump(edges: seq<WeightedEdge>, k: nat): (r: seq<WeightedEdge>)
    requires k < |edges|
    ensures |r| == |edges| && r[k].u == edges[k].u && r[k].v == edges[k].v
    ensures forall l :: 0 <= l < |edges| && l != k ==> r[l] == edges[l]
  {
    edges[k := edges[k].(weight := (edges[k].weight + 1) % WeightModulus)]
  }

  /** The undirected weighted graph being built, with its vertex names. */
  class CoGraph {
    var names: seq<string>
    var edges: seq<WeightedEdge>

    ghost predicate Records(trace: seq<NamePair>)
      reads this
    {
      RecordsOn(names, edges, trace)
    }

    /** A new graph has no vertices and no edges. */
    constructor ()
      ensures names == [] && edges == []
    {
      names := [];
      edges := [];
    }

    /** Add a vertex carrying `name`; its id is the number of vertices before. */
    method AddVertex(name: string) returns (v: VertexId)
      modifies this
      ensures v == |old(names)| && names == old(names) + [name] && edges == old(edges)
    {
      v := |names|;
      names := names + [name];
    }

    /** The edge joining a and b, if there is one: the first such edge. */
    method FindEdge(a: VertexId, b: VertexId) returns (r: Option<nat>)
      ensures r.Some? ==> r.value < |edges| && Joins(edges[r.value], a, b)
      ensures r.Some? ==> forall k :: 0 <= k < r.value ==> !Joins(edges[k], a, b)
      ensures r.None? <==> !HasEdge(edges, a, b)
    {
      for k := 0 to |edges|
        invariant forall l :: 0 <= l < k ==> !Joins(edges[l], a, b)
      {
        if Joins(edges[k], a, b) {
          return Some(k);
        }
      }
      return None;
    }

    /** Add an edge between a and b with weight 0; its index is the number of edges before. */
    method AddEdge(a: VertexId, b: VertexId) returns (k: nat)
      modifies this
      ensures k == |old(edges)| && edges == old(edges) + [WeightedEdge(a, b, 0)] && names == old(names)
    {
      k := |edges|;
      edges := edges + [WeightedEdge(a, b, 0)];
    }

    /** Raise the weight of edge k by one, wrapping at 2^32; nothing else changes. */
    method IncrementWeight(k: nat)
      requires k < |edges|
      modifies this
      ensures edges == Bump(old(edges), k)
      ensures names == old(names)
    {
      edges := Bump(edges, k);
    }
  }

  // ---------------------------------------------------------------------------
  // What one visit does to the recorded graph
  // ---------------------------------------------------------------------------

  /** Between distinct names, a visit to (names[a], names[b]) goes to the pair of an edge only if the edge joins a and b. */
  lemma MatchesJoins(names: seq<string>, e: WeightedEdge, a: VertexId, b: VertexId)
    requires Distinct(names) && a < |names| && b < |names| && e.u < |names| && e.v < |names|
    ensures Matches((names[a], names[b]), names[e.u], names[e.v]) <==> Joins(e, a, b)
  {
    if names[a] == names[e.u] {
      assert a == e.u;
    }
    if names[a] == names[e.v] {
      assert a == e.v;
    }
    if names[b] == names[e.u] {
      assert b == e.u;
    }
    if names[b] == names[e.v] {
      assert b == e.v;
    }
  }

  lemma ModSucc(c: nat)
    ensures ((c % WeightModulus) + 1) % WeightModulus == (c + 1) % WeightModulus
  {
  }

  /** A pair with no edge has not been visited. */
  lemma UnvisitedWithoutEdge(names: seq<string>, edges: seq<WeightedEdge>, trace: seq<NamePair>, a: VertexId, b: VertexId)
    requires RecordsOn(names, edges, trace) && a < |names| && b < |names| && !HasEdge(edges, a, b)
    ensures PairCount(trace, names[a], names[b]) == 0
  {
  }

  /** Adding a weight-0 edge for an unvisited pair keeps everything but that edge's visitedness. */
  lemma {:induction false} AddEdgeKeeps(names: seq<string>, edges: seq<WeightedEdge>, trace: seq<NamePair>, a: VertexId, b: VertexId)
    requires RecordsOn(names, edges, trace) && a < |names| && b < |names| && !HasEdge(edges, a, b)
    ensures var edges' := edges + [WeightedEdge(a, b, 0)];
      && EdgesWithin(names, edges')
      && NoParallelEdges(edges')
      && WeightsCount(names, edges', trace)
      && Covered(names, edges', trace)
      && Visited(names, edges', trace, |edges|)
  {
    var edges' := edges + [WeightedEdge(a, b, 0)];
    UnvisitedWithoutEdge(names, edges, trace, a, b);
    forall k, l | 0 <= k < l < |edges'|
      ensures !Joins(edges'[l], edges'[k].u, edges'[k].v)
    {
      if l == |edges| {
        assert !Joins(edges[k], a, b);
      }
    }
    forall x, y | 0 <= x < |names| && 0 <= y < |names| && PairCount(trace, names[x], names[y]) > 0
      ensures HasEdge(edges', x, y)
    {
      assert HasEdge(edges, x, y);
      var k :| 0 <= k < |edges| && Joins(edges[k], x, y);
      assert edges'[k] == edges[k];
    }
  }

  /** The edge k is the only one joining its two ends. */
  lemma OnlyEdge(edges: seq<WeightedEdge>, k: nat, l: nat, a: VertexId, b: VertexId)
    requires NoParallelEdges(edges) && k < |edges| && l < |edges| && l != k
    requires Joins(edges[k], a, b)
    ensures !Joins(edges[l], a, b)
  {
    if k < l {
      assert !Joins(edges[l], edges[k].u, edges[k].v);
    } else {
      assert !Joins(edges[k], edges[l].u, edges[l].v);
    }
  }

  /** After the visit, edge l still counts its pair: k's count goes up by one, every other stays. */
  lemma EdgeAfterVisit(names: seq<string>, edges: seq<WeightedEdge>, trace: seq<NamePair>, a: VertexId, b: VertexId, k: nat, l: nat)
    requires a < |names| && b < |names| && k < |edges| && l < |edges| && Joins(edges[k], a, b)
    requires Distinct(names) && EdgesWithin(names, edges) && NoParallelEdges(edges)
    requires WeightsCount(names, edges, trace) && Visited(names, edges, trace, k)
    ensures var e := edges[l];
      var w := if l == k then (e.weight + 1) % WeightModulus else e.weight;
      var c := EdgeCount(names, trace + [(names[a], names[b])], e);
      w == c % WeightModulus && c > 0
  {
    var e := edges[l];
    var p := (names[a], names[b]);
    PairCountSnoc(trace, p, names[e.u], names[e.v]);
    MatchesJoins(names, e, a, b);
    if l == k {
      ModSucc(EdgeCount(names, trace, e));
    } else {
      OnlyEdge(edges, k, l, a, b);
    }
  }

  /** After the visit, every visited pair still has an edge. */
  lemma CoveredAfterVisit(names: seq<string>, edges: seq<WeightedEdge>, trace: seq<NamePair>, a: VertexId, b: VertexId, k: nat, x: VertexId, y: VertexId)
    requires a < |names| && b < |names| && k < |edges| && Joins(edges[k], a, b)
    requires x < |names| && y < |names| && Distinct(names) && Covered(names, edges, trace)
    requires PairCount(trace + [(names[a], names[b])], names[x], names[y]) > 0
    ensures HasEdge(edges, x, y)
  {
    var p := (names[a], names[b]);
    PairCountSnoc(trace, p, names[x], names[y]);
    if PairCount(trace, names[x], names[y]) == 0 {
      MatchesJoins(names, WeightedEdge(x, y, 0), a, b);
      assert Joins(edges[k], x, y);
    }
  }

  lemma VisitsWithinSnoc(trace: seq<NamePair>, names: seq<string>, p: NamePair)
    requires VisitsWithin(trace, names) && p.0 in names && p.1 in names
    ensures VisitsWithin(trace + [p], names)
  {
    forall i | 0 <= i < |trace| + 1
      ensures (trace + [p])[i].0 in names && (trace + [p])[i].1 in names
    {
      if i < |trace| {
        assert (trace + [p])[i] == trace[i];
      }
    }
  }

  /** Raising the weight of one edge leaves which pairs have edges unchanged. */
  lemma HasEdgeAfterIncrement(edges: seq<WeightedEdge>, k: nat, w: nat, x: VertexId, y: VertexId)
    requires k < |edges| && HasEdge(edges, x, y)
    ensures HasEdge(edges[k := edges[k].(weight := w)], x, y)
  {
    var j :| 0 <= j < |edges| && Joins(edges[j], x, y);
    assert Joins(edges[k := edges[k].(weight := w)][j], x, y);
  }

  /**
   * Visiting (names[a], names[b]) and raising the weight of the edge k that
   * joins them keeps the graph recording the visits, provided every other
   * edge had been visited before.
   */
  lemma VisitKeeps(names: seq<string>, edges: seq<WeightedEdge>, trace: seq<NamePair>, a: VertexId, b: VertexId, k: nat)
    requires a < |names| && b < |names| && k < |edges| && Joins(edges[k], a, b)
    requires Distinct(names) && EdgesWithin(names, edges) && NoParallelEdges(edges) && VisitsWithin(trace, names)
    requires WeightsCount(names, edges, trace) && Covered(names, edges, trace) && Visited(names, edges, trace, k)
    ensures RecordsOn(names, Bump(edges, k), trace + [(names[a], names[b])])
  {
    var p := (names[a], names[b]);
    var trace' := trace + [p];
    var edges' := Bump(edges, k);
    assert EdgesWithin(names, edges');
    forall l | 0 <= l < |edges'|
      ensures edges'[l].weight == EdgeCount(names, trace', edges'[l]) % WeightModulus
      ensures EdgeCount(names, trace', edges'[l]) > 0
    {
      EdgeAfterVisit(names, edges, trace, a, b, k, l);
    }
    forall x, y | 0 <= x < |names| && 0 <= y < |names| && PairCount(trace', names[x], names[y]) > 0
      ensures HasEdge(edges', x, y)
    {
      CoveredAfterVisit(names, edges, trace, a, b, k, x, y);
      HasEdgeAfterIncrement(edges, k, (edges[k].weight + 1) % WeightModulus, x, y);
    }
    VisitsWithinSnoc(trace, names, p);
  }

  /** A visit to a pair that has its edge k. */
  lemma VisitExisting(names: seq<string>, edges: seq<WeightedEdge>, trace: seq<NamePair>, a: VertexId, b: VertexId, k: nat)
    requires RecordsOn(names, edges, trace) && a < |names| && b < |names| && k < |edges| && Joins(edges[k], a, b)
    ensures RecordsOn(names, Bump(edges, k), trace + [(names[a], names[b])])
  {
    VisitKeeps(names, edges, trace, a, b, k);
  }

  /** A visit to a pair without an edge: the edge is added with weight 0, then raised. */
  lemma VisitNew(names: seq<string>, edges: seq<WeightedEdge>, trace: seq<NamePair>, a: VertexId, b: VertexId)
    requires RecordsOn(names, edges, trace) && a < |names| && b < |names| && !HasEdge(edges, a, b)
    ensures RecordsOn(names, Bump(edges + [WeightedEdge(a, b, 0)], |edges|), trace + [(names[a], names[b])])
  {
    AddEdgeKeeps(names, edges, trace, a, b);
    VisitKeeps(names, edges + [WeightedEdge(a, b, 0)], trace, a, b, |edges|);
  }

  /**
   * One visit to the pair of vertices a and b (the source's inner loop body):
   * find their edge, add it with weight 0 if missing, and raise its weight by one.
   */
  method VisitPair(g: CoGraph, a: VertexId, b: VertexId, ghost trace: seq<NamePair>)
    requires g.Records(trace) && a < |g.names| && b < |g.names|
    modifies g
    ensures g.names == old(g.names)
    ensures g.Records(trace + [(g.names[a], g.names[b])])
  {
    var found := g.FindEdge(a, b);
    if found.None? {
      VisitNew(g.names, g.edges, trace, a, b);
      var k := g.AddEdge(a, b);
      g.IncrementWeight(k);
    } else {
      VisitExisting(g.names, g.edges, trace, a, b, found.value);
      g.IncrementWeight(found.value);
    }
  }

  /** Step from one pair to the next in row i: the row gains the pair (ts[i], ts[j]). */
  lemma RowGrows(ts: seq<string>, i: nat, j: nat, t: seq<NamePair>)
    requires i < j < |ts|
    ensures t + Row(ts, i, j) + [(ts[i], ts[j])] == t + Row(ts, i, j + 1)
  {
  }

  lemma RowsGrow(ts: seq<string>, n: nat, i: nat, t: seq<NamePair>)
    requires i < n <= |ts|
    ensures t + Rows(ts, n, i) + Row(ts, i, n) == t + Rows(ts, n, i + 1)
  {
  }

  /**
   * The source's inner pair loop for row i: visit (nodes[i], nodes[j]) for
   * every j > i. Afterwards the graph records row i over the names of `nodes`,
   * here the first |nodes| names of `ts`.
   */
  method VisitRow(g: CoGraph, nodes: seq<VertexId>, i: nat, ghost ts: seq<string>, ghost trace: seq<NamePair>)
    requires g.Records(trace) && i < |nodes| <= |ts|
    requires forall i :: 0 <= i < |nodes| ==> nodes[i] < |g.names| && g.names[nodes[i]] == ts[i]
    modifies g
    ensures g.names == old(g.names)
    ensures g.Records(trace + Row(ts, i, |nodes|))
  {
    var j := i + 1;
    assert trace + Row(ts, i, j) == trace;
    while j < |nodes|
      invariant i + 1 <= j <= |nodes|
      invariant g.names == old(g.names)
      invariant g.Records(trace + Row(ts, i, j))
    {
      VisitPair(g, nodes[i], nodes[j], trace + Row(ts, i, j));
      RowGrows(ts, i, j, trace);
      j := j + 1;
    }
  }

  /**
   * The source's pair loops (all pairs i < j among the vertices of `nodes`,
   * i-major): afterwards the graph records one more run of the pair loops over
   * the names of `nodes`, here the first |nodes| names of `ts`.
   */
  method VisitPairs(g: CoGraph, nodes: seq<VertexId>, ghost ts: seq<string>, ghost trace: seq<NamePair>)
    requires g.Records(trace) && |nodes| <= |ts|
    requires forall i :: 0 <= i < |nodes| ==> nodes[i] < |g.names| && g.names[nodes[i]] == ts[i]
    modifies g
    ensures g.names == old(g.names)
    ensures g.Records(trace + Pairs(ts, |nodes|))
  {
    var i := 0;
    assert trace + Rows(ts, |nodes|, 0) == trace;
    while i < |nodes|
      invariant 0 <= i <= |nodes|
      invariant g.names == old(g.names)
      invariant g.Records(trace + Rows(ts, |nodes|, i))
    {
      VisitRow(g, nodes, i, ts, trace + Rows(ts, |nodes|, i));
      RowsGrow(ts, |nodes|, i, trace);
      i := i + 1;
    }
  }

  // ---------------------------------------------------------------------------
  // Interning names
  // ---------------------------------------------------------------------------

  /** `lookup` maps exactly the names of the graph to their vertices. */
  ghost predicate Interns(lookup: map<string, VertexId>, names: seq<string>) {
    && (forall x :: x in lookup <==> x in names)
    && (forall x :: x in lookup ==> lookup[x] < |names| && names[lookup[x]] == x)
  }

  /** A new name is not in any visit when the visits stay within the old names. */
  lemma NewVertexKeeps(names: seq<string>, edges: seq<WeightedEdge>, trace: seq<NamePair>, item: string)
    requires RecordsOn(names, edges, trace) && item !in names
    ensures RecordsOn(names + [item], edges, trace)
  {
    var names' := names + [item];
    forall i | 0 <= i < |trace|
      ensures trace[i].0 != item && trace[i].1 != item
    {
    }
    forall x, y | 0 <= x < |names'| && 0 <= y < |names'| && PairCount(trace, names'[x], names'[y]) > 0
      ensures HasEdge(edges, x, y)
    {
      if x == |names| {
        PairCountAbsent(trace, item, names'[y]);
      } else if y == |names| {
        PairCountAbsent(trace, item, names'[x]);
        assert Matches((item, names'[x]), names'[y], names'[x]) ==> Matches((item, names'[x]), names'[x], names'[y]);
        PairCountSym(trace, names'[x], item);
      } else {
        assert names'[x] == names[x] && names'[y] == names[y];
      }
    }
    forall k | 0 <= k < |edges|
      ensures names'[edges[k].u] == names[edges[k].u] && names'[edges[k].v] == names[edges[k].v]
    {
    }
    assert VisitsWithin(trace, names');
  }

  /** The count of {x, y} is the count of {y, x}. */
  lemma {:induction false} PairCountSym(trace: seq<NamePair>, x: string, y: string)
    ensures PairCount(trace, x, y) == PairCount(trace, y, x)
    decreases |trace|
  {
    if trace != [] {
      PairCountSym(trace[..|trace| - 1], x, y);
    }
  }

  /**
   * Look a trimmed name up in `lookup`; a name not seen before becomes a new
   * vertex and is entered in `lookup`. Returns the name's vertex.
   */
  method Intern(g: CoGraph, lookup: map<string, VertexId>, item: string, ghost trace: seq<NamePair>)
    returns (lookup': map<string, VertexId>, v: VertexId)
    requires g.Records(trace) && Interns(lookup, g.names)
    modifies g
    ensures g.Records(trace) && Interns(lookup', g.names)
    ensures g.names == if item in old(g.names) then old(g.names) else old(g.names) + [item]
    ensures g.edges == old(g.edges)
    ensures |old(g.names)| <= |g.names| && g.names[..|old(g.names)|] == old(g.names)
    ensures v < |g.names| && g.names[v] == item
  {
    if item !in lookup {
      NewVertexKeeps(g.names, g.edges, trace, item);
      v := g.AddVertex(item);
      lookup' := lookup[item := v];
    } else {
      lookup' := lookup;
      v := lookup[item];
    }
  }

  // ---------------------------------------------------------------------------
  // Reading the lines
  // ---------------------------------------------------------------------------

  lemma FirstOccurrencesSnoc(ts: seq<string>, t: string)
    ensures FirstOccurrences(ts + [t]) == if t in FirstOccurrences(ts) then FirstOccurrences(ts) else FirstOccurrences(ts) + [t]
  {
    assert (ts + [t])[..|ts|] == ts;
  }

  lemma LinesSnoc(lines: seq<string>, l: nat)
    requires l < |lines|
    ensures Visits(lines[..l + 1]) == Visits(lines[..l]) + LineVisits(Tokens(lines[l]), |Tokens(lines[l])|)
    ensures AllTokens(lines[..l + 1]) == AllTokens(lines[..l]) + Tokens(lines[l])
  {
    assert lines[..l + 1][..l] == lines[..l];
  }

  /** Interning the next name of a line keeps the vertex names the first occurrences of the names read so far. */
  lemma NameTaken(seen: seq<string>, ts: seq<string>, t: nat, names: seq<string>, names': seq<string>)
    requires t < |ts| && names == FirstOccurrences(seen + ts[..t])
    requires names' == if ts[t] in names then names else names + [ts[t]]
    ensures names' == FirstOccurrences(seen + ts[..t + 1])
  {
    ReadOneMore(seen, ts, t);
    FirstOccurrencesSnoc(seen + ts[..t], ts[t]);
  }

  lemma ReadOneMore(seen: seq<string>, ts: seq<string>, t: nat)
    requires t < |ts|
    ensures seen + ts[..t + 1] == (seen + ts[..t]) + [ts[t]]
  {
    assert ts[..t + 1] == ts[..t] + [ts[t]];
  }

  lemma LineVisitsGrow(before: seq<NamePair>, ts: seq<string>, t: nat)
    requires t < |ts|
    ensures before + LineVisits(ts, t + 1) == before + LineVisits(ts, t) + Pairs(ts, t + 1)
  {
  }

  /** The vertices taken so far still carry their names after one more is taken. */
  lemma NodesGrow(nodes: seq<VertexId>, v: VertexId, names: seq<string>, names': seq<string>, ts: seq<string>, t: nat)
    requires |nodes| == t < |ts| && v < |names'| && names'[v] == ts[t]
    requires |names| <= |names'| && names'[..|names|] == names
    requires forall i :: 0 <= i < t ==> nodes[i] < |names| && names[nodes[i]] == ts[i]
    ensures forall i :: 0 <= i < t + 1 ==> (nodes + [v])[i] < |names'| && names'[(nodes + [v])[i]] == ts[i]
  {
    forall i | 0 <= i < t
      ensures names'[nodes[i]] == ts[i]
    {
      assert names'[..|names|][nodes[i]] == names[nodes[i]];
    }
  }

  /**
   * The state after taking the first |nodes| names `ts` of a line: `nodes`
   * holds their vertices, the vertex names are the first occurrences of
   * everything read, and the edges record every visit made so far.
   */
  ghost predicate Taken(g: CoGraph, lookup: map<string, VertexId>, nodes: seq<VertexId>,
                        ts: seq<string>, seen: seq<string>, before: seq<NamePair>)
    reads g
  {
    && |nodes| <= |ts|
    && (forall i :: 0 <= i < |nodes| ==> nodes[i] < |g.names| && g.names[nodes[i]] == ts[i])
    && g.names == FirstOccurrences(seen + ts[..|nodes|]) && Interns(lookup, g.names)
    && g.Records(before + LineVisits(ts, |nodes|))
  }

  /** Before a line is read, nothing of it has been taken. */
  lemma NothingTaken(g: CoGraph, lookup: map<string, VertexId>, ts: seq<string>,
                     seen: seq<string>, before: seq<NamePair>)
    requires g.names == FirstOccurrences(seen) && g.Records(before) && Interns(lookup, g.names)
    ensures Taken(g, lookup, [], ts, seen, before)
  {
    assert seen + ts[..0] == seen;
    assert before + LineVisits(ts, 0) == before;
  }

  /** Once every name of a line is taken, the whole line has been read. */
  lemma AllTaken(g: CoGraph, lookup: map<string, VertexId>, nodes: seq<VertexId>,
                 ts: seq<string>, seen: seq<string>, before: seq<NamePair>)
    requires Taken(g, lookup, nodes, ts, seen, before) && |nodes| == |ts|
    ensures g.names == FirstOccurrences(seen + ts) && Interns(lookup, g.names)
    ensures g.Records(before + LineVisits(ts, |ts|))
  {
    assert ts[..|nodes|] == ts;
  }

  /**
   * Take the next name of a line (the source's lookup, `nodes.push_back` and
   * the pair loops that follow it): intern it, append its vertex to `nodes`
   * and visit every pair of the extended `nodes`. The line's names are `ts`,
   * of which the first |nodes| have been taken before.
   */
  method TakeName(g: CoGraph, lookup: map<string, VertexId>, nodes: seq<VertexId>, item: string,
                  ghost ts: seq<string>, ghost seen: seq<string>, ghost before: seq<NamePair>)
    returns (lookup': map<string, VertexId>, nodes': seq<VertexId>)
    requires |nodes| < |ts| && ts[|nodes|] == item
    requires Taken(g, lookup, nodes, ts, seen, before)
    modifies g
    ensures |nodes'| == |nodes| + 1
    ensures Taken(g, lookup', nodes', ts, seen, before)
  {
    var t := |nodes|;
    var v;
    ghost var names := g.names;
    ghost var trace := before + LineVisits(ts, t);
    lookup', v := Intern(g, lookup, item, trace);
    NameTaken(seen, ts, t, names, g.names);
    NodesGrow(nodes, v, names, g.names, ts, t);
    nodes' := nodes + [v];
    VisitPairs(g, nodes', ts, trace);
    LineVisitsGrow(before, ts, t);
  }

  /**
   * Read one line (the source's loop body per line): split it at commas, and
   * for each trimmed name take it into `nodes` and rerun the pair loops.
   */
  method ParseLine(g: CoGraph, lookup: map<string, VertexId>, line: string,
                   ghost seen: seq<string>, ghost before: seq<NamePair>)
    returns (lookup': map<string, VertexId>)
    requires g.names == FirstOccurrences(seen) && g.Records(before) && Interns(lookup, g.names)
    modifies g
    ensures g.names == FirstOccurrences(seen + Tokens(line))
    ensures g.Records(before + LineVisits(Tokens(line), |Tokens(line)|))
    ensures Interns(lookup', g.names)
  {
    lookup' := lookup;
    var items := Split(line);
    var nodes: seq<VertexId> := [];
    ghost var ts := Tokens(line);
    NothingTaken(g, lookup, ts, seen, before);
    while |nodes| < |items|
      invariant |ts| == |items| && Taken(g, lookup', nodes, ts, seen, before)
      decreases |items| - |nodes|
    {
      TokenIsTrimmedPiece(line, |nodes|);
      lookup', nodes := TakeName(g, lookup', nodes, Trim(items[|nodes|]), ts, seen, before);
    }
    AllTaken(g, lookup', nodes, ts, seen, before);
  }

  /**
   * Build the co-occurrence graph of `lines` into the empty graph `g`: the
   * vertices are the distinct names in order of first appearance, and the
   * graph records every visit the nested loops make.
   */
  method Parse(g: CoGraph, lines: seq<string>)
    requires g.names == [] && g.edges == []
    modifies g
    ensures g.names == FirstOccurrences(AllTokens(lines))
    ensures g.Records(Visits(lines))
  {
    var lookup: map<string, VertexId> := map[];
    var l := 0;
    assert lines[..0] == [];
    while l < |lines|
      invariant 0 <= l <= |lines|
      invariant g.names == FirstOccurrences(AllTokens(lines[..l]))
      invariant g.Records(Visits(lines[..l]))
      invariant Interns(lookup, g.names)
    {
      ghost var seen := AllTokens(lines[..l]);
      ghost var before := Visits(lines[..l]);
      lookup := ParseLine(g, lookup, lines[l], seen, before);
      LinesSnoc(lines, l);
      l := l + 1;
    }
    assert lines[..l] == lines;
  }

  // ---------------------------------------------------------------------------
  // What the finished graph says about the input
  // ---------------------------------------------------------------------------

  /** In a recorded graph every edge's pair has been visited. */
  lemma EdgeWasVisited(names: seq<string>, edges: seq<WeightedEdge>, trace: seq<NamePair>, k: nat)
    requires RecordsOn(names, edges, trace) && k < |edges|
    ensures edges[k].u < |names| && edges[k].v < |names|
    ensures PairCount(trace, names[edges[k].u], names[edges[k].v]) > 0
  {
    assert EdgeCount(names, trace, edges[k]) > 0;
  }

  /** In a recorded graph every visited pair of names is joined by an edge. */
  lemma VisitedPairHasEdge(names: seq<string>, edges: seq<WeightedEdge>, trace: seq<NamePair>, x: string, y: string)
    requires RecordsOn(names, edges, trace) && PairCount(trace, x, y) > 0
    ensures exists a, b :: 0 <= a < |names| && 0 <= b < |names| && names[a] == x && names[b] == y && HasEdge(edges, a, b)
  {
    PairCountPositive(trace, x, y);
    var n :| 0 <= n < |trace| && Matches(trace[n], x, y);
    assert x in names && y in names;
    var a :| 0 <= a < |names| && names[a] == x;
    var b :| 0 <= b < |names| && names[b] == y;
    assert HasEdge(edges, a, b);
  }

  /** Every edge of the graph built from `lines` joins two names that stand on a common line. */
  lemma EdgeJoinsSharedLine(names: seq<string>, edges: seq<WeightedEdge>, lines: seq<string>, k: nat)
    requires RecordsOn(names, edges, Visits(lines)) && k < |edges|
    ensures ShareALine(lines, names[edges[k].u], names[edges[k].v])
  {
    var x, y := names[edges[k].u], names[edges[k].v];
    assert PairCount(Visits(lines), x, y) > 0 by {
      EdgeWasVisited(names, edges, Visits(lines), k);
    }
    VisitedPairsShareALine(lines, x, y);
  }

  /** Two names at different positions of a common line end up joined by an edge. */
  lemma SharedLineHasEdge(names: seq<string>, edges: seq<WeightedEdge>, lines: seq<string>, l: nat, i: nat, j: nat)
    requires RecordsOn(names, edges, Visits(lines))
    requires l < |lines| && i < j < |Tokens(lines[l])|
    ensures exists a, b :: 0 <= a < |names| && 0 <= b < |names| && names[a] == Tokens(lines[l])[i]
                           && names[b] == Tokens(lines[l])[j] && HasEdge(edges, a, b)
  {
    SharedLinePairVisited(lines, l, i, j);
    VisitedPairHasEdge(names, edges, Visits(lines), Tokens(lines[l])[i], Tokens(lines[l])[j]);
  }

  /** A name that occurs twice on a line gets a self-loop. */
  lemma RepeatedNameSelfLoop(names: seq<string>, edges: seq<WeightedEdge>, lines: seq<string>, l: nat, i: nat, j: nat)
    requires RecordsOn(names, edges, Visits(lines))
    requires l < |lines| && i < j < |Tokens(lines[l])| && Tokens(lines[l])[i] == Tokens(lines[l])[j]
    ensures exists a :: 0 <= a < |names| && names[a] == Tokens(lines[l])[i] && HasEdge(edges, a, a)
  {
    SharedLineHasEdge(names, edges, lines, l, i, j);
    var a, b :| 0 <= a < |names| && 0 <= b < |names| && names[a] == Tokens(lines[l])[i]
                && names[b] == Tokens(lines[l])[j] && HasEdge(edges, a, b);
    assert a == b;
  }

  /**
   * The graph built from a single line: the weight of every edge is the number
   * of times the pair loops visit its pair on that line, taken modulo 2^32.
   */
  lemma OneLineWeights(names: seq<string>, edges: seq<WeightedEdge>, line: string, k: nat)
    requires RecordsOn(names, edges, Visits([line])) && k < |edges|
    ensures var ts := Tokens(line);
      edges[k].weight == WeightedSum(ts, names[edges[k].u], names[edges[k].v], |ts|, |ts|) % WeightModulus
  {
    var ts := Tokens(line);
    assert [line][..0] == [];
    assert Visits([line]) == LineVisits(ts, |ts|);
    LineWeight(ts, |ts|, names[edges[k].u], names[edges[k].v]);
  }
}
