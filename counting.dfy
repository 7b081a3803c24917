/**
 * What the co-occurrence builder does to edge weights, stated on names.
 *
 * While reading a line, after each name is taken the builder visits every
 * pair of positions i < j among the names taken so far, i-major. The visits of
 * the whole input, as pairs of names, are `Visits(lines)`; the weight of the
 * edge between two names is the number of visits to that unordered pair.
 * `LineWeight` gives the closed form: in a line of m names, the pair at
 * positions i < j is visited m - j times.
 */
module Counting {
  import opened Tokenize

  type NamePair = (string, string)

  /** The visit `p` is to the unordered pair {x, y}. */
  predicate Matches(p: NamePair, x: string, y: string) {
    (p.0 == x && p.1 == y) || (p.0 == y && p.1 == x)
  }

  /** How many visits of `trace` go to the unordered pair {x, y}. */
  function PairCount(trace: seq<NamePair>, x: string, y: string): (count: nat) {
    if trace == [] then 0
    else PairCount(trace[..|trace| - 1], x, y) + (if Matches(trace[|trace| - 1], x, y) then 1 else 0)
  }

  /** The visits (ns[i], ns[j']) for i < j' < j: the inner pair loop for row i, cut at j. */
  function Row(ns: seq<string>, i: nat, j: nat): (visits: seq<NamePair>)
    requires i < |ns| && j <= |ns|
    decreases j
  {
    if j <= i + 1 then [] else Row(ns, i, j - 1) + [(ns[i], ns[j - 1])]
  }

  /** Rows 0..i-1 of the pair loops over the first n names, each row complete. */
  function Rows(ns: seq<string>, n: nat, i: nat): (visits: seq<NamePair>)
    requires i <= n <= |ns|
  {
    if i == 0 then [] else Rows(ns, n, i - 1) + Row(ns, i - 1, n)
  }

  /** One run of the nested pair loops over the first n names. */
  function Pairs(ns: seq<string>, n: nat): (visits: seq<NamePair>)
    requires n <= |ns|
  {
    Rows(ns, n, n)
  }

  /** The visits made while taking the first k names of a line: one run of the pair loops after each name. */
  function LineVisits(ts: seq<string>, k: nat): (visits: seq<NamePair>)
    requires k <= |ts|
  {
    if k == 0 then [] else LineVisits(ts, k - 1) + Pairs(ts, k)
  }

  /** The visits made while reading one line. */
  function LineTrace(line: string): (visits: seq<NamePair>) {
    var ts := Tokens(line);
    LineVisits(ts, |ts|)
  }

  /** The visits made while reading all of `lines`. */
  function Visits(lines: seq<string>): (visits: seq<NamePair>) {
    if lines == [] then [] else Visits(lines[..|lines| - 1]) + LineTrace(lines[|lines| - 1])
  }

  /** The names of all lines, in reading order. */
  function AllTokens(lines: seq<string>): (names: seq<string>) {
    if lines == [] then [] else AllTokens(lines[..|lines| - 1]) + Tokens(lines[|lines| - 1])
  }

  // ---------------------------------------------------------------------------
  // The closed form of a line's visit counts
  // ---------------------------------------------------------------------------

  /** How many of the positions i < n hold a partner of position j for the pair {x, y}. */
  function Partners(ts: seq<string>, j: nat, x: string, y: string, n: nat): (count: nat)
    requires n <= j < |ts|
  {
    if n == 0 then 0 else Partners(ts, j, x, y, n - 1) + (if Matches((ts[n - 1], ts[j]), x, y) then 1 else 0)
  }

  /** Sum over j < k of the partners of j. */
  function PartnerSum(ts: seq<string>, x: string, y: string, k: nat): (sum: nat)
    requires k <= |ts|
  {
    if k == 0 then 0 else PartnerSum(ts, x, y, k - 1) + Partners(ts, k - 1, x, y, k - 1)
  }

  /** Sum over j < k of (m - j) times the partners of j. */
  function WeightedSum(ts: seq<string>, x: string, y: string, m: nat, k: nat): (sum: nat)
    requires k <= |ts| && k <= m
  {
    if k == 0 then 0 else WeightedSum(ts, x, y, m, k - 1) + (m - (k - 1)) * Partners(ts, k - 1, x, y, k - 1)
  }

  lemma {:induction false} PairCountConcat(a: seq<NamePair>, b: seq<NamePair>, x: string, y: string)
    ensures PairCount(a + b, x, y) == PairCount(a, x, y) + PairCount(b, x, y)
    decreases |b|
  {
    if b != [] {
      assert (a + b)[..|a + b| - 1] == a + b[..|b| - 1];
      PairCountConcat(a, b[..|b| - 1], x, y);
    } else {
      assert a + b == a;
    }
  }

  lemma PairCountSingle(p: NamePair, x: string, y: string)
    ensures PairCount([p], x, y) == if Matches(p, x, y) then 1 else 0
  {
    assert [p][..0] == [];
  }

  /** One more visit adds one to the count of its own pair and nothing to any other. */
  lemma PairCountSnoc(trace: seq<NamePair>, p: NamePair, x: string, y: string)
    ensures PairCount(trace + [p], x, y) == PairCount(trace, x, y) + (if Matches(p, x, y) then 1 else 0)
  {
    assert (trace + [p])[..|trace|] == trace;
  }

  /** A name no visit mentions has count 0 with every partner. */
  lemma {:induction false} PairCountAbsent(trace: seq<NamePair>, x: string, y: string)
    requires forall i :: 0 <= i < |trace| ==> trace[i].0 != x && trace[i].1 != x
    ensures PairCount(trace, x, y) == 0
    decreases |trace|
  {
    if trace != [] {
      PairCountAbsent(trace[..|trace| - 1], x, y);
    }
  }

  /** Raising every multiplier by one adds one more copy of every partner count. */
  lemma {:induction false} WeightedSumShift(ts: seq<string>, x: string, y: string, m: nat, k: nat)
    requires k <= |ts| && k <= m
    ensures WeightedSum(ts, x, y, m + 1, k) == WeightedSum(ts, x, y, m, k) + PartnerSum(ts, x, y, k)
  {
    if k > 0 {
      WeightedSumShift(ts, x, y, m, k - 1);
    }
  }

  /**
   * How many visits of row i, cut at j, go to {x, y}: the count
   * `PairCount(Row(ns, i, j), x, y)` (see `RowCounted`), computed without
   * building the row. The closed-form proofs count through these functions
   * because `PairCount` over concatenated rows is costly for the solver.
   */
  function RowCount(ns: seq<string>, i: nat, j: nat, x: string, y: string): (count: nat)
    requires i < |ns| && j <= |ns|
    decreases j
  {
    if j <= i + 1 then 0 else RowCount(ns, i, j - 1, x, y) + (if Matches((ns[i], ns[j - 1]), x, y) then 1 else 0)
  }

  /**
   * How many visits of rows 0..i-1 over the first n names go to {x, y}: the
   * count `PairCount(Rows(ns, n, i), x, y)` (see `RowsCounted`), kept as its own
   * function for the same reason as `RowCount`.
   */
  function RowsCount(ns: seq<string>, n: nat, i: nat, x: string, y: string): (count: nat)
    requires i <= n <= |ns|
  {
    if i == 0 then 0 else RowsCount(ns, n, i - 1, x, y) + RowCount(ns, i - 1, n, x, y)
  }

  lemma {:induction false} RowCounted(ns: seq<string>, i: nat, j: nat, x: string, y: string)
    requires i < |ns| && j <= |ns|
    ensures PairCount(Row(ns, i, j), x, y) == RowCount(ns, i, j, x, y)
    decreases j
  {
    if j > i + 1 {
      var p := (ns[i], ns[j - 1]);
      RowCounted(ns, i, j - 1, x, y);
      PairCountConcat(Row(ns, i, j - 1), [p], x, y);
      PairCountSingle(p, x, y);
    }
  }

  lemma {:induction false} RowsCounted(ns: seq<string>, n: nat, i: nat, x: string, y: string)
    requires i <= n <= |ns|
    ensures PairCount(Rows(ns, n, i), x, y) == RowsCount(ns, n, i, x, y)
  {
    if i > 0 {
      RowsCounted(ns, n, i - 1, x, y);
      RowCounted(ns, i - 1, n, x, y);
      PairCountConcat(Rows(ns, n, i - 1), Row(ns, i - 1, n), x, y);
    }
  }

  /** Taking name n as well adds to rows 0..i-1 one visit each, (ns[i'], ns[n]). */
  lemma {:induction false} RowsAppend(ns: seq<string>, n: nat, i: nat, x: string, y: string)
    requires i <= n < |ns|
    ensures RowsCount(ns, n + 1, i, x, y) == RowsCount(ns, n, i, x, y) + Partners(ns, n, x, y, i)
  {
    if i > 0 {
      RowsAppend(ns, n, i - 1, x, y);
    }
  }

  /** One run of the pair loops over n names: every position j < n counts its partners before it. */
  lemma {:induction false} PairsCount(ns: seq<string>, n: nat, x: string, y: string)
    requires n <= |ns|
    ensures PairCount(Pairs(ns, n), x, y) == PartnerSum(ns, x, y, n)
  {
    RowsCounted(ns, n, n, x, y);
    PairsCountByRows(ns, n, x, y);
  }

  lemma {:induction false} PairsCountByRows(ns: seq<string>, n: nat, x: string, y: string)
    requires n <= |ns|
    ensures RowsCount(ns, n, n, x, y) == PartnerSum(ns, x, y, n)
  {
    if n > 0 {
      PairsCountByRows(ns, n - 1, x, y);
      RowsAppend(ns, n - 1, n - 1, x, y);
    }
  }

  /**
   * The weight rule of one line: with m names, the pair at positions i < j is
   * visited m - j times, because the pair loops rerun after every later name.
   */
  lemma {:induction false} LineWeight(ts: seq<string>, k: nat, x: string, y: string)
    requires k <= |ts|
    ensures PairCount(LineVisits(ts, k), x, y) == WeightedSum(ts, x, y, k, k)
  {
    if k > 0 {
      LineWeight(ts, k - 1, x, y);
      PairCountConcat(LineVisits(ts, k - 1), Pairs(ts, k), x, y);
      PairsCount(ts, k, x, y);
      WeightedSumShift(ts, x, y, k - 1, k - 1);
    }
  }

  /** With three different names a, b, c on a line, {a, b} gets 2 visits and {a, c}, {b, c} get 1 each. */
  lemma ThreeNamesExample(a: string, b: string, c: string)
    requires a != b && a != c && b != c
    ensures PairCount(LineVisits([a, b, c], 3), a, b) == 2
    ensures PairCount(LineVisits([a, b, c], 3), a, c) == 1
    ensures PairCount(LineVisits([a, b, c], 3), b, c) == 1
  {
    var ts := [a, b, c];
    LineWeight(ts, 3, a, b);
    LineWeight(ts, 3, a, c);
    LineWeight(ts, 3, b, c);
    WeightedSumOfThree(ts, a, b);
    WeightedSumOfThree(ts, a, c);
    WeightedSumOfThree(ts, b, c);
    assert Partners(ts, 1, a, b, 1) == 1;
    assert Partners(ts, 2, a, b, 1) == 0 && Partners(ts, 2, a, b, 2) == 0;
    assert Partners(ts, 1, a, c, 1) == 0;
    assert Partners(ts, 2, a, c, 1) == 1 && Partners(ts, 2, a, c, 2) == 1;
    assert Partners(ts, 1, b, c, 1) == 0;
    assert Partners(ts, 2, b, c, 1) == 0 && Partners(ts, 2, b, c, 2) == 1;
  }

  lemma WeightedSumOfThree(ts: seq<string>, x: string, y: string)
    requires |ts| == 3
    ensures WeightedSum(ts, x, y, 3, 3) == 2 * Partners(ts, 1, x, y, 1) + Partners(ts, 2, x, y, 2)
  {
    assert WeightedSum(ts, x, y, 3, 1) == 0;
    assert WeightedSum(ts, x, y, 3, 2) == 2 * Partners(ts, 1, x, y, 1);
  }

  /** Every two positions i < j of a line are visited as a pair while reading it. */
  lemma LinePairVisited(ts: seq<string>, i: nat, j: nat)
    requires i < j < |ts|
    ensures PairCount(LineVisits(ts, |ts|), ts[i], ts[j]) > 0
  {
    LineWeight(ts, |ts|, ts[i], ts[j]);
    PartnersPositive(ts, j, ts[i], ts[j], i);
    WeightedSumPositive(ts, ts[i], ts[j], |ts|, |ts|, j);
  }

  /** A name repeated on a line is paired with itself: its vertex gets a self-loop. */
  lemma RepeatedNameSelfPair(ts: seq<string>, i: nat, j: nat)
    requires i < j < |ts| && ts[i] == ts[j]
    ensures PairCount(LineVisits(ts, |ts|), ts[i], ts[i]) > 0
  {
    LinePairVisited(ts, i, j);
  }

  lemma {:induction false} PartnersPositive(ts: seq<string>, j: nat, x: string, y: string, i: nat)
    requires i < j < |ts| && Matches((ts[i], ts[j]), x, y)
    ensures Partners(ts, j, x, y, j) > 0
  {
    var n := j;
    while n > i + 1
      invariant i + 1 <= n <= j
      invariant Partners(ts, j, x, y, n) <= Partners(ts, j, x, y, j)
    {
      n := n - 1;
    }
  }

  lemma {:induction false} WeightedSumPositive(ts: seq<string>, x: string, y: string, m: nat, k: nat, j: nat)
    requires j < k <= |ts| && k <= m && Partners(ts, j, x, y, j) > 0
    ensures WeightedSum(ts, x, y, m, k) > 0
  {
    var c, p := m - (k - 1), Partners(ts, k - 1, x, y, k - 1);
    MulAtLeast(c, p);
    assert WeightedSum(ts, x, y, m, k) == WeightedSum(ts, x, y, m, k - 1) + c * p;
    if k - 1 > j {
      WeightedSumPositive(ts, x, y, m, k - 1, j);
    }
  }

  lemma MulAtLeast(c: nat, p: nat)
    requires c >= 1
    ensures c * p >= p
  {
  }

  // ---------------------------------------------------------------------------
  // Which pairs get visited at all
  // ---------------------------------------------------------------------------

  /** Every visit of `trace` has both names in `names`. */
  ghost predicate VisitsWithin(trace: seq<NamePair>, names: seq<string>) {
    forall i :: 0 <= i < |trace| ==> trace[i].0 in names && trace[i].1 in names
  }

  lemma {:induction false} PairCountPositive(trace: seq<NamePair>, x: string, y: string)
    requires PairCount(trace, x, y) > 0
    ensures exists i :: 0 <= i < |trace| && Matches(trace[i], x, y)
    decreases |trace|
  {
    var init := trace[..|trace| - 1];
    if !Matches(trace[|trace| - 1], x, y) {
      PairCountPositive(init, x, y);
      var i :| 0 <= i < |init| && Matches(init[i], x, y);
      assert trace[i] == init[i];
    }
  }

  lemma {:induction false} RowWithin(ns: seq<string>, i: nat, j: nat)
    requires i < |ns| && j <= |ns|
    ensures VisitsWithin(Row(ns, i, j), ns)
    decreases j
  {
    if j > i + 1 {
      RowWithin(ns, i, j - 1);
    }
  }

  lemma {:induction false} RowsWithin(ns: seq<string>, n: nat, i: nat)
    requires i <= n <= |ns|
    ensures VisitsWithin(Rows(ns, n, i), ns)
  {
    if i > 0 {
      RowsWithin(ns, n, i - 1);
      RowWithin(ns, i - 1, n);
    }
  }

  lemma {:induction false} LineVisitsWithin(ts: seq<string>, k: nat)
    requires k <= |ts|
    ensures VisitsWithin(LineVisits(ts, k), ts)
  {
    if k > 0 {
      LineVisitsWithin(ts, k - 1);
      RowsWithin(ts, k, k);
    }
  }

  /** A pair visited while reading one line is a pair of names of that line. */
  lemma LinePairWithin(ts: seq<string>, x: string, y: string)
    requires PairCount(LineVisits(ts, |ts|), x, y) > 0
    ensures x in ts && y in ts
  {
    var lv := LineVisits(ts, |ts|);
    PairCountPositive(lv, x, y);
    LineVisitsWithin(ts, |ts|);
    var i :| 0 <= i < |lv| && Matches(lv[i], x, y);
  }

  lemma SameLineInPrefix(lines: seq<string>, n: nat, l: nat)
    requires l < n <= |lines|
    ensures Tokens(lines[..n][l]) == Tokens(lines[l])
  {
    assert lines[..n][l] == lines[l];
  }

  /** Some line holds both x and y. */
  ghost predicate ShareALine(lines: seq<string>, x: string, y: string) {
    exists l :: 0 <= l < |lines| && x in Tokens(lines[l]) && y in Tokens(lines[l])
  }

  /** Two names are ever visited as a pair only if they stand on a common line. */
  lemma {:induction false} VisitedPairsShareALine(lines: seq<string>, x: string, y: string)
    requires PairCount(Visits(lines), x, y) > 0
    ensures ShareALine(lines, x, y)
    decreases |lines|
  {
    var n := |lines| - 1;
    var init := lines[..n];
    var last := Tokens(lines[n]);
    assert Visits(lines) == Visits(init) + LineVisits(last, |last|);
    PairCountConcat(Visits(init), LineVisits(last, |last|), x, y);
    if PairCount(Visits(init), x, y) > 0 {
      VisitedPairsShareALine(init, x, y);
      var l :| 0 <= l < |init| && x in Tokens(init[l]) && y in Tokens(init[l]);
      SameLineInPrefix(lines, n, l);
    } else {
      LinePairWithin(last, x, y);
      assert x in Tokens(lines[n]) && y in Tokens(lines[n]);
    }
  }

  /** The count over all lines is the count over all but the last plus the count over the last. */
  lemma VisitsCountSnoc(lines: seq<string>, x: string, y: string)
    requires lines != []
    ensures PairCount(Visits(lines), x, y)
         == PairCount(Visits(lines[..|lines| - 1]), x, y) + PairCount(LineTrace(lines[|lines| - 1]), x, y)
  {
    PairCountConcat(Visits(lines[..|lines| - 1]), LineTrace(lines[|lines| - 1]), x, y);
  }

  lemma LastLineIncluded(lines: seq<string>, x: string, y: string)
    requires lines != []
    ensures PairCount(Visits(lines), x, y) >= PairCount(LineTrace(lines[|lines| - 1]), x, y)
  {
    VisitsCountSnoc(lines, x, y);
  }

  lemma EarlierLineIncluded(lines: seq<string>, l: nat, x: string, y: string)
    requires l < |lines| - 1
    requires PairCount(Visits(lines[..|lines| - 1]), x, y) >= PairCount(LineTrace(lines[..|lines| - 1][l]), x, y)
    ensures PairCount(Visits(lines), x, y) >= PairCount(LineTrace(lines[l]), x, y)
  {
    VisitsCountSnoc(lines, x, y);
    assert lines[..|lines| - 1][l] == lines[l];
  }

  /** The visits of the whole input include those of each line. */
  lemma {:induction false} VisitsIncludeLine(lines: seq<string>, l: nat, x: string, y: string)
    requires l < |lines|
    ensures PairCount(Visits(lines), x, y) >= PairCount(LineTrace(lines[l]), x, y)
    decreases |lines|
  {
    if l < |lines| - 1 {
      VisitsIncludeLine(lines[..|lines| - 1], l, x, y);
      EarlierLineIncluded(lines, l, x, y);
    } else {
      LastLineIncluded(lines, x, y);
    }
  }

  /** Two names at different positions of one line are visited as a pair. */
  lemma SharedLinePairVisited(lines: seq<string>, l: nat, i: nat, j: nat)
    requires l < |lines| && i < j < |Tokens(lines[l])|
    ensures PairCount(Visits(lines), Tokens(lines[l])[i], Tokens(lines[l])[j]) > 0
  {
    var ts := Tokens(lines[l]);
    LinePairVisited(ts, i, j);
    VisitsIncludeLine(lines, l, ts[i], ts[j]);
    assert LineTrace(lines[l]) == LineVisits(ts, |ts|);
  }

  // ---------------------------------------------------------------------------
  // Interning order
  // ---------------------------------------------------------------------------

  /** The distinct names of `ts` in order of first appearance. */
  function FirstOccurrences(ts: seq<string>): (r: seq<string>)
    ensures forall x :: x in r <==> x in ts
    ensures forall i, j :: 0 <= i < j < |r| ==> r[i] != r[j]
  {
    if ts == [] then []
    else
      var init := FirstOccurrences(ts[..|ts| - 1]);
      if ts[|ts| - 1] in init then init else init + [ts[|ts| - 1]]
  }
}
