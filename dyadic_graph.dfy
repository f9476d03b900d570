/**
 * The dyadic projection of `GenerateDyadicGraph.py`: every hyperedge, given as consecutive
 * `(edge_id, term_id, pos)` rows, becomes all pairs of its terms.
 */
module DyadicGraph {

  import opened Wrappers
  import opened Text

  /** One row of an entity hyperedge table: `(edge_id, term_id, pos)`. */
  datatype HyperedgeRow = HyperedgeRow(edgeId: int, termId: int, pos: int)

  /** One row handed to the dyadic table: `(edge_id, source_id, target_id)`. */
  datatype DyadicRow = DyadicRow(edgeId: int, source: int, target: int)

  /** A maximal run of consecutive rows that share an edge id, with their term ids in order. */
  datatype Run = Run(id: int, terms: seq<int>)

  // ---------------------------------------------------------------------------------------
  // gaus and sorting

  /** `gaus(n) = n * (n + 1) / 2`; the source divides with `/`, see README. */
  function Gaus(n: int): int
  {
    n * (n + 1) / 2
  }

  predicate IsSorted(s: seq<int>)
  {
    forall i, j :: 0 <= i < j < |s| ==> s[i] <= s[j]
  }

  /** Puts `x` before the first element not below it. */
  function Insert(x: int, s: seq<int>): (r: seq<int>)
    ensures multiset(r) == multiset(s) + multiset{x} && |r| == |s| + 1
  {
    if |s| == 0 then [x]
    else if x <= s[0] then [x] + s
    else
      assert s == [s[0]] + s[1..];
      [s[0]] + Insert(x, s[1..])
  }

  /** A lower bound of `x` and of every element of `s` bounds the result of the insertion. */
  lemma {:induction false} InsertBound(x: int, s: seq<int>, b: int)
    requires b <= x && forall i :: 0 <= i < |s| ==> b <= s[i]
    ensures forall i :: 0 <= i < |Insert(x, s)| ==> b <= Insert(x, s)[i]
  {
    if |s| > 0 && x > s[0] {
      InsertBound(x, s[1..], b);
    }
  }

  /** An element not above any element of a sorted sequence can go in front. */
  lemma ConsSorted(x: int, s: seq<int>)
    requires IsSorted(s) && forall i :: 0 <= i < |s| ==> x <= s[i]
    ensures IsSorted([x] + s)
  {
    var r := [x] + s;
    forall i, j | 0 <= i < j < |r| ensures r[i] <= r[j] {
      assert r[j] == s[j - 1];
      if i > 0 {
        assert r[i] == s[i - 1];
      }
    }
  }

  /** Inserting into a sorted sequence keeps it sorted. */
  lemma {:induction false} InsertSorted(x: int, s: seq<int>)
    requires IsSorted(s)
    ensures IsSorted(Insert(x, s))
  {
    if |s| == 0 {
    } else if x <= s[0] {
      ConsSorted(x, s);
    } else {
      InsertSorted(x, s[1..]);
      InsertBound(x, s[1..], s[0]);
      ConsSorted(s[0], Insert(x, s[1..]));
    }
  }

  /** Python's `sorted` on a list of term ids: ascending, same elements with the same multiplicities. */
  function Sort(s: seq<int>): (r: seq<int>)
    ensures IsSorted(r) && multiset(r) == multiset(s) && |r| == |s|
  {
    if |s| == 0 then []
    else
      assert s == s[..|s| - 1] + [s[|s| - 1]];
      var sorted := Sort(s[..|s| - 1]);
      InsertSorted(s[|s| - 1], sorted);
      Insert(s[|s| - 1], sorted)
  }

  // ---------------------------------------------------------------------------------------
  // explode_hyperedge

  /** The pairs of `h[i]` with every later element, in index order. */
  function Row(h: seq<int>, i: nat): (r: seq<(int, int)>)
    requires i < |h|
    ensures |r| == |h| - i - 1
    ensures forall t :: 0 <= t < |r| ==> r[t] == (h[i], h[i + 1 + t])
  {
    seq(|h| - i - 1, t requires 0 <= t < |h| - i - 1 => (h[i], h[i + 1 + t]))
  }

  /** The rows of the first `i` elements, one after the other. */
  function PairsUpTo(h: seq<int>, i: nat): seq<(int, int)>
    requires i <= |h|
  {
    if i == 0 then [] else PairsUpTo(h, i - 1) + Row(h, i - 1)
  }

  /** Every pair `(h[a], h[b])` with `a < b`, in the order of the nested loops. */
  function Pairs(h: seq<int>): seq<(int, int)>
  {
    PairsUpTo(h, |h|)
  }

  /** Each pair followed by its mirror, tagged with the edge id. */
  function Mirrored(id: int, ps: seq<(int, int)>): seq<DyadicRow>
  {
    if |ps| == 0 then []
    else
      var p := ps[|ps| - 1];
      Mirrored(id, ps[..|ps| - 1]) + [DyadicRow(id, p.0, p.1), DyadicRow(id, p.1, p.0)]
  }

  lemma MirroredSnoc(id: int, ps: seq<(int, int)>, p: (int, int))
    ensures Mirrored(id, ps + [p]) == Mirrored(id, ps) + [DyadicRow(id, p.0, p.1), DyadicRow(id, p.1, p.0)]
  {
    assert (ps + [p])[..|ps|] == ps;
  }

  /**
   * `explode_hyperedge`: sorts the terms, then for every `i` and every `j > i` appends
   * `(h[i], h[j])` to the edge set and both `(id, h[i], h[j])` and `(id, h[j], h[i])` to the
   * rows for the table.
   */
  method ExplodeHyperedge(hyperedge: seq<int>, id: int) returns (edgeSet: seq<(int, int)>, postgresSet: seq<DyadicRow>)
    ensures edgeSet == Pairs(Sort(hyperedge))
    ensures postgresSet == Mirrored(id, edgeSet)
  {
    var h := Sort(hyperedge);
    edgeSet, postgresSet := [], [];
    var i := 0;
    while i < |h|
      invariant 0 <= i <= |h|
      invariant edgeSet == PairsUpTo(h, i) && postgresSet == Mirrored(id, edgeSet)
    {
      edgeSet, postgresSet := PairWithLater(h, i, id, edgeSet, postgresSet);
      i := i + 1;
    }
  }

  /** The inner loop of `explode_hyperedge`: pairs `h[i]` with every later term. */
  method PairWithLater(h: seq<int>, i: nat, id: int, edgeSet: seq<(int, int)>, postgresSet: seq<DyadicRow>)
    returns (edges: seq<(int, int)>, rows: seq<DyadicRow>)
    requires i < |h| && postgresSet == Mirrored(id, edgeSet)
    ensures edges == edgeSet + Row(h, i) && rows == Mirrored(id, edges)
  {
    edges, rows := edgeSet, postgresSet;
    var j := i + 1;
    while j < |h|
      invariant i + 1 <= j <= |h|
      invariant edges == edgeSet + Row(h, i)[..j - i - 1]
      invariant rows == Mirrored(id, edges)
    {
      TakeOneMore(Row(h, i), j - i - 1);
      MirroredSnoc(id, edges, (h[i], h[j]));
      edges := edges + [(h[i], h[j])];
      rows := rows + [DyadicRow(id, h[i], h[j])];
      rows := rows + [DyadicRow(id, h[j], h[i])];
      j := j + 1;
    }
    assert Row(h, i)[..|h| - i - 1] == Row(h, i);
  }

  lemma TakeOneMore<T>(s: seq<T>, k: nat)
    requires k < |s|
    ensures s[..k + 1] == s[..k] + [s[k]]
  {
  }

  lemma SliceSplit<T>(s: seq<T>, i: nat, j: nat)
    requires i <= j <= |s|
    ensures s[..j] == s[..i] + s[i..j]
  {
  }

  lemma {:induction false} PairsUpToCount(h: seq<int>, i: nat)
    requires i <= |h|
    ensures 2 * |PairsUpTo(h, i)| == i * (2 * |h| - 1 - i)
  {
    if i > 0 {
      PairsUpToCount(h, i - 1);
      assert i * (2 * |h| - 1 - i) == (i - 1) * (2 * |h| - 1 - (i - 1)) + 2 * (|h| - i);
    }
  }

  /** A hyperedge of `k` terms explodes into `k(k-1)/2` pairs, which is `gaus(k - 1)`. */
  lemma PairsCount(h: seq<int>)
    ensures 2 * |Pairs(h)| == |h| * (|h| - 1)
    ensures |Pairs(h)| == Gaus(|h| - 1)
  {
    PairsUpToCount(h, |h|);
    assert |h| * (2 * |h| - 1 - |h|) == |h| * (|h| - 1);
    assert (|h| - 1) * (|h| - 1 + 1) == |h| * (|h| - 1);
  }

  /** The pairs of a sorted hyperedge number `gaus(len - 1)`. */
  lemma SortedPairsCount(h: seq<int>)
    ensures |Pairs(Sort(h))| == Gaus(|h| - 1)
  {
    PairsCount(Sort(h));
  }

  /** `gaus(k - 1)` is `k(k - 1)/2` for every `k >= 0`; in particular `gaus(-1) == 0` for the empty first group. */
  lemma GausClosedForm(k: nat)
    ensures 2 * Gaus(k - 1) == k * (k - 1)
    ensures Gaus(-1) == 0
  {
    var h := seq(k, _ => 0);
    PairsCount(h);
  }

  lemma {:induction false} MirroredShape(id: int, ps: seq<(int, int)>)
    ensures |Mirrored(id, ps)| == 2 * |ps|
    ensures forall t :: 0 <= t < |ps| ==>
              Mirrored(id, ps)[2 * t] == DyadicRow(id, ps[t].0, ps[t].1) &&
              Mirrored(id, ps)[2 * t + 1] == DyadicRow(id, ps[t].1, ps[t].0)
  {
    if |ps| > 0 {
      var init := ps[..|ps| - 1];
      MirroredShape(id, init);
      forall t | 0 <= t < |ps|
        ensures Mirrored(id, ps)[2 * t] == DyadicRow(id, ps[t].0, ps[t].1)
        ensures Mirrored(id, ps)[2 * t + 1] == DyadicRow(id, ps[t].1, ps[t].0)
      {
        if t < |ps| - 1 {
          assert ps[t] == init[t];
        }
      }
    }
  }

  /** The edge set and the table rows of `explode_hyperedge` are in the proportion one to two. */
  lemma ExplodeCounts(hyperedge: seq<int>, id: int)
    ensures 2 * |Pairs(Sort(hyperedge))| == |hyperedge| * (|hyperedge| - 1)
    ensures |Mirrored(id, Pairs(Sort(hyperedge)))| == 2 * |Pairs(Sort(hyperedge))|
  {
    PairsCount(Sort(hyperedge));
    MirroredShape(id, Pairs(Sort(hyperedge)));
  }

  lemma {:induction false} PairsUpToMembers(h: seq<int>, i: nat, p: (int, int))
    requires i <= |h|
    ensures p in PairsUpTo(h, i) <==> exists a, b :: 0 <= a < i && a < b < |h| && p == (h[a], h[b])
  {
    if i > 0 {
      PairsUpToMembers(h, i - 1, p);
      var r := Row(h, i - 1);
      if p in r {
        var t :| 0 <= t < |r| && r[t] == p;
        assert p == (h[i - 1], h[i - 1 + 1 + t]);
      }
      if exists b :: i - 1 < b < |h| && p == (h[i - 1], h[b]) {
        var b :| i - 1 < b < |h| && p == (h[i - 1], h[b]);
        assert r[b - i] == p;
      }
    }
  }

  /** A pair is produced exactly when it takes an element and a later one. */
  lemma PairsMembers(h: seq<int>, p: (int, int))
    ensures p in Pairs(h) <==> exists a, b :: 0 <= a < b < |h| && p == (h[a], h[b])
  {
    PairsUpToMembers(h, |h|, p);
  }

  /** Because the terms are sorted first, every pair is `(smaller, larger)`. */
  lemma ExplodeOrdered(hyperedge: seq<int>)
    ensures forall p :: p in Pairs(Sort(hyperedge)) ==> p.0 <= p.1
  {
    forall p | p in Pairs(Sort(hyperedge))
      ensures p.0 <= p.1
    {
      PairsMembers(Sort(hyperedge), p);
    }
  }

  lemma {:induction false} DistinctUpTo(h: seq<int>, i: nat)
    requires i <= |h| && IsSorted(h) && NoDup(h)
    ensures forall s, t :: 0 <= s < t < |PairsUpTo(h, i)| ==> PairsUpTo(h, i)[s] != PairsUpTo(h, i)[t]
  {
    if i > 0 {
      DistinctUpTo(h, i - 1);
      var left, right := PairsUpTo(h, i - 1), Row(h, i - 1);
      var all := left + right;
      forall s, t | 0 <= s < t < |all|
        ensures all[s] != all[t]
      {
        if s < |left| && t >= |left| {
          PairsUpToMembers(h, i - 1, all[s]);
          var a, b :| 0 <= a < i - 1 && a < b < |h| && all[s] == (h[a], h[b]);
          assert all[t] == right[t - |left|];
        } else if s >= |left| {
          assert all[s] == right[s - |left|] && all[t] == right[t - |left|];
        }
      }
    }
  }

  /**
   * With pairwise distinct terms there is no self-pair and every unordered pair of terms
   * appears exactly once, as `(smaller, larger)`.
   */
  lemma ExplodeDistinct(hyperedge: seq<int>)
    requires NoDup(hyperedge)
    ensures var ps := Pairs(Sort(hyperedge));
            forall s, t :: 0 <= s < t < |ps| ==> ps[s] != ps[t]
    ensures forall x, y :: (x, y) in Pairs(Sort(hyperedge)) <==> x in hyperedge && y in hyperedge && x < y
  {
    var h := Sort(hyperedge);
    SortSameElements(hyperedge);
    SortKeepsDistinct(hyperedge);
    DistinctUpTo(h, |h|);
    forall x, y
      ensures (x, y) in Pairs(h) <==> x in hyperedge && y in hyperedge && x < y
    {
      PairsMembers(h, (x, y));
      if x in h && y in h && x < y {
        var a :| 0 <= a < |h| && h[a] == x;
        var b :| 0 <= b < |h| && h[b] == y;
        assert a < b;
      }
    }
  }

  lemma SortSameElements(s: seq<int>)
    ensures forall x :: x in Sort(s) <==> x in s
  {
    forall x
      ensures x in Sort(s) <==> x in s
    {
      assert x in Sort(s) <==> x in multiset(Sort(s));
      assert x in s <==> x in multiset(s);
    }
  }

  lemma SortKeepsDistinct(s: seq<int>)
    requires NoDup(s)
    ensures NoDup(Sort(s))
  {
    var h := Sort(s);
    forall i, j | 0 <= i < j < |h|
      ensures h[i] != h[j]
    {
      if h[i] == h[j] {
        TwoOccurrences(h, i, j);
        SingleOccurrence(s, h[i]);
      }
    }
  }

  lemma TwoOccurrences(h: seq<int>, i: int, j: int)
    requires 0 <= i < j < |h| && h[i] == h[j]
    ensures multiset(h)[h[i]] >= 2
  {
    var x := h[i];
    assert h == h[..i] + [x] + h[i + 1..j] + [x] + h[j + 1..];
  }

  lemma SingleOccurrence(s: seq<int>, x: int)
    requires NoDup(s)
    ensures multiset(s)[x] <= 1
  {
    if |s| > 0 {
      assert s == [s[0]] + s[1..];
      SingleOccurrence(s[1..], x);
      if s[0] == x {
        assert x !in s[1..];
      }
    }
  }

  // ---------------------------------------------------------------------------------------
  // Runs of rows with the same edge id

  /** Adds one row to the runs read so far: it joins the last run when it carries that run's id. */
  function Step(runs: seq<Run>, x: HyperedgeRow): (r: seq<Run>)
    ensures |r| > 0 && r[|r| - 1].id == x.edgeId
  {
    if |runs| > 0 && runs[|runs| - 1].id == x.edgeId
    then runs[..|runs| - 1] + [Run(x.edgeId, runs[|runs| - 1].terms + [x.termId])]
    else runs + [Run(x.edgeId, [x.termId])]
  }

  /** The rows cut into maximal runs of equal edge id, read row by row. */
  function Runs(rows: seq<HyperedgeRow>): (r: seq<Run>)
    ensures |rows| > 0 <==> |r| > 0
    ensures |rows| > 0 ==> r[|r| - 1].id == rows[|rows| - 1].edgeId
  {
    if |rows| == 0 then [] else Step(Runs(rows[..|rows| - 1]), rows[|rows| - 1])
  }

  lemma RunsSnoc(rows: seq<HyperedgeRow>, x: HyperedgeRow)
    ensures Runs(rows + [x]) == Step(Runs(rows), x)
  {
    assert (rows + [x])[..|rows|] == rows;
  }

  /** `f` applied to every element, the results one after the other. */
  function FlatMap<T, U>(f: T -> seq<U>, xs: seq<T>): seq<U>
  {
    if |xs| == 0 then [] else FlatMap(f, xs[..|xs| - 1]) + f(xs[|xs| - 1])
  }

  lemma FlatMapSnoc<T, U>(f: T -> seq<U>, xs: seq<T>, x: T)
    ensures FlatMap(f, xs + [x]) == FlatMap(f, xs) + f(x)
  {
    assert (xs + [x])[..|xs|] == xs;
  }

  lemma {:induction false} FlatMapAppend<T, U>(f: T -> seq<U>, xs: seq<T>, ys: seq<T>)
    ensures FlatMap(f, xs + ys) == FlatMap(f, xs) + FlatMap(f, ys)
    decreases |ys|
  {
    if |ys| == 0 {
      assert xs + ys == xs;
    } else {
      var init, y := ys[..|ys| - 1], ys[|ys| - 1];
      assert ys == init + [y];
      assert xs + ys == (xs + init) + [y];
      FlatMapAppend(f, xs, init);
      FlatMapSnoc(f, xs + init, y);
      FlatMapSnoc(f, init, y);
    }
  }

  function AllButLast<T>(s: seq<T>): seq<T>
  {
    if |s| == 0 then [] else s[..|s| - 1]
  }

  function Terms(r: Run): seq<int>
  {
    r.terms
  }

  function TermIds(rows: seq<HyperedgeRow>): (r: seq<int>)
    ensures |r| == |rows| && forall i :: 0 <= i < |rows| ==> r[i] == rows[i].termId
  {
    seq(|rows|, i requires 0 <= i < |rows| => rows[i].termId)
  }

  lemma TermIdsSnoc(rows: seq<HyperedgeRow>)
    requires |rows| > 0
    ensures TermIds(rows) == TermIds(rows[..|rows| - 1]) + [rows[|rows| - 1].termId]
  {
  }

  /** No run is empty and neighbouring runs carry different ids. */
  predicate Maximal(runs: seq<Run>)
  {
    && (forall t :: 0 <= t < |runs| ==> |runs[t].terms| > 0)
    && (forall t :: 0 <= t < |runs| - 1 ==> runs[t].id != runs[t + 1].id)
  }

  lemma StepPartition(runs: seq<Run>, x: HyperedgeRow)
    requires Maximal(runs)
    ensures Maximal(Step(runs, x))
    ensures FlatMap(Terms, Step(runs, x)) == FlatMap(Terms, runs) + [x.termId]
  {
    if |runs| > 0 && runs[|runs| - 1].id == x.edgeId {
      var init, last := runs[..|runs| - 1], runs[|runs| - 1];
      assert runs == init + [last];
      FlatMapSnoc(Terms, init, last);
      FlatMapSnoc(Terms, init, Run(x.edgeId, last.terms + [x.termId]));
    } else {
      FlatMapSnoc(Terms, runs, Run(x.edgeId, [x.termId]));
    }
  }

  /**
   * The runs are a partition of the rows: their terms, read in order, are the rows' terms;
   * no run is empty and neighbouring runs have different ids.
   */
  lemma {:induction false} RunsPartition(rows: seq<HyperedgeRow>)
    ensures FlatMap(Terms, Runs(rows)) == TermIds(rows)
    ensures Maximal(Runs(rows))
  {
    if |rows| > 0 {
      var init, x := rows[..|rows| - 1], rows[|rows| - 1];
      RunsPartition(init);
      StepPartition(Runs(init), x);
      TermIdsSnoc(rows);
    }
  }

  lemma StepAppend(left: seq<Run>, right: seq<Run>, x: HyperedgeRow)
    requires |right| > 0
    ensures Step(left + right, x) == left + Step(right, x)
  {
    var both := left + right;
    assert both[|both| - 1] == right[|right| - 1];
    assert both[..|both| - 1] == left + right[..|right| - 1];
  }

  /** A row with an id other than the last one starts a run of its own. */
  lemma {:induction false} RunsAppendOne(a: seq<HyperedgeRow>, x: HyperedgeRow)
    requires |a| > 0 ==> a[|a| - 1].edgeId != x.edgeId
    ensures Runs(a + [x]) == Runs(a) + Runs([x])
  {
    RunsSnoc(a, x);
    StepNewRun(Runs(a), x);
    RunsSingle(x);
  }

  lemma StepNewRun(runs: seq<Run>, x: HyperedgeRow)
    requires |runs| > 0 ==> runs[|runs| - 1].id != x.edgeId
    ensures Step(runs, x) == runs + [Run(x.edgeId, [x.termId])]
  {
  }

  lemma RunsSingle(x: HyperedgeRow)
    ensures Runs([x]) == [Run(x.edgeId, [x.termId])]
  {
    assert [x][..0] == [];
  }

  /** Cutting the rows where the edge id changes cuts the runs there too. */
  lemma {:induction false} RunsAppend(a: seq<HyperedgeRow>, b: seq<HyperedgeRow>)
    requires |a| > 0 && |b| > 0 ==> a[|a| - 1].edgeId != b[0].edgeId
    ensures Runs(a + b) == Runs(a) + Runs(b)
    decreases |b|
  {
    if |b| == 0 {
      assert a + b == a;
    } else if |b| == 1 {
      assert b == [b[0]];
      RunsAppendOne(a, b[0]);
    } else {
      var init, x := b[..|b| - 1], b[|b| - 1];
      assert b == init + [x];
      assert a + b == (a + init) + [x];
      RunsAppend(a, init);
      RunsSnoc(a + init, x);
      RunsSnoc(init, x);
      StepAppend(Runs(a), Runs(init), x);
    }
  }

  /** The pairs `explode_hyperedge` makes of one run. */
  function RunPairs(r: Run): seq<(int, int)>
  {
    Pairs(Sort(r.terms))
  }

  /** The table rows `explode_hyperedge` makes of one run. */
  function RunRows(r: Run): seq<DyadicRow>
  {
    Mirrored(r.id, Pairs(Sort(r.terms)))
  }

  // ---------------------------------------------------------------------------------------
  // handle_batch

  /** A row with a new id closes the current group: it becomes part of the exploded runs. */
  lemma CloseGroup(before: seq<Run>, x: HyperedgeRow, currId: int, group: seq<int>)
    requires |before| > 0 ==> before[|before| - 1] == Run(currId, group)
    requires |before| == 0 ==> group == []
    requires currId != x.edgeId
    ensures AllButLast(Step(before, x)) == before
    ensures Step(before, x)[|Step(before, x)| - 1] == Run(x.edgeId, [x.termId])
    ensures FlatMap(RunPairs, before) == FlatMap(RunPairs, AllButLast(before)) + Pairs(Sort(group))
    ensures FlatMap(RunRows, before) == FlatMap(RunRows, AllButLast(before)) + Mirrored(currId, Pairs(Sort(group)))
  {
    var r := Step(before, x);
    assert r == before + [Run(x.edgeId, [x.termId])];
    assert r[..|r| - 1] == before;
    if |before| > 0 {
      assert before == AllButLast(before) + [Run(currId, group)];
      FlatMapSnoc(RunPairs, AllButLast(before), Run(currId, group));
      FlatMapSnoc(RunRows, AllButLast(before), Run(currId, group));
    } else {
      assert Pairs(Sort(group)) == [];
    }
  }

  /** A row with the current id joins the current group. */
  lemma ExtendGroup(before: seq<Run>, x: HyperedgeRow, currId: int, group: seq<int>)
    requires |before| > 0 ==> before[|before| - 1] == Run(currId, group)
    requires |before| == 0 ==> group == []
    requires currId == x.edgeId
    ensures AllButLast(Step(before, x)) == AllButLast(before)
    ensures Step(before, x)[|Step(before, x)| - 1] == Run(currId, group + [x.termId])
  {
    var r := Step(before, x);
    if |before| > 0 {
      assert r == before[..|before| - 1] + [Run(currId, group + [x.termId])];
      assert r[..|r| - 1] == before[..|before| - 1];
    }
  }

  /**
   * Where the loop of `handle_batch` stands after reading rows cut into `runs`: the last run is
   * the current group, and every run before it has been exploded, in order.
   */
  ghost predicate Handled(runs: seq<Run>, currId: int, group: seq<int>,
                          edgeDict: seq<(int, int)>, postgresDict: seq<DyadicRow>)
  {
    && (|runs| > 0 ==> runs[|runs| - 1] == Run(currId, group))
    && (|runs| == 0 ==> group == [])
    && edgeDict == FlatMap(RunPairs, AllButLast(runs))
    && postgresDict == FlatMap(RunRows, AllButLast(runs))
  }

  /**
   * `handle_batch` as written: rows are collected into the current group while the edge id
   * stays `curr_id`; a group is exploded only when a row with another id arrives, so the last
   * group of the batch is never exploded. The returned id is the id of the last row.
   * `sizeMismatch` is the ValueError raised when `expected_size` differs from the number of pairs.
   */
  method HandleBatch(batch: seq<HyperedgeRow>, currId: int)
    returns (edgeDict: seq<(int, int)>, postgresDict: seq<DyadicRow>, lastId: int, sizeMismatch: bool)
    ensures !sizeMismatch
    ensures edgeDict == FlatMap(RunPairs, AllButLast(Runs(batch)))
    ensures postgresDict == FlatMap(RunRows, AllButLast(Runs(batch)))
    ensures lastId == if |batch| == 0 then currId else batch[|batch| - 1].edgeId
  {
    edgeDict, postgresDict := [], [];
    var expectedSize := 0;
    var currHyperedge: seq<int> := [];
    lastId := currId;
    ghost var runs: seq<Run> := [];
    var i := 0;
    while i < |batch|
      invariant 0 <= i <= |batch| && runs == Runs(batch[..i])
      invariant i == 0 ==> lastId == currId
      invariant Handled(runs, lastId, currHyperedge, edgeDict, postgresDict)
      invariant expectedSize == |edgeDict|
    {
      var edge := batch[i];
      TakeOneMore(batch, i);
      RunsSnoc(batch[..i], edge);
      var added;
      lastId, currHyperedge, edgeDict, postgresDict, added := HandleRow(runs, edge, lastId, currHyperedge, edgeDict, postgresDict);
      expectedSize := expectedSize + added;
      runs := Step(runs, edge);
      i := i + 1;
    }
    assert batch[..|batch|] == batch;
    sizeMismatch := expectedSize != |edgeDict|;
  }

  /**
   * One pass of the loop of `handle_batch`: a row with a new id explodes the current group and
   * starts a new one, a row with the current id joins the group. `added` is what the pass adds
   * to `expected_size`: `gaus(len - 1)` pairs of the exploded group.
   */
  method HandleRow(ghost runs: seq<Run>, edge: HyperedgeRow, currId: int, group: seq<int>,
                   edgeDict: seq<(int, int)>, postgresDict: seq<DyadicRow>)
    returns (nextId: int, nextGroup: seq<int>, nextEdges: seq<(int, int)>, nextRows: seq<DyadicRow>, added: int)
    requires Handled(runs, currId, group, edgeDict, postgresDict)
    ensures Handled(Step(runs, edge), nextId, nextGroup, nextEdges, nextRows)
    ensures |nextEdges| == |edgeDict| + added
  {
    if currId != edge.edgeId {
      nextEdges, nextRows, added := CloseRow(runs, edge, currId, group, edgeDict, postgresDict);
      nextId := edge.edgeId;
      nextGroup := [edge.termId];
    } else {
      ExtendGroup(runs, edge, currId, group);
      nextEdges, nextRows, added := edgeDict, postgresDict, 0;
      nextId := currId;
      nextGroup := group + [edge.termId];
    }
  }

  /** The pass of a row with a new id: the current group is exploded and appended. */
  method CloseRow(ghost runs: seq<Run>, edge: HyperedgeRow, currId: int, group: seq<int>,
                  edgeDict: seq<(int, int)>, postgresDict: seq<DyadicRow>)
    returns (nextEdges: seq<(int, int)>, nextRows: seq<DyadicRow>, added: int)
    requires |runs| > 0 ==> runs[|runs| - 1] == Run(currId, group)
    requires |runs| == 0 ==> group == []
    requires currId != edge.edgeId
    requires edgeDict == FlatMap(RunPairs, AllButLast(runs))
    requires postgresDict == FlatMap(RunRows, AllButLast(runs))
    ensures Step(runs, edge)[|Step(runs, edge)| - 1] == Run(edge.edgeId, [edge.termId])
    ensures nextEdges == FlatMap(RunPairs, AllButLast(Step(runs, edge)))
    ensures nextRows == FlatMap(RunRows, AllButLast(Step(runs, edge)))
    ensures |nextEdges| == |edgeDict| + added
  {
    CloseGroup(runs, edge, currId, group);
    var edgeSet, postgresSet := ExplodeHyperedge(group, currId);
    SortedPairsCount(group);
    nextEdges := edgeDict + edgeSet;
    nextRows := postgresDict + postgresSet;
    added := Gaus(|group| - 1);
  }

  /** `handle_batch` with the final group exploded after the loop as well. */
  method HandleBatchFixed(batch: seq<HyperedgeRow>, currId: int)
    returns (edgeDict: seq<(int, int)>, postgresDict: seq<DyadicRow>, lastId: int)
    ensures edgeDict == FlatMap(RunPairs, Runs(batch))
    ensures postgresDict == FlatMap(RunRows, Runs(batch))
    ensures lastId == if |batch| == 0 then currId else batch[|batch| - 1].edgeId
  {
    var sizeMismatch: bool;
    edgeDict, postgresDict, lastId, sizeMismatch := HandleBatch(batch, currId);
    var runs := Runs(batch);
    if |batch| > 0 {
      var last := runs[|runs| - 1];
      assert runs == AllButLast(runs) + [last];
      FlatMapSnoc(RunPairs, AllButLast(runs), last);
      FlatMapSnoc(RunRows, AllButLast(runs), last);
      var edgeSet, postgresSet := ExplodeHyperedge(last.terms, lastId);
      edgeDict := edgeDict + edgeSet;
      postgresDict := postgresDict + postgresSet;
    }
  }

  lemma SortPair()
    ensures Sort([10, 11]) == [10, 11]
  {
    assert [10, 11][..1] == [10];
    assert [10][..0] == [];
  }

  /** Finding: a batch holding a single two-term hyperedge yields no pair at all. */
  lemma FinalGroupDropped()
    ensures var batch := [HyperedgeRow(1, 10, 0), HyperedgeRow(1, 11, 0)];
            FlatMap(RunPairs, AllButLast(Runs(batch))) == [] && FlatMap(RunPairs, Runs(batch)) == [(10, 11)]
  {
    var run := Run(1, [10, 11]);
    TwoRowsOneRun();
    assert AllButLast([run]) == [];
    PairsOfTwo();
    SortPair();
    assert RunPairs(run) == [(10, 11)];
    FlatMapSnoc(RunPairs, [], run);
    assert [] + [run] == [run];
  }

  lemma TwoRowsOneRun()
    ensures Runs([HyperedgeRow(1, 10, 0), HyperedgeRow(1, 11, 0)]) == [Run(1, [10, 11])]
  {
    var x, y := HyperedgeRow(1, 10, 0), HyperedgeRow(1, 11, 0);
    RunsSnoc([], x);
    RunsSnoc([x], y);
    assert [] + [x] == [x] && [x] + [y] == [x, y];
    assert Runs([x]) == [Run(1, [10])];
    assert [Run(1, [10])][..0] == [] && [10] + [11] == [10, 11];
  }

  lemma PairsOfTwo()
    ensures Pairs([10, 11]) == [(10, 11)]
  {
    var h := [10, 11];
    assert Row(h, 0) == [(10, 11)];
    assert Row(h, 1) == [];
    assert PairsUpTo(h, 1) == [(10, 11)];
  }

  // ---------------------------------------------------------------------------------------
  // generate_dyadic_edges

  /**
   * The boundary scan as written stops at the first `e >= end` where column 1 of rows `e` and
   * `e + 1` differ: rows `end..e` share one term id and row `e + 1` has another.
   */
  predicate ScanStop(rows: seq<HyperedgeRow>, end: int, e: int)
  {
    && 0 <= end <= e < |rows| - 1
    && (forall t :: end <= t <= e ==> rows[t].termId == rows[end].termId)
    && rows[e].termId != rows[e + 1].termId
  }

  /** The scan as written reads past the last row: column 1 never changes from `end` on. */
  predicate ScanFails(rows: seq<HyperedgeRow>, end: int)
  {
    0 <= end < |rows| && forall t :: end <= t < |rows| ==> rows[t].termId == rows[end].termId
  }

  /** Where the scan as written stops when started at `end`, or `None` when it reads past the last row. */
  function ScanFrom(rows: seq<HyperedgeRow>, end: nat): Option<nat>
    requires end < |rows|
    decreases |rows| - end
  {
    if end + 1 >= |rows| then None
    else if rows[end].termId != rows[end + 1].termId then Some(end)
    else ScanFrom(rows, end + 1)
  }

  /** `ScanFrom` finds the one place `ScanStop` describes, and fails exactly when `ScanFails` holds. */
  lemma {:induction false} ScanFromMeaning(rows: seq<HyperedgeRow>, end: nat)
    requires end < |rows|
    ensures ScanFrom(rows, end).Some? ==> ScanStop(rows, end, ScanFrom(rows, end).value)
    ensures ScanFrom(rows, end).None? <==> ScanFails(rows, end)
    decreases |rows| - end
  {
    if end + 1 < |rows| && rows[end].termId == rows[end + 1].termId {
      ScanFromMeaning(rows, end + 1);
    }
  }

  /** Conversely, any place `ScanStop` describes is the one `ScanFrom` finds. */
  lemma ScanStopFound(rows: seq<HyperedgeRow>, end: nat, e: int)
    requires end < |rows| && ScanStop(rows, end, e)
    ensures ScanFrom(rows, end) == Some(e)
  {
    ScanFromMeaning(rows, end);
    if ScanFrom(rows, end).Some? {
      ScanStopUnique(rows, end, e, ScanFrom(rows, end).value);
    }
  }

  /**
   * The inner `while` of `generate_dyadic_edges` as written: advances `end_ind` while column 1
   * of rows `end_ind` and `end_ind + 1` agree. The guard `end_ind == len` after the increment
   * can never hold, so reaching the last row reads `hyperedges[len]`: an IndexError, `None` here.
   */
  method ExtendBoundary(rows: seq<HyperedgeRow>, end: nat) returns (r: Option<nat>)
    requires end < |rows|
    ensures r == ScanFrom(rows, end)
    ensures r.Some? ==> ScanStop(rows, end, r.value)
    ensures r.None? <==> ScanFails(rows, end)
  {
    var e := end;
    while true
      invariant end <= e < |rows|
      invariant forall t :: end <= t <= e ==> rows[t].termId == rows[end].termId
      invariant ScanFrom(rows, e) == ScanFrom(rows, end)
      decreases |rows| - e
    {
      if e + 1 >= |rows| {
        return None;
      }
      if rows[e].termId != rows[e + 1].termId {
        return Some(e);
      }
      e := e + 1;
      if e == |rows| {
        break;
      }
    }
    assert false;
  }

  function Flatten<T>(batches: seq<seq<T>>): seq<T>
  {
    if |batches| == 0 then [] else Flatten(batches[..|batches| - 1]) + batches[|batches| - 1]
  }

  /** What `handle_batch` hands to the dyadic table for one batch: every run but its last one. */
  function HandedRows(batch: seq<HyperedgeRow>): seq<DyadicRow>
  {
    FlatMap(RunRows, AllButLast(Runs(batch)))
  }

  datatype Outcome = Completed | IndexError

  /** The batch size `generate_dyadic_edges` works with: 0 stands for the whole list. */
  function EffectiveSize(rows: seq<HyperedgeRow>, batchSize: nat): nat
  {
    if batchSize == 0 then |rows| else batchSize
  }

  /**
   * Where a batch starting at `start` ends: where the scan from `start + size` stops, or at the
   * end of the list when `start + size` is already past it; `None` when that scan fails.
   */
  function BatchStop(rows: seq<HyperedgeRow>, size: nat, start: nat): Option<nat>
  {
    if start + size >= |rows| then Some(|rows|) else ScanFrom(rows, start + size)
  }

  /** Every batch ends where `BatchStop` says, counted from the end of the batches before it. */
  predicate BatchEnds(rows: seq<HyperedgeRow>, size: nat, batches: seq<seq<HyperedgeRow>>)
  {
    forall j :: 0 <= j < |batches| ==> BatchStop(rows, size, |Flatten(batches[..j])|) == Some(|Flatten(batches[..j + 1])|)
  }

  /** In the terms of the scan as written: a batch ends where the scan stops, or at the end of the list. */
  lemma BatchStopMeaning(rows: seq<HyperedgeRow>, size: nat, start: nat, stop: int)
    ensures BatchStop(rows, size, start) == Some(stop) <==>
              || (start + size < |rows| && ScanStop(rows, start + size, stop))
              || (start + size >= |rows| && stop == |rows|)
    ensures BatchStop(rows, size, start).None? <==> start + size < |rows| && ScanFails(rows, start + size)
  {
    if start + size < |rows| {
      ScanFromMeaning(rows, start + size);
      if ScanStop(rows, start + size, stop) {
        ScanStopFound(rows, start + size, stop);
      }
    }
  }

  lemma FlattenSnoc<T>(batches: seq<seq<T>>, batch: seq<T>)
    ensures Flatten(batches + [batch]) == Flatten(batches) + batch
  {
    assert (batches + [batch])[..|batches|] == batches;
  }

  lemma BatchEndsSnoc(rows: seq<HyperedgeRow>, size: nat, batches: seq<seq<HyperedgeRow>>, batch: seq<HyperedgeRow>,
                      start: nat, stop: int)
    requires BatchEnds(rows, size, batches)
    requires |Flatten(batches)| == start && |batch| == stop - start && BatchStop(rows, size, start) == Some(stop)
    ensures BatchEnds(rows, size, batches + [batch])
  {
    var next := batches + [batch];
    forall j | 0 <= j < |next|
      ensures BatchStop(rows, size, |Flatten(next[..j])|) == Some(|Flatten(next[..j + 1])|)
    {
      SnocPrefixes(batches, batch, j);
      if j == |batches| {
        FlattenSnoc(batches, batch);
      }
    }
  }

  /** The prefixes of `batches + [batch]` are those of `batches`, and then the whole list. */
  lemma SnocPrefixes<T>(batches: seq<seq<T>>, batch: seq<T>, j: nat)
    requires j <= |batches|
    ensures j < |batches| ==> (batches + [batch])[..j] == batches[..j] && (batches + [batch])[..j + 1] == batches[..j + 1]
    ensures j == |batches| ==> (batches + [batch])[..j] == batches && (batches + [batch])[..j + 1] == batches + [batch]
  {
  }

  /** The scan as written stops at one place only, so each batch end is determined by its start. */
  lemma ScanStopUnique(rows: seq<HyperedgeRow>, end: int, e: int, e': int)
    requires ScanStop(rows, end, e) && ScanStop(rows, end, e')
    ensures e == e'
  {
  }

  /**
   * The guarded boundary scan at the head of each pass of `generate_dyadic_edges`: from
   * `end_ind = start + size`, scanned only when that is inside the list.
   */
  method ScanBoundary(rows: seq<HyperedgeRow>, size: nat, start: nat) returns (r: Option<nat>)
    requires start < |rows|
    ensures r.None? <==> BatchStop(rows, size, start).None?
    ensures r.Some? ==> r.value >= start + size && BatchStop(rows, size, start) == Some(if r.value < |rows| then r.value else |rows|)
  {
    var end := start + size;
    if end < |rows| {
      r := ExtendBoundary(rows, end);
    } else {
      r := Some(end);
    }
  }

  /**
   * One pass of the outer `while` of `generate_dyadic_edges`: the guarded boundary scan, then
   * `handle_batch` on the slice from `start_ind` to `end_ind` with the running `curr_id`.
   */
  method Pass(rows: seq<HyperedgeRow>, size: nat, start: nat, currId: int)
    returns (end: Option<nat>, batch: seq<HyperedgeRow>, handed: seq<DyadicRow>, nextId: int)
    requires start < |rows|
    ensures end.None? <==> BatchStop(rows, size, start).None?
    ensures end.Some? ==>
              var stop := if end.value < |rows| then end.value else |rows|;
              && end.value >= start + size
              && BatchStop(rows, size, start) == Some(stop)
              && batch == rows[start..stop]
              && handed == HandedRows(batch)
  {
    end := ScanBoundary(rows, size, start);
    if end.None? {
      return end, [], [], currId;
    }
    var stop := if end.value < |rows| then end.value else |rows|;
    batch := rows[start..stop];
    var edges, sizeMismatch;
    edges, handed, nextId, sizeMismatch := HandleBatch(batch, currId);
  }

  /**
   * What the outer loop of `generate_dyadic_edges` keeps once it stands at `start_ind == start`:
   * the batches so far cover the rows before `start` in order, none is empty, each ends where
   * `BatchStop` says, and the rows handed on are those of the batches.
   */
  predicate Progress(rows: seq<HyperedgeRow>, size: nat, start: nat, batches: seq<seq<HyperedgeRow>>,
                     inserted: seq<DyadicRow>)
  {
    && (start < |rows| ==> Flatten(batches) == rows[..start])
    && (start >= |rows| ==> Flatten(batches) == rows)
    && (forall b :: b in batches ==> |b| > 0)
    && BatchEnds(rows, size, batches)
    && inserted == FlatMap(HandedRows, batches)
  }

  /** A pass that finds its batch end keeps `Progress`, with `start_ind` moved to that end. */
  lemma PassProgress(rows: seq<HyperedgeRow>, size: nat, start: nat, end: nat, batches: seq<seq<HyperedgeRow>>,
                     inserted: seq<DyadicRow>, batch: seq<HyperedgeRow>, handed: seq<DyadicRow>)
    requires start < |rows| && size >= 1 && end >= start + size
    requires Progress(rows, size, start, batches, inserted)
    requires var stop := if end < |rows| then end else |rows|;
             BatchStop(rows, size, start) == Some(stop) && batch == rows[start..stop]
    requires handed == HandedRows(batch)
    ensures Progress(rows, size, end, batches + [batch], inserted + handed)
  {
    var stop := if end < |rows| then end else |rows|;
    BatchEndsSnoc(rows, size, batches, batch, start, stop);
    SliceSplit(rows, start, stop);
    FlattenSnoc(batches, batch);
    FlatMapSnoc(HandedRows, batches, batch);
    if end >= |rows| {
      assert rows[..stop] == rows;
    }
  }

  /**
   * `generate_dyadic_edges` as written: `batch_size == 0` means the whole list; each batch is
   * the slice from `start_ind` to `end_ind` after the boundary scan, and goes through
   * `handle_batch` with the running `curr_id`, starting from 1.
   */
  method GenerateDyadicEdges(rows: seq<HyperedgeRow>, batchSize: nat)
    returns (outcome: Outcome, batches: seq<seq<HyperedgeRow>>, inserted: seq<DyadicRow>)
    ensures outcome == Completed ==> Flatten(batches) == rows
    ensures |Flatten(batches)| <= |rows| && Flatten(batches) == rows[..|Flatten(batches)|]
    ensures forall b :: b in batches ==> |b| > 0
    ensures BatchEnds(rows, EffectiveSize(rows, batchSize), batches)
    ensures inserted == FlatMap(HandedRows, batches)
    ensures outcome == IndexError <==> BatchStop(rows, EffectiveSize(rows, batchSize), |Flatten(batches)|).None?
    ensures outcome == IndexError ==>
              var next := |Flatten(batches)| + EffectiveSize(rows, batchSize);
              next < |rows| && ScanFails(rows, next)
    ensures outcome == Completed ==> |Flatten(batches)| + EffectiveSize(rows, batchSize) >= |rows|
    ensures batchSize == 0 ==> outcome == Completed && (rows == [] || batches == [rows])
  {
    outcome := Completed;
    var size := EffectiveSize(rows, batchSize);
    var currId := 1;
    var start := 0;
    var end := size;
    batches, inserted := [], [];
    while start < |rows|
      invariant size == (if batchSize == 0 then |rows| else batchSize)
      invariant 0 <= start && end == start + size && (|rows| > 0 ==> size >= 1)
      invariant Progress(rows, size, start, batches, inserted)
      invariant batchSize == 0 ==> (start == 0 && batches == []) || (start >= |rows| && batches == [rows])
      decreases |rows| - start
    {
      assert |Flatten(batches)| == start;
      var scanned, batch, postgresRows;
      scanned, batch, postgresRows, currId := Pass(rows, size, start, currId);
      if scanned.None? {
        BatchStopMeaning(rows, size, start, start);
        return IndexError, batches, inserted;
      }
      end := scanned.value;
      PassProgress(rows, size, start, end, batches, inserted, batch, postgresRows);
      if batchSize == 0 {
        assert batch == rows;
      }
      batches := batches + [batch];
      inserted := inserted + postgresRows;
      start := end;
      end := end + size;
    }
    assert |Flatten(batches)| == |rows|;
  }

  /** Finding: with batch size 1 the scan as written stops at once and the first batch ends inside edge 1. */
  lemma ScanSplitsEdge()
    ensures var rows := [HyperedgeRow(1, 10, 0), HyperedgeRow(1, 20, 0), HyperedgeRow(2, 30, 0)];
            ScanStop(rows, 1, 1) && rows[0].edgeId == rows[1].edgeId
  {
  }

  /** Finding: the scan as written reaches the last row and reads past it when term ids repeat to the end. */
  lemma ScanReadsPastEnd()
    ensures var rows := [HyperedgeRow(1, 5, 0), HyperedgeRow(2, 7, 0), HyperedgeRow(3, 7, 0)];
            ScanFails(rows, 1) && forall e :: !ScanStop(rows, 1, e)
  {
  }

  /**
   * The boundary scan as evidently intended: while the row just before the boundary and the
   * row at it share an edge id, move the boundary on, stopping at the end of the list.
   */
  method ExtendBoundaryFixed(rows: seq<HyperedgeRow>, end: nat) returns (e: nat)
    requires 1 <= end <= |rows|
    ensures end <= e <= |rows|
    ensures e == |rows| || rows[e - 1].edgeId != rows[e].edgeId
    ensures forall t :: end <= t < e ==> rows[t - 1].edgeId == rows[t].edgeId
  {
    e := end;
    while e < |rows| && rows[e - 1].edgeId == rows[e].edgeId
      invariant end <= e <= |rows|
      invariant forall t :: end <= t < e ==> rows[t - 1].edgeId == rows[t].edgeId
    {
      e := e + 1;
    }
  }

  /**
   * A batch that starts where the edge id changes adds its rows to the flattened batches and
   * its runs to the runs of the rows before it.
   */
  lemma FixedBatchStep(rows: seq<HyperedgeRow>, start: nat, stop: nat, batches: seq<seq<HyperedgeRow>>)
    requires start <= stop <= |rows| && Flatten(batches) == rows[..start]
    requires 0 < start < |rows| ==> rows[start - 1].edgeId != rows[start].edgeId
    ensures Flatten(batches + [rows[start..stop]]) == rows[..stop]
    ensures FlatMap(RunRows, Runs(rows[..stop]))
         == FlatMap(RunRows, Runs(rows[..start])) + FlatMap(RunRows, Runs(rows[start..stop]))
  {
    var batch := rows[start..stop];
    SliceSplit(rows, start, stop);
    RunsAppend(rows[..start], batch);
    FlatMapAppend(RunRows, Runs(rows[..start]), Runs(batch));
    assert (batches + [batch])[..|batches|] == batches;
  }

  /**
   * `generate_dyadic_edges` with both corrections: batch boundaries fall only where the edge
   * id changes, and every batch explodes its last group. What reaches the dyadic table is then
   * every run of the whole list, whatever the batch size.
   */
  method GenerateDyadicEdgesFixed(rows: seq<HyperedgeRow>, batchSize: nat)
    returns (batches: seq<seq<HyperedgeRow>>, inserted: seq<DyadicRow>)
    ensures Flatten(batches) == rows
    ensures forall b :: b in batches ==> |b| > 0
    ensures inserted == FlatMap(RunRows, Runs(rows))
  {
    var size := EffectiveSize(rows, batchSize);
    var currId := 1;
    var start := 0;
    batches, inserted := [], [];
    while start < |rows|
      invariant 0 <= start <= |rows|
      invariant Flatten(batches) == rows[..start]
      invariant forall b :: b in batches ==> |b| > 0
      invariant inserted == FlatMap(RunRows, Runs(rows[..start]))
      invariant 0 < start < |rows| ==> rows[start - 1].edgeId != rows[start].edgeId
      decreases |rows| - start
    {
      var end := if start + size < |rows| then start + size else |rows|;
      var stop := ExtendBoundaryFixed(rows, end);
      var batch := rows[start..stop];
      var edges, postgresRows;
      edges, postgresRows, currId := HandleBatchFixed(batch, currId);
      FixedBatchStep(rows, start, stop, batches);
      batches := batches + [batch];
      inserted := inserted + postgresRows;
      start := stop;
    }
    assert rows[..|rows|] == rows;
  }
}
