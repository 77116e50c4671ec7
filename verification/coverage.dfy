/**
 * Merged query coverage of one contig's alignment hits (calc_rel_mcov).
 *
 * A hit covers the half-open range [lo, hi) of query positions: the source
 * measures an interval as `end - start`, so a hit from 1 to 800 covers 799
 * positions. The merged length computed by the sort-and-sweep is proved to be
 * the number of integers in the union of those ranges.
 */
module Coverage {

  /** A query interval as the hit loop stores it: lo <= hi once normalised. */
  datatype Interval = Interval(lo: int, hi: int)

  predicate Normalised(ps: seq<Interval>)
  {
    forall p :: p in ps ==> p.lo <= p.hi
  }

  /** The integers lo, lo+1, ..., hi-1. */
  function Span(lo: int, hi: int): (r: set<int>)
    ensures forall x :: x in r <==> lo <= x < hi
    decreases hi - lo
  {
    if hi <= lo then {} else Span(lo, hi - 1) + {hi - 1}
  }

  lemma {:induction false} SpanSize(lo: int, hi: int)
    requires lo <= hi
    ensures |Span(lo, hi)| == hi - lo
    decreases hi - lo
  {
    if lo < hi {
      SpanSize(lo, hi - 1);
      assert hi - 1 !in Span(lo, hi - 1);
    }
  }

  /** Every position covered by at least one interval of ps. */
  function Covered(ps: seq<Interval>): set<int>
  {
    if ps == [] then {}
    else Covered(ps[..|ps| - 1]) + Span(ps[|ps| - 1].lo, ps[|ps| - 1].hi)
  }

  /** The covered fraction of a contig of gsize bases. */
  function RelMcov(ps: seq<Interval>, gsize: int): real
    requires gsize > 0
  {
    |Covered(ps)| as real / gsize as real
  }

  /** A position is covered exactly when some interval contains it. */
  lemma {:induction false} CoveredMembers(ps: seq<Interval>, x: int)
    ensures x in Covered(ps) <==> exists j :: 0 <= j < |ps| && ps[j].lo <= x < ps[j].hi
  {
    if ps != [] {
      var init := ps[..|ps| - 1];
      CoveredMembers(init, x);
      if x in Covered(init) {
        var j :| 0 <= j < |init| && init[j].lo <= x < init[j].hi;
        assert ps[j] == init[j];
      }
      if j :| 0 <= j < |ps| && ps[j].lo <= x < ps[j].hi {
        if j < |ps| - 1 {
          assert init[j] == ps[j];
        }
      }
    }
  }

  /** The covered set does not depend on the order (or tie order) of the intervals. */
  lemma CoveredPermutation(ps: seq<Interval>, qs: seq<Interval>)
    requires multiset(ps) == multiset(qs)
    ensures Covered(ps) == Covered(qs)
  {
    forall x | x in Covered(ps) ensures x in Covered(qs) {
      CoveredMembers(ps, x);
      var j :| 0 <= j < |ps| && ps[j].lo <= x < ps[j].hi;
      assert ps[j] in multiset(qs);
      var k :| 0 <= k < |qs| && qs[k] == ps[j];
      CoveredMembers(qs, x);
    }
    forall x | x in Covered(qs) ensures x in Covered(ps) {
      CoveredMembers(qs, x);
      var j :| 0 <= j < |qs| && qs[j].lo <= x < qs[j].hi;
      assert qs[j] in multiset(ps);
      var k :| 0 <= k < |ps| && ps[k] == qs[j];
      CoveredMembers(ps, x);
    }
  }

  /** Sum of the individual interval lengths hi - lo. */
  function SumLengths(ps: seq<Interval>): int
  {
    if ps == [] then 0 else SumLengths(ps[..|ps| - 1]) + (ps[|ps| - 1].hi - ps[|ps| - 1].lo)
  }

  /** Merging never covers more than the hits' lengths added up. */
  lemma {:induction false} MergedAtMostSum(ps: seq<Interval>)
    requires Normalised(ps)
    ensures |Covered(ps)| <= SumLengths(ps)
  {
    if ps != [] {
      var init, p := ps[..|ps| - 1], ps[|ps| - 1];
      assert forall q :: q in init ==> q in ps;
      MergedAtMostSum(init);
      SpanSize(p.lo, p.hi);
      assert |Covered(init) + Span(p.lo, p.hi)| <= |Covered(init)| + |Span(p.lo, p.hi)|;
    }
  }

  lemma SubsetSize(a: set<int>, b: set<int>)
    requires a <= b
    ensures |a| <= |b|
  {
    assert b == a + (b - a);
  }

  /** Merging never covers less than any single hit. */
  lemma MergedAtLeastEach(ps: seq<Interval>, j: int)
    requires 0 <= j < |ps| && ps[j].lo <= ps[j].hi
    ensures ps[j].hi - ps[j].lo <= |Covered(ps)|
  {
    forall x | x in Span(ps[j].lo, ps[j].hi) ensures x in Covered(ps) {
      CoveredMembers(ps, x);
    }
    SpanSize(ps[j].lo, ps[j].hi);
    SubsetSize(Span(ps[j].lo, ps[j].hi), Covered(ps));
  }

  /**
   * When every position lies in 1..gsize the covered fraction is in [0, 1);
   * it never reaches 1 because a range [lo, hi) leaves out its last position.
   */
  lemma RelMcovBounded(ps: seq<Interval>, gsize: int)
    requires gsize > 0
    requires forall p :: p in ps ==> 1 <= p.lo && p.hi <= gsize
    ensures |Covered(ps)| <= gsize - 1
    ensures 0.0 <= RelMcov(ps, gsize) < 1.0
  {
    forall x | x in Covered(ps) ensures x in Span(1, gsize) {
      CoveredMembers(ps, x);
      var j :| 0 <= j < |ps| && ps[j].lo <= x < ps[j].hi;
      assert ps[j] in ps;
    }
    SubsetSize(Covered(ps), Span(1, gsize));
    SpanSize(1, gsize);
    FractionBelowOne(|Covered(ps)|, gsize);
  }

  lemma FractionBelowOne(a: int, b: int)
    requires 0 <= a < b
    ensures 0.0 <= a as real / b as real < 1.0
  {
    var q := a as real / b as real;
    assert q * b as real == a as real;
  }

  /** One hit covers exactly its own hi - lo positions. */
  lemma SingleHit(p: Interval)
    requires p.lo <= p.hi
    ensures |Covered([p])| == p.hi - p.lo
  {
    assert [p][..0] == [];
    SpanSize(p.lo, p.hi);
  }

  /** Two overlapping hits a, b (b starting inside a) merge into [a.lo, b.hi). */
  lemma OverlappingPair(a: Interval, b: Interval)
    requires a.lo <= b.lo <= a.hi <= b.hi
    ensures |Covered([a, b])| == b.hi - a.lo
  {
    assert [a, b][..1] == [a] && [a][..0] == [];
    assert Covered([a]) == Span(a.lo, a.hi);
    assert Covered([a, b]) == Covered([a]) + Span(b.lo, b.hi);
    assert Covered([a, b]) == Span(a.lo, b.hi);
    SpanSize(a.lo, b.hi);
  }

  /** Two disjoint hits a, b cover the sum of their lengths. */
  lemma DisjointPair(a: Interval, b: Interval)
    requires a.lo <= a.hi < b.lo <= b.hi
    ensures |Covered([a, b])| == (a.hi - a.lo) + (b.hi - b.lo)
  {
    assert [a, b][..1] == [a] && [a][..0] == [];
    assert Covered([a]) == Span(a.lo, a.hi);
    assert Covered([a, b]) == Covered([a]) + Span(b.lo, b.hi);
    SpanSize(a.lo, a.hi);
    SpanSize(b.lo, b.hi);
    assert Span(a.lo, a.hi) * Span(b.lo, b.hi) == {};
    assert Covered([a, b]) == Span(a.lo, a.hi) + Span(b.lo, b.hi);
  }

  /** Hits [10,50] and [40,90] merge to 80 positions, not 40 + 50; [10,20] and [30,40] give 20. */
  lemma {:induction false} MergeExamples()
    ensures |Covered([Interval(10, 50), Interval(40, 90)])| == 80
    ensures |Covered([Interval(10, 20), Interval(30, 40)])| == 20
  {
    OverlappingPair(Interval(10, 50), Interval(40, 90));
    DisjointPair(Interval(10, 20), Interval(30, 40));
  }

  // ---------------------------------------------------------------------------
  // sorted(positions, key=start)

  predicate SortedByStart(ps: seq<Interval>)
  {
    forall i, j :: 0 <= i < j < |ps| ==> ps[i].lo <= ps[j].lo
  }

  /** Places p before the first interval that does not start earlier (keeps equal starts in input order). */
  function Insert(p: Interval, ps: seq<Interval>): (r: seq<Interval>)
    requires SortedByStart(ps)
    ensures |r| == |ps| + 1
    ensures r[0] == p || (ps != [] && r[0] == ps[0])
    ensures SortedByStart(r)
    ensures multiset(r) == multiset(ps) + multiset{p}
  {
    if ps == [] || p.lo <= ps[0].lo then
      [p] + ps
    else
      var rest := Insert(p, ps[1..]);
      assert ps == [ps[0]] + ps[1..];
      assert multiset(ps) == multiset{ps[0]} + multiset(ps[1..]);
      assert multiset([ps[0]] + rest) == multiset{ps[0]} + multiset(rest);
      assert forall k :: 0 <= k < |rest| ==> ps[0].lo <= rest[k].lo;
      [ps[0]] + rest
  }

  /** The intervals ordered by start, as a permutation of the input. */
  function SortByStart(ps: seq<Interval>): (r: seq<Interval>)
    ensures SortedByStart(r)
    ensures multiset(r) == multiset(ps)
  {
    if ps == [] then []
    else
      assert ps == [ps[0]] + ps[1..];
      Insert(ps[0], SortByStart(ps[1..]))
  }

  // ---------------------------------------------------------------------------
  // calc_rel_mcov

  /**
   * Sorts the intervals by start and sweeps them left to right, merging every
   * interval whose start is not past the current end. The merged length is the
   * size of the union of the ranges, so the result is the covered fraction.
   */
  method CalcRelMcov(positions: seq<Interval>, gsize: int) returns (relMcov: real)
    requires Normalised(positions)
    requires gsize > 0
    ensures relMcov == RelMcov(positions, gsize)
  {
    var mcov := 0;
    if |positions| > 1 {
      var spos := SortByStart(positions);
      SortedPermutation(positions, spos);
      mcov := Sweep(spos);
      CoveredPermutation(positions, spos);
    } else if |positions| == 1 {
      mcov := positions[0].hi - positions[0].lo;
      assert positions == [positions[0]];
      assert positions[0] in positions;
      SingleHit(positions[0]);
    } else {
      assert positions == [];
    }
    relMcov := mcov as real / gsize as real;
  }

  lemma SortedPermutation(ps: seq<Interval>, qs: seq<Interval>)
    requires Normalised(ps)
    requires SortedByStart(qs) && multiset(qs) == multiset(ps)
    ensures Normalised(qs)
  {
    forall p | p in qs ensures p.lo <= p.hi {
      assert p in multiset(ps);
    }
  }

  /**
   * The merging sweep over intervals ordered by start: an interval that starts
   * past the current end closes the current run, any other one extends it.
   */
  method Sweep(spos: seq<Interval>) returns (mcov: int)
    requires spos != []
    requires Normalised(spos) && SortedByStart(spos)
    ensures mcov == |Covered(spos)|
  {
    mcov := 0;
    var start, end := spos[0].lo, spos[0].hi;
    ghost var done: set<int> := {};
    assert spos[0] in spos;
    assert spos[..1] == [spos[0]] && spos[..1][..0] == [];
    assert Covered(spos[..1]) == Span(start, end);
    for i := 0 to |spos| - 1
      invariant start <= end && start <= spos[i].lo
      invariant forall x :: x in done ==> x < start
      invariant |done| == mcov
      invariant Covered(spos[..i + 1]) == done + Span(start, end)
    {
      var next := spos[i + 1];
      assert next in spos;
      if next.lo > end {
        SweepClose(spos, i, done, start, end);
        mcov := mcov + (end - start);
        done := done + Span(start, end);
        start := next.lo;
        end := next.hi;
      } else {
        SweepMerge(spos, i, done, start, end);
        if next.hi > end {
          end := next.hi;
        }
      }
    }
    CloseRun(done, start, end);
    mcov := mcov + (end - start);
    assert spos[..|spos|] == spos;
  }

  /** The sweep meets an interval past the current end: the run is closed and the interval opens the next one. */
  lemma SweepClose(spos: seq<Interval>, i: int, done: set<int>, start: int, end: int)
    requires 0 <= i < |spos| - 1 && start <= end && spos[i + 1].lo > end
    requires forall x :: x in done ==> x < start
    requires Covered(spos[..i + 1]) == done + Span(start, end)
    ensures |done + Span(start, end)| == |done| + (end - start)
    ensures forall x :: x in done + Span(start, end) ==> x < spos[i + 1].lo
    ensures Covered(spos[..i + 2]) == done + Span(start, end) + Span(spos[i + 1].lo, spos[i + 1].hi)
  {
    CloseRun(done, start, end);
    CoveredPrefix(spos, i + 1);
  }

  /** The sweep meets an interval starting inside the current run: the run is extended. */
  lemma SweepMerge(spos: seq<Interval>, i: int, done: set<int>, start: int, end: int)
    requires 0 <= i < |spos| - 1 && start <= spos[i + 1].lo <= end && spos[i + 1].lo <= spos[i + 1].hi
    requires Covered(spos[..i + 1]) == done + Span(start, end)
    ensures Covered(spos[..i + 2]) == done + Span(start, if spos[i + 1].hi > end then spos[i + 1].hi else end)
  {
    CoveredPrefix(spos, i + 1);
    MergeRun(done, start, end, spos[i + 1].lo, spos[i + 1].hi);
  }

  /** Closing the current run [start, end) adds its end - start positions, disjoint from the earlier runs. */
  lemma CloseRun(done: set<int>, start: int, end: int)
    requires start <= end
    requires forall x :: x in done ==> x < start
    ensures |done + Span(start, end)| == |done| + (end - start)
    ensures forall x :: x in done + Span(start, end) ==> x < end
  {
    SpanSize(start, end);
    assert done * Span(start, end) == {};
  }

  /** An interval starting inside the current run extends it to the larger end. */
  lemma MergeRun(done: set<int>, start: int, end: int, lo: int, hi: int)
    requires start <= lo <= end && lo <= hi
    ensures done + Span(start, end) + Span(lo, hi) == done + Span(start, if hi > end then hi else end)
  {
  }

  lemma CoveredPrefix(ps: seq<Interval>, i: int)
    requires 0 <= i < |ps|
    ensures Covered(ps[..i + 1]) == Covered(ps[..i]) + Span(ps[i].lo, ps[i].hi)
  {
    assert ps[..i + 1][..i] == ps[..i];
  }
}
