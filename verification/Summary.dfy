/** One horizon's statistics (app/backtest.py, `_summarize`), over real numbers. */
module Summary {
  import opened Wrappers
  import opened Ordering

  // ----- Rounding -----

  /** To the nearest integer, halves to the even one, as Python's `round` does. */
  function RoundHalfEven(y: real): int {
    var f := y.Floor;
    var frac := y - f as real;
    if frac < 0.5 then f
    else if frac > 0.5 then f + 1
    else if f % 2 == 0 then f
    else f + 1
  }

  /** `round(x, 4)` */
  function Round4(x: real): real { RoundHalfEven(x * 10000.0) as real / 10000.0 }

  /** `round(x, 6)` */
  function Round6(x: real): real { RoundHalfEven(x * 1000000.0) as real / 1000000.0 }

  /** `k` is nearest to `y`, and of two that are equally near the even one. */
  ghost predicate NearestEven(k: int, y: real) {
    && -0.5 <= k as real - y <= 0.5
    && (k as real - y == 0.5 || k as real - y == -0.5 ==> k % 2 == 0)
  }

  lemma RoundsToNearestEven(y: real, k: int)
    ensures RoundHalfEven(y) == k <==> NearestEven(k, y)
  {
    var f := y.Floor;
    assert f as real <= y < f as real + 1.0;
    if NearestEven(k, y) {
      assert k == f || k == f + 1;
    }
  }

  ghost predicate IsRounding(k: int, r: real, x: real, scale: real) {
    scale > 0.0 && NearestEven(k, x * scale) && r == k as real / scale
  }

  /** `r` is `x` to the nearest multiple of 1 / scale, halves to the even one. */
  ghost predicate RoundedTo(r: real, x: real, scale: real) {
    exists k :: IsRounding(k, r, x, scale)
  }

  lemma RoundedIff(r: real, x: real, scale: real, y: real)
    requires scale > 0.0 && y == x * scale
    ensures RoundedTo(r, x, scale) <==> r == RoundHalfEven(y) as real / scale
  {
    RoundsToNearestEven(y, RoundHalfEven(y));
    if RoundedTo(r, x, scale) {
      var k :| IsRounding(k, r, x, scale);
      RoundsToNearestEven(y, k);
    } else {
      assert !IsRounding(RoundHalfEven(y), r, x, scale);
    }
  }

  /** The rounding functions are these roundings, to four and six places, and no other value is. */
  lemma RoundingExact(x: real, r: real)
    ensures RoundedTo(r, x, 10000.0) <==> r == Round4(x)
    ensures RoundedTo(r, x, 1000000.0) <==> r == Round6(x)
  {
    RoundedIff(r, x, 10000.0, x * 10000.0);
    RoundedIff(r, x, 1000000.0, x * 1000000.0);
  }

  lemma RoundHalfEvenMonotone(x: real, y: real)
    requires x <= y
    ensures RoundHalfEven(x) <= RoundHalfEven(y)
  {
    assert x.Floor <= y.Floor;
    if x.Floor < y.Floor { assert x.Floor + 1 <= y.Floor; }
  }

  lemma Round4Laws(x: real, y: real)
    ensures x <= y ==> Round4(x) <= Round4(y)
    ensures -0.00005 <= Round4(x) - x <= 0.00005
  {
    if x <= y { RoundHalfEvenMonotone(x * 10000.0, y * 10000.0); }
  }

  lemma Round6InUnit(x: real)
    requires 0.0 <= x <= 1.0
    ensures 0.0 <= Round6(x) <= 1.0
  {
    RoundHalfEvenMonotone(0.0, x * 1000000.0);
    RoundHalfEvenMonotone(x * 1000000.0, 1000000.0);
    assert RoundHalfEven(1000000.0) == 1000000;
  }

  // ----- Statistics -----

  function Count(p: real -> bool, s: seq<real>): nat {
    if s == [] then 0 else (if p(s[0]) then 1 else 0) + Count(p, s[1..])
  }

  predicate Positive(r: real) { r > 0.0 }

  predicate Negative(r: real) { r < 0.0 }

  predicate Zero(r: real) { r == 0.0 }

  function Sum(s: seq<real>): real {
    if s == [] then 0.0 else s[0] + Sum(s[1..])
  }

  /** `statistics.fmean` */
  function Mean(s: seq<real>): real
    requires s != []
  {
    Sum(s) / |s| as real
  }

  /** The middle of a sorted list, or the midpoint of its two middle elements. */
  function Middle(s: seq<real>): real
    requires s != []
  {
    var half := |s| / 2;
    if |s| % 2 == 1 then s[half] else (s[half - 1] + s[half]) / 2.0
  }

  lemma SortKeepsElements(s: seq<real>)
    ensures Sorted(RealLe, StableSort(RealLe, s)) && multiset(StableSort(RealLe, s)) == multiset(s)
    ensures |StableSort(RealLe, s)| == |s|
  {
    StableSortIsStableSort(RealLe, s);
    assert |multiset(s)| == |multiset(StableSort(RealLe, s))|;
  }

  /** `statistics.median` */
  function Median(s: seq<real>): real
    requires s != []
  {
    SortKeepsElements(s);
    Middle(StableSort(RealLe, s))
  }

  /** All elements of `s` lie in [lo, hi]. */
  ghost predicate Within(s: seq<real>, lo: real, hi: real) {
    forall i :: 0 <= i < |s| ==> lo <= s[i] <= hi
  }

  function MaxOf(s: seq<real>): (m: real)
    requires s != []
    ensures exists i :: 0 <= i < |s| && s[i] == m
    ensures forall i :: 0 <= i < |s| ==> s[i] <= m
  {
    Greatest(RealLe, s)
  }

  function MinOf(s: seq<real>): (m: real)
    requires s != []
    ensures exists i :: 0 <= i < |s| && s[i] == m
    ensures forall i :: 0 <= i < |s| ==> m <= s[i]
  {
    assert TotalPreorder(Directed(RealLe, true));
    Greatest(Directed(RealLe, true), s)
  }

  /** The rounded figures, absent when there is no sample. */
  datatype Figures = Figures(winRate: real, avg: real, median: real, best: real, worst: real)

  datatype HorizonStat = HorizonStat(n: int, samples: nat, missing: nat, wins: nat, losses: nat, flat: int,
                                     figures: Option<Figures>)

  function Summarize(n: int, pcts: seq<real>, missing: nat): HorizonStat {
    if pcts == [] then HorizonStat(n, 0, missing, 0, 0, 0, None)
    else
      var wins := Count(Positive, pcts);
      var losses := Count(Negative, pcts);
      HorizonStat(n, |pcts|, missing, wins, losses, |pcts| - wins - losses,
                  Some(Figures(Round6(wins as real / |pcts| as real), Round4(Mean(pcts)),
                               Round4(Median(pcts)), Round4(MaxOf(pcts)), Round4(MinOf(pcts)))))
  }

  // ----- Laws -----

  lemma {:induction false} CountsPartition(s: seq<real>)
    ensures Count(Positive, s) + Count(Negative, s) + Count(Zero, s) == |s|
  {
    if s != [] { CountsPartition(s[1..]); }
  }

  /** Every sample is a win, a loss or flat, and flat means a return of exactly zero. */
  lemma SummaryConserves(n: int, pcts: seq<real>, missing: nat)
    ensures var s := Summarize(n, pcts, missing);
            && s.samples == |pcts| == s.wins + s.losses + s.flat
            && s.flat == Count(Zero, pcts)
            && (s.figures.None? <==> s.samples == 0)
  {
    CountsPartition(pcts);
  }

  lemma Distribute(k: real, x: real)
    ensures (k + 1.0) * x == k * x + x
  {}

  lemma {:induction false} SumBetween(s: seq<real>, lo: real, hi: real)
    requires Within(s, lo, hi)
    ensures |s| as real * lo <= Sum(s) <= |s| as real * hi
  {
    if s == [] {
      assert |s| as real * lo == 0.0 == |s| as real * hi;
    } else {
      var k := |s[1..]| as real;
      SumBetween(s[1..], lo, hi);
      Distribute(k, lo);
      Distribute(k, hi);
      assert |s| as real == k + 1.0;
    }
  }

  lemma PositiveFactor(a: real, k: real)
    requires k > 0.0
    ensures a * k >= 0.0 ==> a >= 0.0
  {}

  lemma DivideBounds(x: real, k: real, lo: real, hi: real)
    requires k > 0.0 && k * lo <= x <= k * hi
    ensures lo <= x / k <= hi
  {
    var q := x / k;
    assert q * k == x;
    assert (q - lo) * k == q * k - lo * k && (hi - q) * k == hi * k - q * k;
    PositiveFactor(q - lo, k);
    PositiveFactor(hi - q, k);
  }

  lemma MedianWithin(s: seq<real>, lo: real, hi: real)
    requires s != [] && Within(s, lo, hi)
    ensures lo <= Median(s) <= hi
  {
    var sorted := StableSort(RealLe, s);
    SortKeepsElements(s);
    forall i | 0 <= i < |sorted| ensures lo <= sorted[i] <= hi {
      assert sorted[i] in multiset(s);
    }
  }

  lemma MeanWithin(s: seq<real>, lo: real, hi: real)
    requires s != [] && Within(s, lo, hi)
    ensures lo <= Mean(s) <= hi
  {
    SumBetween(s, lo, hi);
    DivideBounds(Sum(s), |s| as real, lo, hi);
  }

  lemma WinRateIsProportion(s: seq<real>)
    requires s != []
    ensures 0.0 <= Round6(Count(Positive, s) as real / |s| as real) <= 1.0
  {
    CountsPartition(s);
    DivideBounds(Count(Positive, s) as real, |s| as real, 0.0, 1.0);
    Round6InUnit(Count(Positive, s) as real / |s| as real);
  }

  lemma {:induction false} SumLaws(a: seq<real>, b: seq<real>, x: real)
    ensures Sum([]) == 0.0 && Sum([x]) == x && Sum(a + b) == Sum(a) + Sum(b)
  {
    assert [x][1..] == [];
    if a == [] {
      assert a + b == b;
    } else {
      SumLaws(a[1..], b, x);
      assert (a + b)[1..] == a[1..] + b;
    }
  }

  /** What each reported figure is: the mean; the middle of the samples in order, or the midpoint
      of the two middle ones; a sample that none exceeds; one that exceeds none; the share of
      wins. All but the last to four places, that one to six. */
  lemma FiguresExact(n: int, pcts: seq<real>, missing: nat, sorted: seq<real>, mean: real, middle: real)
    requires pcts != [] && Sorted(RealLe, sorted) && multiset(sorted) == multiset(pcts) && |sorted| == |pcts|
    requires mean * |pcts| as real == Sum(pcts)
    requires var half := |pcts| / 2;
             middle == if |pcts| % 2 == 1 then sorted[half] else (sorted[half - 1] + sorted[half]) / 2.0
    ensures var f := Summarize(n, pcts, missing).figures.value;
            && RoundedTo(f.avg, mean, 10000.0)
            && RoundedTo(f.median, middle, 10000.0)
            && RoundedTo(f.best, sorted[|pcts| - 1], 10000.0)
            && RoundedTo(f.worst, sorted[0], 10000.0)
  {
    FiguresAre(n, pcts, missing, sorted, mean);
    RoundingExact(mean, Round4(mean));
    RoundingExact(middle, Round4(middle));
    RoundingExact(sorted[0], Round4(sorted[0]));
    RoundingExact(sorted[|pcts| - 1], Round4(sorted[|pcts| - 1]));
  }

  lemma FiguresAre(n: int, pcts: seq<real>, missing: nat, sorted: seq<real>, mean: real)
    requires pcts != [] && Sorted(RealLe, sorted) && multiset(sorted) == multiset(pcts)
    requires mean * |pcts| as real == Sum(pcts)
    ensures |sorted| == |pcts|
    ensures var f := Summarize(n, pcts, missing).figures.value;
            && f.avg == Round4(mean) && f.median == Round4(Middle(sorted))
            && f.best == Round4(sorted[|pcts| - 1]) && f.worst == Round4(sorted[0])
  {
    assert |multiset(sorted)| == |multiset(pcts)|;
    SortKeepsElements(pcts);
    RealLeIsTotal();
    SortedUnique(RealLe, sorted, StableSort(RealLe, pcts));
    MeanUnique(pcts, mean);
    ExtremesAtEnds(sorted, pcts);
  }

  lemma RealLeIsTotal()
    ensures TotalOrder(RealLe)
  {}

  lemma MeanUnique(s: seq<real>, mean: real)
    requires s != [] && mean * |s| as real == Sum(s)
    ensures Mean(s) == mean
  {
    QuotientUnique(Sum(s), |s| as real, mean);
  }

  lemma ExtremesAtEnds(sorted: seq<real>, s: seq<real>)
    requires s != [] && |sorted| == |s| && Sorted(RealLe, sorted) && multiset(sorted) == multiset(s)
    ensures MinOf(s) == sorted[0] && MaxOf(s) == sorted[|sorted| - 1]
  {
    ExtremesOrderFree(sorted, s);
    forall i | 0 <= i < |sorted| ensures sorted[0] <= sorted[i] <= sorted[|sorted| - 1] {
      assert i > 0 ==> RealLe(sorted[0], sorted[i]);
      assert i < |sorted| - 1 ==> RealLe(sorted[i], sorted[|sorted| - 1]);
    }
  }

  lemma QuotientUnique(a: real, k: real, q: real)
    requires k > 0.0 && q * k == a
    ensures a / k == q
  {
    var p := a / k;
    assert p * k == a;
    assert (p - q) * k == p * k - q * k;
    PositiveFactor(p - q, k);
    PositiveFactor(q - p, k);
  }

  /** The win rate is the share of positive samples, to six places. */
  lemma WinRateExact(n: int, pcts: seq<real>, missing: nat, rate: real)
    requires pcts != [] && rate * |pcts| as real == Count(Positive, pcts) as real
    ensures var s := Summarize(n, pcts, missing);
            s.wins == Count(Positive, pcts) && RoundedTo(s.figures.value.winRate, rate, 1000000.0)
  {
    QuotientUnique(Count(Positive, pcts) as real, |pcts| as real, rate);
    RoundingExact(rate, Round6(rate));
  }

  /** The reported figures are ordered: mean and median lie between worst and best, and
      the win rate is a proportion. */
  lemma SummaryOrdered(n: int, pcts: seq<real>, missing: nat)
    requires pcts != []
    ensures var f := Summarize(n, pcts, missing).figures.value;
            && f.worst <= f.avg <= f.best
            && f.worst <= f.median <= f.best
            && 0.0 <= f.winRate <= 1.0
  {
    var lo, hi := MinOf(pcts), MaxOf(pcts);
    MeanWithin(pcts, lo, hi);
    MedianWithin(pcts, lo, hi);
    WinRateIsProportion(pcts);
    Round4Laws(lo, Mean(pcts));
    Round4Laws(Mean(pcts), hi);
    Round4Laws(lo, Median(pcts));
    Round4Laws(Median(pcts), hi);
  }

  lemma {:induction false} InsertTotals(p: real -> bool, x: real, s: seq<real>)
    ensures Sum(Insert(RealLe, x, s)) == x + Sum(s)
    ensures Count(p, Insert(RealLe, x, s)) == (if p(x) then 1 else 0) + Count(p, s)
  {
    assert ([x] + s)[1..] == s;
    if s != [] && !RealLe(x, s[0]) {
      InsertTotals(p, x, s[1..]);
      assert ([s[0]] + Insert(RealLe, x, s[1..]))[1..] == Insert(RealLe, x, s[1..]);
    }
  }

  lemma {:induction false} SortedTotals(p: real -> bool, s: seq<real>)
    ensures Sum(StableSort(RealLe, s)) == Sum(s)
    ensures Count(p, StableSort(RealLe, s)) == Count(p, s)
  {
    if s != [] {
      SortedTotals(p, s[1..]);
      InsertTotals(p, s[0], StableSort(RealLe, s[1..]));
    }
  }

  lemma ExtremesOrderFree(a: seq<real>, b: seq<real>)
    requires a != [] && b != [] && multiset(a) == multiset(b)
    ensures MaxOf(a) == MaxOf(b) && MinOf(a) == MinOf(b)
  {
    forall i | 0 <= i < |a| ensures MinOf(b) <= a[i] <= MaxOf(b) { assert a[i] in multiset(b); }
    forall i | 0 <= i < |b| ensures MinOf(a) <= b[i] <= MaxOf(a) { assert b[i] in multiset(a); }
  }

  /** The statistics do not depend on the order in which the trades were visited. */
  lemma SummaryOrderFree(n: int, a: seq<real>, b: seq<real>, missing: nat)
    requires multiset(a) == multiset(b)
    ensures Summarize(n, a, missing) == Summarize(n, b, missing)
  {
    assert |a| == |multiset(a)| == |multiset(b)| == |b|;
    SortKeepsElements(a);
    SortKeepsElements(b);
    SortedUnique(RealLe, StableSort(RealLe, a), StableSort(RealLe, b));
    SortedTotals(Positive, a);
    SortedTotals(Positive, b);
    SortedTotals(Negative, a);
    SortedTotals(Negative, b);
    if a != [] { ExtremesOrderFree(a, b); }
  }

  lemma {:induction false} CountOfRun(p: real -> bool, s: seq<real>, lo: nat, hi: nat)
    requires lo <= hi <= |s| && forall i :: lo <= i < hi ==> p(s[i])
    ensures Count(p, s) >= hi - lo
  {
    if s != [] && hi > 0 {
      assert forall i :: 0 <= i < |s| - 1 ==> s[1..][i] == s[i + 1];
      CountOfRun(p, s[1..], if lo == 0 then 0 else lo - 1, hi - 1);
    }
  }

  lemma MiddleSplits(s: seq<real>)
    requires s != [] && Sorted(RealLe, s)
    ensures forall i :: 0 <= i < (|s| + 1) / 2 ==> s[i] <= Middle(s)
    ensures forall i :: |s| / 2 <= i < |s| ==> Middle(s) <= s[i]
  {
    var half := |s| / 2;
    forall i, j | 0 <= i < j < |s| ensures s[i] <= s[j] {
      assert RealLe(s[i], s[j]);
    }
  }

  predicate AtMost(m: real, r: real) { r <= m }

  predicate AtLeast(m: real, r: real) { m <= r }

  /** The median splits the samples: at least half lie at or below it, at least half at or above. */
  lemma MedianSplits(s: seq<real>)
    requires s != []
    ensures 2 * Count(r => AtMost(Median(s), r), s) >= |s|
    ensures 2 * Count(r => AtLeast(Median(s), r), s) >= |s|
  {
    var sorted, m := StableSort(RealLe, s), Median(s);
    SortKeepsElements(s);
    MiddleSplits(sorted);
    CountOfRun(r => AtMost(m, r), sorted, 0, (|s| + 1) / 2);
    CountOfRun(r => AtLeast(m, r), sorted, |s| / 2, |s|);
    SortedTotals(r => AtMost(m, r), s);
    SortedTotals(r => AtLeast(m, r), s);
  }
}
