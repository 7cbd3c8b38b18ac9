/**
 Trading-day arithmetic (app/backtest.py, `nth_trading_day`). A day is an integer
 (days since some epoch); a calendar is the ascending, duplicate-free list of the
 days on which the market is known to have traded.
*/
module Calendar {
  import opened Wrappers
  import opened AscendingSets

  function Days(calendar: seq<int>): set<int> {
    set d | d in calendar
  }

  // ----- The code: bisection -----

  /** `bisect.bisect_right`, on the stretch [lo, hi). */
  function BisectRight(a: seq<int>, x: int, lo: nat, hi: nat): (pos: nat)
    requires Ascending(a) && lo <= hi <= |a|
    requires forall i | 0 <= i < lo :: a[i] <= x
    requires forall i | hi <= i < |a| :: x < a[i]
    ensures lo <= pos <= hi
    ensures forall i | 0 <= i < pos :: a[i] <= x
    ensures forall i | pos <= i < |a| :: x < a[i]
    decreases hi - lo
  {
    if lo == hi then lo
    else
      var mid := (lo + hi) / 2;
      if x < a[mid] then BisectRight(a, x, lo, mid) else BisectRight(a, x, mid + 1, hi)
  }

  /** `bisect.bisect_left`, on the stretch [lo, hi). */
  function BisectLeft(a: seq<int>, x: int, lo: nat, hi: nat): (pos: nat)
    requires Ascending(a) && lo <= hi <= |a|
    requires forall i | 0 <= i < lo :: a[i] < x
    requires forall i | hi <= i < |a| :: x <= a[i]
    ensures lo <= pos <= hi
    ensures forall i | 0 <= i < pos :: a[i] < x
    ensures forall i | pos <= i < |a| :: x <= a[i]
    decreases hi - lo
  {
    if lo == hi then lo
    else
      var mid := (lo + hi) / 2;
      if a[mid] < x then BisectLeft(a, x, mid + 1, hi) else BisectLeft(a, x, lo, mid)
  }

  function NthTradingDay(calendar: seq<int>, day: int, n: int): Option<int>
    requires Ascending(calendar)
  {
    if n < 0 then None
    else if n == 0 then
      var pos := BisectLeft(calendar, day, 0, |calendar|);
      if pos < |calendar| && calendar[pos] == day then Some(day) else None
    else
      var idx := BisectRight(calendar, day, 0, |calendar|) + n - 1;
      if idx < |calendar| then Some(calendar[idx]) else None
  }

  // ----- The meaning: counting -----

  /** The trading days in (lo, hi]. */
  function Between(days: set<int>, lo: int, hi: int): set<int> {
    set d | d in days && lo < d <= hi
  }

  function After(days: set<int>, lo: int): set<int> {
    set d | d in days && lo < d
  }

  /** `d` is a trading day not before `day` with exactly `n` trading days in (day, d]. */
  predicate IsNthDay(days: set<int>, day: int, n: int, d: int) {
    d in days && day <= d && |Between(days, day, d)| == n
  }

  lemma {:induction false} AscendingSize(s: seq<int>)
    requires Ascending(s)
    ensures |Days(s)| == |s|
  {
    if s != [] {
      AscendingSize(s[1..]);
      assert s[0] !in s[1..];
      assert Days(s) == {s[0]} + Days(s[1..]);
    }
  }

  lemma InSlice(calendar: seq<int>, day: int, k: nat, d: int)
    requires Ascending(calendar) && k < |calendar|
    requires BisectRight(calendar, day, 0, |calendar|) <= k + 1
    ensures d in calendar[BisectRight(calendar, day, 0, |calendar|)..k + 1]
       <==> d in calendar && day < d <= calendar[k]
  {
    StretchOf(calendar, BisectRight(calendar, day, 0, |calendar|), k, day, d);
  }

  /** A stretch of an ascending list, by value. */
  lemma StretchOf(s: seq<int>, pos: nat, k: nat, lo: int, d: int)
    requires Ascending(s) && pos <= k + 1 <= |s|
    requires forall i :: 0 <= i < pos ==> s[i] <= lo
    requires forall i :: pos <= i < |s| ==> lo < s[i]
    ensures d in s[pos..k + 1] <==> d in s && lo < d <= s[k]
  {
    var stretch := s[pos..k + 1];
    if d in stretch {
      var i :| 0 <= i < |stretch| && stretch[i] == d;
      assert s[pos + i] == d;
    }
    if d in s && lo < d <= s[k] {
      var i :| 0 <= i < |s| && s[i] == d;
      assert stretch[i - pos] == d;
    }
  }

  /** The trading days after `day`, up to the calendar's k-th, are one slice of the calendar. */
  lemma SliceCounts(calendar: seq<int>, day: int, k: nat)
    requires Ascending(calendar) && k < |calendar|
    requires BisectRight(calendar, day, 0, |calendar|) <= k + 1
    ensures |Between(Days(calendar), day, calendar[k])|
         == k + 1 - BisectRight(calendar, day, 0, |calendar|)
  {
    var pos := BisectRight(calendar, day, 0, |calendar|);
    var slice := calendar[pos..k + 1];
    AscendingSize(slice);
    forall d ensures d in Between(Days(calendar), day, calendar[k]) <==> d in Days(slice) {
      InSlice(calendar, day, k, d);
    }
    assert Between(Days(calendar), day, calendar[k]) == Days(slice);
  }

  lemma AfterCounts(calendar: seq<int>, day: int)
    requires Ascending(calendar)
    ensures |After(Days(calendar), day)| == |calendar| - BisectRight(calendar, day, 0, |calendar|)
  {
    var pos := BisectRight(calendar, day, 0, |calendar|);
    if pos < |calendar| {
      SliceCounts(calendar, day, |calendar| - 1);
      forall d | d in calendar ensures d <= calendar[|calendar| - 1] {
        var i :| 0 <= i < |calendar| && calendar[i] == d;
      }
      assert After(Days(calendar), day) == Between(Days(calendar), day, calendar[|calendar| - 1]);
    } else {
      assert After(Days(calendar), day) == {};
    }
  }

  lemma BetweenGrows(days: set<int>, day: int, d: int, e: int)
    requires day <= d < e && e in days
    ensures |Between(days, day, d)| < |Between(days, day, e)|
  {
    SmallerSet(Between(days, day, d) + {e}, Between(days, day, e));
  }

  /** At most one day is the n-th. */
  lemma NthDayUnique(days: set<int>, day: int, n: int, d: int, e: int)
    requires IsNthDay(days, day, n, d) && IsNthDay(days, day, n, e)
    ensures d == e
  {
    if d < e { BetweenGrows(days, day, d, e); }
    if e < d { BetweenGrows(days, day, e, d); }
  }

  /** Bisection finds exactly the day that counting singles out, for every n. */
  lemma NthTradingDayCounts(calendar: seq<int>, day: int, n: int, d: int)
    requires Ascending(calendar)
    ensures NthTradingDay(calendar, day, n) == Some(d) <==> IsNthDay(Days(calendar), day, n, d)
  {
    match NthTradingDay(calendar, day, n)
    case Some(e) =>
      FoundIsNth(calendar, day, n);
      if IsNthDay(Days(calendar), day, n, d) { NthDayUnique(Days(calendar), day, n, d, e); }
    case None =>
      if IsNthDay(Days(calendar), day, n, d) { NthIsFound(calendar, day, n, d); }
  }

  lemma FoundIsNth(calendar: seq<int>, day: int, n: int)
    requires Ascending(calendar) && NthTradingDay(calendar, day, n).Some?
    ensures IsNthDay(Days(calendar), day, n, NthTradingDay(calendar, day, n).value)
  {
    if n == 0 {
      assert Between(Days(calendar), day, day) == {};
    } else {
      SliceCounts(calendar, day, BisectRight(calendar, day, 0, |calendar|) + n - 1);
    }
  }

  /** Bisection always finds the day itself if it is in the calendar. */
  lemma ZerothDay(calendar: seq<int>, day: int)
    requires Ascending(calendar)
    ensures NthTradingDay(calendar, day, 0).Some? <==> day in calendar
  {
    if day in calendar {
      var i :| 0 <= i < |calendar| && calendar[i] == day;
      var pos := BisectLeft(calendar, day, 0, |calendar|);
      assert pos <= i && day <= calendar[pos] <= calendar[i];
    }
  }

  lemma NthIsFound(calendar: seq<int>, day: int, n: int, d: int)
    requires Ascending(calendar) && IsNthDay(Days(calendar), day, n, d)
    ensures NthTradingDay(calendar, day, n).Some?
  {
    var days := Days(calendar);
    if n == 0 {
      if day < d { BetweenGrows(days, day, day, d); }
      ZerothDay(calendar, day);
    } else {
      SmallerSet(Between(days, day, d), After(days, day));
      AfterCounts(calendar, day);
    }
  }

  /** There is no n-th trading day exactly when fewer than n trading days follow. */
  lemma NoneIffTooFew(calendar: seq<int>, day: int, n: int)
    requires Ascending(calendar) && n >= 1
    ensures NthTradingDay(calendar, day, n) == None <==> |After(Days(calendar), day)| < n
  {
    AfterCounts(calendar, day);
  }

  // ----- Laws -----

  /** Holding a days and then b more is holding a + b, also from a day the calendar lacks. */
  lemma Composition(calendar: seq<int>, day: int, a: nat, b: nat)
    requires Ascending(calendar)
    requires NthTradingDay(calendar, day, a).Some?
    ensures NthTradingDay(calendar, NthTradingDay(calendar, day, a).value, b)
         == NthTradingDay(calendar, day, a + b)
  {
    var d := NthTradingDay(calendar, day, a).value;
    var pos := BisectRight(calendar, day, 0, |calendar|);
    if a > 0 {
      var k := pos + a - 1;
      var next := BisectRight(calendar, d, 0, |calendar|);
      assert calendar[k] == d;
      assert next == k + 1 by {
        assert k + 1 < |calendar| ==> d < calendar[k + 1];
      }
      if b == 0 {
        var left := BisectLeft(calendar, d, 0, |calendar|);
        assert left <= k;
        assert calendar[left] == d;
      }
    }
  }

  /** A later start or a longer holding period never ends earlier. */
  lemma Monotone(calendar: seq<int>, day1: int, n1: int, day2: int, n2: int)
    requires Ascending(calendar)
    requires day1 <= day2 && 1 <= n1 <= n2
    requires NthTradingDay(calendar, day2, n2).Some?
    ensures NthTradingDay(calendar, day1, n1).Some?
    ensures NthTradingDay(calendar, day1, n1).value <= NthTradingDay(calendar, day2, n2).value
  {
    var p1 := BisectRight(calendar, day1, 0, |calendar|);
    var p2 := BisectRight(calendar, day2, 0, |calendar|);
    assert p2 < |calendar| ==> day2 < calendar[p2];
  }

  /** Filling holes in the calendar can only make the n-th day come sooner. */
  lemma BackfillIsMonotone(small: seq<int>, large: seq<int>, day: int, n: int)
    requires Ascending(small) && Ascending(large)
    requires Days(small) <= Days(large)
    requires n >= 1 && NthTradingDay(small, day, n).Some?
    ensures NthTradingDay(large, day, n).Some?
    ensures NthTradingDay(large, day, n).value <= NthTradingDay(small, day, n).value
  {
    var e := NthTradingDay(small, day, n).value;
    NthTradingDayCounts(small, day, n, e);
    SmallerSet(Between(Days(small), day, e), Between(Days(large), day, e));
    SmallerSet(Between(Days(large), day, e), After(Days(large), day));
    NoneIffTooFew(large, day, n);
    var d := NthTradingDay(large, day, n).value;
    NthTradingDayCounts(large, day, n, d);
    if e < d { BetweenGrows(Days(large), day, e, d); }
  }

  /** Learning of one more trading day keeps a resolved exit day exactly when the day
      was known, is not after the start, or lies beyond the exit. */
  lemma ExitDaySurvivesIff(calendar: seq<int>, extended: seq<int>, x: int, day: int, n: int)
    requires Ascending(calendar) && Ascending(extended)
    requires Days(extended) == Days(calendar) + {x}
    requires n >= 1 && NthTradingDay(calendar, day, n).Some?
    ensures NthTradingDay(extended, day, n) == NthTradingDay(calendar, day, n)
       <==> x in calendar || x <= day || NthTradingDay(calendar, day, n).value < x
  {
    var e := NthTradingDay(calendar, day, n).value;
    NthTradingDayCounts(calendar, day, n, e);
    NthTradingDayCounts(extended, day, n, e);
    OneMoreDay(Days(calendar), x, day, e);
  }

  lemma OneMoreDay(days: set<int>, x: int, lo: int, hi: int)
    ensures |Between(days + {x}, lo, hi)| == |Between(days, lo, hi)| + if x !in days && lo < x <= hi then 1 else 0
  {
    if x !in days && lo < x <= hi {
      assert Between(days + {x}, lo, hi) == Between(days, lo, hi) + {x};
    } else {
      assert Between(days + {x}, lo, hi) == Between(days, lo, hi);
    }
  }
}
