/**
 What a response says, in terms of the table, the screened entries and the query alone: which
 trades there are, what each horizon counts, which rows come first, what is refused and why.
*/
module BacktestMeaning {
  import opened Wrappers
  import opened Ordering
  import opened AscendingSets
  import opened Calendar
  import opened PriceStore
  import opened PriceLaws
  import opened Summary
  import opened Backtest
  import opened BacktestEngine
  import opened BacktestLaws

  // ----- Trades -----

  /** The entry is bought at `p` and sold `n` trading days later, on `d`, at `x`. The price comes
      from the screening; only close-to-close may take it from the table, and only if it is absent. */
  ghost predicate Trade(rows: Rows, mode: Mode, e: Entry, n: int, p: real, d: int, x: real) {
    && IsNthDay(TradingDays(rows), e.day, n, d)
    && e.symbol != "" && (d, e.symbol) in rows && rows[(d, e.symbol)].close == x
    && p > 0.0
    && (|| e.price == Some(p)
        || (&& e.price.None? && mode == CloseToClose
            && (e.day, e.symbol) in rows && rows[(e.day, e.symbol)].close == p))
  }

  lemma ExitDayFound(days: set<int>, day: int, n: int, d: int)
    ensures ExitDayOf(days, day, n) == Some(d) <==> IsNthDay(days, day, n, d)
  {
    if IsNthDay(days, day, n, d) { NthDayUnique(days, day, n, d, ExitDayOf(days, day, n).value); }
  }

  lemma EntryPriceFound(rows: Rows, mode: Mode, e: Entry, p: real)
    requires e.symbol != ""
    ensures EntryPriceOf(rows, mode, e) == Some(p)
       <==> || e.price == Some(p)
            || (&& e.price.None? && mode == CloseToClose
                && (e.day, e.symbol) in rows && rows[(e.day, e.symbol)].close == p)
  {}

  /** An outcome is settled at these prices on this day exactly when there is such a trade. */
  lemma SettledIff(rows: Rows, mode: Mode, e: Entry, n: int, p: real, d: int, x: real)
    ensures var o := Naive(rows, mode)(e, n);
            o.Settled? && o.entryPrice == p && o.exitDay == d && o.exitPrice == x
            <==> Trade(rows, mode, e, n, p, d, x)
  {
    ExitDayFound(TradingDays(rows), e.day, n, d);
    if e.symbol != "" { EntryPriceFound(rows, mode, e, p); }
  }

  ghost predicate Sold(rows: Rows, mode: Mode, n: int, e: Entry) {
    exists p, d, x :: Trade(rows, mode, e, n, p, d, x)
  }

  ghost predicate SoldAbove(rows: Rows, mode: Mode, n: int, e: Entry) {
    exists p, d, x :: Trade(rows, mode, e, n, p, d, x) && x > p
  }

  ghost predicate SoldBelow(rows: Rows, mode: Mode, n: int, e: Entry) {
    exists p, d, x :: Trade(rows, mode, e, n, p, d, x) && x < p
  }

  predicate IsSettled(o: Outcome) { o.Settled? }

  lemma OutcomeKinds(rows: Rows, mode: Mode, e: Entry, n: int)
    ensures var o := Naive(rows, mode)(e, n);
            && (IsSettled(o) <==> Sold(rows, mode, n, e))
            && (Gained(o) <==> SoldAbove(rows, mode, n, e))
            && (Lost(o) <==> SoldBelow(rows, mode, n, e))
  {
    var o := Naive(rows, mode)(e, n);
    forall p, d, x
      ensures Trade(rows, mode, e, n, p, d, x) <==> o.Settled? && o.entryPrice == p && o.exitDay == d && o.exitPrice == x
    {
      SettledIff(rows, mode, e, n, p, d, x);
    }
    if o.Settled? { assert Trade(rows, mode, e, n, o.entryPrice, o.exitDay, o.exitPrice); }
  }

  // ----- What a horizon counts -----

  lemma {:induction false} EntriesCounted(p: Outcome -> bool, f: Outcomes, entries: seq<Entry>, n: int)
    ensures EntriesWith(p, f, entries, n) == |Where((e: Entry) => p(f(e, n)), entries)|
  {
    if entries == [] {
      assert Where((e: Entry) => p(f(e, n)), entries) == {};
    } else {
      EntriesCounted(p, f, entries[..|entries| - 1], n);
      WhereSnoc((e: Entry) => p(f(e, n)), entries);
    }
  }

  lemma SameWhere<T>(p: T -> bool, q: T -> bool, s: seq<T>)
    requires forall i :: 0 <= i < |s| ==> (p(s[i]) <==> q(s[i]))
    ensures Where(p, s) == Where(q, s)
  {}

  lemma CountedAs(p: Outcome -> bool, q: Entry -> bool, f: Outcomes, entries: seq<Entry>, n: int)
    requires forall k :: 0 <= k < |entries| ==> (p(f(entries[k], n)) <==> q(entries[k]))
    ensures EntriesWith(p, f, entries, n) == |Where(q, entries)|
  {
    EntriesCounted(p, f, entries, n);
    SameWhere((e: Entry) => p(f(e, n)), q, entries);
  }

  /** The samples of a horizon are the entries that are sold, its wins and losses those sold above
      and below the price they were bought at. */
  lemma StatCountsTrades(rows: Rows, mode: Mode, entries: seq<Entry>, horizons: seq<int>, i: nat)
    requires i < |horizons|
    ensures var s, n := Summaries(Naive(rows, mode), entries, horizons)[i], horizons[i];
            && s.n == n && s.missing == |entries| - s.samples
            && s.samples == |Where((e: Entry) => Sold(rows, mode, n, e), entries)|
            && s.wins == |Where((e: Entry) => SoldAbove(rows, mode, n, e), entries)|
            && s.losses == |Where((e: Entry) => SoldBelow(rows, mode, n, e), entries)|
  {
    var f, n := Naive(rows, mode), horizons[i];
    StatCounts(f, entries, horizons, i);
    StatMeansPrices(f, entries, horizons, i);
    SamplesAreSettled(f, entries, n);
    TradesCounted(rows, mode, entries, n);
  }

  lemma TradesCounted(rows: Rows, mode: Mode, entries: seq<Entry>, n: int)
    ensures var f := Naive(rows, mode);
            && EntriesWith(IsSettled, f, entries, n) == |Where((e: Entry) => Sold(rows, mode, n, e), entries)|
            && EntriesWith(Gained, f, entries, n) == |Where((e: Entry) => SoldAbove(rows, mode, n, e), entries)|
            && EntriesWith(Lost, f, entries, n) == |Where((e: Entry) => SoldBelow(rows, mode, n, e), entries)|
  {
    var f := Naive(rows, mode);
    forall k | 0 <= k < |entries|
      ensures IsSettled(f(entries[k], n)) <==> Sold(rows, mode, n, entries[k])
      ensures Gained(f(entries[k], n)) <==> SoldAbove(rows, mode, n, entries[k])
      ensures Lost(f(entries[k], n)) <==> SoldBelow(rows, mode, n, entries[k])
    {
      OutcomeKinds(rows, mode, entries[k], n);
    }
    CountedAs(IsSettled, (e: Entry) => Sold(rows, mode, n, e), f, entries, n);
    CountedAs(Gained, (e: Entry) => SoldAbove(rows, mode, n, e), f, entries, n);
    CountedAs(Lost, (e: Entry) => SoldBelow(rows, mode, n, e), f, entries, n);
  }

  lemma {:induction false} SamplesAreSettled(f: Outcomes, entries: seq<Entry>, n: int)
    ensures |Pcts(f, entries, n)| == EntriesWith(IsSettled, f, entries, n) == |DetailRows(f, entries, n)|
  {
    if entries != [] { SamplesAreSettled(f, entries[..|entries| - 1], n); }
  }

  /** Returns and detail rows stand in the order of the entries: that of a settled entry comes
      after those of the settled entries before it. */
  lemma {:induction false} InEntryOrder(f: Outcomes, entries: seq<Entry>, n: int, i: nat)
    requires i < |entries| && f(entries[i], n).Settled?
    ensures var k := EntriesWith(IsSettled, f, entries[..i], n);
            && k < |Pcts(f, entries, n)| == |DetailRows(f, entries, n)|
            && Pcts(f, entries, n)[k] == PctOf(f(entries[i], n))
            && DetailRows(f, entries, n)[k] == RowOf(entries[i], f(entries[i], n))
    decreases |entries|
  {
    var front := entries[..|entries| - 1];
    SamplesAreSettled(f, entries, n);
    SamplesAreSettled(f, front, n);
    if i < |front| {
      InEntryOrder(f, front, n, i);
      assert front[..i] == entries[..i];
    }
  }

  // ----- What is refused, and why -----

  lemma ColumnNames(name: string)
    ensures ParseColumn(name).Some?
       <==> name in {"trade_date", "symbol", "entry_price", "exit_date", "exit_price", "change", "return_pct"}
  {}

  lemma RefusedAs(f: Outcomes, calendar: seq<int>, q: Query, entries: seq<Entry>)
    requires Ascending(calendar)
    ensures var r, v := Report(f, calendar, q, entries), Validate(q);
            if v.Err? then r == Err(v.error) else r.Ok?
  {}

  /** A query is refused for the first of these reasons that applies, and for no other. */
  lemma RefusedIff(f: Outcomes, calendar: seq<int>, q: Query, entries: seq<Entry>)
    requires Ascending(calendar)
    ensures var r := Report(f, calendar, q, entries);
            if q.detailSort !in {"trade_date", "symbol", "entry_price", "exit_date", "exit_price", "change", "return_pct"}
            then r == Err(UnknownColumn)
            else if q.detailOrder !in {"asc", "desc"} then r == Err(UnknownOrder)
            else if q.horizons == [] then r == Err(NoHorizon)
            else if exists i :: 0 <= i < |q.horizons| && q.horizons[i] < 0 then r == Err(NegativeHorizon)
            else if exists i :: 0 <= i < |q.horizons| && q.horizons[i] > 120 then r == Err(HorizonTooLarge)
            else if |set v | v in q.horizons| > 16 then r == Err(TooManyHorizons)
            else r.Ok?
  {
    ColumnNames(q.detailSort);
    RefusedAs(f, calendar, q, entries);
    NormalizedExactly(q.horizons);
  }

  lemma AcceptedOrder(f: Outcomes, calendar: seq<int>, q: Query, entries: seq<Entry>)
    requires Ascending(calendar) && Report(f, calendar, q, entries).Ok?
    ensures ParseColumn(q.detailSort).Some? && (q.detailOrder == "asc" <==> q.detailOrder != "desc")
  {}

  /** What the response repeats of the query and says of the entries as a whole; and that each
      horizon asked for has its line, in ascending order. */
  lemma ResponseSays(f: Outcomes, calendar: seq<int>, q: Query, entries: seq<Entry>)
    requires Ascending(calendar) && Report(f, calendar, q, entries).Ok?
    ensures var r := Report(f, calendar, q, entries).value;
            && r.mode == q.mode && r.detailSort == q.detailSort && r.detailOrder == q.detailOrder
            && r.entries == |entries| && r.tradingDays == |set e | e in entries :: e.day|
            && r.horizons != [] && Ascending(r.horizons) && (forall n :: n in r.horizons <==> n in q.horizons)
            && r.summary == Summaries(f, entries, r.horizons)
            && r.warning == WarningFor(f, entries, calendar, r.horizons)
  {
    ReportParts(f, calendar, q, entries);
    NormalizedExactly(q.horizons);
    assert (set e | e in entries :: e.day) == ScreeningDays(entries);
  }

  // ----- The order of the rows, by the column's name -----

  /** How two rows compare in the column that a query names. */
  ghost predicate RowPrecedes(column: string, a: DetailRow, b: DetailRow) {
    if column == "trade_date" then ByValue(false, true, a, b)
    else if column == "symbol" then
      if a.symbol == b.symbol then a.tradeDate <= b.tradeDate else StringLe(a.symbol, b.symbol)
    else if column == "entry_price" then ByValue(a.entryPrice < b.entryPrice, a.entryPrice == b.entryPrice, a, b)
    else if column == "exit_date" then ByValue(a.exitDate < b.exitDate, a.exitDate == b.exitDate, a, b)
    else if column == "exit_price" then ByValue(a.exitPrice < b.exitPrice, a.exitPrice == b.exitPrice, a, b)
    else if column == "change" then ByValue(a.change < b.change, a.change == b.change, a, b)
    else column == "return_pct" && ByValue(a.returnPct < b.returnPct, a.returnPct == b.returnPct, a, b)
  }

  lemma NamedOrder(name: string, a: DetailRow, b: DetailRow)
    requires ParseColumn(name).Some?
    ensures RowLe(ParseColumn(name).value)(a, b) <==> RowPrecedes(name, a, b)
  {
    RowOrderMeans(ParseColumn(name).value, a, b);
  }

  /** Whether a row may stand before another: "asc" starts from the least, "desc" from the greatest. */
  ghost function MayPrecede(column: string, order: string): (DetailRow, DetailRow) -> bool {
    (a, b) => if order == "asc" then RowPrecedes(column, a, b) else RowPrecedes(column, b, a)
  }

  lemma DirectedAsNamed(name: string, order: string)
    requires ParseColumn(name).Some? && (order == "asc" <==> order != "desc")
    ensures forall a, b ::
      Directed(RowLe(ParseColumn(name).value), order == "desc")(a, b) <==> MayPrecede(name, order)(a, b)
  {
    forall a, b
      ensures Directed(RowLe(ParseColumn(name).value), order == "desc")(a, b) <==> MayPrecede(name, order)(a, b)
    {
      NamedOrder(name, a, b);
      NamedOrder(name, b, a);
    }
  }

  ghost predicate OnTop<T(!new)>(le: (T, T) -> bool, top: seq<T>, all: seq<T>) {
    && Sorted(le, top)
    && (forall kept, cut :: kept in top && cut in multiset(all) - multiset(top) ==> le(kept, cut))
  }

  lemma SameTop<T(!new)>(le: (T, T) -> bool, le': (T, T) -> bool, top: seq<T>, all: seq<T>)
    requires OnTop(le, top, all) && forall a, b :: le(a, b) <==> le'(a, b)
    ensures OnTop(le', top, all)
  {}

  /** The detail is in the order that the query names, and nothing that was cut off belongs
      before anything that was kept. */
  lemma DetailAsAsked(f: Outcomes, calendar: seq<int>, q: Query, entries: seq<Entry>)
    requires Ascending(calendar) && Report(f, calendar, q, entries).Ok?
    ensures var r := Report(f, calendar, q, entries).value;
            OnTop(MayPrecede(q.detailSort, q.detailOrder), r.detail, DetailRows(f, entries, r.detailN))
  {
    var r := Report(f, calendar, q, entries).value;
    AcceptedOrder(f, calendar, q, entries);
    DetailIsTop(f, calendar, q, entries);
    DirectedAsNamed(q.detailSort, q.detailOrder);
    SameTop(Directed(RowLe(ParseColumn(q.detailSort).value), q.detailOrder == "desc"),
            MayPrecede(q.detailSort, q.detailOrder), r.detail, DetailRows(f, entries, r.detailN));
  }

  // ----- The warnings -----

  /** Which of the warnings that need no prices is given. */
  lemma EmptyWarning(f: Outcomes, entries: seq<Entry>, calendar: seq<int>, horizons: seq<int>)
    requires Ascending(calendar) && horizons != []
    ensures WarningFor(f, entries, calendar, horizons) == Some(NoEntries) <==> entries == []
    ensures WarningFor(f, entries, calendar, horizons) == Some(NoPrices) <==> entries != [] && calendar == []
  {}

  /** Prices that end too soon are reported with the last trading day and the largest horizon,
      exactly when no trading day is that far after the last screening day. */
  lemma EndsTooSoonExact(f: Outcomes, entries: seq<Entry>, calendar: seq<int>, horizons: seq<int>, day: int, n: int)
    requires Ascending(calendar) && entries != [] && calendar != [] && horizons != []
    requires n in horizons && forall i :: 0 <= i < |horizons| ==> horizons[i] <= n
    requires day in calendar && forall i :: 0 <= i < |calendar| ==> calendar[i] <= day
    ensures var w := WarningFor(f, entries, calendar, horizons);
            && (EndsTooSoon(w) <==> w == Some(PricesEndTooSoon(day, n)))
            && (EndsTooSoon(w) <==>
                  exists i :: && 0 <= i < |entries|
                              && (forall j :: 0 <= j < |entries| ==> entries[j].day <= entries[i].day)
                              && NthTradingDay(calendar, entries[i].day, n) == None)
  {
    var last := MaxInt(EntryDays(entries));
    var at :| 0 <= at < |EntryDays(entries)| && EntryDays(entries)[at] == last;
    var k :| 0 <= k < |horizons| && horizons[k] == n;
    var c :| 0 <= c < |calendar| && calendar[c] == day;
    assert MaxInt(horizons) == n && calendar[|calendar| - 1] == day;
    forall i | 0 <= i < |entries| && (forall j :: 0 <= j < |entries| ==> entries[j].day <= entries[i].day)
      ensures entries[i].day == last
    {
      assert entries[at].day == last <= entries[i].day == EntryDays(entries)[i];
    }
    forall j | 0 <= j < |entries| ensures entries[j].day <= entries[at].day {
      assert EntryDays(entries)[j] == entries[j].day;
    }
  }
}
