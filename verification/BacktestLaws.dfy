/** What every backtest response guarantees, and what new prices may and may not change. */
module BacktestLaws {
  import opened Wrappers
  import opened Ordering
  import opened AscendingSets
  import opened Calendar
  import opened PriceStore
  import opened PriceLaws
  import opened Summary
  import opened Backtest
  import opened BacktestEngine

  // ----- Conservation -----

  lemma {:induction false} EveryEntryCounted(f: Outcomes, entries: seq<Entry>, n: int)
    ensures |Pcts(f, entries, n)| + MissingCount(f, entries, n) == |entries|
    ensures |DetailRows(f, entries, n)| == |Pcts(f, entries, n)|
  {
    if entries != [] { EveryEntryCounted(f, entries[..|entries| - 1], n); }
  }

  lemma StatCounts(f: Outcomes, entries: seq<Entry>, horizons: seq<int>, i: nat)
    requires i < |horizons|
    ensures var s := Summaries(f, entries, horizons)[i];
            && s.n == horizons[i] && s.samples == |Pcts(f, entries, horizons[i])|
            && s.samples + s.missing == |entries|
            && s.wins + s.losses + s.flat == s.samples && s.flat >= 0
  {
    var n := horizons[i];
    EveryEntryCounted(f, entries, n);
    SummaryConserves(n, Pcts(f, entries, n), MissingCount(f, entries, n));
  }

  lemma AcceptedQuery(q: Query)
    requires Validate(q).Ok?
    ensures ParseColumn(q.detailSort).Some? && Validate(q) == NormalizeHorizons(q.horizons)
    ensures Validate(q).value != []
  {}

  /** An accepted query, taken apart. */
  lemma ReportParts(f: Outcomes, calendar: seq<int>, q: Query, entries: seq<Entry>)
    requires Ascending(calendar) && Report(f, calendar, q, entries).Ok?
    ensures ParseColumn(q.detailSort).Some? && NormalizeHorizons(q.horizons).Ok?
    ensures var horizons := NormalizeHorizons(q.horizons).value;
            && horizons != []
            && var n := ChooseDetail(q.detailN, horizons);
            Report(f, calendar, q, entries).value
            == Respond(q, horizons, entries, n, Summaries(f, entries, horizons),
                       SortedDetail(f, entries, n, ParseColumn(q.detailSort).value, q.detailOrder),
                       WarningFor(f, entries, calendar, horizons))
  {
    AcceptedQuery(q);
  }

  ghost predicate Conserves(r: Response, entries: seq<Entry>) {
    && r.entries == |entries| && |r.summary| == |r.horizons|
    && (forall i :: 0 <= i < |r.horizons| ==>
          var s := r.summary[i];
          && s.n == r.horizons[i]
          && s.samples + s.missing == |entries|
          && s.wins + s.losses + s.flat == s.samples && s.flat >= 0)
    && (exists i :: 0 <= i < |r.horizons| && r.horizons[i] == r.detailN
                    && r.detailTotal == r.summary[i].samples)
    && |r.detail| <= r.detailTotal
  }

  lemma DetailCounts(f: Outcomes, q: Query, entries: seq<Entry>, horizons: seq<int>, column: Column) returns (at: nat)
    requires horizons != []
    ensures var n := ChooseDetail(q.detailN, horizons);
            && at < |horizons| && horizons[at] == n
            && |SortedDetail(f, entries, n, column, q.detailOrder)| == Summaries(f, entries, horizons)[at].samples
  {
    var n := ChooseDetail(q.detailN, horizons);
    at := ChosenPosition(q.detailN, horizons);
    StatCounts(f, entries, horizons, at);
    EveryEntryCounted(f, entries, n);
    SortedRows(f, entries, n, column, q.detailOrder);
  }

  lemma RespondConserves(f: Outcomes, q: Query, entries: seq<Entry>, horizons: seq<int>, column: Column,
                         warning: Option<Warning>)
    requires horizons != []
    ensures var n := ChooseDetail(q.detailN, horizons);
            Conserves(Respond(q, horizons, entries, n, Summaries(f, entries, horizons),
                              SortedDetail(f, entries, n, column, q.detailOrder), warning), entries)
  {
    var n := ChooseDetail(q.detailN, horizons);
    var r := Respond(q, horizons, entries, n, Summaries(f, entries, horizons),
                     SortedDetail(f, entries, n, column, q.detailOrder), warning);
    forall i | 0 <= i < |horizons| { StatCounts(f, entries, horizons, i); }
    var at := DetailCounts(f, q, entries, horizons, column);
    assert r.horizons[at] == r.detailN && r.detailTotal == r.summary[at].samples;
  }

  /** At every horizon, on every path: each entry is a sample or missing, each sample a
      win, a loss or flat; and the detail belongs to one of the horizons, all its samples. */
  lemma Conservation(f: Outcomes, calendar: seq<int>, q: Query, entries: seq<Entry>)
    requires Ascending(calendar) && Report(f, calendar, q, entries).Ok?
    ensures Conserves(Report(f, calendar, q, entries).value, entries)
  {
    ReportParts(f, calendar, q, entries);
    RespondConserves(f, q, entries, NormalizeHorizons(q.horizons).value, ParseColumn(q.detailSort).value,
                     WarningFor(f, entries, calendar, NormalizeHorizons(q.horizons).value));
  }

  /** The horizon detailed is the one asked for if it is among the horizons, else the smallest. */
  lemma DetailHorizon(f: Outcomes, calendar: seq<int>, q: Query, entries: seq<Entry>)
    requires Ascending(calendar) && Report(f, calendar, q, entries).Ok?
    ensures var r := Report(f, calendar, q, entries).value;
            if q.detailN.Some? && q.detailN.value in q.horizons then r.detailN == q.detailN.value
            else r.detailN in q.horizons && forall n :: n in q.horizons ==> r.detailN <= n
  {
    ReportParts(f, calendar, q, entries);
    NormalizedExactly(q.horizons);
    SmallestFirst(q.horizons, NormalizeHorizons(q.horizons).value);
  }

  lemma SmallestFirst(values: seq<int>, horizons: seq<int>)
    requires horizons != [] && Ascending(horizons) && forall v :: v in horizons <==> v in values
    ensures horizons[0] in values && forall v :: v in values ==> horizons[0] <= v
  {
    FirstIsMember(horizons);
    forall v | v in values ensures horizons[0] <= v {
      var i :| 0 <= i < |horizons| && horizons[i] == v;
    }
  }

  // ----- What the figures mean for the entries -----

  predicate Gained(o: Outcome) { o.Settled? && o.exitPrice > o.entryPrice }

  predicate Lost(o: Outcome) { o.Settled? && o.exitPrice < o.entryPrice }

  function EntriesWith(p: Outcome -> bool, f: Outcomes, entries: seq<Entry>, n: int): nat {
    if entries == [] then 0
    else
      var k := |entries| - 1;
      EntriesWith(p, f, entries[..k], n) + if p(f(entries[k], n)) then 1 else 0
  }

  lemma PctSign(o: Outcome)
    requires o.Settled?
    ensures PctOf(o) > 0.0 <==> Gained(o)
    ensures PctOf(o) < 0.0 <==> Lost(o)
  {
    var q := (o.exitPrice - o.entryPrice) / o.entryPrice;
    assert q * o.entryPrice == o.exitPrice - o.entryPrice;
    PositiveFactor(q, o.entryPrice);
    PositiveFactor(-q, o.entryPrice);
  }

  /** The return takes the entry price to the exit price. */
  lemma PctTakesEntryToExit(o: Outcome)
    requires o.Settled?
    ensures o.exitPrice == o.entryPrice * (1.0 + PctOf(o) / 100.0)
  {
    var q := (o.exitPrice - o.entryPrice) / o.entryPrice;
    assert q * o.entryPrice == o.exitPrice - o.entryPrice;
    assert PctOf(o) / 100.0 == q;
  }

  lemma Round4Sign(x: real)
    ensures x >= 0.0 ==> Round4(x) >= 0.0
    ensures x <= 0.0 ==> Round4(x) <= 0.0
  {
    assert Round4(0.0) == 0.0;
    Round4Laws(x, 0.0);
    Round4Laws(0.0, x);
  }

  lemma RowRounds(e: Entry, o: Outcome)
    requires o.Settled?
    ensures var r := RowOf(e, o);
            && RoundedTo(r.entryPrice, o.entryPrice, 10000.0) && RoundedTo(r.exitPrice, o.exitPrice, 10000.0)
            && RoundedTo(r.change, o.exitPrice - o.entryPrice, 10000.0) && RoundedTo(r.returnPct, PctOf(o), 10000.0)
  {
    RoundingExact(o.entryPrice, Round4(o.entryPrice));
    RoundingExact(o.exitPrice, Round4(o.exitPrice));
    RoundingExact(o.exitPrice - o.entryPrice, Round4(o.exitPrice - o.entryPrice));
    RoundingExact(PctOf(o), Round4(PctOf(o)));
  }

  /** The row shown for a trade names the entry, and each of its figures is the trade's own rounded
      to four places; so its change is the difference of its prices up to rounding, and its
      return has the sign of the gain. */
  lemma RowShowsTrade(e: Entry, o: Outcome)
    requires o.Settled?
    ensures var r := RowOf(e, o);
            && r.tradeDate == e.day && r.symbol == e.symbol && r.exitDate == o.exitDay
            && r.name == e.name && r.market == e.market && r.marketCode == e.marketCode
            && -0.00005 <= r.entryPrice - o.entryPrice <= 0.00005
            && -0.00005 <= r.exitPrice - o.exitPrice <= 0.00005
            && -0.00005 <= r.change - (o.exitPrice - o.entryPrice) <= 0.00005
            && -0.00005 <= r.returnPct - PctOf(o) <= 0.00005
            && -0.00015 <= r.change - (r.exitPrice - r.entryPrice) <= 0.00015
            && RoundedTo(r.entryPrice, o.entryPrice, 10000.0) && RoundedTo(r.exitPrice, o.exitPrice, 10000.0)
            && RoundedTo(r.change, o.exitPrice - o.entryPrice, 10000.0) && RoundedTo(r.returnPct, PctOf(o), 10000.0)
            && (Gained(o) ==> r.change >= 0.0 && r.returnPct >= 0.0)
            && (Lost(o) ==> r.change <= 0.0 && r.returnPct <= 0.0)
  {
    RowRounds(e, o);
    PctSign(o);
    Round4Laws(o.entryPrice, o.entryPrice);
    Round4Laws(o.exitPrice, o.exitPrice);
    Round4Laws(o.exitPrice - o.entryPrice, o.exitPrice - o.entryPrice);
    Round4Laws(PctOf(o), PctOf(o));
    Round4Sign(o.exitPrice - o.entryPrice);
    Round4Sign(PctOf(o));
  }

  lemma {:induction false} CountSnoc(p: real -> bool, s: seq<real>, x: real)
    ensures Count(p, s + [x]) == Count(p, s) + if p(x) then 1 else 0
  {
    if s == [] {
      assert s + [x] == [x] && [x][1..] == [];
    } else {
      CountSnoc(p, s[1..], x);
      assert (s + [x])[1..] == s[1..] + [x];
    }
  }

  /** A win is an entry sold above, a loss one sold below its entry price. */
  lemma {:induction false} WinsAndLosses(f: Outcomes, entries: seq<Entry>, n: int)
    ensures Count(Positive, Pcts(f, entries, n)) == EntriesWith(Gained, f, entries, n)
    ensures Count(Negative, Pcts(f, entries, n)) == EntriesWith(Lost, f, entries, n)
  {
    if entries != [] {
      var k := |entries| - 1;
      var o, before := f(entries[k], n), Pcts(f, entries[..k], n);
      WinsAndLosses(f, entries[..k], n);
      if o.Settled? {
        PctSign(o);
        CountSnoc(Positive, before, PctOf(o));
        CountSnoc(Negative, before, PctOf(o));
      } else {
        assert before + [] == before;
      }
    }
  }

  /** The counts of a response in terms of prices. */
  lemma StatMeansPrices(f: Outcomes, entries: seq<Entry>, horizons: seq<int>, i: nat)
    requires i < |horizons|
    ensures var s := Summaries(f, entries, horizons)[i];
            && s.wins == EntriesWith(Gained, f, entries, horizons[i])
            && s.losses == EntriesWith(Lost, f, entries, horizons[i])
  {
    WinsAndLosses(f, entries, horizons[i]);
  }

  lemma {:induction false} TallyAppend(f: Outcomes, a: seq<Entry>, b: seq<Entry>, n: int)
    ensures Pcts(f, a + b, n) == Pcts(f, a, n) + Pcts(f, b, n)
    ensures MissingCount(f, a + b, n) == MissingCount(f, a, n) + MissingCount(f, b, n)
  {
    if b == [] {
      assert a + b == a;
    } else {
      var k := |b| - 1;
      TallyAppend(f, a, b[..k], n);
      assert (a + b)[..|a + b| - 1] == a + b[..k] && (a + b)[|a + b| - 1] == b[k];
      var x, y, z := Pcts(f, a, n), Pcts(f, b[..k], n), PctPart(f(b[k], n));
      assert (x + y) + z == x + (y + z);
    }
  }

  lemma WithoutOne<T>(s: seq<T>, i: nat)
    requires i < |s|
    ensures multiset(Without(s, i)) == multiset(s) - multiset{s[i]}
  {
    assert s == s[..i] + [s[i]] + s[i + 1..];
  }

  /** One entry's contribution can be taken out from anywhere in the list. */
  lemma TallyWithout(f: Outcomes, s: seq<Entry>, i: nat, n: int)
    requires i < |s|
    ensures multiset(Pcts(f, s, n)) == multiset(Pcts(f, Without(s, i), n)) + multiset(PctPart(f(s[i], n)))
    ensures MissingCount(f, s, n) == MissingCount(f, Without(s, i), n) + MissingPart(f(s[i], n))
  {
    assert s == (s[..i] + [s[i]]) + s[i + 1..];
    TallySnoc(f, s[..i], s[i], n);
    TallyAppend(f, s[..i] + [s[i]], s[i + 1..], n);
    TallyAppend(f, s[..i], s[i + 1..], n);
  }

  function Without<T>(s: seq<T>, i: nat): (r: seq<T>)
    requires i < |s|
    ensures |r| == |s| - 1
  {
    s[..i] + s[i + 1..]
  }

  ghost predicate SameTally(f: Outcomes, a: seq<Entry>, b: seq<Entry>, n: int) {
    && multiset(Pcts(f, a, n)) == multiset(Pcts(f, b, n))
    && MissingCount(f, a, n) == MissingCount(f, b, n)
  }

  lemma SameTallyStep(f: Outcomes, a: seq<Entry>, b: seq<Entry>, i: nat, n: int)
    requires a != [] && i < |b| && b[i] == a[0] && SameTally(f, Without(a, 0), Without(b, i), n)
    ensures SameTally(f, a, b, n)
  {
    TallyWithout(f, a, 0, n);
    TallyWithout(f, b, i, n);
  }

  lemma {:induction false} TallyOrderFree(f: Outcomes, a: seq<Entry>, b: seq<Entry>, n: int)
    requires multiset(a) == multiset(b)
    ensures SameTally(f, a, b, n)
    decreases |a|
  {
    if a == [] {
      assert |b| == |multiset(b)| == 0;
    } else {
      var i := Locate(a, b);
      WithoutOne(a, 0);
      WithoutOne(b, i);
      TallyOrderFree(f, Without(a, 0), Without(b, i), n);
      SameTallyStep(f, a, b, i, n);
    }
  }

  lemma Locate<T>(a: seq<T>, b: seq<T>) returns (i: nat)
    requires a != [] && multiset(a) == multiset(b)
    ensures i < |b| && b[i] == a[0]
  {
    assert a[0] in multiset(b);
    i :| 0 <= i < |b| && b[i] == a[0];
  }

  /** The statistics do not depend on the order in which the entries are listed. */
  lemma EntryOrderIrrelevant(f: Outcomes, a: seq<Entry>, b: seq<Entry>, horizons: seq<int>)
    requires multiset(a) == multiset(b)
    ensures Summaries(f, a, horizons) == Summaries(f, b, horizons)
  {
    forall i | 0 <= i < |horizons| ensures Summaries(f, a, horizons)[i] == Summaries(f, b, horizons)[i] {
      TallyOrderFree(f, a, b, horizons[i]);
      SummaryOrderFree(horizons[i], Pcts(f, a, horizons[i]), Pcts(f, b, horizons[i]), MissingCount(f, a, horizons[i]));
    }
  }

  // ----- Sort, then cut -----

  /** How two rows compare: by the column's value, then by screening day, then by symbol. */
  ghost predicate ByValue(less: bool, equal: bool, a: DetailRow, b: DetailRow) {
    less || (equal && (a.tradeDate < b.tradeDate || (a.tradeDate == b.tradeDate && StringLe(a.symbol, b.symbol))))
  }

  lemma RowOrderMeans(column: Column, a: DetailRow, b: DetailRow)
    ensures RowLe(column)(a, b) <==>
      match column
      case TradeDate => ByValue(false, true, a, b)
      case Symbol =>
        if a.symbol == b.symbol then a.tradeDate <= b.tradeDate else StringLe(a.symbol, b.symbol)
      case ExitDate => ByValue(a.exitDate < b.exitDate, a.exitDate == b.exitDate, a, b)
      case EntryPrice => ByValue(a.entryPrice < b.entryPrice, a.entryPrice == b.entryPrice, a, b)
      case ExitPrice => ByValue(a.exitPrice < b.exitPrice, a.exitPrice == b.exitPrice, a, b)
      case Change => ByValue(a.change < b.change, a.change == b.change, a, b)
      case ReturnPct => ByValue(a.returnPct < b.returnPct, a.returnPct == b.returnPct, a, b)
  {
    match column
    case TradeDate =>
      TextOrder(a.symbol, b.symbol);
      LexPair(Day(a.tradeDate), Text(a.symbol), Day(b.tradeDate), Text(b.symbol));
    case Symbol =>
      TextOrder(a.symbol, b.symbol);
      LexPair(Text(a.symbol), Day(a.tradeDate), Text(b.symbol), Day(b.tradeDate));
    case ExitDate => LexTriple(Day(a.exitDate), Day(b.exitDate), a, b);
    case EntryPrice => LexTriple(Num(a.entryPrice), Num(b.entryPrice), a, b);
    case ExitPrice => LexTriple(Num(a.exitPrice), Num(b.exitPrice), a, b);
    case Change => LexTriple(Num(a.change), Num(b.change), a, b);
    case ReturnPct => LexTriple(Num(a.returnPct), Num(b.returnPct), a, b);
  }

  lemma TextOrder(x: string, y: string)
    ensures CellLt(Text(x), Text(y)) || x == y <==> StringLe(x, y)
  {
    StringLeIsTotalOrder();
    assert StringLe(x, y) || StringLe(y, x);
  }

  lemma LexPair(a1: Cell, a2: Cell, b1: Cell, b2: Cell)
    ensures Lex(CellLt, [a1, a2], [b1, b2]) <==> CellLt(a1, b1) || (a1 == b1 && (CellLt(a2, b2) || a2 == b2))
  {
    assert [a1, a2][1..] == [a2] && [b1, b2][1..] == [b2] && [a2][1..] == [] && [b2][1..] == [];
    assert Lex(CellLt, [a2], [b2]) <==> CellLt(a2, b2) || a2 == b2;
  }

  lemma LexTriple(p: Cell, q: Cell, a: DetailRow, b: DetailRow)
    ensures Lex(CellLt, [p, Day(a.tradeDate), Text(a.symbol)], [q, Day(b.tradeDate), Text(b.symbol)])
       <==> ByValue(CellLt(p, q), p == q, a, b)
  {
    TextOrder(a.symbol, b.symbol);
    LexPair(Day(a.tradeDate), Text(a.symbol), Day(b.tradeDate), Text(b.symbol));
    assert [p, Day(a.tradeDate), Text(a.symbol)][1..] == [Day(a.tradeDate), Text(a.symbol)];
    assert [q, Day(b.tradeDate), Text(b.symbol)][1..] == [Day(b.tradeDate), Text(b.symbol)];
  }

  lemma SortedRows(f: Outcomes, entries: seq<Entry>, n: int, column: Column, order: string)
    ensures IsStableSortOf(Directed(RowLe(column), order == "desc"), DetailRows(f, entries, n),
                           SortedDetail(f, entries, n, column, order))
    ensures |SortedDetail(f, entries, n, column, order)| == |DetailRows(f, entries, n)|
  {
    var rows, sorted := DetailRows(f, entries, n), SortedDetail(f, entries, n, column, order);
    RowLePreorder(column);
    ListSortIsStable(RowLe(column), order == "desc", rows);
    assert |multiset(rows)| == |multiset(sorted)|;
  }

  /** The detail returned is the true top: it has as many rows as the limit lets through, it is
      the beginning of the one stable sort of all settled trades, so ties keep the entries'
      order, and no settled trade that was cut off comes before one that was kept, in the
      chosen column and direction. */
  lemma DetailIsTop(f: Outcomes, calendar: seq<int>, q: Query, entries: seq<Entry>)
    requires Ascending(calendar) && Report(f, calendar, q, entries).Ok?
    ensures var r := Report(f, calendar, q, entries).value;
            var rows := DetailRows(f, entries, r.detailN);
            var column := ParseColumn(q.detailSort).value;
            var le := Directed(RowLe(column), q.detailOrder == "desc");
            var sorted := SortedDetail(f, entries, r.detailN, column, q.detailOrder);
            && |r.detail| == (if 0 <= q.detailLimit < |rows| then q.detailLimit else |rows|)
            && r.detail <= sorted && IsStableSortOf(le, rows, sorted)
            && Sorted(le, r.detail)
            && multiset(r.detail) <= multiset(rows)
            && (forall kept, cut :: kept in r.detail && cut in multiset(rows) - multiset(r.detail) ==> le(kept, cut))
  {
    var r := Report(f, calendar, q, entries).value;
    var column := ParseColumn(q.detailSort).value;
    var sorted := SortedDetail(f, entries, r.detailN, column, q.detailOrder);
    SortedRows(f, entries, r.detailN, column, q.detailOrder);
    assert r.detail == sorted[..|r.detail|];
    PrefixIsLeast(Directed(RowLe(column), q.detailOrder == "desc"), sorted, |r.detail|);
  }

  /** A trade's own figure in a column, before rounding; dates and symbols have none. */
  function Figure(column: Column, o: Outcome): Option<real>
    requires o.Settled?
  {
    match column
    case EntryPrice => Some(o.entryPrice)
    case ExitPrice => Some(o.exitPrice)
    case Change => Some(o.exitPrice - o.entryPrice)
    case ReturnPct => Some(PctOf(o))
    case _ => None
  }

  lemma FigureOrder(column: Column, a: Entry, x: Outcome, b: Entry, y: Outcome)
    requires x.Settled? && y.Settled? && Figure(column, x).Some?
    requires RowLe(column)(RowOf(a, x), RowOf(b, y))
    ensures Figure(column, x).value <= Figure(column, y).value + 0.0001
  {
    RowOrderMeans(column, RowOf(a, x), RowOf(b, y));
    Round4Laws(Figure(column, x).value, Figure(column, x).value);
    Round4Laws(Figure(column, y).value, Figure(column, y).value);
  }

  /** Rows are sorted by rounded figures. Still, a trade whose row was cut off lies on the wrong
      side of one whose row was kept by at most a ten-thousandth of a unit before rounding, in
      every column of figures and in both directions. */
  lemma CutWithinRounding(column: Column, reverse: bool, kept: Entry, k: Outcome, cut: Entry, c: Outcome)
    requires k.Settled? && c.Settled? && Figure(column, k).Some?
    requires Directed(RowLe(column), reverse)(RowOf(kept, k), RowOf(cut, c))
    ensures Figure(column, c).Some?
    ensures reverse ==> Figure(column, c).value <= Figure(column, k).value + 0.0001
    ensures !reverse ==> Figure(column, k).value <= Figure(column, c).value + 0.0001
  {
    if reverse {
      FigureOrder(column, cut, c, kept, k);
    } else {
      FigureOrder(column, kept, k, cut, c);
    }
  }

  // ----- Settled trades stay settled -----

  /** The upload brings no day between known days, and overwrites nothing. */
  ghost predicate OnlyAdds(rows: Rows, body: Payload) {
    && (body.day in TradingDays(rows) || forall d: int :: d in TradingDays(rows) ==> d < body.day)
    && (forall s :: s in Symbols(body.items) ==> (body.day, s) !in rows)
  }

  ghost predicate RunOnlyAdds(rows: Rows, bodies: seq<Payload>)
    decreases |bodies|
  {
    bodies != [] ==> OnlyAdds(rows, bodies[0]) && RunOnlyAdds(AfterUpsert(rows, bodies[0]), bodies[1..])
  }

  lemma PriceKept(rows: Rows, body: Payload, day: int, symbol: string)
    requires OnlyAdds(rows, body) && PriceOf(rows, day, symbol).Some?
    ensures PriceOf(AfterUpsert(rows, body), day, symbol) == PriceOf(rows, day, symbol)
  {
    Unmentioned(rows, body, (day, symbol));
  }

  lemma ExitDayKept(rows: Rows, body: Payload, day: int, n: int)
    requires OnlyAdds(rows, body) && ExitDayOf(TradingDays(rows), day, n).Some?
    ensures ExitDayOf(TradingDays(AfterUpsert(rows, body)), day, n) == ExitDayOf(TradingDays(rows), day, n)
  {
    var before, after := TradingDays(rows), TradingDays(AfterUpsert(rows, body));
    var d := ExitDayOf(before, day, n).value;
    UploadAddsItsDay(rows, body);
    assert Between(after, day, d) == Between(before, day, d);
    assert IsNthDay(after, day, n, d);
    NthDayUnique(after, day, n, d, ExitDayOf(after, day, n).value);
  }

  /** A day after the whole calendar, or new symbols for a known day, leave every settled
      trade with the same entry price, exit day and exit price. */
  lemma SettledStaysSettled(rows: Rows, body: Payload, mode: Mode, e: Entry, n: int)
    requires OnlyAdds(rows, body) && OutcomeOf(rows, mode, e, n).Settled?
    ensures OutcomeOf(AfterUpsert(rows, body), mode, e, n) == OutcomeOf(rows, mode, e, n)
  {
    if e.price.None? { PriceKept(rows, body, e.day, e.symbol); }
    ExitDayKept(rows, body, e.day, n);
    PriceKept(rows, body, ExitDayOf(TradingDays(rows), e.day, n).value, e.symbol);
  }

  /** The close that the last item for a symbol gives, if any does. */
  function LastClose(items: seq<PriceItem>, symbol: string): Option<real> {
    var item := LastItem(items, symbol);
    if item.Some? then item.value.close else None
  }

  /** The upload leaves this close as it is: it stores nothing, is of another day, does not name
      the symbol, or names it last with the same close. */
  ghost predicate KeepsClose(rows: Rows, body: Payload, day: int, symbol: string)
    requires (day, symbol) in rows
  {
    || Clashes(rows, body.day, body.items) || body.day != day
    || LastClose(body.items, symbol) in {None, Some(rows[(day, symbol)].close)}
  }

  /** The upload leaves the exit day as it is: it adds no day between the entry day and the exit. */
  ghost predicate KeepsExit(rows: Rows, body: Payload, day: int, exit: int) {
    || Clashes(rows, body.day, body.items) || Symbols(body.items) == {} || body.day in TradingDays(rows)
    || body.day <= day || exit < body.day
  }

  lemma PriceKeptIff(rows: Rows, body: Payload, day: int, symbol: string)
    requires PriceOf(rows, day, symbol).Some?
    ensures PriceOf(AfterUpsert(rows, body), day, symbol) == PriceOf(rows, day, symbol)
       <==> KeepsClose(rows, body, day, symbol)
  {
    StoredBarExact(rows, body, day, symbol);
  }

  lemma ZerothDayKept(rows: Rows, body: Payload, day: int)
    requires NthTradingDay(ListPriceTradingDays(rows), day, 0).Some?
    ensures NthTradingDay(ListPriceTradingDays(AfterUpsert(rows, body)), day, 0) == Some(day)
         == NthTradingDay(ListPriceTradingDays(rows), day, 0)
  {
    UploadAddsItsDay(rows, body);
    ZerothDay(ListPriceTradingDays(rows), day);
    ZerothDay(ListPriceTradingDays(AfterUpsert(rows, body)), day);
  }

  lemma ExitKeptIff(rows: Rows, body: Payload, day: int, n: int)
    requires ExitDayOf(TradingDays(rows), day, n).Some?
    ensures var exit := ExitDayOf(TradingDays(rows), day, n);
            ExitDayOf(TradingDays(AfterUpsert(rows, body)), day, n) == exit
            <==> n == 0 || KeepsExit(rows, body, day, exit.value)
  {
    ExitDayIsNth(rows, day, n);
    ExitDayIsNth(AfterUpsert(rows, body), day, n);
    if n == 0 {
      ZerothDayKept(rows, body, day);
    } else {
      UploadKeepsExitIff(rows, body, day, n);
    }
  }

  /** Any upload: a settled trade stays exactly as it was if and only if the upload keeps its
      exit day, the close there, and the close it was bought at if the screening gave none. */
  lemma SettledSurvivesIff(rows: Rows, body: Payload, mode: Mode, e: Entry, n: int)
    requires OutcomeOf(rows, mode, e, n).Settled?
    ensures var o := OutcomeOf(rows, mode, e, n);
            && (o.exitDay, e.symbol) in rows && (e.price.None? ==> (e.day, e.symbol) in rows)
            && (OutcomeOf(AfterUpsert(rows, body), mode, e, n) == o
                <==> && (n == 0 || KeepsExit(rows, body, e.day, o.exitDay))
                     && KeepsClose(rows, body, o.exitDay, e.symbol)
                     && (e.price.None? ==> KeepsClose(rows, body, e.day, e.symbol)))
  {
    ExitKeptIff(rows, body, e.day, n);
    PriceKeptIff(rows, body, OutcomeOf(rows, mode, e, n).exitDay, e.symbol);
    if e.price.None? { PriceKeptIff(rows, body, e.day, e.symbol); }
  }

  /** Over any run of additive uploads too, and no horizon loses a sample. */
  lemma {:induction false} RunKeepsSettled(rows: Rows, bodies: seq<Payload>, mode: Mode, e: Entry, n: int)
    requires RunOnlyAdds(rows, bodies) && OutcomeOf(rows, mode, e, n).Settled?
    ensures OutcomeOf(AfterUpserts(rows, bodies), mode, e, n) == OutcomeOf(rows, mode, e, n)
    decreases |bodies|
  {
    if bodies != [] {
      SettledStaysSettled(rows, bodies[0], mode, e, n);
      RunKeepsSettled(AfterUpsert(rows, bodies[0]), bodies[1..], mode, e, n);
    }
  }

  lemma {:induction false} SamplesNeverFall(rows: Rows, bodies: seq<Payload>, mode: Mode, entries: seq<Entry>, n: int)
    requires RunOnlyAdds(rows, bodies)
    ensures |Pcts(Naive(rows, mode), entries, n)| <= |Pcts(Naive(AfterUpserts(rows, bodies), mode), entries, n)|
    decreases |entries|
  {
    if entries != [] {
      var k := |entries| - 1;
      SamplesNeverFall(rows, bodies, mode, entries[..k], n);
      if OutcomeOf(rows, mode, entries[k], n).Settled? {
        RunKeepsSettled(rows, bodies, mode, entries[k], n);
      }
    }
  }

  // ----- The coverage warning -----

  /** The first of the two warnings. */
  predicate EndsTooSoon(warning: Option<Warning>) { warning.Some? && warning.value.PricesEndTooSoon? }

  ghost predicate CoveredFrom(entries: seq<Entry>, calendar: seq<int>, horizons: seq<int>, least: int)
    requires Ascending(calendar)
  {
    forall i, j :: 0 <= i < |entries| && 0 <= j < |horizons| && horizons[j] >= least
      ==> NthTradingDay(calendar, entries[i].day, horizons[j]).Some?
  }

  /** With a largest horizon of at least 1, a look at the last screening day at the largest
      horizon alone decides whether every screening day is covered at every horizon from 1. */
  lemma CoverageWarningExact(entries: seq<Entry>, calendar: seq<int>, horizons: seq<int>, missing: seq<nat>)
    requires entries != [] && calendar != [] && Ascending(calendar) && horizons != []
    requires MaxInt(horizons) >= 1
    ensures !EndsTooSoon(CoverageWarning(entries, calendar, horizons, missing))
       <==> CoveredFrom(entries, calendar, horizons, 1)
  {
    var last, biggest := MaxInt(EntryDays(entries)), MaxInt(horizons);
    if NthTradingDay(calendar, last, biggest).Some? {
      forall i, j | 0 <= i < |entries| && 0 <= j < |horizons| && horizons[j] >= 1
        ensures NthTradingDay(calendar, entries[i].day, horizons[j]).Some?
      {
        assert EntryDays(entries)[i] == entries[i].day;
        Monotone(calendar, entries[i].day, horizons[j], last, biggest);
      }
    } else {
      var i :| 0 <= i < |EntryDays(entries)| && EntryDays(entries)[i] == last;
      var j :| 0 <= j < |horizons| && horizons[j] == biggest;
      assert entries[i].day == last;
    }
  }

  /** With horizon 0 alone the same look only says whether the last screening day traded. */
  lemma CoverageWarningAtZero(entries: seq<Entry>, calendar: seq<int>, horizons: seq<int>, missing: seq<nat>)
    requires entries != [] && calendar != [] && Ascending(calendar) && horizons != []
    requires MaxInt(horizons) == 0
    ensures !EndsTooSoon(CoverageWarning(entries, calendar, horizons, missing))
       <==> MaxInt(EntryDays(entries)) in calendar
  {
    ZerothDay(calendar, MaxInt(EntryDays(entries)));
  }

  lemma CoveredAtZero(entries: seq<Entry>, calendar: seq<int>, horizons: seq<int>)
    requires Ascending(calendar) && forall j :: 0 <= j < |horizons| ==> horizons[j] >= 0
    ensures CoveredFrom(entries, calendar, horizons, 0)
       <==> && CoveredFrom(entries, calendar, horizons, 1)
            && ((exists j :: 0 <= j < |horizons| && horizons[j] == 0)
                ==> forall i :: 0 <= i < |entries| ==> entries[i].day in calendar)
  {
    forall i | 0 <= i < |entries| { ZerothDay(calendar, entries[i].day); }
  }

  /** For every list of horizons: the absence of the first warning means that every screening
      day is covered at every horizon exactly when 0 is not among the horizons, or the warning
      is there, or every screening day is a trading day itself. */
  lemma CoverageWarningRightIff(entries: seq<Entry>, calendar: seq<int>, horizons: seq<int>, missing: seq<nat>)
    requires entries != [] && calendar != [] && Ascending(calendar) && horizons != []
    requires forall j :: 0 <= j < |horizons| ==> horizons[j] >= 0
    ensures var warned := EndsTooSoon(CoverageWarning(entries, calendar, horizons, missing));
            (!warned <==> CoveredFrom(entries, calendar, horizons, 0))
            <==> || (forall j :: 0 <= j < |horizons| ==> horizons[j] != 0)
                 || warned
                 || (forall i :: 0 <= i < |entries| ==> entries[i].day in calendar)
  {
    var last := MaxInt(EntryDays(entries));
    var at :| 0 <= at < |horizons| && horizons[at] == MaxInt(horizons);
    CoveredAtZero(entries, calendar, horizons);
    if MaxInt(horizons) >= 1 {
      CoverageWarningExact(entries, calendar, horizons, missing);
    } else {
      CoverageWarningAtZero(entries, calendar, horizons, missing);
      var i :| 0 <= i < |EntryDays(entries)| && EntryDays(entries)[i] == last;
      assert entries[i].day == last;
    }
  }

  // ----- A gap at horizon 0 that neither warning reports -----

  function BarsOn(day: int, symbols: seq<string>): Rows {
    map s | s in symbols :: (day, s) := Bar("", "", None, None, None, 10.0, None)
  }

  function ScreenedOn(day: int, symbols: seq<string>): seq<Entry> {
    seq(|symbols|, i requires 0 <= i < |symbols| => Entry(day, symbols[i], "", "", "", Some(10.0)))
  }

  lemma {:induction false} AllSettled(f: Outcomes, entries: seq<Entry>, n: int)
    requires forall i :: 0 <= i < |entries| ==> f(entries[i], n).Settled?
    ensures MissingCount(f, entries, n) == 0
  {
    if entries != [] { AllSettled(f, entries[..|entries| - 1], n); }
  }

  lemma OneDayCalendar(day: int, symbols: seq<string>)
    requires symbols != []
    ensures TradingDays(BarsOn(day, symbols)) == {day} && ListPriceTradingDays(BarsOn(day, symbols)) == [day]
  {
    var rows := BarsOn(day, symbols);
    assert (day, symbols[0]) in rows;
    assert TradingDays(rows) == {day};
    AscendingUnique(ListPriceTradingDays(rows), [day]);
  }

  /** On the day itself each of these is settled; before it, nothing is. */
  lemma OutcomesAtZero(day: int, symbols: seq<string>, mode: Mode, e: Entry)
    requires symbols != [] && "" !in symbols && e.price == Some(10.0)
    ensures var o := OutcomeOf(BarsOn(day, symbols), mode, e, 0);
            && (e.day != day ==> o == Missing)
            && (e.day == day && e.symbol in symbols ==> o.Settled?)
  {
    OneDayCalendar(day, symbols);
    ExitDayIsNth(BarsOn(day, symbols), e.day, 0);
    ZerothDay([day], e.day);
  }

  lemma GapCounted(day: int, earlier: int, symbols: seq<string>, missed: string, mode: Mode)
    requires symbols != [] && "" !in symbols && earlier != day
    ensures MissingCount(Naive(BarsOn(day, symbols), mode), ScreenedOn(earlier, [missed]) + ScreenedOn(day, symbols), 0) == 1
  {
    var f, gap, rest := Naive(BarsOn(day, symbols), mode), ScreenedOn(earlier, [missed]), ScreenedOn(day, symbols);
    TallyAppend(f, gap, rest, 0);
    forall i | 0 <= i < |rest| ensures f(rest[i], 0).Settled? { OutcomesAtZero(day, symbols, mode, rest[i]); }
    AllSettled(f, rest, 0);
    OutcomesAtZero(day, symbols, mode, gap[0]);
    assert gap[..0] == [];
  }

  lemma JustZero()
    ensures NormalizeHorizons([0]) == Ok([0])
  {
    NormalizedExactly([0]);
    var h := SortedSet(set v | v in [0]);
    AscendingUnique(h, [0]);
    assert (set v | v in [0]) == {0};
  }

  /** One entry without an exit day, five or more with one, on a later day: no warning. */
  lemma NoWarningForOneGap(entries: seq<Entry>, day: int)
    requires |entries| >= 6 && (exists i :: 0 <= i < |entries| && entries[i].day == day)
    requires forall i :: 0 <= i < |entries| ==> entries[i].day <= day
    ensures CoverageWarning(entries, [day], [0], [1]) == None
  {
    var at :| 0 <= at < |entries| && entries[at].day == day;
    assert EntryDays(entries)[at] == day;
    assert MaxInt(EntryDays(entries)) == day && MaxInt([0]) == 0 && MaxInt([1]) == 1;
    ZerothDay([day], day);
    assert !(1.0 >= |entries| as real * 0.2);
  }

  /** A whole run in which that happens: five or more stocks screened and priced on one day, one
      stock screened on an earlier day without prices, horizon 0. The earlier entry has no exit
      and is counted as missing, and the response carries no warning at all. */
  lemma CoverageWarningMissesGapAtZero(q: Query, earlier: int, day: int, missed: string, symbols: seq<string>)
    requires earlier < day && |symbols| >= 5 && "" !in symbols
    requires q.horizons == [0] && ParseColumn(q.detailSort).Some? && q.detailOrder in {"asc", "desc"}
    ensures var rows := BarsOn(day, symbols);
            var entries := ScreenedOn(earlier, [missed]) + ScreenedOn(day, symbols);
            var r := Report(Naive(rows, q.mode), ListPriceTradingDays(rows), q, entries);
            && entries[0].day == earlier && NthTradingDay(ListPriceTradingDays(rows), earlier, 0) == None
            && r.Ok? && r.value.warning == None && r.value.summary[0].missing == 1
  {
    var rows, entries := BarsOn(day, symbols), ScreenedOn(earlier, [missed]) + ScreenedOn(day, symbols);
    OneDayCalendar(day, symbols);
    GapCounted(day, earlier, symbols, missed, q.mode);
    assert entries[1].day == day;
    NoWarningForOneGap(entries, day);
    ReportAtZero(Naive(rows, q.mode), [day], q, entries);
    ZerothDay([day], earlier);
  }

  lemma ReportAtZero(f: Outcomes, calendar: seq<int>, q: Query, entries: seq<Entry>)
    requires Ascending(calendar) && calendar != [] && entries != []
    requires q.horizons == [0] && ParseColumn(q.detailSort).Some? && q.detailOrder in {"asc", "desc"}
    ensures var r, missing := Report(f, calendar, q, entries), MissingCount(f, entries, 0);
            && r.Ok? && r.value.warning == CoverageWarning(entries, calendar, [0], [missing])
            && |r.value.summary| == 1 && r.value.summary[0].missing == missing
  {
    JustZero();
    assert MissingCounts(f, entries, [0]) == [MissingCount(f, entries, 0)];
    ReportParts(f, calendar, q, entries);
    assert Summaries(f, entries, [0])[0].missing == MissingCount(f, entries, 0);
  }

  /** Gaps are reported exactly when the prices reach far enough and some horizon misses at
      least a fifth of the entries; the count reported is the worst horizon's. */
  lemma GapWarningExact(f: Outcomes, entries: seq<Entry>, calendar: seq<int>, horizons: seq<int>, count: nat)
    requires entries != [] && calendar != [] && Ascending(calendar) && horizons != []
    ensures CoverageWarning(entries, calendar, horizons, MissingCounts(f, entries, horizons)) == Some(PricesMissing(count))
       <==> && NthTradingDay(calendar, MaxInt(EntryDays(entries)), MaxInt(horizons)).Some?
            && 5 * count >= |entries|
            && (exists j :: 0 <= j < |horizons| && MissingCount(f, entries, horizons[j]) == count)
            && (forall j :: 0 <= j < |horizons| ==> MissingCount(f, entries, horizons[j]) <= count)
  {
    GapWarningIsWorst(entries, calendar, horizons, MissingCounts(f, entries, horizons), count);
    WorstHorizon(f, entries, horizons, count);
  }

  lemma GapWarningIsWorst(entries: seq<Entry>, calendar: seq<int>, horizons: seq<int>, missing: seq<nat>, count: nat)
    requires entries != [] && calendar != [] && Ascending(calendar) && horizons != [] && missing != []
    ensures CoverageWarning(entries, calendar, horizons, missing) == Some(PricesMissing(count))
       <==> && NthTradingDay(calendar, MaxInt(EntryDays(entries)), MaxInt(horizons)).Some?
            && 5 * count >= |entries| && MaxInt(missing) == count
  {
    Fifth(MaxInt(missing), |entries|);
  }

  lemma Fifth(count: int, total: nat)
    ensures count as real >= total as real * 0.2 <==> 5 * count >= total
  {}

  lemma WorstHorizon(f: Outcomes, entries: seq<Entry>, horizons: seq<int>, count: nat)
    requires horizons != []
    ensures MaxInt(MissingCounts(f, entries, horizons)) == count
       <==> && (exists j :: 0 <= j < |horizons| && MissingCount(f, entries, horizons[j]) == count)
            && (forall j :: 0 <= j < |horizons| ==> MissingCount(f, entries, horizons[j]) <= count)
  {
    var missing := MissingCounts(f, entries, horizons);
    var at :| 0 <= at < |missing| && missing[at] == MaxInt(missing);
    assert forall j :: 0 <= j < |horizons| ==> missing[j] == MissingCount(f, entries, horizons[j]);
  }
}
