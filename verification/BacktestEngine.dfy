/**
 `run_backtest` (app/backtest.py): resolve each (day, horizon) once, load exactly the
 closes that will be looked up, then aggregate. It is proved to return the report of
 the naive definition.
*/
module BacktestEngine {
  import opened Wrappers
  import opened Ordering
  import opened AscendingSets
  import opened Calendar
  import opened PriceStore
  import opened Summary
  import opened Backtest

  type ExitDays = map<(int, int), int>

  type Prices = map<(string, int), real>

  // ----- First pass: exit days and the scatter of wanted closes -----

  /** The exit days of these screening days at these horizons, where the calendar reaches. */
  ghost predicate Resolved(exitDays: ExitDays, calendar: seq<int>, days: set<int>, horizons: seq<int>)
    requires Ascending(calendar)
  {
    && (forall d: int, n: int :: (d, n) in exitDays ==> NthTradingDay(calendar, d, n) == Some(exitDays[(d, n)]))
    && (forall d: int, j :: d in days && 0 <= j < |horizons| && (d, horizons[j]) !in exitDays
          ==> NthTradingDay(calendar, d, horizons[j]) == None)
  }

  method ResolveExitDays(calendar: seq<int>, days: set<int>, horizons: seq<int>) returns (exitDays: ExitDays)
    requires Ascending(calendar)
    ensures Resolved(exitDays, calendar, days, horizons)
  {
    exitDays := map[];
    var todo := days;
    while todo != {}
      invariant todo <= days
      invariant Resolved(exitDays, calendar, days - todo, horizons)
    {
      var day := Choose(todo);
      for j := 0 to |horizons|
        invariant Resolved(exitDays, calendar, days - todo, horizons)
        invariant forall i :: 0 <= i < j && (day, horizons[i]) !in exitDays
                    ==> NthTradingDay(calendar, day, horizons[i]) == None
      {
        var target := NthTradingDay(calendar, day, horizons[j]);
        if target.Some? {
          exitDays := exitDays[(day, horizons[j]) := target.value];
        }
      }
      assert forall d: int | d in days - (todo - {day}) :: d == day || d in days - todo;
      todo := todo - {day};
    }
    assert days - todo == days;
  }

  predicate Has(wanted: Wanted, day: int, symbol: string) {
    day in wanted && symbol in wanted[day]
  }

  /** `wanted.setdefault(day, set()).add(symbol)` */
  function Want(wanted: Wanted, day: int, symbol: string): Wanted {
    wanted[day := (if day in wanted then wanted[day] else {}) + {symbol}]
  }

  lemma WantAdds(wanted: Wanted, day: int, symbol: string)
    ensures forall d: int, s :: Has(Want(wanted, day, symbol), d, s) <==> Has(wanted, d, s) || (d == day && s == symbol)
  {}

  predicate UsesFallback(mode: Mode, e: Entry) {
    mode == CloseToClose && e.price.None?
  }

  predicate ExitsOn(exitDays: ExitDays, entryDay: int, n: int, day: int) {
    (entryDay, n) in exitDays && exitDays[(entryDay, n)] == day
  }

  predicate ExitsAmong(exitDays: ExitDays, entryDay: int, horizons: seq<int>, k: nat, day: int)
    requires k <= |horizons|
  {
    exists j :: 0 <= j < k && ExitsOn(exitDays, entryDay, horizons[j], day)
  }

  lemma ExitsAmongNext(exitDays: ExitDays, entryDay: int, horizons: seq<int>, k: nat, day: int)
    requires k < |horizons|
    ensures ExitsAmong(exitDays, entryDay, horizons, k + 1, day)
       <==> ExitsAmong(exitDays, entryDay, horizons, k, day) || ExitsOn(exitDays, entryDay, horizons[k], day)
  {}

  /** The main loop will look this close up for the entry. */
  predicate NeededBy(e: Entry, mode: Mode, horizons: seq<int>, exitDays: ExitDays, day: int, symbol: string) {
    && e.symbol == symbol
    && (|| (UsesFallback(mode, e) && e.day == day)
        || ExitsAmong(exitDays, e.day, horizons, |horizons|, day))
  }

  ghost predicate WantsAll(wanted: Wanted, entries: seq<Entry>, mode: Mode, horizons: seq<int>, exitDays: ExitDays) {
    forall i, d: int, s :: 0 <= i < |entries| && NeededBy(entries[i], mode, horizons, exitDays, d, s) ==> Has(wanted, d, s)
  }

  ghost predicate WantsOnly(wanted: Wanted, entries: seq<Entry>, mode: Mode, horizons: seq<int>, exitDays: ExitDays) {
    forall d: int, s :: Has(wanted, d, s) ==>
      exists i :: 0 <= i < |entries| && NeededBy(entries[i], mode, horizons, exitDays, d, s)
  }

  method WantEntry(e: Entry, mode: Mode, horizons: seq<int>, exitDays: ExitDays, wanted0: Wanted)
    returns (wanted: Wanted)
    ensures forall d: int, s :: Has(wanted, d, s) <==> Has(wanted0, d, s) || NeededBy(e, mode, horizons, exitDays, d, s)
  {
    wanted := wanted0;
    for j := 0 to |horizons|
      invariant forall d: int, s :: Has(wanted, d, s) <==>
        Has(wanted0, d, s) || (s == e.symbol && ExitsAmong(exitDays, e.day, horizons, j, d))
    {
      forall d: int { ExitsAmongNext(exitDays, e.day, horizons, j, d); }
      if (e.day, horizons[j]) in exitDays {
        WantAdds(wanted, exitDays[(e.day, horizons[j])], e.symbol);
        wanted := Want(wanted, exitDays[(e.day, horizons[j])], e.symbol);
      }
    }
    if UsesFallback(mode, e) {
      WantAdds(wanted, e.day, e.symbol);
      wanted := Want(wanted, e.day, e.symbol);
    }
  }

  method BuildWanted(entries: seq<Entry>, mode: Mode, horizons: seq<int>, exitDays: ExitDays) returns (wanted: Wanted)
    ensures WantsAll(wanted, entries, mode, horizons, exitDays)
    ensures WantsOnly(wanted, entries, mode, horizons, exitDays)
  {
    wanted := map[];
    for k := 0 to |entries|
      invariant WantsAll(wanted, entries[..k], mode, horizons, exitDays)
      invariant WantsOnly(wanted, entries, mode, horizons, exitDays)
    {
      wanted := WantEntry(entries[k], mode, horizons, exitDays, wanted);
    }
    assert entries[..|entries|] == entries;
  }

  // ----- Second pass: look-ups -----

  function Lookup(prices: Prices, symbol: string, day: int): Option<real> {
    if (symbol, day) in prices then Some(prices[(symbol, day)]) else None
  }

  function LookupEntryPrice(prices: Prices, mode: Mode, e: Entry): Option<real> {
    if e.price.None? && mode == CloseToClose then Lookup(prices, e.symbol, e.day) else e.price
  }

  function OutcomeAt(exitDays: ExitDays, prices: Prices, e: Entry, entryPrice: PositiveReal, n: int): Outcome {
    if (e.day, n) !in exitDays then Missing
    else
      match Lookup(prices, e.symbol, exitDays[(e.day, n)])
      case None => Missing
      case Some(exitPrice) => Settled(entryPrice, exitDays[(e.day, n)], exitPrice)
  }

  /** What the main loop makes of one entry at one horizon. */
  function LookupOutcome(exitDays: ExitDays, prices: Prices, mode: Mode, e: Entry, n: int): Outcome {
    var entryPrice := LookupEntryPrice(prices, mode, e);
    if entryPrice.None? || entryPrice.value <= 0.0 then Missing
    else OutcomeAt(exitDays, prices, e, entryPrice.value, n)
  }

  function ByLookup(exitDays: ExitDays, prices: Prices, mode: Mode): Outcomes {
    (e, n) => LookupOutcome(exitDays, prices, mode, e, n)
  }

  lemma ExitDayIsNth(rows: Rows, day: int, n: int)
    ensures ExitDayOf(TradingDays(rows), day, n) == NthTradingDay(ListPriceTradingDays(rows), day, n)
  {
    var calendar := ListPriceTradingDays(rows);
    assert Days(calendar) == TradingDays(rows);
    match NthTradingDay(calendar, day, n)
    case Some(d) =>
      NthTradingDayCounts(calendar, day, n, d);
      assert IsNthDay(TradingDays(rows), day, n, d);
      var e := ExitDayOf(TradingDays(rows), day, n).value;
      NthDayUnique(TradingDays(rows), day, n, d, e);
    case None =>
      forall d: int ensures !IsNthDay(TradingDays(rows), day, n, d) {
        NthTradingDayCounts(calendar, day, n, d);
      }
  }

  /** A close that the main loop looks up was loaded if the table has it. */
  lemma LoadedIfNeeded(rows: Rows, wanted: Wanted, prices: Prices, day: int, symbol: string)
    requires Answers(rows, Pairs(wanted), prices)
    requires Has(wanted, day, symbol)
    ensures Lookup(prices, symbol, day) == PriceOf(rows, day, symbol)
  {
    PairOfWanted(wanted, day, symbol);
  }

  /** The key step: every look-up of the second pass was wanted in the first, so that the
      two passes together agree with the naive definition. */
  lemma LookupIsNaive(rows: Rows, entries: seq<Entry>, mode: Mode, horizons: seq<int>,
                      exitDays: ExitDays, wanted: Wanted, prices: Prices, i: nat, j: nat)
    requires i < |entries| && j < |horizons|
    requires Resolved(exitDays, ListPriceTradingDays(rows), ScreeningDays(entries), horizons)
    requires WantsAll(wanted, entries, mode, horizons, exitDays)
    requires Answers(rows, Pairs(wanted), prices)
    ensures LookupOutcome(exitDays, prices, mode, entries[i], horizons[j])
         == OutcomeOf(rows, mode, entries[i], horizons[j])
  {
    var e, n := entries[i], horizons[j];
    assert e.day in ScreeningDays(entries);
    ExitDayIsNth(rows, e.day, n);
    if UsesFallback(mode, e) {
      assert NeededBy(e, mode, horizons, exitDays, e.day, e.symbol);
      LoadedIfNeeded(rows, wanted, prices, e.day, e.symbol);
    }
    if (e.day, n) in exitDays {
      var exitDay := exitDays[(e.day, n)];
      assert ExitsOn(exitDays, e.day, horizons[j], exitDay);
      assert NeededBy(e, mode, horizons, exitDays, exitDay, e.symbol);
      LoadedIfNeeded(rows, wanted, prices, exitDay, e.symbol);
    }
  }

  // ----- Second pass: aggregation -----

  /** One horizon's tally: the returns so far and the number of missing entries. */
  datatype Tallies = Tallies(pcts: seq<real>, missing: nat)

  function Plus(t: Tallies, o: Outcome): Tallies {
    Tallies(t.pcts + PctPart(o), t.missing + MissingPart(o))
  }

  /** What the entries contribute, horizon by horizon. */
  function TalliesOf(f: Outcomes, entries: seq<Entry>, horizons: seq<int>): seq<Tallies> {
    seq(|horizons|, i requires 0 <= i < |horizons| =>
      Tallies(Pcts(f, entries, horizons[i]), MissingCount(f, entries, horizons[i])))
  }

  ghost predicate HoldsAt(n: int, t: Tallies, pcts: map<int, seq<real>>, missing: map<int, nat>) {
    n in pcts && pcts[n] == t.pcts && n in missing && missing[n] == t.missing
  }

  /** The dictionaries `returns` and `missing` hold these tallies. */
  ghost predicate Hold(horizons: seq<int>, t: seq<Tallies>, pcts: map<int, seq<real>>, missing: map<int, nat>) {
    && |t| == |horizons|
    && forall j :: 0 <= j < |horizons| ==> HoldsAt(horizons[j], t[j], pcts, missing)
  }

  lemma TallySnoc(f: Outcomes, entries: seq<Entry>, e: Entry, n: int)
    ensures Pcts(f, entries + [e], n) == Pcts(f, entries, n) + PctPart(f(e, n))
    ensures MissingCount(f, entries + [e], n) == MissingCount(f, entries, n) + MissingPart(f(e, n))
    ensures DetailRows(f, entries + [e], n) == DetailRows(f, entries, n) + RowPart(e, f(e, n))
  {
    assert (entries + [e])[..|entries|] == entries;
  }

  lemma TalliesSnoc(f: Outcomes, entries: seq<Entry>, e: Entry, horizons: seq<int>)
    ensures forall j :: 0 <= j < |horizons| ==>
              TalliesOf(f, entries + [e], horizons)[j] == Plus(TalliesOf(f, entries, horizons)[j], f(e, horizons[j]))
  {
    forall j | 0 <= j < |horizons|
      ensures TalliesOf(f, entries + [e], horizons)[j] == Plus(TalliesOf(f, entries, horizons)[j], f(e, horizons[j]))
    {
      TallySnoc(f, entries, e, horizons[j]);
    }
  }

  /** An entry without a usable price is missing at every horizon. */
  method MissAll(horizons: seq<int>, ghost before: seq<Tallies>, ghost pcts: map<int, seq<real>>, missing0: map<int, nat>)
    returns (missing: map<int, nat>)
    requires Ascending(horizons) && Hold(horizons, before, pcts, missing0)
    ensures Hold(horizons, seq(|before|, j requires 0 <= j < |before| => Plus(before[j], Missing)), pcts, missing)
  {
    missing := missing0;
    for k := 0 to |horizons|
      invariant forall j :: 0 <= j < k ==> HoldsAt(horizons[j], Plus(before[j], Missing), pcts, missing)
      invariant forall j :: k <= j < |horizons| ==> HoldsAt(horizons[j], before[j], pcts, missing)
    {
      assert HoldsAt(horizons[k], before[k], pcts, missing);
      missing := missing[horizons[k] := missing[horizons[k]] + 1];
    }
  }

  /** An entry bought at `entryPrice`, horizon by horizon; `at` is the detailed horizon's position. */
  method SettleAll(e: Entry, entryPrice: PositiveReal, horizons: seq<int>, exitDays: ExitDays, prices: Prices,
                   detailN: int, ghost f: Outcomes, ghost at: nat, ghost before: seq<Tallies>,
                   pcts0: map<int, seq<real>>, missing0: map<int, nat>)
    returns (pcts: map<int, seq<real>>, missing: map<int, nat>, rows: seq<DetailRow>)
    requires forall n :: f(e, n) == OutcomeAt(exitDays, prices, e, entryPrice, n)
    requires Ascending(horizons) && at < |horizons| && horizons[at] == detailN
    requires Hold(horizons, before, pcts0, missing0)
    ensures forall j :: 0 <= j < |horizons| ==> HoldsAt(horizons[j], Plus(before[j], f(e, horizons[j])), pcts, missing)
    ensures rows == RowPart(e, f(e, detailN))
  {
    pcts, missing, rows := pcts0, missing0, [];
    for k := 0 to |horizons|
      invariant forall j :: 0 <= j < k ==> HoldsAt(horizons[j], Plus(before[j], f(e, horizons[j])), pcts, missing)
      invariant forall j :: k <= j < |horizons| ==> HoldsAt(horizons[j], before[j], pcts, missing)
      invariant rows == if at < k then RowPart(e, f(e, detailN)) else []
    {
      var n := horizons[k];
      assert HoldsAt(n, before[k], pcts, missing);
      var exitPrice := if (e.day, n) in exitDays then Lookup(prices, e.symbol, exitDays[(e.day, n)]) else None;
      if exitPrice.None? {
        missing := missing[n := missing[n] + 1];
      } else {
        var outcome := Settled(entryPrice, exitDays[(e.day, n)], exitPrice.value);
        pcts := pcts[n := pcts[n] + [PctOf(outcome)]];
        if n == detailN {
          rows := rows + [RowOf(e, outcome)];
        }
      }
      assert HoldsAt(n, Plus(before[k], f(e, n)), pcts, missing);
    }
  }

  /** One turn of the main loop. */
  method TallyEntry(ghost f: Outcomes, ghost before: seq<Entry>, e: Entry, mode: Mode, horizons: seq<int>,
                    exitDays: ExitDays, prices: Prices, detailN: int, ghost at: nat,
                    pcts0: map<int, seq<real>>, missing0: map<int, nat>)
    returns (pcts: map<int, seq<real>>, missing: map<int, nat>, rows: seq<DetailRow>)
    requires f == ByLookup(exitDays, prices, mode)
    requires Ascending(horizons) && at < |horizons| && horizons[at] == detailN
    requires Hold(horizons, TalliesOf(f, before, horizons), pcts0, missing0)
    ensures Hold(horizons, TalliesOf(f, before + [e], horizons), pcts, missing)
    ensures rows == RowPart(e, f(e, detailN))
  {
    TalliesSnoc(f, before, e, horizons);
    var entryPrice := e.price;
    if entryPrice.None? && mode == CloseToClose {
      entryPrice := Lookup(prices, e.symbol, e.day);
    }
    if entryPrice.None? || entryPrice.value <= 0.0 {
      pcts, rows := pcts0, [];
      missing := MissAll(horizons, TalliesOf(f, before, horizons), pcts, missing0);
    } else {
      pcts, missing, rows := SettleAll(e, entryPrice.value, horizons, exitDays, prices, detailN, f, at,
                                       TalliesOf(f, before, horizons), pcts0, missing0);
    }
  }

  /** `{n: v for n in horizons}` */
  function Filled<V>(horizons: seq<int>, v: V): (m: map<int, V>)
    ensures forall j :: 0 <= j < |horizons| ==> horizons[j] in m && m[horizons[j]] == v
  {
    map j | 0 <= j < |horizons| :: horizons[j] := v
  }

  /** The tally and the detail after one more entry. */
  lemma TallyPrefix(f: Outcomes, entries: seq<Entry>, i: nat, n: int)
    requires i < |entries|
    ensures entries[..i + 1] == entries[..i] + [entries[i]]
    ensures DetailRows(f, entries[..i + 1], n) == DetailRows(f, entries[..i], n) + RowPart(entries[i], f(entries[i], n))
  {
    assert entries[..i + 1] == entries[..i] + [entries[i]];
    TallySnoc(f, entries[..i], entries[i], n);
  }

  method Tally(entries: seq<Entry>, mode: Mode, horizons: seq<int>, exitDays: ExitDays, prices: Prices,
               detailN: int, ghost at: nat)
    returns (pcts: map<int, seq<real>>, missing: map<int, nat>, detail: seq<DetailRow>)
    requires Ascending(horizons) && at < |horizons| && horizons[at] == detailN
    ensures Hold(horizons, TalliesOf(ByLookup(exitDays, prices, mode), entries, horizons), pcts, missing)
    ensures detail == DetailRows(ByLookup(exitDays, prices, mode), entries, detailN)
  {
    ghost var f := ByLookup(exitDays, prices, mode);
    pcts, missing, detail := Filled(horizons, []), Filled(horizons, 0), [];
    for i := 0 to |entries|
      invariant Hold(horizons, TalliesOf(f, entries[..i], horizons), pcts, missing)
      invariant detail == DetailRows(f, entries[..i], detailN)
    {
      var rows;
      pcts, missing, rows :=
        TallyEntry(f, entries[..i], entries[i], mode, horizons, exitDays, prices, detailN, at, pcts, missing);
      detail := detail + rows;
      TallyPrefix(f, entries, i, detailN);
    }
    assert entries[..|entries|] == entries;
  }

  lemma {:induction false} SameAggregates(f: Outcomes, g: Outcomes, entries: seq<Entry>, n: int)
    requires forall i :: 0 <= i < |entries| ==> f(entries[i], n) == g(entries[i], n)
    ensures Pcts(f, entries, n) == Pcts(g, entries, n)
    ensures MissingCount(f, entries, n) == MissingCount(g, entries, n)
    ensures DetailRows(f, entries, n) == DetailRows(g, entries, n)
  {
    if entries != [] {
      var k := |entries| - 1;
      SameAggregates(f, g, entries[..k], n);
    }
  }

  /** Without any entry or any price every outcome is missing. */
  lemma {:induction false} NoPricesNothingSettled(rows: Rows, mode: Mode, entries: seq<Entry>, n: int)
    requires entries == [] || ListPriceTradingDays(rows) == []
    ensures Pcts(Naive(rows, mode), entries, n) == []
    ensures MissingCount(Naive(rows, mode), entries, n) == |entries|
    ensures DetailRows(Naive(rows, mode), entries, n) == []
  {
    if entries != [] {
      var k := |entries| - 1;
      ExitDayIsNth(rows, entries[k].day, n);
      NoPricesNothingSettled(rows, mode, entries[..k], n);
    }
  }

  lemma ChosenPosition(detailN: Option<int>, horizons: seq<int>) returns (at: nat)
    requires horizons != []
    ensures at < |horizons| && horizons[at] == ChooseDetail(detailN, horizons)
  {
    if detailN.None? || detailN.value !in horizons {
      at := 0;
    } else {
      at :| 0 <= at < |horizons| && horizons[at] == detailN.value;
    }
  }

  /** The second pass read through look-ups aggregates like the naive definition. */
  lemma LookupAggregates(rows: Rows, entries: seq<Entry>, mode: Mode, horizons: seq<int>,
                         exitDays: ExitDays, wanted: Wanted, prices: Prices, j: nat)
    requires j < |horizons|
    requires Resolved(exitDays, ListPriceTradingDays(rows), ScreeningDays(entries), horizons)
    requires WantsAll(wanted, entries, mode, horizons, exitDays)
    requires Answers(rows, Pairs(wanted), prices)
    ensures Pcts(ByLookup(exitDays, prices, mode), entries, horizons[j]) == Pcts(Naive(rows, mode), entries, horizons[j])
    ensures MissingCount(ByLookup(exitDays, prices, mode), entries, horizons[j])
         == MissingCount(Naive(rows, mode), entries, horizons[j])
    ensures DetailRows(ByLookup(exitDays, prices, mode), entries, horizons[j])
         == DetailRows(Naive(rows, mode), entries, horizons[j])
  {
    var f, g := ByLookup(exitDays, prices, mode), Naive(rows, mode);
    forall i | 0 <= i < |entries| ensures f(entries[i], horizons[j]) == g(entries[i], horizons[j]) {
      LookupIsNaive(rows, entries, mode, horizons, exitDays, wanted, prices, i, j);
    }
    SameAggregates(f, g, entries, horizons[j]);
  }

  /** Both passes over a non-empty calendar: the tallies and the unsorted detail. */
  method TwoPasses(table: PriceTable, entries: seq<Entry>, mode: Mode, calendar: seq<int>, horizons: seq<int>,
                   detailN: int, ghost at: nat)
    returns (pcts: map<int, seq<real>>, missing: map<int, nat>, detail: seq<DetailRow>)
    requires calendar == ListPriceTradingDays(table.rows)
    requires Ascending(horizons) && at < |horizons| && horizons[at] == detailN
    ensures Hold(horizons, TalliesOf(Naive(table.rows, mode), entries, horizons), pcts, missing)
    ensures detail == DetailRows(Naive(table.rows, mode), entries, detailN)
  {
    var exitDays := ResolveExitDays(calendar, ScreeningDays(entries), horizons);
    var wanted := BuildWanted(entries, mode, horizons, exitDays);
    var prices, _ := table.LoadClosePrices(wanted, SYMBOL_CHUNK);
    pcts, missing, detail := Tally(entries, mode, horizons, exitDays, prices, detailN, at);
    forall j | 0 <= j < |horizons|
      ensures TalliesOf(ByLookup(exitDays, prices, mode), entries, horizons)[j]
           == TalliesOf(Naive(table.rows, mode), entries, horizons)[j]
    {
      LookupAggregates(table.rows, entries, mode, horizons, exitDays, wanted, prices, j);
    }
    LookupAggregates(table.rows, entries, mode, horizons, exitDays, wanted, prices, at);
  }

  function StatsFrom(horizons: seq<int>, pcts: map<int, seq<real>>, missing: map<int, nat>): seq<HorizonStat>
    requires forall i :: 0 <= i < |horizons| ==> horizons[i] in pcts && horizons[i] in missing
  {
    seq(|horizons|, i requires 0 <= i < |horizons| =>
      Summarize(horizons[i], pcts[horizons[i]], missing[horizons[i]]))
  }

  function CountsFrom(horizons: seq<int>, missing: map<int, nat>): seq<nat>
    requires forall i :: 0 <= i < |horizons| ==> horizons[i] in missing
  {
    seq(|horizons|, i requires 0 <= i < |horizons| => missing[horizons[i]])
  }

  lemma HeldFigures(f: Outcomes, entries: seq<Entry>, horizons: seq<int>, pcts: map<int, seq<real>>, missing: map<int, nat>)
    requires Hold(horizons, TalliesOf(f, entries, horizons), pcts, missing)
    ensures forall i :: 0 <= i < |horizons| ==> horizons[i] in pcts && horizons[i] in missing
    ensures Summaries(f, entries, horizons) == StatsFrom(horizons, pcts, missing)
    ensures MissingCounts(f, entries, horizons) == CountsFrom(horizons, missing)
  {
    forall i | 0 <= i < |horizons| ensures HoldsAt(horizons[i], TalliesOf(f, entries, horizons)[i], pcts, missing) {}
  }

  function AllMissing(horizons: seq<int>, entries: nat): seq<HorizonStat> {
    seq(|horizons|, i requires 0 <= i < |horizons| => Summarize(horizons[i], [], entries))
  }

  /** The early answer, when there is no entry or no price at all. */
  lemma EarlyAnswer(rows: Rows, mode: Mode, entries: seq<Entry>, horizons: seq<int>, n: int, column: Column, order: string)
    requires entries == [] || ListPriceTradingDays(rows) == []
    ensures Summaries(Naive(rows, mode), entries, horizons)
         == AllMissing(horizons, |entries|)
    ensures SortedDetail(Naive(rows, mode), entries, n, column, order) == []
  {
    forall h { NoPricesNothingSettled(rows, mode, entries, h); }
  }

  /** The run itself, once the query was accepted. */
  method RunValidated(table: PriceTable, entries: seq<Entry>, q: Query, horizons: seq<int>, column: Column)
    returns (r: Response)
    requires horizons != [] && Ascending(horizons)
    ensures var n := ChooseDetail(q.detailN, horizons);
            var naive := Naive(table.rows, q.mode);
            r == Respond(q, horizons, entries, n, Summaries(naive, entries, horizons),
                         SortedDetail(naive, entries, n, column, q.detailOrder),
                         WarningFor(naive, entries, ListPriceTradingDays(table.rows), horizons))
  {
    var detailN := ChooseDetail(q.detailN, horizons);
    var calendar := ListPriceTradingDays(table.rows);
    if entries == [] || calendar == [] {
      EarlyAnswer(table.rows, q.mode, entries, horizons, detailN, column, q.detailOrder);
      return Respond(q, horizons, entries, detailN, AllMissing(horizons, |entries|), [],
                     Some(if entries == [] then NoEntries else NoPrices));
    }
    ghost var at := ChosenPosition(q.detailN, horizons);
    var pcts, missing, detail := TwoPasses(table, entries, q.mode, calendar, horizons, detailN, at);
    HeldFigures(Naive(table.rows, q.mode), entries, horizons, pcts, missing);
    detail := ListSort(RowLe(column), q.detailOrder == "desc", detail);
    var warning := CoverageWarning(entries, calendar, horizons, CountsFrom(horizons, missing));
    r := Respond(q, horizons, entries, detailN, StatsFrom(horizons, pcts, missing), detail, warning);
  }

  /** The backtest, over the table's prices and the screened entries of the period. */
  method RunBacktest(table: PriceTable, entries: seq<Entry>, q: Query) returns (r: Result<Response, Error>)
    ensures r == Report(Naive(table.rows, q.mode), ListPriceTradingDays(table.rows), q, entries)
  {
    var column := ParseColumn(q.detailSort);
    if column.None? {
      return Err(UnknownColumn);
    }
    if q.detailOrder != "asc" && q.detailOrder != "desc" {
      return Err(UnknownOrder);
    }
    var normalized := NormalizeHorizons(q.horizons);
    if normalized.Err? {
      return Err(normalized.error);
    }
    var response := RunValidated(table, entries, q, normalized.value, column.value);
    r := Ok(response);
  }
}
