/**
 The forward-return backtest (app/backtest.py): its data, its pure helpers, and what
 a run means, stated entry by entry from the price table alone.
*/
module Backtest {
  import opened Wrappers
  import opened Ordering
  import opened AscendingSets
  import opened Calendar
  import opened PriceStore
  import opened Summary

  const MAX_HORIZON := 120
  const MAX_HORIZONS := 16

  datatype Mode = IntradayToClose | CloseToClose

  /** A stock that a day's screening selected. */
  datatype Entry = Entry(day: int, symbol: string, name: string, market: string, marketCode: string,
                         price: Option<real>)

  datatype DetailRow = DetailRow(tradeDate: int, symbol: string, name: string, market: string,
                                 marketCode: string, entryPrice: real, exitDate: int, exitPrice: real,
                                 change: real, returnPct: real)

  datatype Warning =
    | NoEntries
    | NoPrices
    | PricesEndTooSoon(lastDay: int, horizon: int)
    | PricesMissing(count: nat)

  datatype Response = Response(mode: Mode, horizons: seq<int>, entries: nat, tradingDays: nat,
                               summary: seq<HorizonStat>, detailN: int, detailTotal: nat,
                               detailSort: string, detailOrder: string,
                               detail: seq<DetailRow>, warning: Option<Warning>)

  /** The reasons for which a request is refused. */
  datatype Error = UnknownColumn | UnknownOrder | NoHorizon | NegativeHorizon | HorizonTooLarge | TooManyHorizons

  // ----- Horizons -----

  function NormalizeHorizons(values: seq<int>): Result<seq<int>, Error> {
    var cleaned := SortedSet(set v | v in values);
    if cleaned == [] then Err(NoHorizon)
    else if exists i :: 0 <= i < |cleaned| && cleaned[i] < 0 then Err(NegativeHorizon)
    else if exists i :: 0 <= i < |cleaned| && cleaned[i] > MAX_HORIZON then Err(HorizonTooLarge)
    else if |cleaned| > MAX_HORIZONS then Err(TooManyHorizons)
    else Ok(cleaned)
  }

  /** Accepted exactly when there is a horizon, all lie in 0..120 and at most 16 differ;
      the result holds the same horizons, ascending and without repetition. Otherwise a
      missing horizon is reported first, then a negative one, one too large, too many. */
  lemma NormalizedExactly(values: seq<int>)
    ensures NormalizeHorizons(values).Ok? ==>
              var h := NormalizeHorizons(values).value;
              && h != [] && Ascending(h) && (forall v :: v in h <==> v in values)
              && forall i :: 0 <= i < |h| ==> 0 <= h[i] <= MAX_HORIZON
    ensures var r := NormalizeHorizons(values);
            if values == [] then r == Err(NoHorizon)
            else if exists i :: 0 <= i < |values| && values[i] < 0 then r == Err(NegativeHorizon)
            else if exists i :: 0 <= i < |values| && values[i] > MAX_HORIZON then r == Err(HorizonTooLarge)
            else if |set v | v in values| > MAX_HORIZONS then r == Err(TooManyHorizons)
            else r.Ok?
  {
    var cleaned := SortedSet(set v | v in values);
    FirstIsMember(values);
    FirstIsMember(cleaned);
    OutOfRange(cleaned, values);
    OutOfRange(values, cleaned);
  }

  /** An element out of range is one in every list with the same elements. */
  lemma OutOfRange(a: seq<int>, b: seq<int>)
    requires forall v :: v in a ==> v in b
    ensures (exists i :: 0 <= i < |a| && a[i] < 0) ==> exists j :: 0 <= j < |b| && b[j] < 0
    ensures (exists i :: 0 <= i < |a| && a[i] > MAX_HORIZON) ==> exists j :: 0 <= j < |b| && b[j] > MAX_HORIZON
  {
    if i :| 0 <= i < |a| && a[i] < 0 {
      assert a[i] in b;
      var j :| 0 <= j < |b| && b[j] == a[i];
    }
    if i :| 0 <= i < |a| && a[i] > MAX_HORIZON {
      assert a[i] in b;
      var j :| 0 <= j < |b| && b[j] == a[i];
    }
  }

  function ChooseDetail(detailN: Option<int>, horizons: seq<int>): int
    requires horizons != []
  {
    if detailN.None? || detailN.value !in horizons then horizons[0] else detailN.value
  }

  // ----- The order of the detail rows -----

  datatype Column = TradeDate | Symbol | EntryPrice | ExitDate | ExitPrice | Change | ReturnPct

  function ParseColumn(name: string): Option<Column> {
    if name == "trade_date" then Some(TradeDate)
    else if name == "symbol" then Some(Symbol)
    else if name == "entry_price" then Some(EntryPrice)
    else if name == "exit_date" then Some(ExitDate)
    else if name == "exit_price" then Some(ExitPrice)
    else if name == "change" then Some(Change)
    else if name == "return_pct" then Some(ReturnPct)
    else None
  }

  datatype Cell = Day(day: int) | Num(num: real) | Text(text: string)

  /** Strictly before; cells of different kinds never meet in one position of a key. */
  predicate CellLt(a: Cell, b: Cell) {
    match (a, b)
    case (Day(x), Day(y)) => x < y
    case (Num(x), Num(y)) => x < y
    case (Text(x), Text(y)) => !StringLe(y, x)
    case (Day(_), _) => true
    case (Num(_), Text(_)) => true
    case _ => false
  }

  /** The sort key of a row: the chosen column, then the screening day and the symbol. */
  function DetailKey(column: Column, r: DetailRow): seq<Cell> {
    match column
    case TradeDate => [Day(r.tradeDate), Text(r.symbol)]
    case Symbol => [Text(r.symbol), Day(r.tradeDate)]
    case ExitDate => [Day(r.exitDate), Day(r.tradeDate), Text(r.symbol)]
    case EntryPrice => [Num(r.entryPrice), Day(r.tradeDate), Text(r.symbol)]
    case ExitPrice => [Num(r.exitPrice), Day(r.tradeDate), Text(r.symbol)]
    case Change => [Num(r.change), Day(r.tradeDate), Text(r.symbol)]
    case ReturnPct => [Num(r.returnPct), Day(r.tradeDate), Text(r.symbol)]
  }

  function RowLe(column: Column): (DetailRow, DetailRow) -> bool {
    (a, b) => Lex(CellLt, DetailKey(column, a), DetailKey(column, b))
  }

  lemma CellLtIsStrictTotal()
    ensures StrictTotalOrder(CellLt)
  {
    StringLeIsTotalOrder();
  }

  lemma RowLePreorder(column: Column)
    ensures TotalPreorder(RowLe(column))
  {
    CellLtIsStrictTotal();
    forall a, b ensures RowLe(column)(a, b) || RowLe(column)(b, a) {
      LexTotal(CellLt, DetailKey(column, a), DetailKey(column, b));
    }
    forall a, b, c | RowLe(column)(a, b) && RowLe(column)(b, c) ensures RowLe(column)(a, c) {
      LexTransitive(CellLt, DetailKey(column, a), DetailKey(column, b), DetailKey(column, c));
    }
  }

  function Truncate<T>(s: seq<T>, limit: int): seq<T> {
    if 0 <= limit < |s| then s[..limit] else s
  }

  // ----- Outcomes -----

  type PositiveReal = x: real | x > 0.0 witness 1.0

  /** `Missing`: no usable entry price, no exit day yet, or no close on it. */
  datatype Outcome = Missing | Settled(entryPrice: PositiveReal, exitDay: int, exitPrice: real)

  function PctOf(o: Outcome): real
    requires o.Settled?
  {
    (o.exitPrice - o.entryPrice) / o.entryPrice * 100.0
  }

  function RowOf(e: Entry, o: Outcome): DetailRow
    requires o.Settled?
  {
    DetailRow(e.day, e.symbol, e.name, e.market, e.marketCode, Round4(o.entryPrice), o.exitDay,
              Round4(o.exitPrice), Round4(o.exitPrice - o.entryPrice), Round4(PctOf(o)))
  }

  /** How each entry turned out at each horizon. */
  type Outcomes = (Entry, int) -> Outcome

  /** What one entry contributes at one horizon. */
  function PctPart(o: Outcome): seq<real> { if o.Settled? then [PctOf(o)] else [] }

  function MissingPart(o: Outcome): nat { if o.Settled? then 0 else 1 }

  function RowPart(e: Entry, o: Outcome): seq<DetailRow> { if o.Settled? then [RowOf(e, o)] else [] }

  function Pcts(f: Outcomes, entries: seq<Entry>, n: int): seq<real> {
    if entries == [] then []
    else
      var k := |entries| - 1;
      Pcts(f, entries[..k], n) + PctPart(f(entries[k], n))
  }

  function MissingCount(f: Outcomes, entries: seq<Entry>, n: int): nat {
    if entries == [] then 0
    else
      var k := |entries| - 1;
      MissingCount(f, entries[..k], n) + MissingPart(f(entries[k], n))
  }

  function DetailRows(f: Outcomes, entries: seq<Entry>, n: int): seq<DetailRow> {
    if entries == [] then []
    else
      var k := |entries| - 1;
      DetailRows(f, entries[..k], n) + RowPart(entries[k], f(entries[k], n))
  }

  // ----- The naive definition: find the n-th trading day by counting, look up the close -----

  /** The table's close; the empty symbol has none. */
  function PriceOf(rows: Rows, day: int, symbol: string): Option<real> {
    if symbol != "" && (day, symbol) in rows then Some(rows[(day, symbol)].close) else None
  }

  function EntryPriceOf(rows: Rows, mode: Mode, e: Entry): Option<real> {
    if e.price.Some? then e.price
    else if mode == CloseToClose then PriceOf(rows, e.day, e.symbol)
    else None
  }

  ghost function ExitDayOf(days: set<int>, day: int, n: int): Option<int> {
    if d: int :| IsNthDay(days, day, n, d) then Some(d) else None
  }

  ghost function OutcomeOf(rows: Rows, mode: Mode, e: Entry, n: int): Outcome {
    var entryPrice := EntryPriceOf(rows, mode, e);
    var exitDay := ExitDayOf(TradingDays(rows), e.day, n);
    if entryPrice.None? || entryPrice.value <= 0.0 || exitDay.None? then Missing
    else
      match PriceOf(rows, exitDay.value, e.symbol)
      case None => Missing
      case Some(exitPrice) => Settled(entryPrice.value, exitDay.value, exitPrice)
  }

  ghost function Naive(rows: Rows, mode: Mode): Outcomes {
    (e, n) => OutcomeOf(rows, mode, e, n)
  }

  // ----- The coverage warning -----

  function MaxInt(s: seq<int>): (m: int)
    requires s != []
    ensures exists i :: 0 <= i < |s| && s[i] == m
    ensures forall i :: 0 <= i < |s| ==> s[i] <= m
  {
    Greatest(IntLe, s)
  }

  function EntryDays(entries: seq<Entry>): seq<int> {
    seq(|entries|, i requires 0 <= i < |entries| => entries[i].day)
  }

  function ScreeningDays(entries: seq<Entry>): set<int> {
    set i | 0 <= i < |entries| :: entries[i].day
  }

  /** Prices that stop too early are reported first; gaps only when they lose a fifth of
      the entries or more at some horizon. */
  function CoverageWarning(entries: seq<Entry>, calendar: seq<int>, horizons: seq<int>, missing: seq<nat>)
    : Option<Warning>
    requires entries != [] && calendar != [] && Ascending(calendar) && horizons != []
  {
    var biggest := MaxInt(horizons);
    if NthTradingDay(calendar, MaxInt(EntryDays(entries)), biggest).None? then
      Some(PricesEndTooSoon(calendar[|calendar| - 1], biggest))
    else
      var worst: int := if missing == [] then 0 else MaxInt(missing);
      if worst > 0 && worst as real >= |entries| as real * 0.2 then Some(PricesMissing(worst)) else None
  }

  // ----- A whole run -----

  datatype Query = Query(mode: Mode, horizons: seq<int>, detailN: Option<int>, detailLimit: int,
                         detailSort: string, detailOrder: string)

  function Validate(q: Query): Result<seq<int>, Error> {
    if ParseColumn(q.detailSort).None? then Err(UnknownColumn)
    else if q.detailOrder != "asc" && q.detailOrder != "desc" then Err(UnknownOrder)
    else NormalizeHorizons(q.horizons)
  }

  function Summaries(f: Outcomes, entries: seq<Entry>, horizons: seq<int>): seq<HorizonStat> {
    seq(|horizons|, i requires 0 <= i < |horizons| =>
      Summarize(horizons[i], Pcts(f, entries, horizons[i]), MissingCount(f, entries, horizons[i])))
  }

  function MissingCounts(f: Outcomes, entries: seq<Entry>, horizons: seq<int>): seq<nat> {
    seq(|horizons|, i requires 0 <= i < |horizons| => MissingCount(f, entries, horizons[i]))
  }

  /** The whole list of settled trades in the requested order. */
  function SortedDetail(f: Outcomes, entries: seq<Entry>, n: int, column: Column, order: string): seq<DetailRow> {
    ListSort(RowLe(column), order == "desc", DetailRows(f, entries, n))
  }

  function WarningFor(f: Outcomes, entries: seq<Entry>, calendar: seq<int>, horizons: seq<int>): Option<Warning>
    requires Ascending(calendar) && horizons != []
  {
    if entries == [] then Some(NoEntries)
    else if calendar == [] then Some(NoPrices)
    else CoverageWarning(entries, calendar, horizons, MissingCounts(f, entries, horizons))
  }

  function Respond(q: Query, horizons: seq<int>, entries: seq<Entry>, detailN: int, summary: seq<HorizonStat>,
                   sorted: seq<DetailRow>, warning: Option<Warning>): Response
  {
    Response(q.mode, horizons, |entries|, |ScreeningDays(entries)|, summary, detailN, |sorted|,
             q.detailSort, q.detailOrder, Truncate(sorted, q.detailLimit), warning)
  }

  /** The response that the outcomes call for. */
  function Report(f: Outcomes, calendar: seq<int>, q: Query, entries: seq<Entry>): Result<Response, Error>
    requires Ascending(calendar)
  {
    match Validate(q)
    case Err(error) => Err(error)
    case Ok(horizons) =>
      var n := ChooseDetail(q.detailN, horizons);
      Ok(Respond(q, horizons, entries, n, Summaries(f, entries, horizons),
                 SortedDetail(f, entries, n, ParseColumn(q.detailSort).value, q.detailOrder),
                 WarningFor(f, entries, calendar, horizons)))
  }
}
