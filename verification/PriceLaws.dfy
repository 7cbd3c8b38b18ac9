/** What uploads do to the price table, over one upload and over whole runs. */
module PriceLaws {
  import opened Wrappers
  import opened AscendingSets
  import opened PriceStore
  import Calendar

  // ----- Counts -----

  lemma {:induction false} CountsAddUp(rows: Rows, day: int, items: seq<PriceItem>)
    ensures InsertCount(rows, day, items) + UpdateCount(rows, day, items) + SkipCount(items) == |items|
  {
    if items != [] {
      CountsAddUp(rows, day, items[..|items| - 1]);
    }
  }

  /** The symbols an upload creates rows for. */
  function NewSymbols(rows: Rows, day: int, items: seq<PriceItem>): set<string> {
    set s | s in Symbols(items) && (day, s) !in rows
  }

  lemma NewSymbolsSnoc(rows: Rows, day: int, items: seq<PriceItem>, item: PriceItem)
    requires item.close.Some? && (day, item.symbol) !in rows ==> item.symbol !in Symbols(items)
    ensures |NewSymbols(rows, day, items + [item])|
         == |NewSymbols(rows, day, items)| + if item.close.Some? && (day, item.symbol) !in rows then 1 else 0
  {
    SymbolsSnoc(items, item);
    var before, after := NewSymbols(rows, day, items), NewSymbols(rows, day, items + [item]);
    if item.close.Some? && (day, item.symbol) !in rows {
      assert after == before + {item.symbol};
    } else {
      assert after == before;
    }
  }

  lemma {:induction false} NewSymbolsCounted(rows: Rows, day: int, items: seq<PriceItem>)
    requires !Clashes(rows, day, items)
    ensures |NewSymbols(rows, day, items)| == InsertCount(rows, day, items)
  {
    if items == [] {
      assert Symbols(items) == {};
      assert NewSymbols(rows, day, items) == {};
    } else {
      var front, last := items[..|items| - 1], items[|items| - 1];
      assert items == front + [last];
      ClashesSnoc(rows, day, front, last);
      NewSymbolsSnoc(rows, day, front, last);
      NewSymbolsCounted(rows, day, front);
    }
  }

  lemma {:induction false} SameSize(day: int, symbols: set<string>)
    ensures |set s | s in symbols :: (day, s)| == |symbols|
  {
    if symbols == {} {
      assert (set s | s in symbols :: (day, s)) == {};
    } else {
      var x := Pick(symbols);
      SameSize(day, symbols - {x});
      assert (set s | s in symbols :: (day, s)) == (set s | s in symbols - {x} :: (day, s)) + {(day, x)};
    }
  }

  lemma MergedKeys(rows: Rows, day: int, items: seq<PriceItem>)
    ensures Merged(rows, day, items).Keys == rows.Keys + (set s | s in Symbols(items) :: (day, s))
  {
    forall k ensures k in Merged(rows, day, items) <==> k in rows || (k.0 == day && k.1 in Symbols(items)) {
      MergedAt(rows, day, items, k);
      BarAfterSome(Get(rows, k), items, k.1);
    }
    forall k ensures k in (set s | s in Symbols(items) :: (day, s)) <==> k.0 == day && k.1 in Symbols(items) {
      assert k == (k.0, k.1);
    }
  }

  /** The keys a committed upload creates. */
  lemma CreatedKeys(rows: Rows, day: int, items: seq<PriceItem>)
    ensures var created := set s | s in NewSymbols(rows, day, items) :: (day, s);
            Merged(rows, day, items).Keys == rows.Keys + created && rows.Keys !! created
  {
    MergedKeys(rows, day, items);
    var symbols := NewSymbols(rows, day, items);
    forall k ensures k in (set s | s in symbols :: (day, s)) <==> k.0 == day && k.1 in Symbols(items) && k !in rows {
      assert k == (k.0, k.1);
    }
    forall k ensures k in (set s | s in Symbols(items) :: (day, s)) <==> k.0 == day && k.1 in Symbols(items) {
      assert k == (k.0, k.1);
    }
  }

  /** A committed upload grows the table by exactly the rows it reports as inserted. */
  lemma GrowthIsInserted(rows: Rows, body: Payload)
    requires !Clashes(rows, body.day, body.items)
    ensures |AfterUpsert(rows, body)| == |rows| + InsertCount(rows, body.day, body.items)
  {
    var after := Merged(rows, body.day, body.items);
    CreatedKeys(rows, body.day, body.items);
    NewSymbolsCounted(rows, body.day, body.items);
    SameSize(body.day, NewSymbols(rows, body.day, body.items));
    assert |after| == |after.Keys| && |rows| == |rows.Keys|;
  }

  /** The positions at which a list meets a condition. */
  function Where<T>(p: T -> bool, s: seq<T>): set<int> {
    set i | 0 <= i < |s| && p(s[i])
  }

  lemma WhereSnoc<T>(p: T -> bool, s: seq<T>)
    requires s != []
    ensures var k := |s| - 1;
            |Where(p, s)| == |Where(p, s[..k])| + if p(s[k]) then 1 else 0
  {
    var k := |s| - 1;
    var before, after := Where(p, s[..k]), Where(p, s);
    forall i: int ensures i in after <==> i in before || (i == k && p(s[k])) {
      WhereHas(p, s, i);
      WhereHas(p, s[..k], i);
    }
    if p(s[k]) {
      WhereHas(p, s[..k], k);
      assert after == before + {k};
    } else {
      assert after == before;
    }
  }

  lemma WhereHas<T>(p: T -> bool, s: seq<T>, i: int)
    ensures i in Where(p, s) <==> 0 <= i < |s| && p(s[i])
  {}

  predicate HasNoClose(item: PriceItem) { item.close.None? }

  function Overwrites(rows: Rows, day: int): PriceItem -> bool {
    (item: PriceItem) => item.close.Some? && (day, item.symbol) in rows
  }

  function Creates(rows: Rows, day: int): PriceItem -> bool {
    (item: PriceItem) => item.close.Some? && (day, item.symbol) !in rows
  }

  /** The counts are those of the items skipped, overwritten and stored as new. */
  lemma {:induction false} CountsExact(rows: Rows, day: int, items: seq<PriceItem>)
    ensures SkipCount(items) == |Where(HasNoClose, items)|
    ensures UpdateCount(rows, day, items) == |Where(Overwrites(rows, day), items)|
    ensures InsertCount(rows, day, items) == |Where(Creates(rows, day), items)|
  {
    if items == [] {
      assert Where(HasNoClose, items) == {} && Where(Overwrites(rows, day), items) == {};
      assert Where(Creates(rows, day), items) == {};
    } else {
      CountsExact(rows, day, items[..|items| - 1]);
      WhereSnoc(HasNoClose, items);
      WhereSnoc(Overwrites(rows, day), items);
      WhereSnoc(Creates(rows, day), items);
    }
  }

  /** The upload endpoint (app/routers/ingest.py). A commit that fails stores nothing. */
  method IngestPrices(table: PriceTable, body: Payload) returns (r: Option<IngestResult>)
    modifies table
    ensures table.rows == AfterUpsert(old(table.rows), body)
    ensures r == None
       <==> exists i, j :: 0 <= i < j < |body.items| && body.items[i].close.Some? && body.items[j].close.Some?
                           && body.items[i].symbol == body.items[j].symbol
                           && (body.day, body.items[i].symbol) !in old(table.rows)
    ensures r.Some? ==>
              && r.value.received == |body.items| == r.value.inserted + r.value.updated + r.value.skipped
              && r.value.inserted == |table.rows| - |old(table.rows)|
              && r.value.inserted == |Where(Creates(old(table.rows), body.day), body.items)|
              && r.value.updated == |Where(Overwrites(old(table.rows), body.day), body.items)|
              && r.value.skipped == |Where(HasNoClose, body.items)|
  {
    var received := |body.items|;
    var result := table.UpsertDailyPrices(body);
    match result
    case Conflict => r := None;
    case Committed(inserted, updated) =>
      CountsAddUp(old(table.rows), body.day, body.items);
      CountsExact(old(table.rows), body.day, body.items);
      GrowthIsInserted(old(table.rows), body);
      r := Some(IngestResult(received, inserted, updated, received - inserted - updated));
  }

  // ----- The upload as a merge of maps -----

  /** Keys of other days, and symbols the upload does not name with a close, keep their bars. */
  lemma Unmentioned(rows: Rows, body: Payload, k: Key)
    requires k.0 != body.day || k.1 !in Symbols(body.items)
    ensures Get(AfterUpsert(rows, body), k) == Get(rows, k)
  {
    MergedAt(rows, body.day, body.items, k);
    BarAfterSome(Get(rows, k), body.items, k.1);
  }

  function NameOf(bar: Option<Bar>): string { if bar.Some? then bar.value.name else "" }

  function MarketOf(bar: Option<Bar>): string { if bar.Some? then bar.value.marketCode else "" }

  /** The starting bar shows through only in a name or market that no item gives. */
  lemma {:induction false} StartShowsThrough(a: Option<Bar>, b: Option<Bar>, items: seq<PriceItem>, s: string)
    ensures var x, y := BarAfter(a, items, s), BarAfter(b, items, s);
            || (x == a && y == b)
            || (x.Some? && y.Some?
                && x.value == y.value.(name := x.value.name, marketCode := x.value.marketCode)
                && (x.value.name == y.value.name || (x.value.name == NameOf(a) && y.value.name == NameOf(b)))
                && (x.value.marketCode == y.value.marketCode
                    || (x.value.marketCode == MarketOf(a) && y.value.marketCode == MarketOf(b))))
  {
    if items != [] {
      StartShowsThrough(a, b, items[..|items| - 1], s);
    }
  }

  lemma {:induction false} BarAfterUnnamed(prior: Option<Bar>, items: seq<PriceItem>, i: nat, symbol: string)
    requires i <= |items|
    requires forall j :: i <= j < |items| && items[j].close.Some? ==> items[j].symbol != symbol
    ensures BarAfter(prior, items, symbol) == BarAfter(prior, items[..i], symbol)
    decreases |items|
  {
    if i == |items| {
      assert items[..i] == items;
    } else {
      BarAfterUnnamed(prior, items[..|items| - 1], i, symbol);
      assert items[..|items| - 1][..i] == items[..i];
    }
  }

  /** After a committed upload the last item with a close decides its symbol's bar: prices and
      volume are the item's own, and so are name and market if it gives them. */
  lemma LastItemIsStored(rows: Rows, body: Payload, i: nat)
    requires !Clashes(rows, body.day, body.items)
    requires i < |body.items| && body.items[i].close.Some?
    requires forall j :: i < j < |body.items| && body.items[j].close.Some? ==> body.items[j].symbol != body.items[i].symbol
    ensures var item, k := body.items[i], (body.day, body.items[i].symbol);
            && k in AfterUpsert(rows, body)
            && var bar := AfterUpsert(rows, body)[k];
            && Some(bar.close) == item.close && bar.open == item.open && bar.high == item.high
            && bar.low == item.low && bar.volume == item.volume
            && (item.name != "" ==> bar.name == item.name)
            && (item.marketCode != "" ==> bar.marketCode == item.marketCode)
  {
    var item := body.items[i];
    var k := (body.day, item.symbol);
    MergedAt(rows, body.day, body.items, k);
    BarAfterUnnamed(Get(rows, k), body.items, i + 1, item.symbol);
    assert body.items[..i + 1] == body.items[..i] + [item];
    BarAfterSnoc(Get(rows, k), body.items[..i], item, item.symbol);
  }

  // ----- The stored bar, item by item from the end -----

  /** The last item with a close that names the symbol. */
  function LastItem(items: seq<PriceItem>, symbol: string): (r: Option<PriceItem>)
    ensures r.Some? ==> r.value.close.Some? && r.value.symbol == symbol
  {
    if items == [] then None
    else
      var last := items[|items| - 1];
      if last.symbol == symbol && last.close.Some? then Some(last) else LastItem(items[..|items| - 1], symbol)
  }

  /** The last name that an item with a close gives the symbol, empty if none does. */
  function LastName(items: seq<PriceItem>, symbol: string): string {
    if items == [] then ""
    else
      var last := items[|items| - 1];
      if last.symbol == symbol && last.close.Some? && last.name != "" then last.name
      else LastName(items[..|items| - 1], symbol)
  }

  function LastMarket(items: seq<PriceItem>, symbol: string): string {
    if items == [] then ""
    else
      var last := items[|items| - 1];
      if last.symbol == symbol && last.close.Some? && last.marketCode != "" then last.marketCode
      else LastMarket(items[..|items| - 1], symbol)
  }

  function OrElse(given: string, recorded: string): string { if given != "" then given else recorded }

  lemma {:induction false} BarAfterExact(prior: Option<Bar>, items: seq<PriceItem>, symbol: string)
    ensures BarAfter(prior, items, symbol)
         == match LastItem(items, symbol)
            case None => prior
            case Some(item) =>
              Some(Bar(OrElse(LastName(items, symbol), NameOf(prior)), OrElse(LastMarket(items, symbol), MarketOf(prior)),
                       item.open, item.high, item.low, item.close.value, item.volume))
    ensures LastItem(items, symbol).None? ==> LastName(items, symbol) == "" && LastMarket(items, symbol) == ""
  {
    if items != [] { BarAfterExact(prior, items[..|items| - 1], symbol); }
  }

  /** The bar of any key after any upload. Nothing changes if the commit fails, the day is another
      or no item with a close names the symbol. Otherwise prices and volume are the last such
      item's; name and market are the last ones given, else those on record, else empty. */
  lemma StoredBarExact(rows: Rows, body: Payload, day: int, symbol: string)
    ensures var item := LastItem(body.items, symbol);
            Get(AfterUpsert(rows, body), (day, symbol))
            == if Clashes(rows, body.day, body.items) || day != body.day || item.None? then Get(rows, (day, symbol))
               else Some(Bar(OrElse(LastName(body.items, symbol), NameOf(Get(rows, (day, symbol)))),
                             OrElse(LastMarket(body.items, symbol), MarketOf(Get(rows, (day, symbol)))),
                             item.value.open, item.value.high, item.value.low, item.value.close.value, item.value.volume))
  {
    MergedAt(rows, body.day, body.items, (day, symbol));
    BarAfterExact(Get(rows, (day, symbol)), body.items, symbol);
  }

  lemma AfterUpsertNoClash(rows: Rows, body: Payload)
    requires !Clashes(rows, body.day, body.items)
    ensures !Clashes(AfterUpsert(rows, body), body.day, body.items)
  {
    MergedKeys(rows, body.day, body.items);
  }

  /** Sending the same upload again changes nothing. */
  lemma UpsertIdempotent(rows: Rows, body: Payload)
    ensures AfterUpsert(AfterUpsert(rows, body), body) == AfterUpsert(rows, body)
  {
    if !Clashes(rows, body.day, body.items) {
      var once := Merged(rows, body.day, body.items);
      AfterUpsertNoClash(rows, body);
      var twice := Merged(once, body.day, body.items);
      forall k ensures Get(twice, k) == Get(once, k) {
        MergedAt(rows, body.day, body.items, k);
        MergedAt(once, body.day, body.items, k);
        StartShowsThrough(Get(rows, k), Get(once, k), body.items, k.1);
      }
      RowsEqual(twice, once);
    }
  }

  ghost predicate Disjoint(p: Payload, q: Payload) {
    p.day != q.day || Symbols(p.items) !! Symbols(q.items)
  }

  lemma ClashesElsewhere(rows: Rows, p: Payload, q: Payload)
    requires Disjoint(p, q)
    ensures Clashes(AfterUpsert(rows, p), q.day, q.items) <==> Clashes(rows, q.day, q.items)
  {
    var after := AfterUpsert(rows, p);
    forall i | 0 <= i < |q.items| && q.items[i].close.Some?
      ensures (q.day, q.items[i].symbol) in after <==> (q.day, q.items[i].symbol) in rows
    {
      assert q.items[i].symbol in Symbols(q.items);
      Unmentioned(rows, p, (q.day, q.items[i].symbol));
    }
  }

  /** Uploads of different days, or of disjoint symbols, may arrive in either order. */
  lemma UpsertsCommute(rows: Rows, p: Payload, q: Payload)
    requires Disjoint(p, q)
    ensures AfterUpsert(AfterUpsert(rows, p), q) == AfterUpsert(AfterUpsert(rows, q), p)
  {
    var pq, qp := AfterUpsert(AfterUpsert(rows, p), q), AfterUpsert(AfterUpsert(rows, q), p);
    ClashesElsewhere(rows, p, q);
    ClashesElsewhere(rows, q, p);
    forall k ensures Get(pq, k) == Get(qp, k) {
      if k.0 != p.day || k.1 !in Symbols(p.items) {
        Unmentioned(rows, p, k);
        Unmentioned(AfterUpsert(rows, q), p, k);
        MergedAt(rows, q.day, q.items, k);
        MergedAt(AfterUpsert(rows, p), q.day, q.items, k);
      } else {
        Unmentioned(rows, q, k);
        Unmentioned(AfterUpsert(rows, p), q, k);
        MergedAt(rows, p.day, p.items, k);
        MergedAt(AfterUpsert(rows, q), p.day, p.items, k);
      }
    }
    RowsEqual(pq, qp);
  }

  // ----- The calendar under uploads -----

  /** An upload adds its day to the calendar when it stores some close, and otherwise
      leaves the calendar as it was. */
  lemma UploadAddsItsDay(rows: Rows, body: Payload)
    ensures TradingDays(AfterUpsert(rows, body))
         == TradingDays(rows)
            + (if Clashes(rows, body.day, body.items) || Symbols(body.items) == {} then {} else {body.day})
  {
    if !Clashes(rows, body.day, body.items) {
      var added := set s | s in Symbols(body.items) :: (body.day, s);
      MergedKeys(rows, body.day, body.items);
      if Symbols(body.items) == {} {
        assert added == {};
      } else {
        var s := Pick(Symbols(body.items));
        assert (body.day, s) in added;
      }
      var after := TradingDays(AfterUpsert(rows, body));
      assert forall k | k in rows :: k.0 in after;
      assert forall k | k in AfterUpsert(rows, body) :: k in rows || k in added;
    }
  }

  /** A payload without closes leaves the whole table as it was. */
  lemma NoClosesNoChange(rows: Rows, body: Payload)
    requires Symbols(body.items) == {}
    ensures AfterUpsert(rows, body) == rows
  {
    forall k ensures Get(AfterUpsert(rows, body), k) == Get(rows, k) {
      Unmentioned(rows, body, k);
    }
    RowsEqual(AfterUpsert(rows, body), rows);
  }

  lemma {:induction false} RunsEnlargeTheCalendar(rows: Rows, bodies: seq<Payload>)
    ensures TradingDays(rows) <= TradingDays(AfterUpserts(rows, bodies))
    decreases |bodies|
  {
    if bodies != [] {
      UploadAddsItsDay(rows, bodies[0]);
      RunsEnlargeTheCalendar(AfterUpsert(rows, bodies[0]), bodies[1..]);
    }
  }

  lemma CalendarDays(rows: Rows)
    ensures Calendar.Days(ListPriceTradingDays(rows)) == TradingDays(rows)
  {}

  /** Over any run of uploads the n-th trading day stays defined and never moves later. */
  lemma RunsBringExitsForward(rows: Rows, bodies: seq<Payload>, day: int, n: int)
    requires n >= 1
    requires Calendar.NthTradingDay(ListPriceTradingDays(rows), day, n).Some?
    ensures var later := Calendar.NthTradingDay(ListPriceTradingDays(AfterUpserts(rows, bodies)), day, n);
            later.Some? && later.value <= Calendar.NthTradingDay(ListPriceTradingDays(rows), day, n).value
  {
    RunsEnlargeTheCalendar(rows, bodies);
    CalendarDays(rows);
    CalendarDays(AfterUpserts(rows, bodies));
    Calendar.BackfillIsMonotone(ListPriceTradingDays(rows), ListPriceTradingDays(AfterUpserts(rows, bodies)), day, n);
  }

  /** One upload leaves a resolved exit day alone exactly when it stores nothing, or its
      day was already known, is not after the entry day, or lies beyond the exit day. */
  lemma UploadKeepsExitIff(rows: Rows, body: Payload, day: int, n: int)
    requires n >= 1
    requires Calendar.NthTradingDay(ListPriceTradingDays(rows), day, n).Some?
    ensures var exit := Calendar.NthTradingDay(ListPriceTradingDays(rows), day, n);
            Calendar.NthTradingDay(ListPriceTradingDays(AfterUpsert(rows, body)), day, n) == exit
            <==> (Clashes(rows, body.day, body.items) || Symbols(body.items) == {}
                  || body.day in TradingDays(rows) || body.day <= day || exit.value < body.day)
  {
    var before, after := ListPriceTradingDays(rows), ListPriceTradingDays(AfterUpsert(rows, body));
    UploadAddsItsDay(rows, body);
    CalendarDays(rows);
    CalendarDays(AfterUpsert(rows, body));
    if Clashes(rows, body.day, body.items) || Symbols(body.items) == {} {
      AscendingUnique(before, after);
    } else {
      Calendar.ExitDaySurvivesIff(before, after, body.day, day, n);
    }
  }
}
