/**
 The `daily_prices` table (app/crud.py, app/models.py): one bar per (trade date,
 symbol), filled by uploads of one day at a time, read as a sparse scatter.
*/
module PriceStore {
  import opened Wrappers
  import opened Ordering
  import opened AscendingSets

  type Key = (int, string)

  datatype Bar = Bar(name: string, marketCode: string, open: Option<real>, high: Option<real>,
                     low: Option<real>, close: real, volume: Option<int>)

  type Rows = map<Key, Bar>

  datatype PriceItem = PriceItem(symbol: string, name: string, marketCode: string, open: Option<real>,
                                 high: Option<real>, low: Option<real>, close: Option<real>, volume: Option<int>)

  datatype Payload = Payload(day: int, items: seq<PriceItem>)

  /** `Conflict`: two new rows share a primary key, so the commit fails and stores nothing. */
  datatype UpsertResult = Committed(inserted: nat, updated: nat) | Conflict

  /** The counts reported to the uploader. */
  datatype IngestResult = IngestResult(received: nat, inserted: nat, updated: nat, skipped: int)

  function Get<K, V>(m: map<K, V>, k: K): Option<V> {
    if k in m then Some(m[k]) else None
  }

  /** Every day that has a bar. */
  function TradingDays(rows: Rows): set<int> {
    set k | k in rows :: k.0
  }

  /** The trading calendar: the distinct dates in the table, ascending. */
  function ListPriceTradingDays(rows: Rows): (calendar: seq<int>)
    ensures Ascending(calendar)
    ensures forall d :: d in calendar <==> d in TradingDays(rows)
  {
    SortedSet(TradingDays(rows))
  }

  // ----- What an upload means -----

  /** Writing an item over a bar: an empty name or market keeps the one on record. */
  function MergeBar(prior: Option<Bar>, item: PriceItem): Bar
    requires item.close.Some?
  {
    Bar(if item.name != "" then item.name else if prior.Some? then prior.value.name else "",
        if item.marketCode != "" then item.marketCode else if prior.Some? then prior.value.marketCode else "",
        item.open, item.high, item.low, item.close.value, item.volume)
  }

  /** What a sequence of items does to one symbol's bar, all other symbols ignored. */
  function BarAfter(prior: Option<Bar>, items: seq<PriceItem>, symbol: string): Option<Bar> {
    if items == [] then prior
    else
      var last := items[|items| - 1];
      var before := BarAfter(prior, items[..|items| - 1], symbol);
      if last.symbol == symbol && last.close.Some? then Some(MergeBar(before, last)) else before
  }

  function Symbols(items: seq<PriceItem>): set<string> {
    set i | 0 <= i < |items| && items[i].close.Some? :: items[i].symbol
  }

  /** Two items with a close name the same symbol, and the day has no row for it yet. */
  ghost predicate Clashes(rows: Rows, day: int, items: seq<PriceItem>) {
    exists i, j :: 0 <= i < j < |items| && items[i].close.Some? && items[j].close.Some?
                   && items[i].symbol == items[j].symbol && (day, items[i].symbol) !in rows
  }

  /** What an upload for `day` makes of the bar at one key. */
  function BarAt(rows: Rows, day: int, items: seq<PriceItem>, k: Key): Option<Bar> {
    if k.0 == day then BarAfter(Get(rows, k), items, k.1) else Get(rows, k)
  }

  /** The table after an upload that commits. */
  ghost function Merged(rows: Rows, day: int, items: seq<PriceItem>): Rows {
    map k | k in rows.Keys + (set s | s in Symbols(items) :: (day, s)) && BarAt(rows, day, items, k).Some?
      :: BarAt(rows, day, items, k).value
  }

  ghost function AfterUpsert(rows: Rows, body: Payload): Rows {
    if Clashes(rows, body.day, body.items) then rows else Merged(rows, body.day, body.items)
  }

  ghost function AfterUpserts(rows: Rows, bodies: seq<Payload>): Rows
    decreases |bodies|
  {
    if bodies == [] then rows else AfterUpserts(AfterUpsert(rows, bodies[0]), bodies[1..])
  }

  lemma {:induction false} BarAfterSome(prior: Option<Bar>, items: seq<PriceItem>, symbol: string)
    ensures BarAfter(prior, items, symbol).Some? <==> prior.Some? || symbol in Symbols(items)
    ensures symbol !in Symbols(items) ==> BarAfter(prior, items, symbol) == prior
  {
    if items != [] {
      var front, last := items[..|items| - 1], items[|items| - 1];
      BarAfterSome(prior, front, symbol);
      SymbolsSnoc(front, last);
      assert items == front + [last];
    }
  }

  lemma SymbolsSnoc(items: seq<PriceItem>, item: PriceItem)
    ensures Symbols(items + [item]) == Symbols(items) + (if item.close.Some? then {item.symbol} else {})
  {
    var all := items + [item];
    forall s ensures s in Symbols(all) <==> s in Symbols(items) || (item.close.Some? && s == item.symbol) {
      if s in Symbols(items) {
        var i :| 0 <= i < |items| && items[i].close.Some? && items[i].symbol == s;
        assert all[i] == items[i];
      }
      assert all[|items|] == item;
    }
  }

  /** An upload acts on each key by itself: the bar found there afterwards depends only
      on the bar there before and on the items naming its symbol. */
  lemma MergedAt(rows: Rows, day: int, items: seq<PriceItem>, k: Key)
    ensures Get(Merged(rows, day, items), k)
         == BarAt(rows, day, items, k)
  {
    BarAfterSome(Get(rows, k), items, k.1);
    assert k == (k.0, k.1);
  }

  lemma RowsEqual(a: Rows, b: Rows)
    requires forall k :: Get(a, k) == Get(b, k)
    ensures a == b
  {
    forall k ensures k in a <==> k in b ensures k in a ==> a[k] == b[k] {
      assert Get(a, k) == Get(b, k);
    }
  }

  /** The items that create a row, and the items that overwrite one. */
  function InsertCount(rows: Rows, day: int, items: seq<PriceItem>): nat {
    if items == [] then 0
    else
      var last := items[|items| - 1];
      InsertCount(rows, day, items[..|items| - 1])
      + if last.close.Some? && (day, last.symbol) !in rows then 1 else 0
  }

  function UpdateCount(rows: Rows, day: int, items: seq<PriceItem>): nat {
    if items == [] then 0
    else
      var last := items[|items| - 1];
      UpdateCount(rows, day, items[..|items| - 1])
      + if last.close.Some? && (day, last.symbol) in rows then 1 else 0
  }

  function SkipCount(items: seq<PriceItem>): nat {
    if items == [] then 0
    else SkipCount(items[..|items| - 1]) + if items[|items| - 1].close.Some? then 0 else 1
  }

  lemma ClashesSnoc(rows: Rows, day: int, items: seq<PriceItem>, item: PriceItem)
    ensures Clashes(rows, day, items + [item])
       <==> Clashes(rows, day, items)
            || (item.close.Some? && item.symbol in Symbols(items) && (day, item.symbol) !in rows)
  {
    var all := items + [item];
    if Clashes(rows, day, items) {
      var i, j :| 0 <= i < j < |items| && items[i].close.Some? && items[j].close.Some?
                  && items[i].symbol == items[j].symbol && (day, items[i].symbol) !in rows;
      assert all[i] == items[i] && all[j] == items[j];
    }
    if item.close.Some? && item.symbol in Symbols(items) && (day, item.symbol) !in rows {
      var i :| 0 <= i < |items| && items[i].close.Some? && items[i].symbol == item.symbol;
      assert all[i] == items[i] && all[|items|] == item;
    }
  }

  /** The row objects in memory after the items so far: the stored rows read at the
      start, brought up to date, and the new rows waiting for the commit. */
  ghost predicate Staged(rows: Rows, day: int, items: seq<PriceItem>,
                         existing: map<string, Bar>, added: map<string, Bar>, clash: bool)
  {
    && (forall s :: s in existing <==> (day, s) in rows)
    && (forall s :: s in existing ==> BarAfter(Get(rows, (day, s)), items, s) == Some(existing[s]))
    && (forall s :: s in added <==> (day, s) !in rows && s in Symbols(items))
    && (clash <==> Clashes(rows, day, items))
    && (!clash ==> forall s :: s in added ==> BarAfter(None, items, s) == Some(added[s]))
  }

  lemma BarAfterSnoc(prior: Option<Bar>, items: seq<PriceItem>, item: PriceItem, s: string)
    ensures BarAfter(prior, items + [item], s)
         == if item.symbol == s && item.close.Some? then Some(MergeBar(BarAfter(prior, items, s), item))
            else BarAfter(prior, items, s)
  {
    assert (items + [item])[..|items|] == items;
  }

  lemma StagedStored(rows: Rows, day: int, items: seq<PriceItem>, existing: map<string, Bar>,
                     added: map<string, Bar>, clash: bool, item: PriceItem)
    requires Staged(rows, day, items, existing, added, clash)
    requires item.close.Some? && item.symbol in existing
    ensures Staged(rows, day, items + [item],
                   existing[item.symbol := MergeBar(Some(existing[item.symbol]), item)], added, clash)
  {
    SymbolsSnoc(items, item);
    ClashesSnoc(rows, day, items, item);
    forall prior, s { BarAfterSnoc(prior, items, item, s); }
  }

  lemma StagedNew(rows: Rows, day: int, items: seq<PriceItem>, existing: map<string, Bar>,
                  added: map<string, Bar>, clash: bool, item: PriceItem)
    requires Staged(rows, day, items, existing, added, clash)
    requires item.close.Some? && item.symbol !in existing
    ensures Staged(rows, day, items + [item], existing, added[item.symbol := MergeBar(None, item)],
                   clash || item.symbol in added)
  {
    SymbolsSnoc(items, item);
    ClashesSnoc(rows, day, items, item);
    BarAfterSome(None, items, item.symbol);
    forall prior, s { BarAfterSnoc(prior, items, item, s); }
  }

  lemma StagedSkipped(rows: Rows, day: int, items: seq<PriceItem>, existing: map<string, Bar>,
                      added: map<string, Bar>, clash: bool, item: PriceItem)
    requires Staged(rows, day, items, existing, added, clash)
    requires item.close.None?
    ensures Staged(rows, day, items + [item], existing, added, clash)
  {
    SymbolsSnoc(items, item);
    ClashesSnoc(rows, day, items, item);
    forall prior, s { BarAfterSnoc(prior, items, item, s); }
  }

  /** The rows a map of one day's bars stands for. */
  function OnDay(day: int, bars: map<string, Bar>): (r: Rows)
    ensures forall k :: k in r <==> k.0 == day && k.1 in bars
    ensures forall k :: k in r ==> r[k] == bars[k.1]
  {
    map s | s in bars :: (day, s) := bars[s]
  }

  lemma StagedCommit(rows: Rows, day: int, items: seq<PriceItem>,
                     existing: map<string, Bar>, added: map<string, Bar>)
    requires Staged(rows, day, items, existing, added, false)
    ensures rows + OnDay(day, existing) + OnDay(day, added) == Merged(rows, day, items)
  {
    var after := rows + OnDay(day, existing) + OnDay(day, added);
    forall k ensures Get(after, k) == Get(Merged(rows, day, items), k) {
      MergedAt(rows, day, items, k);
      BarAfterSome(Get(rows, k), items, k.1);
      assert k == (k.0, k.1);
    }
    RowsEqual(after, Merged(rows, day, items));
  }

  // ----- Reading closes as a scatter -----

  /** Chunk size of the symbol lists in one statement. */
  const SYMBOL_CHUNK := 500

  type Wanted = map<int, set<string>>

  /** One SELECT: these symbols on this day. */
  datatype Statement = Statement(day: int, symbols: seq<string>)

  /** The pairs asked for; the empty symbol is never looked up. */
  function Pairs(wanted: Wanted): set<Key> {
    set d, s | d in wanted && s in wanted[d] && s != "" :: (d, s)
  }

  function OfDay(day: int, symbols: seq<string>): seq<Key> {
    seq(|symbols|, i requires 0 <= i < |symbols| => (day, symbols[i]))
  }

  /** How often each key occurs in the statements sent. */
  function Asked(statements: seq<Statement>): multiset<Key> {
    if statements == [] then multiset{}
    else
      var last := statements[|statements| - 1];
      Asked(statements[..|statements| - 1]) + multiset(OfDay(last.day, last.symbols))
  }

  ghost predicate Chunked(statements: seq<Statement>, size: nat) {
    forall i :: 0 <= i < |statements| ==> 1 <= |statements[i].symbols| <= size
  }

  /** The price table answers for exactly these keys, with its own closes. */
  ghost predicate Answers(rows: Rows, keys: set<Key>, prices: map<(string, int), real>) {
    && (forall d, s :: (s, d) in prices <==> (d, s) in keys && (d, s) in rows)
    && (forall d, s :: (s, d) in prices ==> prices[(s, d)] == rows[(d, s)].close)
  }

  lemma PairOfWanted(wanted: Wanted, d: int, s: string)
    ensures (d, s) in Pairs(wanted) <==> d in wanted && s in wanted[d] && s != ""
  {}

  lemma AskedSnoc(statements: seq<Statement>, st: Statement)
    ensures Asked(statements + [st]) == Asked(statements) + multiset(OfDay(st.day, st.symbols))
  {
    assert (statements + [st])[..|statements|] == statements;
  }

  lemma {:induction false} OfDayMultiset(day: int, symbols: seq<string>, all: set<string>)
    requires multiset(symbols) == multiset(all)
    ensures multiset(OfDay(day, symbols)) == multiset(set s | s in all :: (day, s))
  {
    if symbols == [] {
      assert forall s | s in all :: s in multiset(symbols);
      assert (set s | s in all :: (day, s)) == {};
    } else {
      var front, last := symbols[..|symbols| - 1], symbols[|symbols| - 1];
      assert symbols == front + [last];
      assert last in multiset(symbols);
      assert multiset(front) == multiset(all) - multiset{last} == multiset(all - {last});
      OfDayMultiset(day, front, all - {last});
      assert OfDay(day, symbols) == OfDay(day, front) + [(day, last)];
      assert (set s | s in all :: (day, s)) == (set s | s in all - {last} :: (day, s)) + {(day, last)};
    }
  }

  function KeysOf(day: int, symbols: seq<string>): set<Key> {
    set s | s in symbols :: (day, s)
  }

  /** SELECT symbol, close WHERE trade_date = day AND symbol IN chunk. */
  function Select(rows: Rows, day: int, chunk: seq<string>): map<string, real> {
    map s | s in chunk && (day, s) in rows :: rows[(day, s)].close
  }

  function Dated(day: int, found: map<string, real>): (r: map<(string, int), real>)
    ensures forall k :: k in r <==> k.1 == day && k.0 in found
    ensures forall k :: k in r ==> r[k] == found[k.0]
  {
    map s | s in found :: (s, day) := found[s]
  }

  lemma AnswersMore(rows: Rows, keys: set<Key>, prices: map<(string, int), real>, day: int, chunk: seq<string>)
    requires Answers(rows, keys, prices)
    ensures var found := Select(rows, day, chunk);
            Answers(rows, keys + KeysOf(day, chunk), prices + Dated(day, found))
  {}

  lemma Extend(day: int, a: seq<string>, b: seq<string>)
    ensures OfDay(day, a + b) == OfDay(day, a) + OfDay(day, b)
    ensures KeysOf(day, a + b) == KeysOf(day, a) + KeysOf(day, b)
  {}

  /** The state of one day's load after its first `i` symbols. */
  ghost predicate LoadedUpTo(rows: Rows, keys: set<Key>, statements0: seq<Statement>, day: int, unique: seq<string>,
                             i: nat, size: nat, prices: map<(string, int), real>, statements: seq<Statement>)
    requires i <= |unique|
  {
    && Answers(rows, keys + KeysOf(day, unique[..i]), prices)
    && Chunked(statements, size)
    && Asked(statements) == Asked(statements0) + multiset(OfDay(day, unique[..i]))
  }

  lemma NothingLoaded(rows: Rows, keys: set<Key>, statements: seq<Statement>, prices: map<(string, int), real>,
                      day: int, unique: seq<string>, size: nat)
    requires Answers(rows, keys, prices) && Chunked(statements, size)
    ensures LoadedUpTo(rows, keys, statements, day, unique, 0, size, prices, statements)
  {
    assert KeysOf(day, unique[..0]) == {} && OfDay(day, unique[..0]) == [];
    assert keys + {} == keys;
  }

  lemma ChunkAnswered(rows: Rows, keys: set<Key>, prices: map<(string, int), real>, day: int,
                      unique: seq<string>, i: nat, next: nat)
    requires i <= next <= |unique| && Answers(rows, keys + KeysOf(day, unique[..i]), prices)
    ensures Answers(rows, keys + KeysOf(day, unique[..next]), prices + Dated(day, Select(rows, day, unique[i..next])))
  {
    AnswersMore(rows, keys + KeysOf(day, unique[..i]), prices, day, unique[i..next]);
    Extend(day, unique[..i], unique[i..next]);
    assert unique[..next] == unique[..i] + unique[i..next];
    assert keys + KeysOf(day, unique[..next]) == keys + KeysOf(day, unique[..i]) + KeysOf(day, unique[i..next]);
  }

  /** The state after the next chunk of a day's symbols. */
  lemma ChunkLoaded(rows: Rows, keys: set<Key>, statements0: seq<Statement>, day: int, unique: seq<string>,
                    i: nat, next: nat, size: nat, prices: map<(string, int), real>, statements: seq<Statement>)
    requires i < next <= |unique| && next - i <= size
    requires LoadedUpTo(rows, keys, statements0, day, unique, i, size, prices, statements)
    ensures LoadedUpTo(rows, keys, statements0, day, unique, next, size,
                       prices + Dated(day, Select(rows, day, unique[i..next])),
                       statements + [Statement(day, unique[i..next])])
  {
    ChunkAnswered(rows, keys, prices, day, unique, i, next);
    ChunkAsked(statements, day, unique, i, next);
  }

  lemma ChunkAsked(statements: seq<Statement>, day: int, unique: seq<string>, i: nat, next: nat)
    requires i <= next <= |unique|
    ensures Asked(statements + [Statement(day, unique[i..next])])
         == Asked(statements) + multiset(OfDay(day, unique[i..next]))
    ensures multiset(OfDay(day, unique[..next]))
         == multiset(OfDay(day, unique[..i])) + multiset(OfDay(day, unique[i..next]))
  {
    AskedSnoc(statements, Statement(day, unique[i..next]));
    Extend(day, unique[..i], unique[i..next]);
    assert unique[..next] == unique[..i] + unique[i..next];
  }

  lemma DisjointUnion<T>(a: set<T>, b: set<T>)
    requires a !! b
    ensures multiset(a + b) == multiset(a) + multiset(b)
  {}

  /** `sorted` of a set of symbols. */
  method SortSymbols(symbols: set<string>) returns (r: seq<string>)
    ensures Sorted(StringLe, r) && multiset(r) == multiset(symbols)
  {
    var todo := symbols;
    r := [];
    while todo != {}
      invariant todo <= symbols
      invariant multiset(r) == multiset(symbols - todo)
    {
      var s := Choose(todo);
      DisjointUnion(symbols - todo, {s});
      assert symbols - (todo - {s}) == (symbols - todo) + {s};
      r, todo := r + [s], todo - {s};
    }
    assert symbols - todo == symbols;
    StringLeIsTotalOrder();
    StableSortIsStableSort(StringLe, r);
    r := StableSort(StringLe, r);
  }

  /** The part of a scatter outside some days. */
  ghost function Without(wanted: Wanted, todo: set<int>): Wanted {
    map d | d in wanted && d !in todo :: wanted[d]
  }

  lemma LoadedDay(wanted: Wanted, todo: set<int>, day: int, unique: seq<string>)
    requires todo <= wanted.Keys && day in todo
    requires multiset(unique) == multiset(set s | s in wanted[day] && s != "")
    ensures Pairs(Without(wanted, todo - {day})) == Pairs(Without(wanted, todo)) + KeysOf(day, unique)
    ensures multiset(Pairs(Without(wanted, todo - {day})))
         == multiset(Pairs(Without(wanted, todo))) + multiset(OfDay(day, unique))
  {
    var symbols := set s | s in wanted[day] && s != "";
    var before, after := Without(wanted, todo), Without(wanted, todo - {day});
    assert forall s :: s in unique <==> s in multiset(unique);
    assert forall s :: s in unique <==> s in symbols;
    forall k: Key ensures k in Pairs(after) <==> k in Pairs(before) + KeysOf(day, unique) {
      PairOfWanted(after, k.0, k.1);
      PairOfWanted(before, k.0, k.1);
      assert k == (k.0, k.1);
      assert k.0 == day ==> (k in KeysOf(day, unique) <==> k.1 in unique);
    }
    assert Pairs(after) == Pairs(before) + KeysOf(day, unique);
    OfDayMultiset(day, unique, symbols);
    assert (set s | s in symbols :: (day, s)) == KeysOf(day, unique);
    forall k: Key | k in Pairs(before) ensures k !in KeysOf(day, unique) { PairOfWanted(before, k.0, k.1); }
    DisjointUnion(Pairs(before), KeysOf(day, unique));
  }

  lemma ItemCounted(rows: Rows, day: int, items: seq<PriceItem>, i: nat)
    requires i < |items|
    ensures items[..i + 1] == items[..i] + [items[i]]
    ensures InsertCount(rows, day, items[..i + 1]) == InsertCount(rows, day, items[..i])
              + if items[i].close.Some? && (day, items[i].symbol) !in rows then 1 else 0
    ensures UpdateCount(rows, day, items[..i + 1]) == UpdateCount(rows, day, items[..i])
              + if items[i].close.Some? && (day, items[i].symbol) in rows then 1 else 0
  {
    assert items[..i + 1][..i] == items[..i];
  }

  class PriceTable {
    var rows: Rows

    constructor ()
      ensures rows == map[]
    {
      rows := map[];
    }

    /** Insert or overwrite one day's bars; items without a close are skipped. */
    method UpsertDailyPrices(body: Payload) returns (result: UpsertResult)
      modifies this
      ensures rows == AfterUpsert(old(rows), body)
      ensures result == if Clashes(old(rows), body.day, body.items) then Conflict
                        else Committed(InsertCount(old(rows), body.day, body.items),
                                       UpdateCount(old(rows), body.day, body.items))
    {
      var day, items := body.day, body.items;
      var existing: map<string, Bar> := map k | k in rows && k.0 == day :: k.1 := rows[k];
      var added: map<string, Bar> := map[];
      var clash := false;
      var inserted, updated := 0, 0;
      assert forall s :: s in existing ==> (day, s) in rows;
      for i := 0 to |items|
        invariant rows == old(rows)
        invariant Staged(rows, day, items[..i], existing, added, clash)
        invariant inserted == InsertCount(rows, day, items[..i])
        invariant updated == UpdateCount(rows, day, items[..i])
      {
        var item := items[i];
        ItemCounted(rows, day, items, i);
        if item.close.None? {
          StagedSkipped(rows, day, items[..i], existing, added, clash, item);
          continue;
        }
        if item.symbol in existing {
          StagedStored(rows, day, items[..i], existing, added, clash, item);
          existing := existing[item.symbol := MergeBar(Some(existing[item.symbol]), item)];
          updated := updated + 1;
        } else {
          StagedNew(rows, day, items[..i], existing, added, clash, item);
          clash := clash || item.symbol in added;
          added := added[item.symbol := MergeBar(None, item)];
          inserted := inserted + 1;
        }
      }
      assert items[..|items|] == items;
      if clash {
        return Conflict;
      }
      StagedCommit(rows, day, items, existing, added);
      rows := rows + OnDay(day, existing) + OnDay(day, added);
      result := Committed(inserted, updated);
    }

    /** One day's symbols, `chunkSize` to a statement. */
    method LoadDay(day: int, unique: seq<string>, chunkSize: nat, prices0: map<(string, int), real>,
                   ghost keys: set<Key>, ghost statements0: seq<Statement>)
      returns (prices: map<(string, int), real>, ghost statements: seq<Statement>)
      requires chunkSize >= 1 && Answers(rows, keys, prices0)
      requires Chunked(statements0, chunkSize)
      ensures Answers(rows, keys + KeysOf(day, unique), prices)
      ensures Chunked(statements, chunkSize)
      ensures Asked(statements) == Asked(statements0) + multiset(OfDay(day, unique))
    {
      prices, statements := prices0, statements0;
      var i := 0;
      NothingLoaded(rows, keys, statements, prices, day, unique, chunkSize);
      while i < |unique|
        invariant 0 <= i <= |unique|
        invariant LoadedUpTo(rows, keys, statements0, day, unique, i, chunkSize, prices, statements)
      {
        var next := if i + chunkSize <= |unique| then i + chunkSize else |unique|;
        var chunk := unique[i..next];
        ChunkLoaded(rows, keys, statements0, day, unique, i, next, chunkSize, prices, statements);
        prices := prices + Dated(day, Select(rows, day, chunk));
        statements := statements + [Statement(day, chunk)];
        i := next;
      }
      assert unique[..|unique|] == unique;
    }

    /** The close of every wanted pair the table has: each wanted pair is asked for once,
        nothing else is, and no statement lists more than `chunkSize` symbols. */
    method LoadClosePrices(wanted: Wanted, chunkSize: nat)
      returns (prices: map<(string, int), real>, ghost statements: seq<Statement>)
      requires chunkSize >= 1
      ensures Answers(rows, Pairs(wanted), prices)
      ensures Chunked(statements, chunkSize)
      ensures Asked(statements) == multiset(Pairs(wanted))
    {
      prices, statements := map[], [];
      var todo := wanted.Keys;
      while todo != {}
        invariant todo <= wanted.Keys
        invariant Answers(rows, Pairs(Without(wanted, todo)), prices)
        invariant Chunked(statements, chunkSize)
        invariant Asked(statements) == multiset(Pairs(Without(wanted, todo)))
      {
        var day := Choose(todo);
        var symbols := set s | s in wanted[day] && s != "";
        var unique := SortSymbols(symbols);
        LoadedDay(wanted, todo, day, unique);
        prices, statements := LoadDay(day, unique, chunkSize, prices, Pairs(Without(wanted, todo)), statements);
        todo := todo - {day};
      }
      assert Without(wanted, {}) == wanted;
    }
  }
}
