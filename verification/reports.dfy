/**
 The Reports page's refresh step and derived data: which coins are shown, the per-coin
 report against the previous point, and the chart rows. Timers, cancellation, loading
 flags and rendering are left out; the clock reading is a parameter.
 */
module Reports {
  import opened Wrappers
  import opened JsStrings
  import opened ApiTypes
  import opened CoinsModel
  import opened Candles
  import opened PriceHistory
  import CoinsService

  // ---------------------------------------------------------------- selected coins

  /** `allCoins.filter(coin => coin.id && selectedCoinIds.includes(coin.id))`. */
  function SelectedCoins(allCoins: seq<Coin>, selectedIds: seq<string>): (r: seq<Coin>)
    ensures |r| <= |allCoins|
    ensures forall c :: c in r <==> c in allCoins && HasId(c) && c.id.value in selectedIds
    ensures |allCoins| == 1 ==> r == (if HasId(allCoins[0]) && allCoins[0].id.value in selectedIds then allCoins else [])
  {
    if |allCoins| == 0 then []
    else
      var c := allCoins[0];
      var rest := SelectedCoins(allCoins[1..], selectedIds);
      assert forall d :: d in allCoins <==> d == c || d in allCoins[1..];
      if HasId(c) && c.id.value in selectedIds then [c] + rest else rest
  }

  /** Filtering distributes over concatenation, so the selected coins keep the list's order, repeats included. */
  lemma {:induction false} SelectedCoinsAppend(a: seq<Coin>, b: seq<Coin>, selectedIds: seq<string>)
    ensures SelectedCoins(a + b, selectedIds) == SelectedCoins(a, selectedIds) + SelectedCoins(b, selectedIds)
  {
    if |a| == 0 {
      assert a + b == b;
    } else {
      assert (a + b)[1..] == a[1..] + b;
      SelectedCoinsAppend(a[1..], b, selectedIds);
    }
  }

  /** The coins with a truthy id, in order. */
  function WithId(coins: seq<Coin>): (r: seq<Coin>)
    ensures |r| <= |coins|
    ensures forall c :: c in r <==> c in coins && HasId(c)
    ensures |coins| == 1 ==> r == (if HasId(coins[0]) then coins else [])
  {
    if |coins| == 0 then []
    else
      var rest := WithId(coins[1..]);
      assert forall d :: d in coins <==> d == coins[0] || d in coins[1..];
      if HasId(coins[0]) then [coins[0]] + rest else rest
  }

  /** Filtering distributes over concatenation, so the coins with an id keep their order, repeats included. */
  lemma {:induction false} WithIdAppend(a: seq<Coin>, b: seq<Coin>)
    ensures WithId(a + b) == WithId(a) + WithId(b)
  {
    if |a| == 0 {
      assert a + b == b;
    } else {
      assert (a + b)[1..] == a[1..] + b;
      WithIdAppend(a[1..], b);
    }
  }

  /** `coinsForApi`: the id and symbol of each coin that has both, in order. */
  function CoinsForApi(coins: seq<Coin>): (r: seq<CoinsService.IdSymbol>)
    ensures |r| <= |coins|
    ensures forall c :: c in coins && HasId(c) && HasSymbol(c) ==> CoinsService.IdSymbol(c.id.value, c.symbol.value) in r
    ensures forall p :: p in r ==> exists c :: c in coins && HasId(c) && HasSymbol(c) && p == CoinsService.IdSymbol(c.id.value, c.symbol.value)
    ensures |coins| == 1 ==> r == (if HasId(coins[0]) && HasSymbol(coins[0]) then [CoinsService.IdSymbol(coins[0].id.value, coins[0].symbol.value)] else [])
  {
    if |coins| == 0 then []
    else
      var c := coins[0];
      var rest := CoinsForApi(coins[1..]);
      assert forall d :: d in coins <==> d == c || d in coins[1..];
      if HasId(c) && HasSymbol(c) then [CoinsService.IdSymbol(c.id.value, c.symbol.value)] + rest else rest
  }

  /** The mapping distributes over concatenation, so the pairs follow the coins' order, repeats included. */
  lemma {:induction false} CoinsForApiAppend(a: seq<Coin>, b: seq<Coin>)
    ensures CoinsForApi(a + b) == CoinsForApi(a) + CoinsForApi(b)
  {
    if |a| == 0 {
      assert a + b == b;
    } else {
      assert (a + b)[1..] == a[1..] + b;
      CoinsForApiAppend(a[1..], b);
    }
  }

  // ---------------------------------------------------------------- reports

  datatype CoinReport = CoinReport(coin: Coin, currentPrice: real, previousPrice: real, priceChange: real, priceChangePercent: real)

  /** `pricesMap.get(coin.id) || 0`. */
  function CurrentPrice(prices: map<string, real>, id: string): real {
    if id in prices then prices[id] else 0.0
  }

  /**
   The report for one coin: the change from the previous point's price (a candle's close or
   a bare number) to the current one, and that change as a percentage of the previous price,
   0 when the previous price is not positive. Without a previous price the coin is compared
   with itself.
   */
  function ReportFor(coin: Coin, prices: map<string, real>, previous: Option<Point>): (r: CoinReport)
    requires HasId(coin)
    ensures r.coin == coin
    ensures r.currentPrice == CurrentPrice(prices, coin.id.value)
    ensures r.previousPrice == PriceOf(Lookup(previous, coin.id.value)).GetOr(r.currentPrice)
    ensures r.currentPrice == r.previousPrice + r.priceChange
    ensures r.previousPrice > 0.0 ==> r.priceChangePercent * r.previousPrice == 100.0 * r.priceChange
    ensures r.previousPrice <= 0.0 ==> r.priceChangePercent == 0.0
  {
    var current := CurrentPrice(prices, coin.id.value);
    var prev := match PriceOf(Lookup(previous, coin.id.value)) case Some(p) => p case None => current;
    var change := current - prev;
    CoinReport(coin, current, prev, change, if prev > 0.0 then (change / prev) * 100.0 else 0.0)
  }

  /** A coin with no price in the previous point shows no change. */
  lemma FirstSightingShowsNoChange(coin: Coin, prices: map<string, real>, previous: Option<Point>)
    requires HasId(coin) && PriceOf(Lookup(previous, coin.id.value)).None?
    ensures ReportFor(coin, prices, previous).priceChange == 0.0
    ensures ReportFor(coin, prices, previous).priceChangePercent == 0.0
  {
  }

  /** The reports: one per selected coin with a truthy id, in order. */
  function ComputeReports(selected: seq<Coin>, prices: map<string, real>, previous: Option<Point>): (r: seq<CoinReport>)
    ensures |r| == |WithId(selected)|
    ensures forall i :: 0 <= i < |r| ==> r[i].coin == WithId(selected)[i] && r[i] == ReportFor(r[i].coin, prices, previous)
  {
    var coins := WithId(selected);
    seq(|coins|, i requires 0 <= i < |coins| => ReportFor(coins[i], prices, previous))
  }

  /**
   The reports agree with the history: for a selected coin with a price, the new point's
   candle opens at the report's previous price and closes at its current price.
   */
  lemma ReportMatchesCandle(previous: Option<Point>, selected: seq<Coin>, prices: map<string, real>, time: string, timestamp: int, coin: Coin)
    requires coin in selected && HasId(coin) && coin.id.value in prices
    ensures var p := NewPoint(previous, selected, prices, time, timestamp);
      var report := ReportFor(coin, prices, previous);
      && coin.id.value in p && p[coin.id.value].Ohlc?
      && p[coin.id.value].candle.open == report.previousPrice
      && p[coin.id.value].candle.close == report.currentPrice
  {
    var i :| 0 <= i < |selected| && selected[i] == coin;
    assert HasCoinId(selected, coin.id.value);
  }

  // ---------------------------------------------------------------- chart

  /** A chart row: the point's time value and a price per upper-cased symbol. */
  datatype ChartRow = ChartRow(time: Option<Value>, prices: map<string, real>)

  /** The coin has an id, a symbol and a price (candle close or bare number) in the point. */
  predicate Plotted(point: Point, c: Coin) {
    HasId(c) && HasSymbol(c) && PriceOf(Lookup(Some(point), c.id.value)).Some?
  }

  /** The `forEach` filling a chart row: each plotted coin sets its price under its upper-cased symbol, later coins overwriting. */
  function RowPrices(point: Point, coins: seq<Coin>): (r: map<string, real>)
    ensures |r| <= |coins|
  {
    if |coins| == 0 then map[]
    else
      var m := RowPrices(point, coins[..|coins| - 1]);
      var c := coins[|coins| - 1];
      if Plotted(point, c) then m[ToUpper(c.symbol.value) := PriceOf(Lookup(Some(point), c.id.value)).value] else m
  }

  /** The coins are applied in order: the row for `a + b` is the row for `a` overridden by the row for `b`. */
  lemma {:induction false} RowPricesAppend(point: Point, a: seq<Coin>, b: seq<Coin>)
    ensures RowPrices(point, a + b) == RowPrices(point, a) + RowPrices(point, b)
  {
    if |b| == 0 {
      assert a + b == a;
    } else {
      var init := b[..|b| - 1];
      var c := b[|b| - 1];
      assert (a + b)[..|a + b| - 1] == a + init;
      assert (a + b)[|a + b| - 1] == c;
      RowPricesAppend(point, a, init);
      if Plotted(point, c) {
        var k := ToUpper(c.symbol.value);
        var v := PriceOf(Lookup(Some(point), c.id.value)).value;
        assert RowPrices(point, a + b) == RowPrices(point, a + init)[k := v];
        assert RowPrices(point, b) == RowPrices(point, init)[k := v];
        OverrideThenUpdate(RowPrices(point, a), RowPrices(point, init), k, v);
      } else {
        assert RowPrices(point, a + b) == RowPrices(point, a + init);
      }
    }
  }

  /** Updating an overridden map is overriding with the updated map. */
  lemma OverrideThenUpdate<K, V>(m: map<K, V>, n: map<K, V>, k: K, v: V)
    ensures (m + n)[k := v] == m + n[k := v]
  {
  }

  /** Every key of a row is the upper-cased symbol of a plotted coin and holds that coin's price. */
  lemma {:induction false} RowPricesSound(point: Point, coins: seq<Coin>)
    ensures forall k :: k in RowPrices(point, coins) ==>
      exists i ::
        && 0 <= i < |coins| && Plotted(point, coins[i]) && ToUpper(coins[i].symbol.value) == k
        && PriceOf(Lookup(Some(point), coins[i].id.value)) == Some(RowPrices(point, coins)[k])
  {
    if |coins| > 0 {
      var init := coins[..|coins| - 1];
      var c := coins[|coins| - 1];
      var m := RowPrices(point, init);
      var r := RowPrices(point, coins);
      RowPricesSound(point, init);
      forall k | k in r
        ensures exists i ::
          && 0 <= i < |coins| && Plotted(point, coins[i]) && ToUpper(coins[i].symbol.value) == k
          && PriceOf(Lookup(Some(point), coins[i].id.value)) == Some(r[k])
      {
        if Plotted(point, c) && k == ToUpper(c.symbol.value) {
          assert coins[|coins| - 1] == c;
        } else {
          assert k in m && r[k] == m[k];
          var i :| 0 <= i < |init| && Plotted(point, init[i]) && ToUpper(init[i].symbol.value) == k
            && PriceOf(Lookup(Some(point), init[i].id.value)) == Some(m[k]);
          assert coins[i] == init[i];
        }
      }
    }
  }

  /** Every plotted coin's upper-cased symbol is a key of the row. */
  lemma {:induction false} RowPricesComplete(point: Point, coins: seq<Coin>)
    ensures forall i :: 0 <= i < |coins| && Plotted(point, coins[i]) ==> ToUpper(coins[i].symbol.value) in RowPrices(point, coins)
  {
    if |coins| > 0 {
      var init := coins[..|coins| - 1];
      RowPricesComplete(point, init);
      forall i | 0 <= i < |coins| && Plotted(point, coins[i])
        ensures ToUpper(coins[i].symbol.value) in RowPrices(point, coins)
      {
        if i < |init| {
          assert coins[i] == init[i];
        }
      }
    }
  }

  /** The keys of a row's prices are exactly the upper-cased symbols of the plotted coins, each holding one such coin's price. */
  lemma {:induction false} RowPricesKeys(point: Point, coins: seq<Coin>)
    ensures forall k :: k in RowPrices(point, coins) ==>
      exists i ::
        && 0 <= i < |coins| && Plotted(point, coins[i]) && ToUpper(coins[i].symbol.value) == k
        && PriceOf(Lookup(Some(point), coins[i].id.value)) == Some(RowPrices(point, coins)[k])
    ensures forall i :: 0 <= i < |coins| && Plotted(point, coins[i]) ==> ToUpper(coins[i].symbol.value) in RowPrices(point, coins)
  {
    RowPricesSound(point, coins);
    RowPricesComplete(point, coins);
  }

  /** The row a history point maps to. */
  function RowFor(point: Point, coins: seq<Coin>): ChartRow {
    ChartRow(if "time" in point then Some(point["time"]) else None, RowPrices(point, coins))
  }

  /** `Object.keys(dataPoint).length`: the "time" key plus the symbol keys. */
  function KeyCount(row: ChartRow): nat {
    |{"time"} + row.prices.Keys|
  }

  /** Some selected coin has a price in the point. */
  predicate AnyPlotted(point: Point, coins: seq<Coin>) {
    exists i :: 0 <= i < |coins| && Plotted(point, coins[i])
  }

  /**
   The chart's filter `keys.length > 1` keeps a row exactly when some coin is plotted in it:
   an upper-cased symbol is never "time", so every symbol key adds to the count.
   */
  lemma KeyCountCountsPlotted(point: Point, coins: seq<Coin>)
    ensures KeyCount(RowFor(point, coins)) > 1 <==> AnyPlotted(point, coins)
  {
    var prices := RowPrices(point, coins);
    RowPricesKeys(point, coins);
    var keys := {"time"} + prices.Keys;
    if AnyPlotted(point, coins) {
      var i :| 0 <= i < |coins| && Plotted(point, coins[i]);
      var k := ToUpper(coins[i].symbol.value);
      UpperHasNoLowercase(coins[i].symbol.value);
      assert {"time", k} <= keys;
      assert |{"time", k}| == 2;
      SubsetCardinality({"time", k}, keys);
    } else {
      assert prices.Keys == {};
      assert keys == {"time"};
    }
  }

  lemma {:induction false} SubsetCardinality<T>(a: set<T>, b: set<T>)
    requires a <= b
    ensures |a| <= |b|
  {
    if a != {} {
      var x :| x in a;
      SubsetCardinality(a - {x}, b - {x});
    }
  }

  /** A row has prices exactly when some coin is plotted in its point. */
  lemma PlottedRowNonEmpty(point: Point, coins: seq<Coin>)
    ensures RowPrices(point, coins) != map[] <==> AnyPlotted(point, coins)
  {
    RowPricesKeys(point, coins);
    if AnyPlotted(point, coins) {
      var i :| 0 <= i < |coins| && Plotted(point, coins[i]);
      assert ToUpper(coins[i].symbol.value) in RowPrices(point, coins);
    } else if RowPrices(point, coins) != map[] {
      var k :| k in RowPrices(point, coins);
    }
  }

  /** The chart rows for the history, in order, dropping the points where no coin is plotted. */
  function ChartRows(history: seq<Point>, coins: seq<Coin>): (r: seq<ChartRow>)
    ensures |r| <= |history|
    ensures forall i :: 0 <= i < |r| ==> r[i].prices != map[]
    ensures r == [] <==> forall j :: 0 <= j < |history| ==> !AnyPlotted(history[j], coins)
    ensures |history| == 1 ==> r == (if AnyPlotted(history[0], coins) then [RowFor(history[0], coins)] else [])
  {
    if |history| == 0 then []
    else
      var row := RowFor(history[0], coins);
      var rest := ChartRows(history[1..], coins);
      KeyCountCountsPlotted(history[0], coins);
      assert forall j :: 1 <= j < |history| ==> history[j] == history[1..][j - 1];
      PlottedRowNonEmpty(history[0], coins);
      if KeyCount(row) > 1 then [row] + rest else rest
  }

  /** The rows follow the history's order: a history split in two gives the rows of each part, one after the other. */
  lemma {:induction false} ChartRowsAppend(a: seq<Point>, b: seq<Point>, coins: seq<Coin>)
    ensures ChartRows(a + b, coins) == ChartRows(a, coins) + ChartRows(b, coins)
  {
    if |a| == 0 {
      assert a + b == b;
    } else {
      assert (a + b)[0] == a[0];
      assert (a + b)[1..] == a[1..] + b;
      ChartRowsAppend(a[1..], b, coins);
    }
  }

  /** Every row is the row of a history point where some coin is plotted. */
  lemma {:induction false} ChartRowsSound(history: seq<Point>, coins: seq<Coin>)
    ensures forall i :: 0 <= i < |ChartRows(history, coins)| ==>
      exists j :: 0 <= j < |history| && AnyPlotted(history[j], coins) && ChartRows(history, coins)[i] == RowFor(history[j], coins)
  {
    if |history| > 0 {
      var tail := history[1..];
      ChartRowsSound(tail, coins);
      KeyCountCountsPlotted(history[0], coins);
      var rows := ChartRows(history, coins);
      var rest := ChartRows(tail, coins);
      var off := if AnyPlotted(history[0], coins) then 1 else 0;
      assert rows == (if off == 1 then [RowFor(history[0], coins)] + rest else rest);
      forall i | 0 <= i < |rows|
        ensures exists j :: 0 <= j < |history| && AnyPlotted(history[j], coins) && rows[i] == RowFor(history[j], coins)
      {
        if i < off {
          assert rows[i] == RowFor(history[0], coins);
        } else {
          assert rows[i] == rest[i - off];
          var j :| 0 <= j < |tail| && AnyPlotted(tail[j], coins) && rest[i - off] == RowFor(tail[j], coins);
          assert history[j + 1] == tail[j];
        }
      }
    } else {
      assert |ChartRows(history, coins)| == 0;
    }
  }

  /** Every history point where some coin is plotted has its row among the chart rows. */
  lemma {:induction false} ChartRowsComplete(history: seq<Point>, coins: seq<Coin>)
    ensures forall j :: 0 <= j < |history| && AnyPlotted(history[j], coins) ==> RowFor(history[j], coins) in ChartRows(history, coins)
  {
    if |history| > 0 {
      var tail := history[1..];
      ChartRowsComplete(tail, coins);
      KeyCountCountsPlotted(history[0], coins);
      var rows := ChartRows(history, coins);
      var rest := ChartRows(tail, coins);
      assert rows == (if AnyPlotted(history[0], coins) then [RowFor(history[0], coins)] + rest else rest);
      forall j | 0 <= j < |history| && AnyPlotted(history[j], coins)
        ensures RowFor(history[j], coins) in rows
      {
        if j > 0 {
          assert history[j] == tail[j - 1];
        }
      }
    }
  }

  /** `chartData`: no rows without history or without selected coins; otherwise the rows of the points where a selected coin is plotted. */
  function ChartData(history: seq<Point>, selected: seq<Coin>): (r: seq<ChartRow>)
    ensures |history| == 0 || |selected| == 0 ==> r == []
    ensures |r| <= |history|
    ensures forall i :: 0 <= i < |r| ==> r[i].prices != map[]
    ensures forall i :: 0 <= i < |r| ==>
      exists j :: 0 <= j < |history| && AnyPlotted(history[j], selected) && r[i] == RowFor(history[j], selected)
    ensures forall j :: 0 <= j < |history| && AnyPlotted(history[j], selected) ==> RowFor(history[j], selected) in r
  {
    if |history| == 0 || |selected| == 0 then []
    else
      ChartRowsSound(history, selected);
      ChartRowsComplete(history, selected);
      ChartRows(history, selected)
  }

  // ---------------------------------------------------------------- refresh

  datatype PageState = PageState(history: seq<Point>, reports: seq<CoinReport>)

  /**
   One refresh of the page. With no selected ids the history and reports are cleared. When no
   selected coin has both id and symbol nothing changes. Otherwise the prices are fetched for
   the id/symbol pairs, a point is appended (even when the fetch failed and the map is empty)
   and the reports are recomputed against the point before it.
   */
  function Refresh(state: PageState, allCoins: seq<Coin>, selectedIds: seq<string>,
                   http: string -> Reply<CryptoComparePriceResponse>, time: string, timestamp: int): (r: PageState)
    ensures |selectedIds| == 0 ==> r == PageState([], [])
    ensures |selectedIds| > 0 && CoinsForApi(SelectedCoins(allCoins, selectedIds)) == [] ==> r == state
    ensures |selectedIds| > 0 && CoinsForApi(SelectedCoins(allCoins, selectedIds)) != [] ==>
      var selected := SelectedCoins(allCoins, selectedIds);
      var prices := CoinsService.GetMultipleCoinsPricesBySymbols(CoinsForApi(selected), http);
      var previous := LastPoint(state.history);
      && r.history == AppendPoint(state.history, NewPoint(previous, selected, prices, time, timestamp))
      && r.reports == ComputeReports(selected, prices, previous)
  {
    if |selectedIds| == 0 then PageState([], [])
    else
      var selected := SelectedCoins(allCoins, selectedIds);
      var pairs := CoinsForApi(selected);
      if |pairs| == 0 then state
      else
        var prices := CoinsService.GetMultipleCoinsPricesBySymbols(pairs, http);
        var previous := LastPoint(state.history);
        PageState(AppendPoint(state.history, NewPoint(previous, selected, prices, time, timestamp)),
                  ComputeReports(selected, prices, previous))
  }

  /** The history never exceeds thirty points, and a well-formed history stays well formed at non-negative quotes. */
  lemma RefreshKeepsHistory(state: PageState, allCoins: seq<Coin>, selectedIds: seq<string>,
                            http: string -> Reply<CryptoComparePriceResponse>, time: string, timestamp: int)
    requires |state.history| <= HistoryLimit && WellFormedHistory(state.history)
    requires timestamp >= 0
    requires QuotesNonNegative(http)
    ensures var r := Refresh(state, allCoins, selectedIds, http, time, timestamp);
      |r.history| <= HistoryLimit && WellFormedHistory(r.history)
  {
    var selected := SelectedCoins(allCoins, selectedIds);
    var pairs := CoinsForApi(selected);
    if |selectedIds| > 0 && |pairs| > 0 {
      var prices := CoinsService.GetMultipleCoinsPricesBySymbols(pairs, http);
      var previous := LastPoint(state.history);
      PricesNonNegative(pairs, http);
      NewPointWellFormed(previous, selected, prices, time, timestamp);
      AppendKeepsWellFormed(state.history, NewPoint(previous, selected, prices, time, timestamp));
    }
  }

  /** Every USD quote any response carries is non-negative. */
  ghost predicate QuotesNonNegative(http: string -> Reply<CryptoComparePriceResponse>) {
    forall url, s :: http(url).Received? && s in http(url).body && http(url).body[s].USD.Some? ==> http(url).body[s].USD.value >= 0.0
  }

  /** Every price the service hands back is one of the response's quotes, so it is non-negative when they all are. */
  lemma PricesNonNegative(pairs: seq<CoinsService.IdSymbol>, http: string -> Reply<CryptoComparePriceResponse>)
    requires QuotesNonNegative(http)
    ensures forall k :: k in CoinsService.GetMultipleCoinsPricesBySymbols(pairs, http) ==>
      CoinsService.GetMultipleCoinsPricesBySymbols(pairs, http)[k] >= 0.0
  {
    var prices := CoinsService.GetMultipleCoinsPricesBySymbols(pairs, http);
    forall k | k in prices ensures prices[k] >= 0.0 {
      var url := CoinsService.BySymbolsRequest(pairs).value;
      var body := http(url).body;
      var i := CoinsService.QuotedPair(CoinsService.ValidCoins(pairs), body, k);
    }
  }

  /** When every request fails the service hands back no price. */
  lemma FailedFetchGivesNoPrices(pairs: seq<CoinsService.IdSymbol>, http: string -> Reply<CryptoComparePriceResponse>)
    requires forall url :: http(url).Failed?
    ensures CoinsService.GetMultipleCoinsPricesBySymbols(pairs, http) == map[]
  {
  }

  /**
   The page looks prices up by the coin's id as it is, while the service keys them by the
   trimmed id: a coin whose id starts or ends with white space gets no candle and always
   reports a current price of 0.
   */
  lemma PaddedIdNeverPriced(pairs: seq<CoinsService.IdSymbol>, http: string -> Reply<CryptoComparePriceResponse>,
                            previous: Option<Point>, coins: seq<Coin>, time: string, timestamp: int, coin: Coin)
    requires HasId(coin) && (IsWhitespace(coin.id.value[0]) || IsWhitespace(coin.id.value[|coin.id.value| - 1]))
    ensures coin.id.value !in CoinsService.GetMultipleCoinsPricesBySymbols(pairs, http)
    ensures coin.id.value !in NewPoint(previous, coins, CoinsService.GetMultipleCoinsPricesBySymbols(pairs, http), time, timestamp)
    ensures ReportFor(coin, CoinsService.GetMultipleCoinsPricesBySymbols(pairs, http), previous).currentPrice == 0.0
  {
    CoinsService.PricedIdsAreTrimmed(pairs, http);
    assert coin.id.value != "time" && coin.id.value != "timestamp";
  }

  /** Without prices the new point holds only the time label and the timestamp. */
  lemma NoPricesNoCandles(previous: Option<Point>, coins: seq<Coin>, time: string, timestamp: int)
    ensures NewPoint(previous, coins, map[], time, timestamp) == map["time" := Text(time), "timestamp" := Number(timestamp as real)]
  {
  }

  /** A refresh whose fetch fails still appends a point, one with only the time label and timestamp, and reports every current price as 0. */
  lemma FailedFetchAppendsBarePoint(state: PageState, allCoins: seq<Coin>, selectedIds: seq<string>,
                                    http: string -> Reply<CryptoComparePriceResponse>, time: string, timestamp: int)
    requires |selectedIds| > 0 && CoinsForApi(SelectedCoins(allCoins, selectedIds)) != []
    requires forall url :: http(url).Failed?
    ensures var r := Refresh(state, allCoins, selectedIds, http, time, timestamp);
      && LastPoint(r.history) == Some(map["time" := Text(time), "timestamp" := Number(timestamp as real)])
      && forall i :: 0 <= i < |r.reports| ==> r.reports[i].currentPrice == 0.0
  {
    var selected := SelectedCoins(allCoins, selectedIds);
    FailedFetchGivesNoPrices(CoinsForApi(selected), http);
    NoPricesNoCandles(LastPoint(state.history), selected, time, timestamp);
  }
}
