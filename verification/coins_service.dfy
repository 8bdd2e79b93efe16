/**
 The response shaping of the CoinGecko / CryptoCompare client. Each HTTP GET is the
 function `http` applied to the requested URL; `Failed` stands for the error axios throws,
 which every method but `getCoinsList` catches and turns into `null` or an empty map.
 */
module CoinsService {
  import opened Wrappers
  import opened JsStrings
  import opened ApiTypes
  import opened CoinsModel
  import AppConfig

  const IdPlaceholder: string := "{id}"
  const SymbolsPlaceholder: string := "{symbols}"

  /** `getCoinsList`: the list request's error is rethrown, its body returned as is. */
  function GetCoinsList(reply: Reply<seq<Coin>>): (r: Reply<seq<Coin>>)
    ensures r.Failed? <==> reply.Failed?
    ensures r.Received? ==> r.body == reply.body
  {
    reply
  }

  /** Filling the `{id}` placeholder of the CoinGecko price template puts the ids between its query prefix and suffix. */
  lemma CoinPriceUrlFilled(ids: string)
    ensures ReplaceFirst(AppConfig.CoinPriceUrl, IdPlaceholder, ids)
         == AppConfig.CoinPriceUrlPrefix + ids + AppConfig.CoinPriceUrlSuffix
  {
    AppConfig.PricePrefixHasNoBrace();
    ReplaceSinglePlaceholder(AppConfig.CoinPriceUrlPrefix, IdPlaceholder, AppConfig.CoinPriceUrlSuffix, ids);
  }

  lemma CoinDetailsUrlFilled(id: string)
    ensures ReplaceFirst(AppConfig.CoinDetailsUrl, IdPlaceholder, id) == AppConfig.CoinDetailsUrlPrefix + id
  {
    AppConfig.DetailsPrefixHasNoBrace();
    ReplaceSinglePlaceholder(AppConfig.CoinDetailsUrlPrefix, IdPlaceholder, "", id);
    assert AppConfig.CoinDetailsUrlPrefix + IdPlaceholder + "" == AppConfig.CoinDetailsUrl;
  }

  lemma PriceMultiUrlFilled(symbols: string)
    ensures ReplaceFirst(AppConfig.CryptoComparePriceMultiUrl, SymbolsPlaceholder, symbols)
         == AppConfig.CryptoComparePriceMultiUrlPrefix + symbols
  {
    AppConfig.PriceMultiPrefixHasNoBrace();
    ReplaceSinglePlaceholder(AppConfig.CryptoComparePriceMultiUrlPrefix, SymbolsPlaceholder, "", symbols);
    assert AppConfig.CryptoComparePriceMultiUrlPrefix + SymbolsPlaceholder + "" == AppConfig.CryptoComparePriceMultiUrl;
  }

  // ---------------------------------------------------------------- getCoinPrices

  /** The URL `getCoinPrices` requests; `None` when the trimmed id is empty and no request is made. */
  function CoinPriceRequest(coinId: string): (r: Option<string>)
    ensures r.None? <==> Trim(coinId) == ""
    ensures r.Some? ==> r.value == AppConfig.CoinPriceUrlPrefix + Trim(coinId) + AppConfig.CoinPriceUrlSuffix
  {
    var id := Trim(coinId);
    CoinPriceUrlFilled(id);
    if id == "" then None else Some(ReplaceFirst(AppConfig.CoinPriceUrl, IdPlaceholder, id))
  }

  /** `getCoinPrices`: the entry under the trimmed id, provided it has a USD price; EUR and ILS default to 0. */
  function GetCoinPrices(coinId: string, http: string -> Reply<CoinGeckoPriceResponse>): (r: Option<CoinPriceData>)
    ensures Trim(coinId) == "" ==> r == None
    ensures Trim(coinId) != "" ==>
      var id := Trim(coinId);
      var reply := http(AppConfig.CoinPriceUrlPrefix + id + AppConfig.CoinPriceUrlSuffix);
      && (r.Some? <==> reply.Received? && id in reply.body && reply.body[id].usd.Some?)
      && (r.Some? ==> r.value == CoinPriceData(reply.body[id].usd.value, reply.body[id].eur.GetOr(0.0), reply.body[id].ils.GetOr(0.0)))
  {
    match CoinPriceRequest(coinId)
    case None => None
    case Some(url) =>
      var id := Trim(coinId);
      match http(url)
      case Failed => None
      case Received(body) =>
        if id in body && body[id].usd.Some? then
          var prices := body[id];
          Some(CoinPriceData(prices.usd.value, prices.eur.GetOr(0.0), prices.ils.GetOr(0.0)))
        else None
  }

  // ---------------------------------------------------------------- getCoinDetails / getCoinDetailsWithMarketData

  /** The URL `getCoinDetails` and `getCoinDataForRecommendation` request, or `None` for a blank id. */
  function CoinDetailsRequest(coinId: string): (r: Option<string>)
    ensures r.None? <==> Trim(coinId) == ""
    ensures r.Some? ==> r.value == AppConfig.CoinDetailsUrlPrefix + Trim(coinId)
  {
    var id := Trim(coinId);
    CoinDetailsUrlFilled(id);
    if id == "" then None else Some(ReplaceFirst(AppConfig.CoinDetailsUrl, IdPlaceholder, id))
  }

  /** `getCoinDetails`: the body of the details request, `None` for a blank id or a failed request. */
  function GetCoinDetails(coinId: string, http: string -> Reply<CoinGeckoCoinDetailsResponse>): (r: Option<CoinGeckoCoinDetailsResponse>)
    ensures Trim(coinId) == "" ==> r == None
    ensures Trim(coinId) != "" ==>
      var reply := http(AppConfig.CoinDetailsUrlPrefix + Trim(coinId));
      (r.Some? <==> reply.Received?) && (r.Some? ==> r.value == reply.body)
  {
    match CoinDetailsRequest(coinId)
    case None => None
    case Some(url) => if http(url).Received? then Some(http(url).body) else None
  }

  /** `getCoinDetailsWithMarketData`: as `getCoinDetails`, asking for the market data section. */
  function GetCoinDetailsWithMarketData(coinId: string, http: string -> Reply<CoinGeckoCoinDetailsResponse>): (r: Option<CoinGeckoCoinDetailsResponse>)
    ensures Trim(coinId) == "" ==> r == None
    ensures Trim(coinId) != "" ==>
      var reply := http(AppConfig.CoinDetailsUrlPrefix + Trim(coinId) + "?market_data=true");
      (r.Some? <==> reply.Received?) && (r.Some? ==> r.value == reply.body)
  {
    match CoinDetailsRequest(coinId)
    case None => None
    case Some(url) =>
      var reply := http(url + "?market_data=true");
      if reply.Received? then Some(reply.body) else None
  }

  // ---------------------------------------------------------------- getMultipleCoinsPrices

  /** The ids trimmed, the empty ones dropped, in the caller's order. */
  function ValidIds(coinIds: seq<string>): (r: seq<string>)
    ensures |r| <= |coinIds|
    ensures forall k :: 0 <= k < |r| ==> r[k] != "" && exists j :: 0 <= j < |coinIds| && r[k] == Trim(coinIds[j])
    ensures forall j :: 0 <= j < |coinIds| && Trim(coinIds[j]) != "" ==> Trim(coinIds[j]) in r
    ensures |coinIds| == 1 ==> r == (if Trim(coinIds[0]) == "" then [] else [Trim(coinIds[0])])
  {
    if |coinIds| == 0 then []
    else
      var id := Trim(coinIds[0]);
      var rest := ValidIds(coinIds[1..]);
      assert forall j :: 1 <= j < |coinIds| ==> coinIds[j] == coinIds[1..][j - 1];
      if id == "" then rest else [id] + rest
  }

  /** Filtering distributes over concatenation, so the kept ids stay in the caller's order, repeats included. */
  lemma {:induction false} ValidIdsAppend(a: seq<string>, b: seq<string>)
    ensures ValidIds(a + b) == ValidIds(a) + ValidIds(b)
  {
    if |a| == 0 {
      assert a + b == b;
    } else {
      assert (a + b)[1..] == a[1..] + b;
      ValidIdsAppend(a[1..], b);
    }
  }

  /** The URL `getMultipleCoinsPrices` requests: the valid ids comma-joined; `None` when there is none. */
  function MultiplePricesRequest(coinIds: seq<string>): (r: Option<string>)
    ensures r.None? <==> forall j :: 0 <= j < |coinIds| ==> Trim(coinIds[j]) == ""
    ensures r.Some? ==> r.value == AppConfig.CoinPriceUrlPrefix + Join(ValidIds(coinIds), ',') + AppConfig.CoinPriceUrlSuffix
  {
    var valid := ValidIds(coinIds);
    var ids := Join(valid, ',');
    CoinPriceUrlFilled(ids);
    if |valid| == 0 then None else Some(ReplaceFirst(AppConfig.CoinPriceUrl, IdPlaceholder, ids))
  }

  /** `getMultipleCoinsPrices`: every key of the response that has a USD price, mapped to it. */
  function GetMultipleCoinsPrices(coinIds: seq<string>, http: string -> Reply<CoinGeckoPriceResponse>): (r: map<string, real>)
    ensures ValidIds(coinIds) == [] ==> r == map[]
    ensures ValidIds(coinIds) != [] ==>
      match http(AppConfig.CoinPriceUrlPrefix + Join(ValidIds(coinIds), ',') + AppConfig.CoinPriceUrlSuffix)
      case Failed => r == map[]
      case Received(body) =>
        && (forall k :: k in r <==> k in body && body[k].usd.Some?)
        && (forall k :: k in r ==> r[k] == body[k].usd.value)
  {
    match MultiplePricesRequest(coinIds)
    case None => map[]
    case Some(url) =>
      match http(url)
      case Failed => map[]
      case Received(body) => map k | k in body && body[k].usd.Some? :: body[k].usd.value
  }

  /** When no id contains a comma, the server splitting the `ids` parameter gets back exactly the valid ids. */
  lemma MultiplePricesQueryRoundTrip(coinIds: seq<string>)
    requires forall j :: 0 <= j < |coinIds| ==> ',' !in coinIds[j]
    ensures ValidIds(coinIds) != [] ==> Split(Join(ValidIds(coinIds), ','), ',') == ValidIds(coinIds)
  {
    var valid := ValidIds(coinIds);
    forall k | 0 <= k < |valid| ensures ',' !in valid[k] {
      var j :| 0 <= j < |coinIds| && valid[k] == Trim(coinIds[j]);
      TrimKeepsOut(coinIds[j], ',');
    }
    if valid != [] {
      SplitJoin(valid, ',');
    }
  }

  // ---------------------------------------------------------------- getMultipleCoinsPricesBySymbols

  datatype IdSymbol = IdSymbol(id: string, symbol: string)

  /** A pair with its id and symbol trimmed. */
  function Normalize(c: IdSymbol): IdSymbol {
    IdSymbol(Trim(c.id), Trim(c.symbol))
  }

  /** Both id and symbol non-empty. */
  predicate Complete(c: IdSymbol) {
    c.id != "" && c.symbol != ""
  }

  /** The pairs normalized, keeping the complete ones, in order. */
  function ValidCoins(coins: seq<IdSymbol>): (r: seq<IdSymbol>)
    ensures |r| <= |coins|
    ensures forall k :: 0 <= k < |r| ==> Complete(r[k]) && exists j :: 0 <= j < |coins| && r[k] == Normalize(coins[j])
    ensures forall j :: 0 <= j < |coins| && Complete(Normalize(coins[j])) ==> Normalize(coins[j]) in r
    ensures |coins| == 1 ==> r == (if Complete(Normalize(coins[0])) then [Normalize(coins[0])] else [])
  {
    if |coins| == 0 then []
    else
      var c := Normalize(coins[0]);
      var rest := ValidCoins(coins[1..]);
      assert forall j :: 1 <= j < |coins| ==> coins[j] == coins[1..][j - 1];
      if !Complete(c) then rest else [c] + rest
  }

  /** Filtering distributes over concatenation, so the kept pairs stay in the caller's order, repeats included. */
  lemma {:induction false} ValidCoinsAppend(a: seq<IdSymbol>, b: seq<IdSymbol>)
    ensures ValidCoins(a + b) == ValidCoins(a) + ValidCoins(b)
  {
    if |a| == 0 {
      assert a + b == b;
    } else {
      assert (a + b)[1..] == a[1..] + b;
      ValidCoinsAppend(a[1..], b);
    }
  }

  /** The upper-cased symbols, in order. */
  function UpperSymbols(coins: seq<IdSymbol>): (r: seq<string>)
    ensures |r| == |coins|
    ensures forall k :: 0 <= k < |r| ==> r[k] == ToUpper(coins[k].symbol)
  {
    if |coins| == 0 then [] else [ToUpper(coins[0].symbol)] + UpperSymbols(coins[1..])
  }

  /** The URL `getMultipleCoinsPricesBySymbols` requests; `None` when no pair is valid. */
  function BySymbolsRequest(coins: seq<IdSymbol>): (r: Option<string>)
    ensures r.None? <==> forall j :: 0 <= j < |coins| ==> !Complete(Normalize(coins[j]))
    ensures r.Some? ==> r.value == AppConfig.CryptoComparePriceMultiUrlPrefix + Join(UpperSymbols(ValidCoins(coins)), ',')
  {
    var valid := ValidCoins(coins);
    var symbols := Join(UpperSymbols(valid), ',');
    PriceMultiUrlFilled(symbols);
    if |valid| == 0 then None else Some(ReplaceFirst(AppConfig.CryptoComparePriceMultiUrl, SymbolsPlaceholder, symbols))
  }

  /** When no symbol contains a comma, the server splitting the `fsyms` parameter gets back exactly the upper-cased symbols. */
  lemma BySymbolsQueryRoundTrip(coins: seq<IdSymbol>)
    requires forall j :: 0 <= j < |coins| ==> ',' !in coins[j].symbol
    ensures ValidCoins(coins) != [] ==> Split(Join(UpperSymbols(ValidCoins(coins)), ','), ',') == UpperSymbols(ValidCoins(coins))
  {
    var valid := ValidCoins(coins);
    var symbols := UpperSymbols(valid);
    forall k | 0 <= k < |symbols| ensures ',' !in symbols[k] {
      var j := ValidCoinOrigin(coins, k);
      TrimKeepsOut(coins[j].symbol, ',');
      UpperKeepsOut(valid[k].symbol, ',');
    }
    if symbols != [] {
      SplitJoin(symbols, ',');
    }
  }

  /** The USD quote the response holds for a pair's upper-cased symbol. */
  function Quote(body: CryptoComparePriceResponse, c: IdSymbol): Option<real> {
    var symbol := ToUpper(c.symbol);
    if symbol in body then body[symbol].USD else None
  }

  /**
   The `forEach` filling the result map: each pair with a quote sets its id, a later pair
   overwriting an earlier one with the same id.
   */
  function QuotesById(valid: seq<IdSymbol>, body: CryptoComparePriceResponse): (r: map<string, real>)
    ensures |r| <= |valid|
  {
    if |valid| == 0 then map[]
    else
      var c := valid[|valid| - 1];
      var m := QuotesById(valid[..|valid| - 1], body);
      match Quote(body, c)
      case Some(usd) => m[c.id := usd]
      case None => m
  }

  /** Every key is the id of a pair with a quote, valued by one such quote. */
  lemma {:induction false} QuotesByIdSound(valid: seq<IdSymbol>, body: CryptoComparePriceResponse)
    ensures forall k :: k in QuotesById(valid, body) ==>
      exists i :: 0 <= i < |valid| && valid[i].id == k && Quote(body, valid[i]) == Some(QuotesById(valid, body)[k])
  {
    if |valid| > 0 {
      var init := valid[..|valid| - 1];
      var c := valid[|valid| - 1];
      var m := QuotesById(init, body);
      var r := QuotesById(valid, body);
      QuotesByIdSound(init, body);
      forall k | k in r
        ensures exists i :: 0 <= i < |valid| && valid[i].id == k && Quote(body, valid[i]) == Some(r[k])
      {
        if k == c.id && Quote(body, c).Some? {
          assert valid[|valid| - 1].id == k;
        } else {
          assert r == m || r == m[c.id := Quote(body, c).value];
          assert k in m && r[k] == m[k];
          var i :| 0 <= i < |init| && init[i].id == k && Quote(body, init[i]) == Some(m[k]);
          assert valid[i] == init[i];
        }
      }
    }
  }

  /** Every pair with a quote has its id as a key. */
  lemma {:induction false} QuotesByIdComplete(valid: seq<IdSymbol>, body: CryptoComparePriceResponse)
    ensures forall i :: 0 <= i < |valid| && Quote(body, valid[i]).Some? ==> valid[i].id in QuotesById(valid, body)
  {
    if |valid| > 0 {
      var init := valid[..|valid| - 1];
      var r := QuotesById(valid, body);
      QuotesByIdComplete(init, body);
      forall i | 0 <= i < |valid| && Quote(body, valid[i]).Some?
        ensures valid[i].id in r
      {
        if i < |init| {
          assert valid[i] == init[i];
        }
      }
    }
  }

  /** Every key is the id of a pair with a quote, valued by one such quote; every pair with a quote has its id as a key. */
  lemma {:induction false} QuotesByIdKeys(valid: seq<IdSymbol>, body: CryptoComparePriceResponse)
    ensures forall k :: k in QuotesById(valid, body) ==>
      exists i :: 0 <= i < |valid| && valid[i].id == k && Quote(body, valid[i]) == Some(QuotesById(valid, body)[k])
    ensures forall i :: 0 <= i < |valid| && Quote(body, valid[i]).Some? ==> valid[i].id in QuotesById(valid, body)
  {
    QuotesByIdSound(valid, body);
    QuotesByIdComplete(valid, body);
  }

  /** The pair processed last wins: a pair with a quote whose id no later pair repeats leaves exactly its quote under its id. */
  lemma {:induction false} QuotesByIdLastWins(valid: seq<IdSymbol>, body: CryptoComparePriceResponse, i: nat)
    requires i < |valid| && Quote(body, valid[i]).Some?
    requires forall j :: i < j < |valid| && Quote(body, valid[j]).Some? ==> valid[j].id != valid[i].id
    ensures valid[i].id in QuotesById(valid, body)
    ensures QuotesById(valid, body)[valid[i].id] == Quote(body, valid[i]).value
  {
    var init := valid[..|valid| - 1];
    var c := valid[|valid| - 1];
    if i < |valid| - 1 {
      assert init[i] == valid[i];
      forall j | i < j < |init| && Quote(body, init[j]).Some? ensures init[j].id != init[i].id {
        assert init[j] == valid[j];
      }
      QuotesByIdLastWins(init, body, i);
      if Quote(body, c).Some? {
        assert c.id != valid[i].id;
      }
    }
  }

  /** The pairs are applied in order: the map for `a + b` is the map for `a` overridden by the map for `b`. */
  lemma {:induction false} QuotesByIdAppend(a: seq<IdSymbol>, b: seq<IdSymbol>, body: CryptoComparePriceResponse)
    ensures QuotesById(a + b, body) == QuotesById(a, body) + QuotesById(b, body)
  {
    if |b| == 0 {
      assert a + b == a;
    } else {
      var init := b[..|b| - 1];
      var c := b[|b| - 1];
      assert (a + b)[..|a + b| - 1] == a + init;
      assert (a + b)[|a + b| - 1] == c;
      QuotesByIdAppend(a, init, body);
    }
  }

  /** `getMultipleCoinsPricesBySymbols`: the quotes of the valid pairs keyed by coin id; an empty map when nothing is valid or the request fails. */
  function GetMultipleCoinsPricesBySymbols(coins: seq<IdSymbol>, http: string -> Reply<CryptoComparePriceResponse>): (r: map<string, real>)
    ensures ValidCoins(coins) == [] ==> r == map[]
    ensures ValidCoins(coins) != [] ==>
      match http(AppConfig.CryptoComparePriceMultiUrlPrefix + Join(UpperSymbols(ValidCoins(coins)), ','))
      case Failed => r == map[]
      case Received(body) => r == QuotesById(ValidCoins(coins), body)
  {
    match BySymbolsRequest(coins)
    case None => map[]
    case Some(url) =>
      match http(url)
      case Failed => map[]
      case Received(body) => QuotesById(ValidCoins(coins), body)
  }

  /** A pair that put key `k` into the map. */
  lemma QuotedPair(valid: seq<IdSymbol>, body: CryptoComparePriceResponse, k: string) returns (i: nat)
    requires k in QuotesById(valid, body)
    ensures i < |valid| && valid[i].id == k && Quote(body, valid[i]) == Some(QuotesById(valid, body)[k])
  {
    QuotesByIdKeys(valid, body);
    i :| 0 <= i < |valid| && valid[i].id == k && Quote(body, valid[i]) == Some(QuotesById(valid, body)[k]);
  }

  /** The caller's pair a valid pair came from. */
  lemma ValidCoinOrigin(coins: seq<IdSymbol>, i: nat) returns (j: nat)
    requires i < |ValidCoins(coins)|
    ensures j < |coins| && ValidCoins(coins)[i] == Normalize(coins[j]) && Complete(Normalize(coins[j]))
  {
    j :| 0 <= j < |coins| && ValidCoins(coins)[i] == Normalize(coins[j]);
  }

  /** In terms of the caller's pairs: every key is the id of a complete normalized pair, valued by that pair's quote. */
  lemma BySymbolsKeysSound(coins: seq<IdSymbol>, body: CryptoComparePriceResponse)
    ensures forall k :: k in QuotesById(ValidCoins(coins), body) ==>
      exists j ::
        && 0 <= j < |coins| && Complete(Normalize(coins[j])) && Normalize(coins[j]).id == k
        && Quote(body, Normalize(coins[j])) == Some(QuotesById(ValidCoins(coins), body)[k])
  {
    var valid := ValidCoins(coins);
    forall k | k in QuotesById(valid, body)
      ensures exists j ::
        && 0 <= j < |coins| && Complete(Normalize(coins[j])) && Normalize(coins[j]).id == k
        && Quote(body, Normalize(coins[j])) == Some(QuotesById(valid, body)[k])
    {
      var i := QuotedPair(valid, body, k);
      var j := ValidCoinOrigin(coins, i);
    }
  }

  /** In terms of the caller's pairs: every complete normalized pair with a quote has its id as a key. */
  lemma BySymbolsKeysComplete(coins: seq<IdSymbol>, body: CryptoComparePriceResponse)
    ensures forall j :: 0 <= j < |coins| && Complete(Normalize(coins[j])) && Quote(body, Normalize(coins[j])).Some? ==>
      Normalize(coins[j]).id in QuotesById(ValidCoins(coins), body)
  {
    var valid := ValidCoins(coins);
    QuotesByIdKeys(valid, body);
    forall j | 0 <= j < |coins| && Complete(Normalize(coins[j])) && Quote(body, Normalize(coins[j])).Some?
      ensures Normalize(coins[j]).id in QuotesById(valid, body)
    {
      var i :| 0 <= i < |valid| && valid[i] == Normalize(coins[j]);
    }
  }

  /** The quotes are keyed by trimmed ids: no key starts or ends with white space. */
  lemma QuoteKeysTrimmed(coins: seq<IdSymbol>, body: CryptoComparePriceResponse)
    ensures forall k :: k in QuotesById(ValidCoins(coins), body) ==>
      |k| > 0 && !IsWhitespace(k[0]) && !IsWhitespace(k[|k| - 1])
  {
    var valid := ValidCoins(coins);
    forall k | k in QuotesById(valid, body)
      ensures |k| > 0 && !IsWhitespace(k[0]) && !IsWhitespace(k[|k| - 1])
    {
      var i := QuotedPair(valid, body, k);
      var j := ValidCoinOrigin(coins, i);
      assert k == Trim(coins[j].id);
      TrimEdges(coins[j].id);
    }
  }

  /** So are the prices the service hands back. */
  lemma PricedIdsAreTrimmed(coins: seq<IdSymbol>, http: string -> Reply<CryptoComparePriceResponse>)
    ensures forall k :: k in GetMultipleCoinsPricesBySymbols(coins, http) ==>
      |k| > 0 && !IsWhitespace(k[0]) && !IsWhitespace(k[|k| - 1])
  {
    var valid := ValidCoins(coins);
    if valid != [] {
      var reply := http(AppConfig.CryptoComparePriceMultiUrlPrefix + Join(UpperSymbols(valid), ','));
      if reply.Received? {
        QuoteKeysTrimmed(coins, reply.body);
      }
    }
  }

  // ---------------------------------------------------------------- getCoinDataForRecommendation

  /** `amounts?.usd ?? 0`. */
  function UsdOrZero(amounts: Option<CurrencyAmounts>): (r: real)
    ensures amounts.Some? && amounts.value.usd.Some? ==> r == amounts.value.usd.value
    ensures amounts.None? || amounts.value.usd.None? ==> r == 0.0
  {
    match amounts
    case Some(a) => a.usd.GetOr(0.0)
    case None => 0.0
  }

  /** The shaping of a details reply: `None` without market data; otherwise the name (or "") and each USD figure (or 0). */
  function RecommendationDataFrom(reply: Reply<CoinGeckoCoinDetailsResponse>): (r: Option<CoinRecommendationData>)
    ensures r.Some? <==> reply.Received? && reply.body.marketData.Some?
    ensures r.Some? ==>
      var md := reply.body.marketData.value;
      && r.value.name == reply.body.name.GetOr("")
      && r.value.currentPriceUsd == UsdOrZero(md.currentPrice)
      && r.value.marketCapUsd == UsdOrZero(md.marketCap)
      && r.value.volume24hUsd == UsdOrZero(md.totalVolume)
      && r.value.priceChangePercentage30d == UsdOrZero(md.priceChangePercentage30d)
      && r.value.priceChangePercentage60d == UsdOrZero(md.priceChangePercentage60d)
      && r.value.priceChangePercentage200d == UsdOrZero(md.priceChangePercentage200d)
  {
    match reply
    case Failed => None
    case Received(details) =>
      match details.marketData
      case None => None
      case Some(md) =>
        Some(CoinRecommendationData(
          details.name.GetOr(""),
          UsdOrZero(md.currentPrice),
          UsdOrZero(md.marketCap),
          UsdOrZero(md.totalVolume),
          UsdOrZero(md.priceChangePercentage30d),
          UsdOrZero(md.priceChangePercentage60d),
          UsdOrZero(md.priceChangePercentage200d)))
  }

  /** `getCoinDataForRecommendation`: no request for a blank id; otherwise the shaping of the details reply. */
  function GetCoinDataForRecommendation(coinId: string, http: string -> Reply<CoinGeckoCoinDetailsResponse>): (r: Option<CoinRecommendationData>)
    ensures Trim(coinId) == "" ==> r == None
    ensures Trim(coinId) != "" ==> r == RecommendationDataFrom(http(AppConfig.CoinDetailsUrlPrefix + Trim(coinId)))
  {
    match CoinDetailsRequest(coinId)
    case None => None
    case Some(url) => RecommendationDataFrom(http(url))
  }
}
