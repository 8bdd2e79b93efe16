/**
 The shapes of the HTTP response bodies and of the values the services return.
 A field JavaScript may find `undefined` is an `Option`; a body is a map from the
 object's keys to their values.
 */
module ApiTypes {
  import opened Wrappers

  /** An amount in the three currencies the app asks for. */
  datatype CurrencyAmounts = CurrencyAmounts(usd: Option<real>, eur: Option<real>, ils: Option<real>)

  /** CoinGecko `simple/price`: coin id to its prices. */
  type CoinGeckoPriceResponse = map<string, CurrencyAmounts>

  datatype CoinGeckoMarketData = CoinGeckoMarketData(
    currentPrice: Option<CurrencyAmounts>,
    marketCap: Option<CurrencyAmounts>,
    totalVolume: Option<CurrencyAmounts>,
    priceChangePercentage30d: Option<CurrencyAmounts>,
    priceChangePercentage60d: Option<CurrencyAmounts>,
    priceChangePercentage200d: Option<CurrencyAmounts>)

  /** CoinGecko `coins/{id}`. The fields of the body that the app never reads are not kept. */
  datatype CoinGeckoCoinDetailsResponse = CoinGeckoCoinDetailsResponse(
    id: string,
    name: Option<string>,
    symbol: string,
    marketData: Option<CoinGeckoMarketData>)

  /** One CryptoCompare `pricemulti` entry; the service reads the upper-case `USD` field. */
  datatype UsdQuote = UsdQuote(USD: Option<real>)

  /** CryptoCompare `pricemulti`: upper-case symbol to its USD quote. */
  type CryptoComparePriceResponse = map<string, UsdQuote>

  datatype CoinPriceData = CoinPriceData(usd: real, eur: real, ils: real)

  datatype CoinRecommendationData = CoinRecommendationData(
    name: string,
    currentPriceUsd: real,
    marketCapUsd: real,
    volume24hUsd: real,
    priceChangePercentage30d: real,
    priceChangePercentage60d: real,
    priceChangePercentage200d: real)

  /** The outcome of one HTTP GET: the decoded body, or the error axios throws. */
  datatype Reply<+T> = Received(body: T) | Failed
}

/** The coin record the list endpoint returns, reduced to the fields the modelled code reads. */
module CoinsModel {
  import opened Wrappers

  datatype Coin = Coin(id: Option<string>, symbol: Option<string>, name: Option<string>)

  /** `coin.id` is truthy: present and not the empty string. */
  predicate HasId(c: Coin) {
    c.id.Some? && c.id.value != ""
  }

  /** `coin.symbol` is truthy. */
  predicate HasSymbol(c: Coin) {
    c.symbol.Some? && c.symbol.value != ""
  }
}

/** The endpoint templates; `{id}` and `{symbols}` are the placeholders the services fill in. */
module AppConfig {
  const CoinGeckoApi: string := "https://api.coingecko.com/" + "api/v3/"
  const CryptoCompareApi: string := "https://min-api.cryptocompare.com/" + "data/"

  const CoinListUrl: string := CoinGeckoApi + "coins/markets?vs_currency=usd"
  const CoinDetailsUrlPrefix: string := CoinGeckoApi + "coins/"
  const CoinDetailsUrl: string := CoinDetailsUrlPrefix + "{id}"
  const CoinPriceUrlPrefix: string := CoinGeckoApi + "simple/price?ids="
  const CoinPriceUrlSuffix: string := "&vs_currencies=usd,eur,ils"
  const CoinPriceUrl: string := CoinPriceUrlPrefix + "{id}" + CoinPriceUrlSuffix
  const CryptoComparePriceMultiUrlPrefix: string := CryptoCompareApi + "pricemulti?tsyms=usd&fsyms="
  const CryptoComparePriceMultiUrl: string := CryptoComparePriceMultiUrlPrefix + "{symbols}"

  // No template has an opening brace before its placeholder, so the placeholder is the first match of itself.

  lemma DetailsPrefixHasNoBrace()
    ensures '{' !in CoinDetailsUrlPrefix
  {
  }

  lemma PricePrefixHasNoBrace()
    ensures '{' !in CoinPriceUrlPrefix
  {
  }

  lemma PriceMultiPrefixHasNoBrace()
    ensures '{' !in CryptoComparePriceMultiUrlPrefix
  {
  }
}
