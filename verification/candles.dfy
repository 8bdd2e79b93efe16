/**
 The OHLC candles the Reports page keeps per coin, and the values a history point holds.
 Prices are reals: the page's floating-point rounding is not modelled.
 */
module Candles {
  import opened Wrappers

  /** The wick stretch applied above the higher and below the lower of open and close. */
  const HighFactor: real := 1.002
  const LowFactor: real := 0.998

  datatype Candle = Candle(open: real, high: real, low: real, close: real)

  /**
   A value under some key of a history point: the time label, the timestamp, a coin's
   candle, or (in points written by older versions) a coin's bare price.
   */
  datatype Value = Text(s: string) | Number(n: real) | Ohlc(candle: Candle)

  /** A history point: the keys "time" and "timestamp" and one key per coin id, in one namespace. */
  type Point = map<string, Value>

  function Max(a: real, b: real): real {
    if a >= b then a else b
  }

  function Min(a: real, b: real): real {
    if a <= b then a else b
  }

  /** `point?.[key]`: nothing when there is no point or no such key. */
  function Lookup(point: Option<Point>, key: string): Option<Value> {
    if point.Some? && key in point.value then Some(point.value[key]) else None
  }

  /** The price a stored value stands for: a candle's close or a bare number; none for the time label or a missing value. */
  function PriceOf(v: Option<Value>): Option<real> {
    match v
    case Some(Ohlc(c)) => Some(c.close)
    case Some(Number(n)) => Some(n)
    case _ => None
  }

  /** A candle whose wick encloses its body, at non-negative prices. */
  predicate WellShaped(c: Candle) {
    && 0.0 <= c.low
    && c.low <= c.open <= c.high
    && c.low <= c.close <= c.high
  }

  /**
   The candle for a new price. All three branches of the page (previous candle, legacy bare
   number, first sighting) are one rule: open at the previous price, or at the new price when
   there is none; close at the new price; the wick 0.2% beyond the body on each side. At
   non-negative prices the result is well shaped.
   */
  function MakeCandle(previous: Option<real>, price: real): (c: Candle)
    ensures c.close == price
    ensures c.open == previous.GetOr(price)
    ensures c.high == Max(c.open, c.close) * HighFactor
    ensures c.low == Min(c.open, c.close) * LowFactor
    ensures previous.None? && price > 0.0 ==> c.open == c.close && c.low < c.open && c.close < c.high
    ensures price >= 0.0 && previous.GetOr(0.0) >= 0.0 ==> WellShaped(c)
  {
    match previous
    case Some(open) => Candle(open, Max(open, price) * HighFactor, Min(open, price) * LowFactor, price)
    case None => Candle(price, price * HighFactor, price * LowFactor, price)
  }
}
