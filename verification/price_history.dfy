/**
 The Reports page's price history: one point per refresh, holding a candle per selected
 coin that got a price, trimmed to the most recent thirty points.
 */
module PriceHistory {
  import opened Wrappers
  import opened CoinsModel
  import opened Candles

  const HistoryLimit: nat := 30

  /** `s.slice(-n)` for a positive `n`: the last `n` elements, or all of `s` when it is shorter. */
  function LastN<T>(s: seq<T>, n: nat): (r: seq<T>)
    requires n > 0
    ensures |r| == if |s| <= n then |s| else n
    ensures r == s[|s| - |r|..]
  {
    if |s| <= n then s else s[|s| - n..]
  }

  /** Trimming before appending changes nothing: a history kept to `n` points after every step equals the full log trimmed once. */
  lemma LastNAppend<T>(s: seq<T>, x: T, n: nat)
    requires n > 0
    ensures LastN(LastN(s, n) + [x], n) == LastN(s + [x], n)
  {
    if |s| > n {
      var t := s[|s| - n..];
      assert (t + [x])[1..] == (s + [x])[|s| + 1 - n..];
    }
  }

  /** The most recent point, if any. */
  function LastPoint(history: seq<Point>): Option<Point> {
    if |history| == 0 then None else Some(history[|history| - 1])
  }

  /** `[...prev, newDataPoint].slice(-30)`. */
  function AppendPoint(history: seq<Point>, p: Point): (r: seq<Point>)
    ensures 0 < |r| <= HistoryLimit
    ensures r[|r| - 1] == p
    ensures LastPoint(r) == Some(p)
    ensures |history| < HistoryLimit ==> r == history + [p]
    ensures |history| >= HistoryLimit ==> r == history[|history| - HistoryLimit + 1..] + [p]
  {
    var r := LastN(history + [p], HistoryLimit);
    assert |history| >= HistoryLimit ==> r == history[|history| - HistoryLimit + 1..] + [p];
    r
  }

  /** A history replayed point by point, trimming after each step, is the full log's last thirty points. */
  function Replay(history: seq<Point>, log: seq<Point>): (r: seq<Point>)
    ensures |r| <= HistoryLimit || log == []
  {
    if |log| == 0 then history else AppendPoint(Replay(history, log[..|log| - 1]), log[|log| - 1])
  }

  lemma {:induction false} ReplayIsLastN(log: seq<Point>)
    ensures Replay([], log) == LastN(log, HistoryLimit)
  {
    if |log| > 0 {
      var init := log[..|log| - 1];
      ReplayIsLastN(init);
      LastNAppend(init, log[|log| - 1], HistoryLimit);
      assert init + [log[|log| - 1]] == log;
    }
  }

  // ---------------------------------------------------------------- the new point

  /** Coin `k` is among the coins and is truthy there. */
  predicate HasCoinId(coins: seq<Coin>, k: string) {
    k != "" && exists i :: 0 <= i < |coins| && coins[i].id == Some(k)
  }

  /** The candle a coin id gets in the new point. */
  function CandleFor(previous: Option<Point>, prices: map<string, real>, k: string): Value
    requires k in prices
  {
    Ohlc(MakeCandle(PriceOf(Lookup(previous, k)), prices[k]))
  }

  /**
   The `forEach` over the selected coins: each coin with a truthy id and a price sets a candle
   under its id, computed from the previous point only; other keys keep their values. Since a
   candle depends on the id alone, the order of the coins does not matter.
   */
  function AddCandles(point: Point, previous: Option<Point>, coins: seq<Coin>, prices: map<string, real>): (r: Point)
    ensures forall k :: k in r <==> k in point || (k in prices && HasCoinId(coins, k))
    ensures forall k :: k in prices && HasCoinId(coins, k) ==> r[k] == CandleFor(previous, prices, k)
    ensures forall k :: k in point && !(k in prices && HasCoinId(coins, k)) ==> r[k] == point[k]
  {
    if |coins| == 0 then point
    else
      var init := coins[..|coins| - 1];
      var c := coins[|coins| - 1];
      var p := AddCandles(point, previous, init, prices);
      assert forall k :: HasCoinId(coins, k) <==> HasCoinId(init, k) || (k != "" && c.id == Some(k)) by {
        forall k ensures HasCoinId(coins, k) <==> HasCoinId(init, k) || (k != "" && c.id == Some(k)) {
          if HasCoinId(init, k) {
            var i :| 0 <= i < |init| && init[i].id == Some(k);
            assert coins[i] == init[i];
          }
          if HasCoinId(coins, k) && !(c.id == Some(k)) {
            var i :| 0 <= i < |coins| && coins[i].id == Some(k);
            assert i < |init| && init[i] == coins[i];
          }
        }
      }
      if HasId(c) && c.id.value in prices then p[c.id.value := CandleFor(previous, prices, c.id.value)] else p
  }

  /** `newDataPoint`: the time label and timestamp, then the candles (a coin id "time" or "timestamp" overwrites them). */
  function NewPoint(previous: Option<Point>, coins: seq<Coin>, prices: map<string, real>, time: string, timestamp: int): (r: Point)
    ensures forall k :: k in r <==> k == "time" || k == "timestamp" || (k in prices && HasCoinId(coins, k))
    ensures forall k :: k in prices && HasCoinId(coins, k) ==> r[k] == CandleFor(previous, prices, k)
    ensures !("time" in prices && HasCoinId(coins, "time")) ==> r["time"] == Text(time)
    ensures !("timestamp" in prices && HasCoinId(coins, "timestamp")) ==> r["timestamp"] == Number(timestamp as real)
  {
    AddCandles(map["time" := Text(time), "timestamp" := Number(timestamp as real)], previous, coins, prices)
  }

  // ---------------------------------------------------------------- well-formed history

  /** Every candle is well shaped and every bare number is non-negative. */
  predicate WellFormedPoint(p: Point) {
    forall k :: k in p ==> match p[k]
      case Ohlc(c) => WellShaped(c)
      case Number(n) => n >= 0.0
      case Text(_) => true
  }

  predicate WellFormedHistory(history: seq<Point>) {
    forall j :: 0 <= j < |history| ==> WellFormedPoint(history[j])
  }

  /** With non-negative prices and timestamp, a point built on a well-formed previous point is well formed. */
  lemma NewPointWellFormed(previous: Option<Point>, coins: seq<Coin>, prices: map<string, real>, time: string, timestamp: int)
    requires previous.Some? ==> WellFormedPoint(previous.value)
    requires forall k :: k in prices ==> prices[k] >= 0.0
    requires timestamp >= 0
    ensures WellFormedPoint(NewPoint(previous, coins, prices, time, timestamp))
  {
    var p := NewPoint(previous, coins, prices, time, timestamp);
    forall k | k in p && k in prices && HasCoinId(coins, k)
      ensures WellShaped(p[k].candle)
    {
      var v := Lookup(previous, k);
      assert v.Some? ==> v.value == previous.value[k];
      assert PriceOf(v).GetOr(0.0) >= 0.0;
    }
  }

  /** Appending a well-formed point keeps the history well formed. */
  lemma AppendKeepsWellFormed(history: seq<Point>, p: Point)
    requires WellFormedHistory(history) && WellFormedPoint(p)
    ensures WellFormedHistory(AppendPoint(history, p))
  {
    var r := AppendPoint(history, p);
    var d := |history| + 1 - |r|;
    assert r == history[d..] + [p];
    forall j | 0 <= j < |r| ensures WellFormedPoint(r[j]) {
      if j < |r| - 1 {
        assert r[j] == history[d + j];
      }
    }
  }
}
