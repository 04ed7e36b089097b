/**
 * `filter_by_conditions`: fetch every timeframe in turn, apply its rule,
 * record each outcome (a failed fetch records false) and pass the symbol
 * only when all three pass. Also the facts that tie the rules to the
 * fetched series they read.
 */
module Screening {
  import opened Cells
  import opened Series
  import opened Candles
  import opened Frame
  import opened Fetching
  import opened Rules

  /** One entry of the per-timeframe report. */
  datatype TimeframeResult = TimeframeResult(timeframe: Timeframe, satisfied: bool)

  /** Whether one timeframe of a symbol passes: its rule applied to what the
      fetch step returns, false when that is nothing. */
  function Verdict(exchange: Exchange, symbol: string, tf: Timeframe, lib: Library): (ok: bool)
    ensures ok ==> MarketData(exchange, symbol, tf, DefaultLimit, lib).Some?
  {
    Check(tf, MarketData(exchange, symbol, tf, DefaultLimit, lib))
  }

  /** One timeframe of the loop: fetch it and apply its rule; a failed
      fetch counts as not satisfied. */
  method ScreenTimeframe(exchange: Exchange, symbol: string, tf: Timeframe, lib: Library)
    returns (isSatisfied: bool)
    ensures isSatisfied == Verdict(exchange, symbol, tf, lib)
  {
    var df := FetchMarketData(exchange, symbol, tf, DefaultLimit, lib);
    if df.Some? {
      isSatisfied := Check(tf, df);
    } else {
      isSatisfied := false;
    }
  }

  /** Three recorded outcomes all hold exactly when each of them does. */
  lemma AllOfThree(results: seq<TimeframeResult>, a: bool, b: bool, c: bool)
    requires |results| == 3
    requires results[0].satisfied == a && results[1].satisfied == b && results[2].satisfied == c
    ensures (forall k :: 0 <= k < |results| ==> results[k].satisfied) <==> a && b && c
  {
  }

  method FilterByConditions(exchange: Exchange, symbol: string, lib: Library)
    returns (allConditionsMet: bool, results: seq<TimeframeResult>)
    ensures |results| == |Timeframes|
    ensures forall k :: 0 <= k < |Timeframes| ==>
      results[k] == TimeframeResult(Timeframes[k], Verdict(exchange, symbol, Timeframes[k], lib))
    ensures allConditionsMet <==> forall k :: 0 <= k < |results| ==> results[k].satisfied
    ensures allConditionsMet <==>
      && Verdict(exchange, symbol, OneHour, lib)
      && Verdict(exchange, symbol, FifteenMinutes, lib)
      && Verdict(exchange, symbol, FiveMinutes, lib)
  {
    results := [];
    allConditionsMet := true;
    for k := 0 to |Timeframes|
      invariant |results| == k
      invariant forall j :: 0 <= j < k ==>
        results[j] == TimeframeResult(Timeframes[j], Verdict(exchange, symbol, Timeframes[j], lib))
      invariant allConditionsMet <==> forall j :: 0 <= j < k ==> results[j].satisfied
    {
      var timeframe := Timeframes[k];
      var isSatisfied := ScreenTimeframe(exchange, symbol, timeframe, lib);
      results := results + [TimeframeResult(timeframe, isSatisfied)];
      if !isSatisfied {
        allConditionsMet := false;
      }
    }
    AllOfThree(results,
      Verdict(exchange, symbol, OneHour, lib),
      Verdict(exchange, symbol, FifteenMinutes, lib),
      Verdict(exchange, symbol, FiveMinutes, lib));
  }

  /** On a successful fetch, the volume clause of the 15m rule compares the
      latest volume with the five volumes before it and no division: with
      volumes that are never negative it holds exactly when ten times the
      volume exceeds three times their sum. A zero sum (a +inf ratio) passes
      with any positive volume. */
  lemma VolumeSurge(rows: seq<Candle>, now: int, tf: Timeframe, limit: nat, lib: Library, k: nat)
    requires FromResponse(Ohlcv(rows, now), tf, limit, lib).Some? && k < limit
    requires forall j :: 0 <= j < |rows| && rows[j].volume.Some? ==> rows[j].volume.value >= 0.0
    ensures AllNumeric(rows)
    ensures var r := FromResponse(Ohlcv(rows, now), tf, limit, lib).value[k];
      var volumes := Volumes(Parse(rows));
      5 <= r.index < |rows| &&
      (QuotientAbove(r.volumeRatio, 1.5) <==> 10.0 * volumes[r.index] > 3.0 * Sum(volumes[r.index - 5..r.index]))
  {
    FetchedRowWarm(rows, now, tf, limit, lib, k);
    var r := FromResponse(Ohlcv(rows, now), tf, limit, lib).value[k];
    var volumes := Volumes(Parse(rows));
    var i := r.index;
    EnrichedRow(Parse(rows), lib, i);
    var window := volumes[i - 5..i];
    assert forall j :: 0 <= j < |window| ==> window[j] == volumes[i - 5 + j];
    SumNonnegative(window);
    RatioAboveOneAndHalf(volumes[i], Sum(window));
  }

  lemma RatioAboveOneAndHalf(v: real, s: real)
    requires v >= 0.0 && s >= 0.0
    ensures QuotientAbove(Divide(v, s / 5.0), 1.5) <==> 10.0 * v > 3.0 * s
  {
    if s > 0.0 {
      var d := s / 5.0;
      var q := v / d;
      assert q * d == v;
      var x := 1.5 - q;
      assert x * d == 0.3 * s - v by {
        assert x * d == 1.5 * d - q * d;
      }
      NegativeTimesPositive(x, d);
    }
  }

  /** A strictly rising close series puts every fetched row in trend order:
      close above MA5, MA5 above MA10 and MA10 above MA20, so the 1h trend
      clauses on the close and MA10 hold. */
  lemma RisingClosesTrend(rows: seq<Candle>, now: int, tf: Timeframe, limit: nat, lib: Library, k: nat)
    requires FromResponse(Ohlcv(rows, now), tf, limit, lib).Some? && k < limit
    requires forall j, j' :: 0 <= j < j' < |rows| && rows[j].close.Some? && rows[j'].close.Some? ==>
      rows[j].close.value < rows[j'].close.value
    ensures var r := FromResponse(Ohlcv(rows, now), tf, limit, lib).value[k];
      && Greater(Some(r.close), r.ma5)
      && Greater(r.ma5, r.ma10)
      && Greater(r.ma10, r.ma20)
      && Greater(Some(r.close), r.ma20)
  {
    FetchedRowWarm(rows, now, tf, limit, lib, k);
    var r := FromResponse(Ohlcv(rows, now), tf, limit, lib).value[k];
    var closes := Closes(Parse(rows));
    var i := r.index;
    EnrichedRow(Parse(rows), lib, i);
    assert StrictlyRising(closes) by {
      forall j, j' | 0 <= j < j' < |closes|
        ensures closes[j] < closes[j']
      {
        assert Some(closes[j]) == rows[j].close && Some(closes[j']) == rows[j'].close;
      }
    }
    assert Trailing(closes, 1, i) == [closes[i]];
    assert Sum([closes[i]]) == closes[i] by {
      assert [closes[i]][..0] == [];
    }
    ShorterWindowHigherMean(closes, 1, 5, i);
    ShorterWindowHigherMean(closes, 5, 10, i);
    ShorterWindowHigherMean(closes, 10, 20, i);
  }

  /** On a successful fetch, the 5m rule compares the library's RSI at the
      latest bar with its RSI one bar earlier, in the fetched series. */
  lemma FiveMinuteMomentum(rows: seq<Candle>, now: int, tf: Timeframe, limit: nat, lib: Library)
    requires FromResponse(Ohlcv(rows, now), tf, limit, lib).Some? && limit > 0
    ensures AllNumeric(rows) && lib.macd(Closes(Parse(rows))).Some?
    ensures var df := FromResponse(Ohlcv(rows, now), tf, limit, lib);
      var closes := Closes(Parse(rows));
      var i := Latest(df.value).index;
      var rsi := lib.rsi7(closes);
      && 1 <= i
      && (Check5m(df) <==>
            Greater(At(rsi, i), At(rsi, i - 1)) && Greater(At(lib.macd(closes).value.hist, i), Some(0.0)))
  {
    FetchedRowWarm(rows, now, tf, limit, lib, limit - 1);
    var r := FromResponse(Ohlcv(rows, now), tf, limit, lib).value[limit - 1];
    EnrichedRow(Parse(rows), lib, r.index);
  }

  /** A timeframe whose fetch fails vetoes the symbol, whatever the others. */
  lemma FailedFetchVetoes(exchange: Exchange, symbol: string, lib: Library, tf: Timeframe)
    requires MarketData(exchange, symbol, tf, DefaultLimit, lib).None?
    ensures !Verdict(exchange, symbol, tf, lib)
  {
  }
}
