/**
 * `fetch_market_data`: request `limit + 50` bars, reject a short fetch,
 * stale data and any row with a non-numeric field, attach the indicators,
 * drop every row with a NaN cell and keep the last `limit` rows.
 *
 * `MarketData` states the result as a function of the exchange's response;
 * `FetchMarketData` computes it step by step as the source does.
 */
module Fetching {
  import opened Cells
  import opened Candles
  import opened Frame

  /** Bars requested beyond `limit`, so that indicator warm-up is absorbed. */
  const Lookback: nat := 50

  /** The `limit` the screen uses. */
  const DefaultLimit: nat := 100

  function LastTimestamp(rows: seq<Candle>): int
    requires |rows| > 0
  {
    rows[|rows| - 1].timestamp
  }

  /** The result of the fetch step for one response of the exchange. */
  function FromResponse(response: Response, tf: Timeframe, limit: nat, lib: Library): (df: Option<seq<Row>>)
    ensures df.Some? ==> |df.value| == limit
    ensures df.Some? ==> forall k :: 0 <= k < limit ==> Complete(df.value[k])
  {
    match response
    case ExchangeError => None
    case Ohlcv(rows, now) =>
      if |rows| == 0 || |rows| < limit then None
      else if now - LastTimestamp(rows) > MaxDelay(tf) then None
      else if !AllNumeric(rows) then None
      else
        match Enrich(Parse(rows), lib)
        case None => None
        case Some(frame) =>
          var kept := DropNa(frame);
          if |kept| < limit then None else Some(kept[|kept| - limit..])
  }

  /** `fetch_market_data(symbol, timeframe, limit)` against an exchange. */
  function MarketData(exchange: Exchange, symbol: string, tf: Timeframe, limit: nat, lib: Library): Option<seq<Row>>
  {
    FromResponse(exchange(symbol, tf, limit + Lookback), tf, limit, lib)
  }

  method FetchMarketData(exchange: Exchange, symbol: string, tf: Timeframe, limit: nat, lib: Library)
    returns (df: Option<seq<Row>>)
    ensures df == MarketData(exchange, symbol, tf, limit, lib)
  {
    var response := exchange(symbol, tf, limit + Lookback);
    if response.ExchangeError? {
      return None;
    }
    var rows := response.rows;
    if |rows| == 0 || |rows| < limit {
      return None;
    }
    var lastCandleTime := rows[|rows| - 1].timestamp;
    if response.now - lastCandleTime > MaxDelay(tf) {
      return None;
    }
    for k := 0 to |NumericFields|
      invariant forall j, f | 0 <= j < |rows| && f in NumericFields[..k] :: FieldOf(rows[j], f).Some?
    {
      assert NumericFields[..k + 1] == NumericFields[..k] + [NumericFields[k]];
      if HasMissing(rows, NumericFields[k]) {
        var j :| 0 <= j < |rows| && FieldOf(rows[j], NumericFields[k]).None?;
        ParsesIffNoMissingField(rows[j]);
        return None;
      }
    }
    assert NumericFields[..|NumericFields|] == NumericFields;
    assert AllNumeric(rows) by {
      forall j | 0 <= j < |rows|
        ensures Parses(rows[j])
      {
        ParsesIffNoMissingField(rows[j]);
      }
    }
    var frame := Enrich(Parse(rows), lib);
    if frame.None? {
      return None;
    }
    var kept := DropNa(frame.value);
    if |kept| < limit {
      return None;
    }
    df := Some(kept[|kept| - limit..]);
  }

  /** The delay bounds are one bar long: 5, 15 and 60 minutes. */
  lemma DelayBounds()
    ensures MaxDelay(FiveMinutes) == 300000
    ensures MaxDelay(FifteenMinutes) == 900000
    ensures MaxDelay(OneHour) == 3600000
  {
  }

  /** Data older than the bound is rejected; within the bound, how old it is
      makes no difference (a delay equal to the bound passes). */
  lemma StalenessBoundary(rows: seq<Candle>, now: int, tf: Timeframe, limit: nat, lib: Library)
    requires |rows| > 0
    ensures now - LastTimestamp(rows) > MaxDelay(tf) ==> FromResponse(Ohlcv(rows, now), tf, limit, lib) == None
    ensures now - LastTimestamp(rows) <= MaxDelay(tf) ==>
      FromResponse(Ohlcv(rows, now), tf, limit, lib) == FromResponse(Ohlcv(rows, LastTimestamp(rows)), tf, limit, lib)
  {
  }

  /** A fetch that is empty or shorter than `limit` is rejected. */
  lemma ShortFetchRejected(rows: seq<Candle>, now: int, tf: Timeframe, limit: nat, lib: Library)
    requires |rows| == 0 || |rows| < limit
    ensures FromResponse(Ohlcv(rows, now), tf, limit, lib) == None
  {
  }

  /** One missing or non-numeric field anywhere rejects the whole series. */
  lemma MissingFieldRejected(rows: seq<Candle>, now: int, tf: Timeframe, limit: nat, lib: Library, j: nat, f: Field)
    requires j < |rows| && FieldOf(rows[j], f).None?
    ensures FromResponse(Ohlcv(rows, now), tf, limit, lib) == None
  {
    ParsesIffNoMissingField(rows[j]);
    assert f in NumericFields by {
      match f
      case Open =>
      case High =>
      case Low =>
      case Close =>
      case Volume =>
    }
  }

  /** Past the three gates, the fetch succeeds exactly when MACD yields a
      frame and at least `limit` rows have no NaN cell. */
  lemma SurvivorsDecide(rows: seq<Candle>, now: int, tf: Timeframe, limit: nat, lib: Library)
    requires |rows| > 0 && |rows| >= limit && now - LastTimestamp(rows) <= MaxDelay(tf) && AllNumeric(rows)
    ensures FromResponse(Ohlcv(rows, now), tf, limit, lib).Some? <==>
      Enrich(Parse(rows), lib).Some? && |DropNa(Enrich(Parse(rows), lib).value)| >= limit
  {
  }

  /** A successful fetch holds exactly the last `limit` rows of the enriched
      frame that have no NaN cell, in their original order: every row it
      returns is that frame's row at its index, and no complete row at or
      after the first one returned is left out. */
  lemma FetchedWindow(rows: seq<Candle>, now: int, tf: Timeframe, limit: nat, lib: Library)
    requires FromResponse(Ohlcv(rows, now), tf, limit, lib).Some?
    ensures AllNumeric(rows) && Enrich(Parse(rows), lib).Some?
    ensures var out := FromResponse(Ohlcv(rows, now), tf, limit, lib).value;
      var frame := Enrich(Parse(rows), lib).value;
      && |out| == limit
      && IndexAscending(out)
      && (forall k :: 0 <= k < |out| ==> out[k].index < |frame| && out[k] == frame[out[k].index] && Complete(out[k]))
      && (forall j :: 0 <= j < |frame| && Complete(frame[j]) && limit > 0 && j >= out[0].index ==> frame[j] in out)
  {
    KeptTail(Enrich(Parse(rows), lib).value, limit);
  }

  /** Every row a successful fetch returns lies past the longest warm-up
      (20 bars, for MA20): in particular it has the five bars before it that
      the volume ratio needs and the one the previous RSI needs. */
  lemma FetchedRowWarm(rows: seq<Candle>, now: int, tf: Timeframe, limit: nat, lib: Library, k: nat)
    requires FromResponse(Ohlcv(rows, now), tf, limit, lib).Some? && k < limit
    ensures AllNumeric(rows) && Enrich(Parse(rows), lib).Some?
    ensures var r := FromResponse(Ohlcv(rows, now), tf, limit, lib).value[k];
      && 19 <= r.index < |rows|
      && r == Enrich(Parse(rows), lib).value[r.index]
  {
    FetchedWindow(rows, now, tf, limit, lib);
    var r := FromResponse(Ohlcv(rows, now), tf, limit, lib).value[k];
    EnrichedRow(Parse(rows), lib, r.index);
  }
}
