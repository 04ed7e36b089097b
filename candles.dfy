/**
 * Raw market data: the three timeframes, their staleness bounds, the OHLCV
 * rows an exchange returns, and the per-column check that every price and
 * volume field parsed as a number (`pd.to_numeric(..., errors='coerce')`
 * followed by `isnull().any()`).
 */
module Candles {
  import opened Cells

  /** The timeframes the screen evaluates, in the order it visits them. */
  datatype Timeframe = OneHour | FifteenMinutes | FiveMinutes

  const Timeframes: seq<Timeframe> := [OneHour, FifteenMinutes, FiveMinutes]

  /** Largest tolerated age of the newest bar, in milliseconds. */
  function MaxDelay(tf: Timeframe): int
  {
    match tf
    case FiveMinutes => 5 * 60 * 1000
    case FifteenMinutes => 15 * 60 * 1000
    case OneHour => 60 * 60 * 1000
  }

  /** One OHLCV row as the exchange returns it; a field that is absent or
      does not parse as a number is `None`. */
  datatype Candle = Candle(
    timestamp: int,
    open: Option<real>,
    high: Option<real>,
    low: Option<real>,
    close: Option<real>,
    volume: Option<real>)

  datatype Field = Open | High | Low | Close | Volume

  /** The columns validated, in the order they are checked. */
  const NumericFields: seq<Field> := [Open, High, Low, Close, Volume]

  function FieldOf(c: Candle, f: Field): Option<real>
  {
    match f
    case Open => c.open
    case High => c.high
    case Low => c.low
    case Close => c.close
    case Volume => c.volume
  }

  /** All five numeric fields of the row parsed. */
  predicate Parses(c: Candle)
  {
    c.open.Some? && c.high.Some? && c.low.Some? && c.close.Some? && c.volume.Some?
  }

  /** A row parses exactly when none of the validated columns is missing in it. */
  lemma ParsesIffNoMissingField(c: Candle)
    ensures Parses(c) <==> forall f | f in NumericFields :: FieldOf(c, f).Some?
  {
    if Parses(c) {
      forall f | f in NumericFields
        ensures FieldOf(c, f).Some?
      {
        match f
        case Open =>
        case High =>
        case Low =>
        case Close =>
        case Volume =>
      }
    } else {
      assert FieldOf(c, Open).None? || FieldOf(c, High).None? || FieldOf(c, Low).None?
        || FieldOf(c, Close).None? || FieldOf(c, Volume).None?;
    }
  }

  /** Every row of the fetch parsed. */
  predicate AllNumeric(rows: seq<Candle>)
  {
    forall j :: 0 <= j < |rows| ==> Parses(rows[j])
  }

  /** `isnull().any()` on one column of the fetched rows. */
  function HasMissing(rows: seq<Candle>, f: Field): (missing: bool)
    ensures missing <==> exists j :: 0 <= j < |rows| && FieldOf(rows[j], f).None?
  {
    if |rows| == 0 then false
    else if FieldOf(rows[0], f).None? then true
    else
      var rest := HasMissing(rows[1..], f);
      assert forall j :: 1 <= j < |rows| ==> rows[1..][j - 1] == rows[j];
      rest
  }

  /** A row after numeric conversion. */
  datatype Bar = Bar(timestamp: int, open: real, high: real, low: real, close: real, volume: real)

  /** The fetched rows as numbers, once every field is known to parse. */
  function Parse(rows: seq<Candle>): (bars: seq<Bar>)
    requires AllNumeric(rows)
    ensures |bars| == |rows|
    ensures forall j :: 0 <= j < |rows| ==>
      && bars[j].timestamp == rows[j].timestamp
      && Some(bars[j].open) == rows[j].open
      && Some(bars[j].high) == rows[j].high
      && Some(bars[j].low) == rows[j].low
      && Some(bars[j].close) == rows[j].close
      && Some(bars[j].volume) == rows[j].volume
  {
    seq(|rows|, j requires 0 <= j < |rows| =>
      var c := rows[j];
      Bar(c.timestamp, c.open.value, c.high.value, c.low.value, c.close.value, c.volume.value))
  }

  /** What one request to the exchange yields: an error (network, rate
      limit, unknown symbol), or the rows together with the exchange clock
      read right after them. */
  datatype Response = ExchangeError | Ohlcv(rows: seq<Candle>, now: int)

  /** The exchange: the response to a request for a symbol, a timeframe and
      a number of bars. */
  type Exchange = (string, Timeframe, nat) -> Response
}
