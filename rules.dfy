/**
 * The per-timeframe rules `check_1h_conditions`, `check_15m_conditions` and
 * `check_5m_conditions`: strict comparisons on the latest row, joined by
 * AND. A missing frame or an empty one fails, and a comparison with a NaN
 * cell is false, as it is in floating point.
 */
module Rules {
  import opened Cells
  import opened Candles
  import opened Frame

  function Latest(df: seq<Row>): Row
    requires |df| > 0
  {
    df[|df| - 1]
  }

  /** `(close - MA20) / MA20 * 100`; with MA20 zero this is an infinity or
      NaN rather than an error. */
  function Ma20Deviation(bar: Row): Quotient
  {
    match bar.ma20
    case None => NotANumber
    case Some(m) => Percent(Divide(bar.close - m, m))
  }

  /** Uptrend above MA20 with rising MA10, a positive third MACD column
      (the one the source names `MACD_hist`), close less than 2% above MA20
      and short-term volume above long-term. */
  predicate Meets1h(bar: Row)
  {
    && Greater(Some(bar.close), bar.ma20)
    && Greater(bar.ma10, bar.ma20)
    && Greater(bar.macdHist, Some(0.0))
    && QuotientBelow(Ma20Deviation(bar), 2.0)
    && Greater(bar.volumeMa5, bar.volumeMa10)
  }

  /** MA5 above MA10, RSI strictly between 40 and 70, volume more than 1.5
      times the mean of the five bars before, and short-term volume above
      long-term. */
  predicate Meets15m(bar: Row)
  {
    && Greater(bar.ma5, bar.ma10)
    && Greater(bar.rsi7, Some(40.0)) && Greater(Some(70.0), bar.rsi7)
    && QuotientAbove(bar.volumeRatio, 1.5)
    && Greater(bar.volumeMa5, bar.volumeMa10)
  }

  /** RSI rising from the previous bar and a positive third MACD column
      (`MACD_hist`). */
  predicate Meets5m(bar: Row)
  {
    Greater(bar.rsi7, bar.rsi7Prev) && Greater(bar.macdHist, Some(0.0))
  }

  function Check1h(df: Option<seq<Row>>): (ok: bool)
    ensures ok ==> df.Some? && |df.value| > 0
  {
    df.Some? && |df.value| > 0 && Meets1h(Latest(df.value))
  }

  function Check15m(df: Option<seq<Row>>): (ok: bool)
    ensures ok ==> df.Some? && |df.value| > 0
  {
    df.Some? && |df.value| > 0 && Meets15m(Latest(df.value))
  }

  function Check5m(df: Option<seq<Row>>): (ok: bool)
    ensures ok ==> df.Some? && |df.value| > 0
  {
    df.Some? && |df.value| > 0 && Meets5m(Latest(df.value))
  }

  /** The rule each timeframe is screened with. */
  function Check(tf: Timeframe, df: Option<seq<Row>>): bool
  {
    match tf
    case OneHour => Check1h(df)
    case FifteenMinutes => Check15m(df)
    case FiveMinutes => Check5m(df)
  }

  /** Multiplying by a positive number keeps the sign. */
  lemma NegativeTimesPositive(x: real, m: real)
    requires m > 0.0
    ensures x * m < 0.0 <==> x < 0.0
  {
  }

  /** With a positive MA20, the deviation clause holds exactly when the close
      lies below 1.02 times MA20. */
  lemma DeviationBelowTwoPercent(c: real, m: real)
    requires m > 0.0
    ensures QuotientBelow(Percent(Divide(c - m, m)), 2.0) <==> 50.0 * c < 51.0 * m
  {
    var q := (c - m) / m;
    assert q * m == c - m;
    assert Percent(Divide(c - m, m)) == Finite(q * 100.0);
    var x := 50.0 * q - 1.0;
    assert x * m == 50.0 * c - 51.0 * m by {
      assert x * m == 50.0 * (q * m) - m;
    }
    NegativeTimesPositive(x, m);
  }

  /** With a negative MA20 and the close above it, the deviation is negative. */
  lemma DeviationNegative(c: real, m: real)
    requires m < 0.0 && c > m
    ensures QuotientBelow(Percent(Divide(c - m, m)), 2.0)
  {
    var q := (c - m) / m;
    assert q * m == c - m;
    assert q < 0.0;
  }

  /** The 1h rule without the division: all five cells defined, the close
      strictly inside the band from MA20 to 1.02 times MA20 (any close above
      a negative MA20), MA10 above MA20, a positive `MACD_hist` and MA5 volume
      above MA10 volume. In particular a zero MA20 never passes. */
  lemma OneHourBand(bar: Row)
    ensures Meets1h(bar) <==>
      && bar.ma20.Some? && bar.ma10.Some? && bar.macdHist.Some?
      && bar.volumeMa5.Some? && bar.volumeMa10.Some?
      && bar.close > bar.ma20.value
      && (bar.ma20.value < 0.0 || 50.0 * bar.close < 51.0 * bar.ma20.value)
      && bar.ma10.value > bar.ma20.value
      && bar.macdHist.value > 0.0
      && bar.volumeMa5.value > bar.volumeMa10.value
  {
    if bar.ma20.Some? {
      var c, m := bar.close, bar.ma20.value;
      if m > 0.0 {
        DeviationBelowTwoPercent(c, m);
      } else if m < 0.0 && c > m {
        DeviationNegative(c, m);
      }
    }
  }

  /** A zero MA20 fails the 1h rule instead of raising. */
  lemma ZeroMa20Fails(bar: Row)
    requires bar.ma20 == Some(0.0)
    ensures !Meets1h(bar)
  {
    OneHourBand(bar);
  }

  /** With MA20 = 100, MA10 = 102, `MACD_hist` 1.5 and volume averages 120 and
      100, the 1h rule passes exactly for a close strictly between 100 and
      102: a close of 105 (5% above MA20) fails on the deviation clause. */
  lemma DeviationClauseBinds(bar: Row)
    requires bar.ma20 == Some(100.0) && bar.ma10 == Some(102.0) && bar.macdHist == Some(1.5)
    requires bar.volumeMa5 == Some(120.0) && bar.volumeMa10 == Some(100.0)
    ensures Meets1h(bar) <==> 100.0 < bar.close < 102.0
  {
    OneHourBand(bar);
  }

  /** The 15m RSI band is open at both ends: an RSI of exactly 40 or 70 fails. */
  lemma RsiBoundsExcluded(bar: Row)
    requires bar.rsi7 == Some(40.0) || bar.rsi7 == Some(70.0)
    ensures !Meets15m(bar)
  {
  }
}
