/**
 * The enriched frame: the numeric bars with the indicator columns attached,
 * and pandas' `dropna()`.
 *
 * MACD and RSI come from `pandas_ta`, whose internals are not part of this
 * model; they are given as functions of the close column (`Library`). The
 * moving averages, the shifted RSI and the volume ratio are computed here,
 * each column given by its cell at a position.
 */
module Frame {
  import opened Cells
  import opened Series
  import opened Candles

  /** The three columns `ta.macd(close, 12, 26, 9)` returns, taken by
      position; the source renames the third one `MACD_hist`. */
  datatype MacdColumns = MacdColumns(
    macd: seq<Option<real>>,
    signal: seq<Option<real>>,
    hist: seq<Option<real>>)

  /** The indicator library. `macd` yields `None` where the library returns
      no frame (a series too short for it); `rsi7` is `ta.rsi(close, 7)`. A
      column shorter than the frame is padded with missing cells. */
  datatype Library = Library(
    macd: seq<real> -> Option<MacdColumns>,
    rsi7: seq<real> -> seq<Option<real>>)

  /** One row of the enriched frame; `index` is its pandas index label, the
      position of the bar in the fetched series. */
  datatype Row = Row(
    index: nat,
    timestamp: int,
    open: real,
    high: real,
    low: real,
    close: real,
    volume: real,
    macd: Option<real>,
    macdSignal: Option<real>,
    macdHist: Option<real>,
    rsi7: Option<real>,
    rsi7Prev: Option<real>,
    ma5: Option<real>,
    ma10: Option<real>,
    ma20: Option<real>,
    volumeMa5: Option<real>,
    volumeMa10: Option<real>,
    volumeRatio: Quotient)

  /** No cell of the row is NaN; an infinite volume ratio is not NaN. */
  predicate Complete(r: Row)
  {
    && r.macd.Some? && r.macdSignal.Some? && r.macdHist.Some?
    && r.rsi7.Some? && r.rsi7Prev.Some?
    && r.ma5.Some? && r.ma10.Some? && r.ma20.Some?
    && r.volumeMa5.Some? && r.volumeMa10.Some?
    && !r.volumeRatio.NotANumber?
  }

  function Closes(bars: seq<Bar>): (xs: seq<real>)
    ensures |xs| == |bars|
  {
    seq(|bars|, i requires 0 <= i < |bars| => bars[i].close)
  }

  function Volumes(bars: seq<Bar>): (xs: seq<real>)
    ensures |xs| == |bars|
  {
    seq(|bars|, i requires 0 <= i < |bars| => bars[i].volume)
  }

  /** Row `i` of the enriched frame: the bar, the library's MACD and RSI
      cells, RSI shifted by one, the moving averages of close and volume,
      and the volume ratio. */
  function RowAt(bars: seq<Bar>, m: MacdColumns, rsi: seq<Option<real>>, i: nat): Row
    requires i < |bars|
  {
    var b := bars[i];
    var closes, volumes := Closes(bars), Volumes(bars);
    Row(i, b.timestamp, b.open, b.high, b.low, b.close, b.volume,
        At(m.macd, i), At(m.signal, i), At(m.hist, i),
        At(rsi, i), if i == 0 then None else At(rsi, i - 1),
        MovingAverage(closes, 5, i), MovingAverage(closes, 10, i), MovingAverage(closes, 20, i),
        MovingAverage(volumes, 5, i), MovingAverage(volumes, 10, i),
        VolumeRatio(volumes, i))
  }

  /** The indicator step over the whole series: `None` where the MACD call
      yields no frame (the exception the step catches), otherwise one row
      per bar, in order, carrying its position as index. */
  function Enrich(bars: seq<Bar>, lib: Library): (frame: Option<seq<Row>>)
    ensures frame.None? <==> lib.macd(Closes(bars)).None?
    ensures frame.Some? ==> |frame.value| == |bars|
    ensures frame.Some? ==> forall i :: 0 <= i < |bars| ==> frame.value[i].index == i
  {
    var closes := Closes(bars);
    match lib.macd(closes)
    case None => None
    case Some(m) =>
      var rsi := lib.rsi7(closes);
      Some(seq(|bars|, i requires 0 <= i < |bars| => RowAt(bars, m, rsi, i)))
  }

  /** Row `i` of the enriched frame, cell by cell: the moving averages are
      defined from the 5th, 10th and 20th bar on, the previous RSI is the
      RSI one bar earlier, and the volume ratio divides the bar's volume by
      the mean volume of the five bars before it. */
  lemma EnrichedRow(bars: seq<Bar>, lib: Library, i: nat)
    requires Enrich(bars, lib).Some? && i < |bars|
    ensures var r := Enrich(bars, lib).value[i];
      var closes, volumes := Closes(bars), Volumes(bars);
      var m := lib.macd(closes).value;
      var rsi := lib.rsi7(closes);
      && r.index == i && r.timestamp == bars[i].timestamp
      && r.close == bars[i].close && r.volume == bars[i].volume
      && r.macd == At(m.macd, i) && r.macdSignal == At(m.signal, i) && r.macdHist == At(m.hist, i)
      && r.rsi7 == At(rsi, i)
      && r.rsi7Prev == (if i == 0 then None else At(rsi, i - 1))
      && r.ma5 == (if i >= 4 then Some(Mean(Trailing(closes, 5, i))) else None)
      && r.ma10 == (if i >= 9 then Some(Mean(Trailing(closes, 10, i))) else None)
      && r.ma20 == (if i >= 19 then Some(Mean(Trailing(closes, 20, i))) else None)
      && r.volumeMa5 == (if i >= 4 then Some(Mean(Trailing(volumes, 5, i))) else None)
      && r.volumeMa10 == (if i >= 9 then Some(Mean(Trailing(volumes, 10, i))) else None)
      && r.volumeRatio == (if i >= 5 then Divide(volumes[i], Sum(volumes[i - 5..i]) / 5.0) else NotANumber)
  {
    VolumeRatioPriorWindow(Volumes(bars), i);
  }

  ghost predicate IndexAscending(f: seq<Row>)
  {
    forall j, k :: 0 <= j < k < |f| ==> f[j].index < f[k].index
  }

  /** `dropna()`: the rows without a NaN cell, in their original order. */
  function DropNa(frame: seq<Row>): (kept: seq<Row>)
    ensures |kept| <= |frame|
    ensures forall r :: r in kept <==> r in frame && Complete(r)
  {
    if |frame| == 0 then []
    else
      var rest := DropNa(frame[1..]);
      assert forall r :: r in frame <==> r == frame[0] || r in frame[1..];
      if Complete(frame[0]) then [frame[0]] + rest else rest
  }

  /** `dropna()` keeps the rows in their order. */
  lemma {:induction false} DropNaKeepsOrder(frame: seq<Row>)
    requires IndexAscending(frame)
    ensures IndexAscending(DropNa(frame))
  {
    if |frame| > 0 {
      var tail := frame[1..];
      var rest := DropNa(tail);
      assert IndexAscending(tail);
      DropNaKeepsOrder(tail);
      if Complete(frame[0]) {
        var kept := [frame[0]] + rest;
        assert DropNa(frame) == kept;
        forall j, k | 0 <= j < k < |kept|
          ensures kept[j].index < kept[k].index
        {
          assert kept[k] == rest[k - 1];
          if j == 0 {
            assert rest[k - 1] in rest;
            var p :| 0 <= p < |tail| && tail[p] == rest[k - 1];
            assert frame[1 + p] == rest[k - 1];
          } else {
            assert kept[j] == rest[j - 1];
          }
        }
      }
    }
  }

  /** Rows drawn from a frame indexed by position are the frame's rows at
      their own index. */
  lemma RowsAtOwnIndex(frame: seq<Row>, rows: seq<Row>)
    requires forall i :: 0 <= i < |frame| ==> frame[i].index == i
    requires forall k :: 0 <= k < |rows| ==> rows[k] in frame
    ensures forall k :: 0 <= k < |rows| ==> rows[k].index < |frame| && rows[k] == frame[rows[k].index]
  {
    forall k | 0 <= k < |rows|
      ensures rows[k].index < |frame| && rows[k] == frame[rows[k].index]
    {
      var p :| 0 <= p < |frame| && frame[p] == rows[k];
    }
  }

  /** In a sequence ordered by index, a row whose index is at least that of
      position `q` lies at or after `q`. */
  lemma OrderedSuffix(kept: seq<Row>, q: nat, r: Row)
    requires IndexAscending(kept) && q < |kept|
    requires r in kept && r.index >= kept[q].index
    ensures r in kept[q..]
  {
    var p :| 0 <= p < |kept| && kept[p] == r;
    assert kept[q..][p - q] == r;
  }

  /** The last `limit` rows `dropna()` keeps from a frame indexed by
      position: complete, in order, each the frame's row at its index, and
      no complete row at or after the first of them left out. */
  lemma KeptTail(frame: seq<Row>, limit: nat)
    requires forall i :: 0 <= i < |frame| ==> frame[i].index == i
    requires |DropNa(frame)| >= limit
    ensures var kept := DropNa(frame);
      var out := kept[|kept| - limit..];
      && IndexAscending(out)
      && (forall k :: 0 <= k < |out| ==> out[k].index < |frame| && out[k] == frame[out[k].index] && Complete(out[k]))
      && (forall j :: 0 <= j < |frame| && Complete(frame[j]) && limit > 0 && j >= out[0].index ==> frame[j] in out)
  {
    var kept := DropNa(frame);
    var q := |kept| - limit;
    var out := kept[q..];
    assert IndexAscending(frame);
    DropNaKeepsOrder(frame);
    assert forall k :: 0 <= k < |out| ==> out[k] == kept[q + k];
    RowsAtOwnIndex(frame, out);
    forall j | 0 <= j < |frame| && Complete(frame[j]) && limit > 0 && j >= out[0].index
      ensures frame[j] in out
    {
      OrderedSuffix(kept, q, frame[j]);
    }
  }
}
