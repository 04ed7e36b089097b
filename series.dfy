/**
 * Column arithmetic of the indicator step, stated cell by cell: sums and
 * means of windows, the trailing simple moving average (`ta.sma`,
 * `rolling(n).mean()`), and the volume ratio that divides a bar's volume by
 * the rolling mean shifted one bar forward.
 */
module Series {
  import opened Cells

  function Sum(s: seq<real>): real
  {
    if |s| == 0 then 0.0 else Sum(s[..|s| - 1]) + s[|s| - 1]
  }

  function Mean(s: seq<real>): (m: real)
    requires |s| > 0
    ensures m * (|s| as real) == Sum(s)
  {
    Sum(s) / (|s| as real)
  }

  /** A sum can also be taken from the front. */
  lemma {:induction false} SumFirst(s: seq<real>)
    requires |s| > 0
    ensures Sum(s) == s[0] + Sum(s[1..])
  {
    if |s| > 1 {
      SumFirst(s[..|s| - 1]);
      assert s[..|s| - 1][1..] == s[1..][..|s| - 2];
    }
  }

  /** A sum of values that are all at least zero is at least zero. */
  lemma {:induction false} SumNonnegative(s: seq<real>)
    requires forall k :: 0 <= k < |s| ==> s[k] >= 0.0
    ensures Sum(s) >= 0.0
  {
    if |s| > 0 {
      SumNonnegative(s[..|s| - 1]);
    }
  }

  /** A non-empty sum of values that all exceed `c` exceeds `|s| * c`. */
  lemma {:induction false} SumAbove(s: seq<real>, c: real)
    requires |s| > 0
    requires forall k :: 0 <= k < |s| ==> s[k] > c
    ensures Sum(s) > (|s| as real) * c
  {
    if |s| > 1 {
      SumAbove(s[..|s| - 1], c);
      assert ((|s| - 1) as real) * c + c == (|s| as real) * c;
    }
  }

  /** The trailing window of `n` values that ends at position `i`. */
  function Trailing(xs: seq<real>, n: nat, i: nat): seq<real>
    requires n <= i + 1 <= |xs|
  {
    xs[i + 1 - n..i + 1]
  }

  /** Position `i` of the trailing simple moving average of length `n`: the
      mean of the `n` values ending there, missing while fewer than `n`
      values exist (the window is also the minimum number of periods). */
  function MovingAverage(xs: seq<real>, n: nat, i: nat): (cell: Option<real>)
    requires n >= 1 && i < |xs|
    ensures cell.Some? <==> i + 1 >= n
  {
    if i + 1 >= n then Some(Mean(Trailing(xs, n, i))) else None
  }

  /** Moving the window one step on keeps the rolling sum current in
      constant time: the new value enters and the oldest one leaves. */
  lemma SlidingSum(xs: seq<real>, n: nat, i: nat)
    requires 1 <= n <= i < |xs|
    ensures Sum(Trailing(xs, n, i)) == Sum(Trailing(xs, n, i - 1)) - xs[i - n] + xs[i]
  {
    var w := xs[i - n..i + 1];
    SumFirst(w);
    assert w[..|w| - 1] == Trailing(xs, n, i - 1);
    assert w[1..] == Trailing(xs, n, i);
  }

  /** The moving average as an incremental recurrence, the reference
      definition a streaming implementation would follow. */
  lemma MovingAverageStep(xs: seq<real>, n: nat, i: nat)
    requires 1 <= n <= i < |xs|
    ensures MovingAverage(xs, n, i) ==
      Some(MovingAverage(xs, n, i - 1).value + (xs[i] - xs[i - n]) / (n as real))
  {
    SlidingSum(xs, n, i);
    var a, b := Sum(Trailing(xs, n, i)), Sum(Trailing(xs, n, i - 1));
    var k := n as real;
    assert a / k == b / k + (xs[i] - xs[i - n]) / k;
  }

  /** Position `i` of `volume / volume.rolling(5).mean().shift(1)`: the
      rolling mean shifted forward is missing at position 0 and otherwise
      the mean that ended one position earlier. */
  function VolumeRatio(vs: seq<real>, i: nat): Quotient
    requires i < |vs|
  {
    var prior := if i == 0 then None else MovingAverage(vs, 5, i - 1);
    match prior
    case None => NotANumber
    case Some(d) => Divide(vs[i], d)
  }

  /** The volume ratio at `i` divides by the mean of the five volumes
      strictly before `i`, and is NaN for the first five positions. */
  lemma VolumeRatioPriorWindow(vs: seq<real>, i: nat)
    requires i < |vs|
    ensures VolumeRatio(vs, i) ==
      if i >= 5 then Divide(vs[i], Sum(vs[i - 5..i]) / 5.0) else NotANumber
  {
    if i >= 5 {
      assert Trailing(vs, 5, i - 1) == vs[i - 5..i];
    }
  }

  ghost predicate StrictlyRising(xs: seq<real>)
  {
    forall j, k :: 0 <= j < k < |xs| ==> xs[j] < xs[k]
  }

  lemma MeanComparison(a: real, b: real, p: real, q: real)
    requires p > 0.0 && q > 0.0 && q * a > p * b
    ensures a / p > b / q
  {
    var u, v := a / p, b / q;
    assert u * p == a;
    assert v * q == b;
    assert q * p * u > p * q * v;
  }

  /** On a strictly rising series, widening a trailing window by one older
      value lowers its mean. */
  lemma WiderWindowLowerMean(xs: seq<real>, k: nat, i: nat)
    requires StrictlyRising(xs)
    requires 1 <= k && k + 1 <= i + 1 <= |xs|
    ensures Mean(Trailing(xs, k, i)) > Mean(Trailing(xs, k + 1, i))
  {
    var v := Trailing(xs, k, i);
    var w := Trailing(xs, k + 1, i);
    var x := xs[i - k];
    assert w[1..] == v;
    SumFirst(w);
    SumAbove(v, x);
    var s, kk := Sum(v), k as real;
    assert s > kk * x;
    assert Sum(w) == x + s;
    assert (kk + 1.0) * s > kk * (x + s);
    MeanComparison(s, x + s, kk, kk + 1.0);
  }

  /** On a strictly rising series, a shorter trailing mean ending at the
      same position is strictly above a longer one. */
  lemma {:induction false} ShorterWindowHigherMean(xs: seq<real>, k: nat, m: nat, i: nat)
    requires StrictlyRising(xs)
    requires 1 <= k < m <= i + 1 <= |xs|
    ensures Mean(Trailing(xs, k, i)) > Mean(Trailing(xs, m, i))
    decreases m - k
  {
    WiderWindowLowerMean(xs, m - 1, i);
    if k < m - 1 {
      ShorterWindowHigherMean(xs, k, m - 1, i);
    }
  }
}
