/** The consumption bar chart: the figures the chart derives from the
    history (mean, vertical scale and the highest bar) and the geometry of
    the bars and of the average line. */
module ConsumptionChart {
  import opened Types
  import opened Arith

  const ChartHeight: real := 180.0
  const BarWidth: real := 35.0
  const BarMargin: real := 15.0

  /** `history.map(r => r.consumption)`. */
  function Values(history: seq<ConsumptionRecord>): (vs: seq<real>)
    ensures |vs| == |history|
    ensures forall i :: 0 <= i < |history| ==> vs[i] == history[i].consumption
  {
    if history == [] then [] else [history[0].consumption] + Values(history[1..])
  }

  /** `reduce((sum, v) => sum + v, 0)`, summing from the left. */
  function Sum(vs: seq<real>): real {
    if vs == [] then 0.0 else Sum(vs[..|vs| - 1]) + vs[|vs| - 1]
  }

  function Max(a: real, b: real): real {
    if a >= b then a else b
  }

  /** `Math.max(...vs)` of a non-empty list: an element no element exceeds. */
  function MaxOf(vs: seq<real>): (m: real)
    requires |vs| > 0
    ensures m in vs
    ensures forall i :: 0 <= i < |vs| ==> vs[i] <= m
  {
    if |vs| == 1 then vs[0] else Max(MaxOf(vs[..|vs| - 1]), vs[|vs| - 1])
  }

  /** `findIndex(v => v === x)` from position `i`: the first index holding
      `x`, or -1. */
  function FirstIndexFrom(vs: seq<real>, x: real, i: nat): (k: int)
    requires i <= |vs|
    ensures k == -1 <==> forall j :: i <= j < |vs| ==> vs[j] != x
    ensures k != -1 ==> i <= k < |vs| && vs[k] == x && forall j :: i <= j < k ==> vs[j] != x
    decreases |vs| - i
  {
    if i == |vs| then -1 else if vs[i] == x then i else FirstIndexFrom(vs, x, i + 1)
  }

  /** The figures the chart draws from. */
  datatype ChartData = ChartData(average: real, maxConsumption: real, highestRecordIndex: int)

  /** The mean of a non-empty list: the value whose multiple by the count
      is the sum, and which is no more than the largest element. */
  function Mean(vs: seq<real>): (a: real)
    requires |vs| > 0
    ensures a * (|vs| as real) == Sum(vs)
    ensures a <= MaxOf(vs)
  {
    SumAtMost(vs, MaxOf(vs));
    QuotientAtMost(Sum(vs), |vs| as real, MaxOf(vs));
    Quotient(Sum(vs), |vs| as real)
  }

  /** The `chartData` memo: nothing for an empty history; otherwise the
      mean, the scale `max(values..., 1.2 * mean)` and the first index of the
      largest reading. */
  function ComputeChartData(history: seq<ConsumptionRecord>): Option<ChartData> {
    if |history| == 0 then None
    else
      var vs := Values(history);
      var average := Mean(vs);
      var maxConsumption := Max(MaxOf(vs), average * 1.2);
      Some(ChartData(average, maxConsumption, FirstIndexFrom(vs, MaxOf(vs), 0)))
  }

  /** A sum of readings bounded by `m` is at most `|vs| * m`. */
  lemma {:induction false} SumAtMost(vs: seq<real>, m: real)
    requires forall i :: 0 <= i < |vs| ==> vs[i] <= m
    ensures Sum(vs) <= (|vs| as real) * m
  {
    if vs != [] {
      SumAtMost(vs[..|vs| - 1], m);
    }
  }

  /** A sum of non-negative readings is non-negative. */
  lemma {:induction false} SumNonNegative(vs: seq<real>)
    requires forall i :: 0 <= i < |vs| ==> vs[i] >= 0.0
    ensures Sum(vs) >= 0.0
    ensures Sum(vs) > 0.0 <==> exists i :: 0 <= i < |vs| && vs[i] > 0.0
  {
    if vs != [] {
      SumNonNegative(vs[..|vs| - 1]);
      assert forall i :: 0 <= i < |vs| - 1 ==> vs[..|vs| - 1][i] == vs[i];
    }
  }

  /** Chart data exists exactly for a non-empty history; the mean is the
      sum over the count and never exceeds the largest reading; the scale is
      at least every reading and 1.2 times the mean, and is one of those. */
  lemma ChartDataFigures(history: seq<ConsumptionRecord>)
    ensures ComputeChartData(history).None? <==> |history| == 0
    ensures ComputeChartData(history).Some? ==>
      var d := ComputeChartData(history).value;
      && d.average == Mean(Values(history))
      && d.average <= MaxOf(Values(history))
      && (forall i :: 0 <= i < |history| ==> history[i].consumption <= d.maxConsumption)
      && d.average * 1.2 <= d.maxConsumption
      && (d.maxConsumption in Values(history) || d.maxConsumption == d.average * 1.2)
  {
    if |history| > 0 {
      var vs := Values(history);
      assert forall i :: 0 <= i < |history| ==> history[i].consumption == vs[i];
    }
  }

  /** The highest bar is the first one whose reading equals the largest
      reading: its index is in range and every bar before it is lower. */
  lemma HighestIsFirstMaximum(history: seq<ConsumptionRecord>)
    requires |history| > 0
    ensures var d := ComputeChartData(history).value;
      && 0 <= d.highestRecordIndex < |history|
      && (forall i :: 0 <= i < |history| ==> history[i].consumption <= history[d.highestRecordIndex].consumption)
      && (forall i :: 0 <= i < d.highestRecordIndex ==> history[i].consumption < history[d.highestRecordIndex].consumption)
  {
    var vs := Values(history);
    var k := FirstIndexFrom(vs, MaxOf(vs), 0);
    assert MaxOf(vs) in vs;
  }

  /** For non-negative readings the scale is zero exactly when every reading
      is zero; then every bar's height is `0 / 0`, which is not a number. */
  lemma ScaleZeroIffAllZero(history: seq<ConsumptionRecord>)
    requires |history| > 0
    requires forall i :: 0 <= i < |history| ==> history[i].consumption >= 0.0
    ensures ComputeChartData(history).value.maxConsumption >= 0.0
    ensures ComputeChartData(history).value.maxConsumption == 0.0 <==>
              forall i :: 0 <= i < |history| ==> history[i].consumption == 0.0
  {
    var vs := Values(history);
    SumNonNegative(vs);
    ChartDataFigures(history);
    var m := MaxOf(vs);
    assert history[0].consumption <= m;
    if forall i :: 0 <= i < |history| ==> history[i].consumption == 0.0 {
      assert m == 0.0;
      assert forall i :: 0 <= i < |vs| ==> vs[i] == 0.0;
      assert Sum(vs) == 0.0;
    }
  }

  /** `ratio * chartHeight` for `ratio = a / b`; `None` stands for the
      non-finite number a division by zero gives. */
  function Scaled(a: real, b: real): Option<real> {
    if b == 0.0 then None else Some((a / b) * ChartHeight)
  }

  /** A bar's animated height. */
  function BarHeight(consumption: real, maxConsumption: real): Option<real> {
    Scaled(consumption, maxConsumption)
  }

  /** A bar's top: `chartHeight - barHeight`. */
  function BarY(consumption: real, maxConsumption: real): Option<real> {
    match BarHeight(consumption, maxConsumption)
    case Some(h) => Some(ChartHeight - h)
    case None => None
  }

  /** The y position of the average line. */
  function AverageLineY(average: real, maxConsumption: real): Option<real> {
    match Scaled(average, maxConsumption)
    case Some(h) => Some(ChartHeight - h)
    case None => None
  }

  /** A bar's left edge: `index * (barWidth + barMargin)`. */
  function BarX(index: nat): real {
    (index as real) * (BarWidth + BarMargin)
  }

  /** The drawing's width: `history.length * (barWidth + barMargin)`. */
  function ChartWidth(count: nat): real {
    (count as real) * (BarWidth + BarMargin)
  }

  function IsHighest(index: nat, data: ChartData): bool {
    index == data.highestRecordIndex
  }

  function IsLatest(index: nat, count: nat): bool {
    index == count - 1
  }

  /** A reading between zero and the scale gives a bar from the baseline up
      to at most the full chart height. */
  lemma {:induction false} BarWithinChart(consumption: real, maxConsumption: real)
    requires 0.0 <= consumption <= maxConsumption && maxConsumption > 0.0
    ensures BarHeight(consumption, maxConsumption).Some?
    ensures 0.0 <= BarHeight(consumption, maxConsumption).value <= ChartHeight
    ensures BarY(consumption, maxConsumption).value == ChartHeight - BarHeight(consumption, maxConsumption).value
    ensures 0.0 <= BarY(consumption, maxConsumption).value <= ChartHeight
  {
    DivAtMost(consumption, maxConsumption, 1.0);
    var r := consumption / maxConsumption;
    MulSign(r, ChartHeight);
  }

  /** Every bar of a non-negative history with a positive scale lies inside
      the chart. */
  lemma BarsWithinChart(history: seq<ConsumptionRecord>, i: nat)
    requires i < |history|
    requires forall j :: 0 <= j < |history| ==> history[j].consumption >= 0.0
    requires ComputeChartData(history).value.maxConsumption > 0.0
    ensures var m := ComputeChartData(history).value.maxConsumption;
      && BarHeight(history[i].consumption, m).Some?
      && 0.0 <= BarHeight(history[i].consumption, m).value <= ChartHeight
      && 0.0 <= BarY(history[i].consumption, m).value <= ChartHeight
  {
    ChartDataFigures(history);
    BarWithinChart(history[i].consumption, ComputeChartData(history).value.maxConsumption);
  }

  /** A positive mean draws the average line at least a sixth of the chart
      below its top (the scale is at least 1.2 times the mean), so the line
      never touches the top edge. */
  lemma AverageLineBelowTop(history: seq<ConsumptionRecord>)
    requires |history| > 0
    requires ComputeChartData(history).value.average > 0.0
    ensures var d := ComputeChartData(history).value;
      && AverageLineY(d.average, d.maxConsumption).Some?
      && AverageLineY(d.average, d.maxConsumption).value >= ChartHeight - ChartHeight / 1.2
      && AverageLineY(d.average, d.maxConsumption).value > 0.0
  {
    ChartDataFigures(history);
    var d := ComputeChartData(history).value;
    var a, m := d.average, d.maxConsumption;
    assert 1.2 * a <= m;
    DivAtMost(a, m, 1.0 / 1.2);
  }

  /** Bars are laid out left to right, each followed by its margin: no two
      overlap and the last one ends inside the drawing. */
  lemma BarsDoNotOverlap(count: nat, i: nat)
    requires i < count
    ensures BarX(i) + BarWidth + BarMargin == if i + 1 < count then BarX(i + 1) else ChartWidth(count)
    ensures BarX(i) + BarWidth <= ChartWidth(count)
  {
  }

  /** Exactly one bar is marked latest, the last, and exactly one is marked
      highest, the first largest reading. */
  lemma OneLatestOneHighest(history: seq<ConsumptionRecord>, i: nat, j: nat)
    requires i < |history| && j < |history|
    ensures var d := ComputeChartData(history).value;
      && (IsLatest(i, |history|) && IsLatest(j, |history|) ==> i == j)
      && IsLatest(|history| - 1, |history|)
      && (IsHighest(i, d) && IsHighest(j, d) ==> i == j)
      && IsHighest(d.highestRecordIndex as nat, d)
  {
    HighestIsFirstMaximum(history);
  }

  /** The worked example: readings 10, 20 and 30 have mean 20, scale
      `max(30, 24) = 30`, and the last bar is the highest. */
  lemma ChartExample(d0: string, d1: string, d2: string)
    ensures ComputeChartData([ConsumptionRecord(d0, 10.0), ConsumptionRecord(d1, 20.0), ConsumptionRecord(d2, 30.0)])
         == Some(ChartData(20.0, 30.0, 2))
  {
    var h := [ConsumptionRecord(d0, 10.0), ConsumptionRecord(d1, 20.0), ConsumptionRecord(d2, 30.0)];
    var vs := Values(h);
    assert vs == [10.0, 20.0, 30.0];
    assert vs[..2] == [10.0, 20.0] && vs[..2][..1] == [10.0];
    assert Sum(vs[..1]) == 10.0;
    assert Sum(vs[..2]) == 30.0;
    assert Sum(vs) == 60.0;
    assert MaxOf(vs) == 30.0;
    assert FirstIndexFrom(vs, 30.0, 0) == 2;
  }
}
