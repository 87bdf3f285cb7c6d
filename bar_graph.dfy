/** The bar chart (`BarGraph`): the same sorted series as the line chart, with
    a single colour per bar in which a change from the previous value
    overrides the level band. */
module BarGraph {
  import opened Readings
  import opened Classification
  import LineGraph

  /** What the colouring loop produces: one colour per value, the transition
      colour when the value differs from its predecessor and the level colour
      otherwise (at index 0, and on equal neighbours). */
  ghost predicate BarColoured(data: seq<real>, bars: seq<ChartColour>) {
    && |bars| == |data|
    && (|data| > 0 ==> bars[0] == LevelColour(LevelOf(data[0])))
    && (forall i :: 0 < i < |data| ==>
          bars[i] == if data[i] != data[i - 1] then TransitionColour(TransitionOf(data[i - 1], data[i]))
                     else LevelColour(LevelOf(data[i])))
  }

  /** The `newData.forEach` loop that pushes into `newBarColors`. */
  method ClassifyBars(data: seq<real>) returns (bars: seq<ChartColour>)
    ensures BarColoured(data, bars)
  {
    bars := [];
    var index := 0;
    while index < |data|
      invariant 0 <= index <= |data|
      invariant |bars| == index
      invariant index > 0 ==> bars[0] == LevelColour(LevelOf(data[0]))
      invariant forall i :: 0 < i < index ==>
                  bars[i] == if data[i] != data[i - 1] then TransitionColour(TransitionOf(data[i - 1], data[i]))
                             else LevelColour(LevelOf(data[i]))
    {
      var value := data[index];
      var barColour := DefaultColour;
      if value > 30.0 {
        barColour := Above30Colour;
      } else if value < 20.0 {
        barColour := Below20Colour;
      }
      if index > 0 {
        var previousValue := data[index - 1];
        if value > previousValue {
          barColour := IncreaseColour;
        } else if value < previousValue {
          barColour := DecreaseColour;
        }
      }
      bars := bars + [barColour];
      index := index + 1;
    }
  }

  /** A change from the previous value always shows as increase or decrease,
      whatever the level band; otherwise the bar shows the level band. */
  lemma TransitionOverridesLevel(data: seq<real>, bars: seq<ChartColour>, i: int)
    requires BarColoured(data, bars) && 0 <= i < |data|
    ensures i > 0 && data[i] > data[i - 1] ==> bars[i] == IncreaseColour
    ensures i > 0 && data[i] < data[i - 1] ==> bars[i] == DecreaseColour
    ensures (i == 0 || data[i] == data[i - 1]) ==>
              (bars[i] == Above30Colour <==> data[i] > 30.0)
              && (bars[i] == Below20Colour <==> data[i] < 20.0)
              && (bars[i] == DefaultColour <==> 20.0 <= data[i] <= 30.0)
  {
  }

  /** The two charts agree: a bar takes the line chart's point colour where
      that colour is not the default, and the border colour where it is. */
  lemma BarCombinesLineColours(data: seq<real>, border: seq<ChartColour>, point: seq<ChartColour>, bars: seq<ChartColour>)
    requires LineGraph.LineColoured(data, border, point) && BarColoured(data, bars)
    ensures forall i :: 0 <= i < |data| ==>
              bars[i] == (if point[i] != DefaultColour then point[i] else border[i])
  {
    forall i | 0 <= i < |data|
      ensures bars[i] == (if point[i] != DefaultColour then point[i] else border[i])
    {
      if i > 0 {
        TransitionCases(data[i - 1], data[i]);
      }
    }
  }

  /** `new Array(newData.length).fill('')` */
  function BlankLabels(n: nat): (r: seq<string>)
    ensures |r| == n && forall i :: 0 <= i < n ==> r[i] == ""
  {
    seq(n, _ => "")
  }

  /** The chart state behind `setChartData`. */
  class BarChart {
    var labels: seq<string>
    var data: seq<real>
    var barColors: seq<ChartColour>

    ghost predicate Valid()
      reads this
    {
      |labels| == |data| && (forall i :: 0 <= i < |labels| ==> labels[i] == "")
      && BarColoured(data, barColors)
    }

    constructor ()
      ensures Valid()
      ensures labels == [] && data == [] && barColors == []
    {
      labels, data, barColors := [], [], [];
    }

    /** The `onValue` callback: a `null` snapshot causes no update; otherwise
        the values are the temperatures of the time-sorted readings and the
        labels are that many empty strings. */
    method OnValue(snapshot: seq<Reading>)
      requires Valid()
      modifies this
      ensures Valid()
      ensures snapshot == [] ==> labels == old(labels) && data == old(data) && barColors == old(barColors)
      ensures snapshot != [] ==>
        var sorted := SortByTime(snapshot);
        && |data| == |sorted|
        && (forall i :: 0 <= i < |sorted| ==> data[i] == sorted[i].temperature)
    {
      if snapshot != [] {
        var sortedData := SortByTime(snapshot);
        var newData := Temperatures(sortedData);
        var newBarColors := ClassifyBars(newData);
        labels, data, barColors := BlankLabels(|newData|), newData, newBarColors;
      }
    }
  }
}
