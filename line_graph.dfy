/** The line chart (`LineGraph`): on every snapshot it sorts the readings by
    time, projects labels and values, and colours each segment by the value's
    level band and each point by its change from the previous value. */
module LineGraph {
  import opened Readings
  import opened Classification

  /** What the colouring loop produces for `data`: one border colour and one
      point colour per value; the border colour follows the level band of the
      value alone, the point colour the transition from the previous value
      alone, and the first point has no predecessor. */
  ghost predicate LineColoured(data: seq<real>, border: seq<ChartColour>, point: seq<ChartColour>) {
    && |border| == |data|
    && |point| == |data|
    && (forall i :: 0 <= i < |data| ==> border[i] == LevelColour(LevelOf(data[i])))
    && (|data| > 0 ==> point[0] == DefaultColour)
    && (forall i :: 0 < i < |data| ==> point[i] == TransitionColour(TransitionOf(data[i - 1], data[i])))
  }

  /** The `newData.forEach` loop that pushes into `newBorderColor` and
      `newPointColors`. */
  method ClassifyLine(data: seq<real>) returns (border: seq<ChartColour>, point: seq<ChartColour>)
    ensures LineColoured(data, border, point)
  {
    border, point := [], [];
    var index := 0;
    while index < |data|
      invariant 0 <= index <= |data|
      invariant |border| == index && |point| == index
      invariant forall i :: 0 <= i < index ==> border[i] == LevelColour(LevelOf(data[i]))
      invariant index > 0 ==> point[0] == DefaultColour
      invariant forall i :: 0 < i < index ==> point[i] == TransitionColour(TransitionOf(data[i - 1], data[i]))
    {
      var value := data[index];
      var borderColour := DefaultColour;
      var pointColour := DefaultColour;
      if value > 30.0 {
        borderColour := Above30Colour;
      } else if value < 20.0 {
        borderColour := Below20Colour;
      }
      if index > 0 {
        var previousValue := data[index - 1];
        if value > previousValue {
          pointColour := IncreaseColour;
        } else if value < previousValue {
          pointColour := DecreaseColour;
        }
      }
      border := border + [borderColour];
      point := point + [pointColour];
      index := index + 1;
    }
  }

  /** The border colour, read back as the source's thresholds: above 30,
      below 20, or default for the closed band [20, 30]. */
  lemma BorderColourBands(data: seq<real>, border: seq<ChartColour>, point: seq<ChartColour>, i: int)
    requires LineColoured(data, border, point) && 0 <= i < |data|
    ensures border[i] == Above30Colour <==> data[i] > 30.0
    ensures border[i] == Below20Colour <==> data[i] < 20.0
    ensures border[i] == DefaultColour <==> 20.0 <= data[i] <= 30.0
    ensures border[i] in {Above30Colour, Below20Colour, DefaultColour}
  {
  }

  /** The point colour, read back as the comparison with the previous value. */
  lemma PointColourTransitions(data: seq<real>, border: seq<ChartColour>, point: seq<ChartColour>, i: int)
    requires LineColoured(data, border, point) && 0 < i < |data|
    ensures point[i] == IncreaseColour <==> data[i] > data[i - 1]
    ensures point[i] == DecreaseColour <==> data[i] < data[i - 1]
    ensures point[i] == DefaultColour <==> data[i] == data[i - 1]
  {
  }

  /** The chart state behind `setChartData`. */
  class LineChart {
    var labels: seq<int>
    var data: seq<real>
    var borderColor: seq<ChartColour>
    var pointColors: seq<ChartColour>

    ghost predicate Valid()
      reads this
    {
      |labels| == |data| && LineColoured(data, borderColor, pointColors)
    }

    /** The initial `useState` value: empty labels, data and colours. */
    constructor ()
      ensures Valid()
      ensures labels == [] && data == [] && borderColor == [] && pointColors == []
    {
      labels, data, borderColor, pointColors := [], [], [], [];
    }

    /** The `onValue` callback. A `null` snapshot leaves the chart as it was;
        otherwise labels and values are the timestamps and temperatures of
        the time-sorted readings, index by index, and the colours follow
        `LineColoured`. */
    method OnValue(snapshot: seq<Reading>)
      requires Valid()
      modifies this
      ensures Valid()
      ensures snapshot == [] ==> labels == old(labels) && data == old(data)
                                 && borderColor == old(borderColor) && pointColors == old(pointColors)
      ensures snapshot != [] ==>
        var sorted := SortByTime(snapshot);
        && |labels| == |sorted| && |data| == |sorted|
        && (forall i :: 0 <= i < |sorted| ==> labels[i] == sorted[i].timestamp && data[i] == sorted[i].temperature)
    {
      if snapshot != [] {
        var sortedData := SortByTime(snapshot);
        var newLabels := Timestamps(sortedData);
        var newData := Temperatures(sortedData);
        var newBorderColor, newPointColors := ClassifyLine(newData);
        labels, data, borderColor, pointColors := newLabels, newData, newBorderColor, newPointColors;
      }
    }
  }
}
