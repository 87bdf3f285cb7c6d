/** The temperature bands and reading-to-reading transitions that the charts,
    the calendar and the current-temperature widget colour by. The thresholds
    are the constants the views hard-code. */
module Classification {

  const High: real := 30.0
  const Low: real := 20.0

  /** Level band of one temperature: above 30, below 20, or the closed
      band [20, 30]. */
  datatype Level = AboveHigh | BelowLow | Normal

  function LevelOf(t: real): Level {
    if t > High then AboveHigh
    else if t < Low then BelowLow
    else Normal
  }

  /** The three bands are exclusive and cover every temperature; both
      thresholds belong to `Normal`. */
  lemma LevelBands(t: real)
    ensures LevelOf(t) == AboveHigh <==> t > 30.0
    ensures LevelOf(t) == BelowLow <==> t < 20.0
    ensures LevelOf(t) == Normal <==> 20.0 <= t <= 30.0
    ensures LevelOf(20.0) == Normal && LevelOf(30.0) == Normal
  {
  }

  /** Change from the previous value to the current one. */
  datatype Transition = Rising | Falling | Flat

  function TransitionOf(previous: real, value: real): Transition {
    if value > previous then Rising
    else if value < previous then Falling
    else Flat
  }

  lemma TransitionCases(previous: real, value: real)
    ensures TransitionOf(previous, value) == Rising <==> value > previous
    ensures TransitionOf(previous, value) == Falling <==> value < previous
    ensures TransitionOf(previous, value) == Flat <==> value == previous
  {
  }

  /** The five colour roles of the line and bar charts (`defaultLineColor` /
      `defaultBarColor`, `above30Color`, `below20Color`,
      `suddenIncreaseColor`, `suddenDecreaseColor`). */
  datatype ChartColour = DefaultColour | Above30Colour | Below20Colour | IncreaseColour | DecreaseColour

  function LevelColour(l: Level): ChartColour {
    match l
    case AboveHigh => Above30Colour
    case BelowLow => Below20Colour
    case Normal => DefaultColour
  }

  function TransitionColour(t: Transition): ChartColour {
    match t
    case Rising => IncreaseColour
    case Falling => DecreaseColour
    case Flat => DefaultColour
  }

  /** Text colours of the calendar and the current-temperature widget
      (`text-red-500`, `text-blue-500`, `text-sky-400`). */
  datatype TextColour = Red | Blue | Sky

  function BandTextColour(l: Level): TextColour {
    match l
    case AboveHigh => Red
    case BelowLow => Blue
    case Normal => Sky
  }
}
