/** The search panel (`Filters`): it rounds the selected date to five minutes,
    scans the snapshot for the reading nearest to it, and checks the rounded
    date against the data range fetched when the panel mounted. */
module Filters {
  import opened Wrappers
  import opened Sorting
  import opened Readings

  const MsPerHour: int := 3600000

  /** A JavaScript `Date`, an object whose time the setters change in place.
      The time is the local wall clock in milliseconds. */
  class JsDate {
    var time: int

    constructor (time: int)
      ensures this.time == time
    {
      this.time := time;
    }
  }

  /** `date.getMinutes()`: the whole minutes elapsed since the start of the
      hour of `t`. */
  function MinutesOf(t: int): (m: int)
    ensures 0 <= m < 60
    ensures (t / MsPerHour) * MsPerHour + m * MsPerMinute <= t < (t / MsPerHour) * MsPerHour + (m + 1) * MsPerMinute
  {
    (t % MsPerHour) / MsPerMinute
  }

  /** `Math.round(n / d)` for a positive divisor: the floor of n/d + 1/2. */
  function MathRound(n: int, d: int): (r: int)
    requires d > 0
    ensures 2 * d * r <= 2 * n + d < 2 * d * (r + 1)
  {
    (2 * n + d) / (2 * d)
  }

  /** `Math.round(minutes / 5) * 5` */
  function RoundedMinutes(m: int): int {
    MathRound(m, 5) * 5
  }

  /** The rounded minute is a multiple of 5 in 0..60, at most 2 away from the
      original; 58 and 59 round up to 60. */
  lemma RoundedMinutesBounds(m: int)
    requires 0 <= m < 60
    ensures RoundedMinutes(m) % 5 == 0 && 0 <= RoundedMinutes(m) <= 60
    ensures -2 <= RoundedMinutes(m) - m <= 2
    ensures RoundedMinutes(m) == 60 <==> m >= 58
    ensures m % 5 == 0 ==> RoundedMinutes(m) == m
  {
  }

  /** `date.setMinutes(minutes, 0, 0)`: the same hour, the given minutes, zero
      seconds and milliseconds; minute 60 rolls over into the next hour. */
  function SetMinutes(t: int, minutes: int): (r: int)
    ensures 0 <= minutes < 60 ==>
              r / MsPerHour == t / MsPerHour && MinutesOf(r) == minutes && r % MsPerMinute == 0
    ensures minutes == 60 ==> r == (t / MsPerHour + 1) * MsPerHour
  {
    (t / MsPerHour) * MsPerHour + minutes * MsPerMinute
  }

  /** The time `roundToNearestFiveMinutes` gives `t`: the minute field is
      rounded to a multiple of five and the seconds are dropped, so the
      result lies within (-3, +2] minutes of `t`. */
  function RoundedTime(t: int): (r: int)
    ensures r % (5 * MsPerMinute) == 0
    ensures -3 * MsPerMinute < r - t <= 2 * MsPerMinute
    ensures MinutesOf(t) < 58 ==> r / MsPerHour == t / MsPerHour && MinutesOf(r) == RoundedMinutes(MinutesOf(t))
    ensures MinutesOf(t) >= 58 ==> r == (t / MsPerHour + 1) * MsPerHour
  {
    RoundedMinutesBounds(MinutesOf(t));
    SetMinutes(t, RoundedMinutes(MinutesOf(t)))
  }

  /** Rounding an already rounded time changes nothing. */
  lemma RoundingIdempotent(t: int)
    ensures RoundedTime(RoundedTime(t)) == RoundedTime(t)
  {
  }

  /** `roundToNearestFiveMinutes(date)`: sets the minutes of `date` itself
      (seconds and milliseconds to zero) and returns a new `Date` with the
      same time. */
  method RoundToNearestFiveMinutes(date: JsDate) returns (rounded: JsDate)
    modifies date
    ensures date.time == RoundedTime(old(date.time))
    ensures fresh(rounded) && rounded.time == date.time
  {
    var minutes := MinutesOf(date.time);
    var roundedMinutes := MathRound(minutes, 5) * 5;
    date.time := SetMinutes(date.time, roundedMinutes);
    rounded := new JsDate(date.time);
  }

  /** `startDate` and `endDate`. */
  datatype DateRange = DateRange(start: int, end: int)

  function Ident(t: int): int { t }

  /** `fetchDatabaseDateRange`: the first and last of the sorted timestamps,
      that is the earliest and the latest reading. */
  function DateRangeOf(snapshot: seq<Reading>): (r: DateRange)
    requires snapshot != []
    ensures r.start <= r.end
    ensures forall j :: 0 <= j < |snapshot| ==> r.start <= snapshot[j].timestamp <= r.end
    ensures exists i :: 0 <= i < |snapshot| && snapshot[i].timestamp == r.start
    ensures exists i :: 0 <= i < |snapshot| && snapshot[i].timestamp == r.end
  {
    var timestamps := Timestamps(snapshot);
    var sorted := SortBy(timestamps, Ident);
    SortHeadIsFirstMin(timestamps, Ident);
    SortLastIsMax(timestamps, Ident);
    var first := FirstMinIndex(timestamps, Ident);
    assert sorted[|sorted| - 1] in multiset(timestamps);
    assert forall j :: 0 <= j < |snapshot| ==> Ident(timestamps[first]) <= Ident(timestamps[j]);
    DateRange(sorted[0], sorted[|sorted| - 1])
  }

  /** `Math.abs(entryDate - roundedDate)` */
  function Distance(t: int, target: int): (d: nat)
    ensures d == t - target || d == target - t
    ensures t - target <= d && target - t <= d
  {
    if t >= target then t - target else target - t
  }

  /** Entry `k` is nearest to `target`, and every earlier entry is strictly
      farther away: the first nearest entry in iteration order. */
  ghost predicate FirstNearest(entries: seq<Reading>, target: int, k: int) {
    && 0 <= k < |entries|
    && (forall j :: 0 <= j < |entries| ==>
          Distance(entries[k].timestamp, target) <= Distance(entries[j].timestamp, target))
    && (forall j :: 0 <= j < k ==>
          Distance(entries[k].timestamp, target) < Distance(entries[j].timestamp, target))
  }

  /** The tie-break leaves no choice: at most one entry is the first nearest. */
  lemma FirstNearestUnique(entries: seq<Reading>, target: int, k1: int, k2: int)
    requires FirstNearest(entries, target, k1) && FirstNearest(entries, target, k2)
    ensures k1 == k2
  {
    var d1, d2 := Distance(entries[k1].timestamp, target), Distance(entries[k2].timestamp, target);
    assert d1 <= d2 && d2 <= d1;
    assert k1 < k2 ==> d2 < d1;
    assert k2 < k1 ==> d1 < d2;
  }

  /** The `forEach` scan of `handleSearch`, starting from `nearestTimeDiff =
      Infinity` (`None`) and replacing the candidate only on a strictly smaller
      distance. `k` names the entry whose temperature is kept. */
  method NearestTemperature(entries: seq<Reading>, target: int) returns (nearest: Option<real>, ghost k: nat)
    ensures entries == [] <==> nearest == None
    ensures entries != [] ==> FirstNearest(entries, target, k) && nearest == Some(entries[k].temperature)
  {
    nearest := None;
    k := 0;
    var nearestTimeDiff: Option<nat> := None;
    var n := 0;
    while n < |entries|
      invariant 0 <= n <= |entries|
      invariant n == 0 <==> nearestTimeDiff == None
      invariant n == 0 <==> nearest == None
      invariant n > 0 ==> k < n
                          && nearestTimeDiff == Some(Distance(entries[k].timestamp, target))
                          && nearest == Some(entries[k].temperature)
      invariant n > 0 ==> forall j :: 0 <= j < n ==>
                            Distance(entries[k].timestamp, target) <= Distance(entries[j].timestamp, target)
      invariant n > 0 ==> forall j :: 0 <= j < k ==>
                            Distance(entries[k].timestamp, target) < Distance(entries[j].timestamp, target)
    {
      var entry := entries[n];
      var timeDiff := Distance(entry.timestamp, target);
      if nearestTimeDiff == None || timeDiff < nearestTimeDiff.value {
        nearestTimeDiff := Some(timeDiff);
        nearest := Some(entry.temperature);
        k := n;
      }
      n := n + 1;
    }
  }

  /** Inclusive bounds: the rounded date is searchable iff it lies in
      [start, end]. */
  function InRange(t: int, range: DateRange): (b: bool)
    ensures b <==> range.start <= t <= range.end
  {
    !(t < range.start || t > range.end)
  }

  /** `temperatureData`: the temperature found at the rounded date. (With
      parsable timestamps the source's "No data found" record is never
      stored: its branch is unreachable, see `HandleSearch`.) */
  datatype SearchResult = Found(date: int, temperature: real)

  /** `errorMessage`: the out-of-range notice, which names the range. */
  datatype ErrorMessage = OutOfRange(range: DateRange)

  class SearchPanel {
    var selectedDate: Option<JsDate>
    var temperatureData: Option<SearchResult>
    var range: Option<DateRange>
    var errorMessage: Option<ErrorMessage>

    /** Mounting: the picker holds `new Date()`, nothing is known yet. */
    constructor (now: int)
      ensures selectedDate.Some? && fresh(selectedDate.value) && selectedDate.value.time == now
      ensures temperatureData == None && range == None && errorMessage == None
    {
      var date := new JsDate(now);
      selectedDate := Some(date);
      temperatureData, range, errorMessage := None, None, None;
    }

    /** The picker's `onChange`; a cleared field passes `null` (`None`). */
    method SelectDate(date: Option<JsDate>)
      modifies this`selectedDate
      ensures selectedDate == date
    {
      selectedDate := date;
    }

    /** `fetchDatabaseDateRange`, run once on mount: an empty database leaves
        the range unknown. */
    method FetchDatabaseDateRange(snapshot: seq<Reading>)
      modifies this`range
      ensures range == if snapshot == [] then old(range) else Some(DateRangeOf(snapshot))
    {
      if snapshot != [] {
        range := Some(DateRangeOf(snapshot));
      }
    }

    /** `handleSearch`. A cleared picker (`null`) makes the handler throw at
        `date.getMinutes()` before anything changes. Otherwise the selected
        `Date` object is rounded in place even when nothing else happens.
        With a non-empty snapshot and a known range, an out-of-range rounded
        date sets the error and keeps the previous result; an in-range one
        stores the temperature of the first nearest reading. An unknown range
        aborts the handler: with date-fns 2 or 3, as assumed here, formatting
        the message for a `null` range throws. */
    method HandleSearch(snapshot: seq<Reading>)
      modifies this`temperatureData, this`errorMessage
      modifies if selectedDate.Some? then {selectedDate.value} else {}
      ensures selectedDate == None || snapshot == [] || range == None ==>
                temperatureData == old(temperatureData) && errorMessage == old(errorMessage)
      ensures selectedDate.Some? ==> selectedDate.value.time == RoundedTime(old(selectedDate.value.time))
      ensures selectedDate.Some? && snapshot != [] && range.Some? && !InRange(selectedDate.value.time, range.value) ==>
                errorMessage == Some(OutOfRange(range.value)) && temperatureData == old(temperatureData)
      ensures selectedDate.Some? && snapshot != [] && range.Some? && InRange(selectedDate.value.time, range.value) ==>
                errorMessage == old(errorMessage)
                && exists k :: FirstNearest(snapshot, selectedDate.value.time, k)
                               && temperatureData == Some(Found(selectedDate.value.time, snapshot[k].temperature))
    {
      if selectedDate == None {
        return;
      }
      var roundedDate := RoundToNearestFiveMinutes(selectedDate.value);
      if snapshot != [] {
        var nearestTemperature, k := NearestTemperature(snapshot, roundedDate.time);
        if range.Some? {
          if roundedDate.time < range.value.start || roundedDate.time > range.value.end {
            errorMessage := Some(OutOfRange(range.value));
          } else if nearestTemperature.Some? {
            temperatureData := Some(Found(roundedDate.time, nearestTemperature.value));
          } else {
            // the scan of a non-empty snapshot always finds a reading
            assert false;
          }
        }
      }
    }

    /** The `setTimeout` callback that clears the error. */
    method ClearError()
      modifies this`errorMessage
      ensures errorMessage == None
    {
      errorMessage := None;
    }
  }
}
