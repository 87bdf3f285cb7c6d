# Temperature dashboard core, modelled in Dafny

The dashboard reads one stream of temperature records from the `sensor/data`
node of a realtime database. Each record has a timestamp, a temperature and
three status fields: board, Wi-Fi and sensor. Six components turn a snapshot
of that node into what the user sees. This project models the logic of each
of them:

- the line chart and the bar chart sort the readings by time. They colour
  each value by its level band (above 30, below 20, or the closed band
  [20, 30]) and by its change from the previous value. The line chart keeps
  two colour arrays. In the bar chart a change overrides the band.
- the search panel rounds the selected time to five minutes. It computes the
  data range (earliest and latest timestamp) and scans for the nearest
  reading; on ties the first reading in iteration order wins. It then either
  stores that reading's temperature or reports that the time is out of range.
- the calendar has 96 quarter-hour slots shown 16 per page. Its next and
  previous buttons are guarded. It keeps a dictionary from time of day to
  temperature, in which the last write wins.
- the current-temperature widget shows the latest reading. It tracks liveness
  with `isConnected` and `lastUpdate`: data reconnects, and a periodic check
  disconnects when more than 5000 ms have passed since the last data.
- the board-information widget shows the three statuses of the latest
  reading. Each falls back to `'Disconnected'` when its field is falsy.

Modelling choices:

- A snapshot is the sequence of the node's values in iteration order
  (`Object.values`). The database reads an empty node as `null`, so the empty
  sequence stands for the `null` snapshot that every view skips.
- Timestamps are integers: milliseconds on the local wall clock.
- Temperatures are `real`, because they are only ever compared.
- The `'hh:mm a'` key of the calendar is the minute of the day.
  `TemperatureCalendar.ClockTextOneToOne` shows that the format's fields
  (12-hour hour, minute, AM/PM) tell every minute of the day apart.
- Colours are enumerations of their roles (`Above30Colour`, `Sky`, ...), not
  RGBA strings.
- The level band is defined once (`Classification.LevelOf`). Each component
  writes its own `if` chain, as the source does, and its contract proves that
  the chain agrees with the band.
- `Array.prototype.sort` with a numeric comparator is a stable sort. It is
  modelled by one stable insertion sort over an integer key
  (`Sorting.SortBy`). A descending sort is that sort on the negated key.
  `Sorting.StableSortIsUnique` shows that every stable sort gives the same
  result. So the choice of algorithm does not matter.
- Component state that the source keeps in React state becomes a class. Each
  callback becomes a method that changes the fields.
- A `Date` whose setter the source calls becomes an object (`Filters.JsDate`).
- Clock readings (`Date.now()`) and timer firings become method parameters
  and explicit method calls.

Modules: `Sorting` (sorting.dfy), `Wrappers` and `Readings` (readings.dfy),
`Classification` (classification.dfy), `LineGraph` (line_graph.dfy),
`BarGraph` (bar_graph.dfy), `Filters` (filters.dfy), `TemperatureCalendar`
(temperature_calendar.dfy), `TemperatureDisplay` (temperature_display.dfy) and
`StatusDisplay` (status_display.dfy).

## Model

| member | source | states |
|---|---|---|
| Sorting.SortBy | src/app/components/LineGraph.js:57 | the sorted sequence has the input's length, is a permutation of it (same multiset) and is non-decreasing by the key |
| Sorting.SortStable | src/app/components/BarGraph.js:52 | for every key value, the readings carrying it keep their input order (the sort is stable) |
| Sorting.StableSortIsUnique | src/app/components/Filters.js:35 | any ordered result that keeps equal keys in input order is exactly `SortBy`, so the model agrees with any stable sort |
| Sorting.FirstMinIndex | src/app/components/TemperatureDisplay.js:19-22 | reference definition of the pick: an index whose key is the smallest, with every earlier index strictly larger |
| Sorting.SortHeadIsFirstMin | src/app/components/StatusDisplay.js:20-21 | the head of the stable sort is the first element with the smallest key |
| Sorting.SortLastIsMax | src/app/components/Filters.js:39 | the last element of the sort carries the largest key of the input |
| Readings.SortByTime | src/app/components/LineGraph.js:57 | the series is a permutation of the snapshot, of the same length, ascending by timestamp |
| Readings.AscendingComparatorKey | src/app/components/LineGraph.js:57 | the ascending comparator is negative iff the first timestamp is smaller and zero iff equal, matching the key `Timestamp` |
| Readings.DescendingComparatorKey | src/app/components/TemperatureDisplay.js:20 | the descending comparator is negative iff the first timestamp is larger and zero iff equal, matching the key `NegTimestamp` |
| Sorting.SortKeysIgnoreInputOrder | src/app/components/LineGraph.js:57 | two inputs with the same elements in any order sort to the same key at every position |
| Sorting.SortIgnoresInputOrderForDistinctKeys | src/app/components/BarGraph.js:52 | with pairwise distinct keys, two inputs with the same elements in any order sort to the same sequence |
| Readings.SortedTimestampsIgnoreSnapshotOrder | src/app/components/LineGraph.js:57-59 | reordering the snapshot leaves the time axis (the sorted timestamps) unchanged |
| Readings.SortByTimeIgnoresSnapshotOrder | src/app/components/LineGraph.js:57 | with pairwise distinct timestamps, reordering the snapshot leaves the whole sorted series unchanged |
| Readings.TiedTimestampsKeepSnapshotOrder | src/app/components/LineGraph.js:57 | two readings with the same timestamp stay in snapshot order, so swapping two with different temperatures changes the series |
| Readings.Timestamps | src/app/components/LineGraph.js:59 | the labels have the series' length and label i is the timestamp of entry i |
| Readings.Temperatures | src/app/components/LineGraph.js:60 | the data have the series' length and value i is the temperature of entry i |
| Readings.LatestEntry | src/app/components/TemperatureDisplay.js:19-22 | the selected reading is in the snapshot, has the maximum timestamp, and every earlier reading has a strictly smaller timestamp (the first of the latest wins) |
| Classification.LevelBands | src/app/components/LineGraph.js:72-76 | above-high iff > 30, below-low iff < 20, normal iff in [20, 30]; exactly one holds, and 20 and 30 are normal |
| Classification.TransitionCases | src/app/components/LineGraph.js:80-85 | rising iff the value exceeds its predecessor, falling iff below it, flat iff equal |
| LineGraph.ClassifyLine | src/app/components/LineGraph.js:66-90 | one border and one point colour per value; the border colour is the level band of the value, the first point is default, later points follow the transition from the predecessor |
| LineGraph.BorderColourBands | src/app/components/LineGraph.js:68-76 | border colour is above30 iff value > 30, below20 iff < 20, default iff in [20, 30], and nothing else |
| LineGraph.PointColourTransitions | src/app/components/LineGraph.js:79-85 | for i > 0 the point colour is increase iff data[i] > data[i-1], decrease iff <, default iff equal |
| LineGraph.LineChart.constructor | src/app/components/LineGraph.js:35-49 | the chart starts with empty labels, data and colour arrays |
| LineGraph.LineChart.OnValue | src/app/components/LineGraph.js:54-108 | a `null` snapshot leaves the chart unchanged; otherwise label i and value i are the timestamp and temperature of sorted entry i, and the colours satisfy the classification |
| BarGraph.ClassifyBars | src/app/components/BarGraph.js:60-82 | one colour per value: the level colour at index 0 and on equal neighbours, the transition colour when the value differs from its predecessor |
| BarGraph.TransitionOverridesLevel | src/app/components/BarGraph.js:62-78 | a rise is always the increase colour and a fall the decrease colour whatever the band; otherwise the bar shows the band |
| BarGraph.BarCombinesLineColours | src/app/components/BarGraph.js:60-82 | on the same data, each bar is the line chart's point colour where that is not default, and its border colour otherwise |
| BarGraph.BlankLabels | src/app/components/BarGraph.js:86 | exactly n labels, all empty strings |
| BarGraph.BarChart.constructor | src/app/components/BarGraph.js:32-44 | the chart starts empty |
| BarGraph.BarChart.OnValue | src/app/components/BarGraph.js:49-98 | a `null` snapshot causes no update; otherwise the values are the sorted temperatures, the labels as many empty strings, the colours as classified |
| Filters.MinutesOf | src/app/components/Filters.js:21 | the minute field is the number of whole minutes since the start of the hour of the time, in 0..59 |
| Filters.MathRound | src/app/components/Filters.js:22 | `Math.round(n / d)` for d > 0: the integer r with r - 1/2 <= n/d < r + 1/2 (halves round up) |
| Filters.SetMinutes | src/app/components/Filters.js:23 | with minutes in 0..59 the time keeps its hour, has those minutes and no seconds; minute 60 is the start of the next hour |
| Filters.RoundedMinutesBounds | src/app/components/Filters.js:22 | the rounded minute is a multiple of 5 in 0..60, within 2 of the original, is 60 exactly for minutes 58 and 59, and leaves multiples of 5 unchanged |
| Filters.RoundedTime | src/app/components/Filters.js:20-24 | the rounded time is a whole multiple of five minutes (seconds and milliseconds zero), lies in (-3, +2] minutes of the input, keeps the hour with the rounded minute, and rolls minutes 58 and 59 to the next hour's :00 |
| Filters.RoundingIdempotent | src/app/components/Filters.js:20-24 | rounding a rounded time leaves it unchanged |
| Filters.RoundToNearestFiveMinutes | src/app/components/Filters.js:20-24 | the argument `Date` itself is set to the rounded time, and a fresh `Date` with that time is returned |
| Filters.DateRangeOf | src/app/components/Filters.js:34-39 | start is the earliest and end the latest timestamp of the snapshot (both attained), so start <= end |
| Filters.Distance | src/app/components/Filters.js:60 | the absolute difference of the two times |
| Filters.FirstNearestUnique | src/app/components/Filters.js:62 | the strict `<` tie-break determines the result: at most one index is the first nearest |
| Filters.NearestTemperature | src/app/components/Filters.js:54-66 | no result iff the snapshot is empty; otherwise the temperature of an entry whose distance is <= every entry's, with every earlier entry strictly farther (ties keep the first) |
| Filters.InRange | src/app/components/Filters.js:69 | the negated out-of-range test holds iff start <= t <= end (both bounds inclusive) |
| Filters.SearchPanel.constructor | src/app/components/Filters.js:9-13 | the picker holds the current time; no result, range or error yet |
| Filters.SearchPanel.SelectDate | src/app/components/Filters.js:102 | the picker's selection becomes the given `Date`, or `null` when the field is cleared |
| Filters.SearchPanel.FetchDatabaseDateRange | src/app/components/Filters.js:27-41 | an empty database leaves the range as it was; otherwise the range becomes the earliest and latest timestamp |
| Filters.SearchPanel.HandleSearch | src/app/components/Filters.js:43-91 | a cleared picker (`null`) changes nothing; otherwise the selected date is rounded in place; an out-of-range date (outside [start, end], inclusive) sets the error and keeps the old result; an in-range date stores the first nearest reading's temperature; an empty snapshot or unknown range changes nothing else |
| Filters.SearchPanel.ClearError | src/app/components/Filters.js:78-80 | the timer callback clears the error |
| TemperatureCalendar.TimeSlots | src/app/components/TemperatureCalendar.js:6-19 | 96 strictly increasing slots, every multiple of 15 minutes of the day and nothing else |
| TemperatureCalendar.TimeOfDay | src/app/components/TemperatureCalendar.js:36 | the key is the number of whole minutes since midnight of the day of the time, in 0..1439 |
| TemperatureCalendar.ClockTextOf | src/app/components/TemperatureCalendar.js:36 | the `'hh:mm a'` fields: hour 1..12, minute 0..59, PM iff the minute of the day is 12:00 or later, and the fields decode back to the minute of the day ((hour mod 12) * 60 + minute, plus 720 for PM) |
| TemperatureCalendar.ClockTextOneToOne | src/app/components/TemperatureCalendar.js:36 | two minutes of the day have the same `'hh:mm a'` text iff they are equal |
| TemperatureCalendar.DaysShareTimeOfDay | src/app/components/TemperatureCalendar.js:35-36 | readings whole days apart get the same key: there is no same-day filtering |
| TemperatureCalendar.BucketedKeys | src/app/components/TemperatureCalendar.js:34-38 | the dictionary's keys are exactly the times of day of the snapshot's readings |
| TemperatureCalendar.BucketedLastWriteWins | src/app/components/TemperatureCalendar.js:35-38 | on a key collision the dictionary holds the temperature of the last reading with that key |
| TemperatureCalendar.BucketByTimeOfDay | src/app/components/TemperatureCalendar.js:34-38 | the loop builds exactly the last-write-wins dictionary `Bucketed` |
| TemperatureCalendar.SlotFilledExactly | src/app/components/TemperatureCalendar.js:70 | a slot has a temperature iff some reading falls exactly on that minute (no rounding to the quarter hour) |
| TemperatureCalendar.SlotTemperature | src/app/components/TemperatureCalendar.js:70 | a slot's lookup is undefined iff the dictionary has no entry for it, and otherwise that entry's temperature |
| TemperatureCalendar.SlotColour | src/app/components/TemperatureCalendar.js:71 | red above 30, blue below 20, sky in [20, 30] (the level band), and sky for an empty slot |
| TemperatureCalendar.NextPage | src/app/components/TemperatureCalendar.js:51-55 | the guard `(page+1)*16 < 96` moves on exactly before the last page (5) |
| TemperatureCalendar.PreviousPage | src/app/components/TemperatureCalendar.js:57-61 | the page moves back by one exactly when it is above 0, and otherwise stays |
| TemperatureCalendar.PageBounds | src/app/components/TemperatureCalendar.js:51-61 | from a page in 0..5 both handlers stay in 0..5; next is a no-op exactly at page 5, previous exactly at page 0 |
| TemperatureCalendar.NextThenPrevious | src/app/components/TemperatureCalendar.js:51-61 | a `next` that moved, followed by `previous`, restores the page |
| TemperatureCalendar.PageSlots | src/app/components/TemperatureCalendar.js:45-48 | the slice of a page in 0..5 has 16 slots, slot i being timeSlots[page*16 + i]; pages beyond are empty |
| TemperatureCalendar.PagesPartitionSlots | src/app/components/TemperatureCalendar.js:45-48 | every slot appears on page slot/16 at position slot%16 |
| TemperatureCalendar.Calendar.constructor | src/app/components/TemperatureCalendar.js:23-24 | the calendar starts on page 0 with an empty dictionary |
| TemperatureCalendar.Calendar.OnValue | src/app/components/TemperatureCalendar.js:31-41 | a `null` snapshot keeps the dictionary; otherwise it becomes the last-write-wins bucketing of the snapshot |
| TemperatureCalendar.Calendar.HandleNextPage | src/app/components/TemperatureCalendar.js:51-55 | the page advances iff (page+1)*16 < 96 and stays in 0..5 |
| TemperatureCalendar.Calendar.HandlePreviousPage | src/app/components/TemperatureCalendar.js:57-61 | the page goes back iff page > 0 and stays in 0..5 |
| TemperatureCalendar.Calendar.PaginatedTimeSlots | src/app/components/TemperatureCalendar.js:45-48 | the visible slice always holds 16 slots, timeSlots[page*16 .. page*16+16) |
| TemperatureDisplay.TemperatureColour | src/app/components/TemperatureDisplay.js:46 | blue below 20, red above 30, sky in [20, 30] (the level band); blue before any reading (`null` compares as 0) |
| TemperatureDisplay.Display.constructor | src/app/components/TemperatureDisplay.js:7-10 | no reading yet, `lastUpdate` is the mount time, and `isConnected` is true |
| TemperatureDisplay.Display.OnValue | src/app/components/TemperatureDisplay.js:16-29 | a `null` snapshot changes nothing; otherwise the latest reading is shown, `lastUpdate := now` and `isConnected := true` |
| TemperatureDisplay.StaleBoundary | src/app/components/TemperatureDisplay.js:33 | exactly 5000 ms of silence is not stale, 5001 ms is; staleness persists for later checks and needs `now` after `lastUpdate` |
| TemperatureDisplay.Display.CheckConnection | src/app/components/TemperatureDisplay.js:32-36 | the check disconnects iff now - lastUpdate > 5000 (strict), never reconnects, and changes no other field |
| StatusDisplay.StatusOrDisconnected | src/app/components/StatusDisplay.js:24-26 | a truthy field is shown as is, a falsy or absent one as `'Disconnected'`; the result is never empty and is `'Connected'` only if the field is |
| StatusDisplay.ShownGreen | src/app/components/StatusDisplay.js:34-36 | a green status is never the `'Disconnected'` fallback and never empty |
| StatusDisplay.GreenOnlyIfConnected | src/app/components/StatusDisplay.js:34-36 | a status is green iff its field reads exactly `'Connected'`; an absent field is never green |
| StatusDisplay.Status.constructor | src/app/components/StatusDisplay.js:7-9 | all three statuses start as `'Disconnected'` |
| StatusDisplay.Status.OnValue | src/app/components/StatusDisplay.js:16-28 | a `null` snapshot leaves all statuses; otherwise each status comes from its own field of the latest reading |

## Left out

- The database (`ref`, `onValue`, `get`, the shared `database` handle) is not modelled. Each callback takes the snapshot as a parameter.
- React hooks, rendering, JSX, Tailwind classes, chart.js registration, options and legends are not modelled. Only the state the callbacks compute is kept. For the same reason the RGBA strings are left out: colours are their roles.
- `setInterval`, `setTimeout` and their cleanup are not modelled. The liveness check (`TemperatureDisplay.Display.CheckConnection`) and the error clearing (`Filters.SearchPanel.ClearError`) are events that the caller fires. The error timer runs 5000 ms in the code, although its comment says 3 seconds.
- The effect depends on `[lastUpdate]`, so each update runs it again. Its cleanup clears only the interval, never the `onValue` subscription, so listeners pile up. Each new listener fires at once with the current snapshot and stamps `lastUpdate` again, which re-runs the effect and attaches yet another listener. The chain stops only when `Date.now()` has not moved since the previous stamp. This lifecycle is not modelled: the model has one listener, and each delivery is one `TemperatureDisplay.Display.OnValue` call.
- `fetchDatabaseDateRange` and `handleSearch` are `async` and `await get(...)`. The model runs each handler atomically, so interleavings are not modelled: an older search whose read completes last can overwrite a newer search's result, and the model cannot show that.
- Readings.SortByTime: readings with the same timestamp stay in the snapshot's iteration order (`Readings.TiedTimestampsKeepSnapshotOrder`). So the series does not depend on that order only when timestamps are distinct (`Readings.SortByTimeIgnoresSnapshotOrder`). The time axis never depends on it (`Readings.SortedTimestampsIgnoreSnapshotOrder`). The claim that every ordering of the snapshot gives the same series therefore holds only without tied timestamps.
- `new Date(string)` parsing and date-fns `format` are not modelled. Timestamps are already local milliseconds, with no time zone or daylight-saving shifts. An unparsable timestamp (`NaN` in the sort and the scan) is not modelled.
- The `'dd-MM-yyyy HH:mm:ss'` date stored with a search result is kept as the rounded time. The text of the out-of-range message is kept as the range it names.
- Display formatting is not modelled: `toFixed(2)`, and `'-'` for a falsy slot temperature (so a 0 °C reading shows `'-'`).
- Status fields are modelled as optional strings. Non-string values are not.
- `src/app/page.js` (graph toggle, console logging) and `src/app/components/Header.js` (static markup) contain no logic.
- Filters.SearchPanel.HandleSearch: the model assumes date-fns 2 or 3, whose `format` throws a `RangeError` on a `null` date. With an unknown range (`startDate` still `null`), the code compares the date with `null` (as 0) and then fails formatting the message. The model treats every such search as aborted, including the one instant (time 0) for which the code would store the result. With date-fns 4, `format(null)` formats the epoch instead: any search after 1970 sets the out-of-range error naming 01-01-1970 to 01-01-1970 and starts the clearing timer. The model does not capture that outcome.
- Filters.SearchPanel: `startDate` and `endDate` are modelled as one optional range, because the code always sets them together.
- Sorting.SortBy: the sorts in the code run in place on a freshly built local array. The model sorts values, which cannot differ observably.
- The code has none of the following, so the model has none either: statuses that decay to `'Disconnected'` once the liveness timeout passes (the board-information widget never consults liveness), de-duplication of readings with identical timestamps, configurable thresholds, an initial "stale" liveness state, same-day filtering or 15-minute rounding in the calendar, malformed-record counting, and binary search. A search outside the range reports an error instead of returning the nearest reading.
