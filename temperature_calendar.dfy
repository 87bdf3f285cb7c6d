/** The calendar grid (`TemperatureCalendar`): a fixed domain of 96
    quarter-hour slots shown 16 at a time, and a lookup from time of day to
    temperature rebuilt from every snapshot.

    The `'hh:mm a'` key the source formats is modelled as the minute of the
    day (0..1439), which that format encodes one-to-one. */
module TemperatureCalendar {
  import opened Wrappers
  import opened Readings
  import opened Classification

  const MinutesPerDay: int := 1440
  const MsPerDay: int := 86400000
  const SlotCount: int := 96
  const ItemsPerPage: int := 16
  const LastPage: int := 5

  /** `timeSlots`: 12:00 AM, 12:15 AM, ..., 11:45 PM as minutes of the day. */
  function TimeSlots(): (r: seq<int>)
    ensures |r| == SlotCount
    ensures forall i, j :: 0 <= i < j < |r| ==> r[i] < r[j]
    ensures forall i :: 0 <= i < |r| ==> 0 <= r[i] < MinutesPerDay && r[i] % 15 == 0
    ensures forall m :: 0 <= m < MinutesPerDay && m % 15 == 0 ==> m in r
  {
    var r := seq(SlotCount, i requires 0 <= i < SlotCount => 15 * i);
    forall m | 0 <= m < MinutesPerDay && m % 15 == 0 ensures m in r {
      var i := m / 15;
      assert 0 <= i < SlotCount && r[i] == 15 * i == m;
    }
    r
  }

  /** `format(new Date(entry.timestamp), 'hh:mm a')`: the whole minutes
      elapsed since midnight of the day of `t`. */
  function TimeOfDay(t: int): (m: int)
    ensures 0 <= m < MinutesPerDay
    ensures (t / MsPerDay) * MsPerDay + m * MsPerMinute <= t < (t / MsPerDay) * MsPerDay + (m + 1) * MsPerMinute
  {
    var d := t / MsPerDay;
    assert t == d * MsPerDay + t % MsPerDay;
    assert t / MsPerMinute == d * MinutesPerDay + (t % MsPerDay) / MsPerMinute;
    (t / MsPerMinute) % MinutesPerDay
  }

  /** The fields of an `'hh:mm a'` text: the hour on the 12-hour clock (12
      for the hours 0 and 12), the minute, and whether it is PM. */
  datatype ClockText = ClockText(hh: int, mm: int, pm: bool)

  function ClockTextOf(m: int): (c: ClockText)
    requires 0 <= m < MinutesPerDay
    ensures 1 <= c.hh <= 12 && 0 <= c.mm < 60
    ensures c.pm <==> m >= 12 * 60
    ensures (c.hh % 12) * 60 + c.mm + (if c.pm then 12 * 60 else 0) == m
  {
    var h := m / 60;
    ClockText(if h % 12 == 0 then 12 else h % 12, m % 60, h >= 12)
  }

  /** The `'hh:mm a'` text tells every minute of the day apart, so keying by
      the minute of the day is keying by that text. */
  lemma ClockTextOneToOne(m1: int, m2: int)
    requires 0 <= m1 < MinutesPerDay && 0 <= m2 < MinutesPerDay
    ensures ClockTextOf(m1) == ClockTextOf(m2) <==> m1 == m2
  {
    if ClockTextOf(m1) == ClockTextOf(m2) {
      var h1, h2 := m1 / 60, m2 / 60;
      assert m1 == 60 * h1 + m1 % 60 && m2 == 60 * h2 + m2 % 60;
      assert h1 % 12 == h2 % 12;
      assert (h1 >= 12) == (h2 >= 12);
      assert h1 == h2;
    }
  }

  /** No same-day filtering: readings whole days apart share a key. */
  lemma DaysShareTimeOfDay(t: int, days: int)
    ensures TimeOfDay(t + days * MsPerDay) == TimeOfDay(t)
  {
    MinuteCountShift(t, days);
  }

  /** The minute count of `t` moves by whole days' worth of minutes, and so
      keeps its remainder modulo a day. */
  lemma MinuteCountShift(t: int, days: int)
    ensures ((t + days * MsPerDay) / MsPerMinute) % MinutesPerDay == (t / MsPerMinute) % MinutesPerDay
  {
    assert t + days * MsPerDay == (t / MsPerMinute + days * MinutesPerDay) * MsPerMinute + t % MsPerMinute;
    assert (t + days * MsPerDay) / MsPerMinute == t / MsPerMinute + days * MinutesPerDay;
  }

  function Key(e: Reading): int { TimeOfDay(e.timestamp) }

  /** The dictionary `filteredData` after writing every entry in order:
      `filteredData[entryTime] = entry.temperature`. */
  function Bucketed(entries: seq<Reading>): map<int, real> {
    if entries == [] then map[]
    else
      var last := entries[|entries| - 1];
      Bucketed(entries[..|entries| - 1])[Key(last) := last.temperature]
  }

  /** A time of day has an entry iff some reading falls exactly on it. */
  lemma {:induction false} BucketedKeys(entries: seq<Reading>)
    ensures Bucketed(entries).Keys == set i | 0 <= i < |entries| :: Key(entries[i])
  {
    if entries != [] {
      var init := entries[..|entries| - 1];
      BucketedKeys(init);
      assert forall i :: 0 <= i < |init| ==> init[i] == entries[i];
    }
  }

  /** On a key collision the entry written last wins. */
  lemma {:induction false} BucketedLastWriteWins(entries: seq<Reading>, i: int)
    requires 0 <= i < |entries|
    requires forall j :: i < j < |entries| ==> Key(entries[j]) != Key(entries[i])
    ensures Key(entries[i]) in Bucketed(entries)
    ensures Bucketed(entries)[Key(entries[i])] == entries[i].temperature
  {
    if i < |entries| - 1 {
      var init := entries[..|entries| - 1];
      assert forall j :: 0 <= j < |init| ==> init[j] == entries[j];
      BucketedLastWriteWins(init, i);
    }
  }

  /** The `Object.values(data).forEach` loop that fills `filteredData`. */
  method BucketByTimeOfDay(entries: seq<Reading>) returns (filteredData: map<int, real>)
    ensures filteredData == Bucketed(entries)
  {
    filteredData := map[];
    var n := 0;
    while n < |entries|
      invariant 0 <= n <= |entries|
      invariant filteredData == Bucketed(entries[..n])
    {
      var entry := entries[n];
      filteredData := filteredData[Key(entry) := entry.temperature];
      assert entries[..n + 1][..n] == entries[..n];
      n := n + 1;
    }
    assert entries[..n] == entries;
  }

  /** `temperatureData[time]`: `undefined` (here `None`) for a slot no
      reading falls on. */
  function SlotTemperature(temperatureData: map<int, real>, slot: int): (r: Option<real>)
    ensures r.Some? <==> slot in temperatureData
    ensures r.Some? ==> r.value == temperatureData[slot]
  {
    if slot in temperatureData then Some(temperatureData[slot]) else None
  }

  /** A reading shows in a slot only if it falls exactly on that minute: there
      is no rounding to the quarter hour. */
  lemma SlotFilledExactly(entries: seq<Reading>, slot: int)
    ensures SlotTemperature(Bucketed(entries), slot).Some?
            <==> exists i :: 0 <= i < |entries| && Key(entries[i]) == slot
  {
    BucketedKeys(entries);
  }

  /** `temp > 30 ? red : temp < 20 ? blue : sky`; an empty slot compares
      `undefined`, for which both comparisons are false. */
  function SlotColour(temp: Option<real>): (c: TextColour)
    ensures temp.None? ==> c == Sky
    ensures temp.Some? ==> c == BandTextColour(LevelOf(temp.value))
  {
    if temp.Some? && temp.value > 30.0 then Red
    else if temp.Some? && temp.value < 20.0 then Blue
    else Sky
  }

  /** `handleNextPage`: moves on iff another page of slots follows. */
  function NextPage(page: int): (r: int)
    ensures page < LastPage ==> r == page + 1
    ensures page >= LastPage ==> r == page
  {
    if (page + 1) * ItemsPerPage < SlotCount then page + 1 else page
  }

  /** `handlePreviousPage`: moves back iff not on the first page. */
  function PreviousPage(page: int): (r: int)
    ensures r == page || r == page - 1
    ensures r == page <==> page <= 0
  {
    if page > 0 then page - 1 else page
  }

  /** Both handlers keep the page in 0..5; `next` is a no-op exactly on the
      last page and `previous` exactly on the first. */
  lemma PageBounds(page: int)
    requires 0 <= page <= LastPage
    ensures 0 <= NextPage(page) <= LastPage && 0 <= PreviousPage(page) <= LastPage
    ensures NextPage(page) == page <==> page == LastPage
    ensures PreviousPage(page) == page <==> page == 0
  {
  }

  /** A `next` that moved, followed by `previous`, comes back. */
  lemma NextThenPrevious(page: int)
    requires 0 <= page && NextPage(page) != page
    ensures PreviousPage(NextPage(page)) == page
  {
  }

  /** `timeSlots.slice(page * itemsPerPage, (page + 1) * itemsPerPage)`, with
      the clamping of `Array.prototype.slice`. */
  function PageSlots(page: int): (r: seq<int>)
    requires 0 <= page
    ensures page <= LastPage ==> |r| == ItemsPerPage
    ensures page <= LastPage ==> forall i :: 0 <= i < |r| ==> r[i] == TimeSlots()[page * ItemsPerPage + i]
    ensures page > LastPage ==> r == []
  {
    var slots := TimeSlots();
    var start := if page * ItemsPerPage < |slots| then page * ItemsPerPage else |slots|;
    var end := if (page + 1) * ItemsPerPage < |slots| then (page + 1) * ItemsPerPage else |slots|;
    slots[start..end]
  }

  /** The six pages cover the whole domain, each slot exactly once. */
  lemma PagesPartitionSlots(slot: int)
    requires 0 <= slot < SlotCount
    ensures PageSlots(slot / ItemsPerPage)[slot % ItemsPerPage] == TimeSlots()[slot]
  {
  }

  class Calendar {
    var temperatureData: map<int, real>
    var currentPage: int

    ghost predicate Valid()
      reads this
    {
      0 <= currentPage <= LastPage
    }

    constructor ()
      ensures Valid() && currentPage == 0 && temperatureData == map[]
    {
      temperatureData, currentPage := map[], 0;
    }

    /** The `onValue` callback: a `null` snapshot keeps the old dictionary. */
    method OnValue(snapshot: seq<Reading>)
      modifies this`temperatureData
      ensures temperatureData == if snapshot == [] then old(temperatureData) else Bucketed(snapshot)
    {
      if snapshot != [] {
        temperatureData := BucketByTimeOfDay(snapshot);
      }
    }

    method HandleNextPage()
      requires Valid()
      modifies this`currentPage
      ensures Valid() && currentPage == NextPage(old(currentPage))
    {
      if (currentPage + 1) * ItemsPerPage < SlotCount {
        currentPage := currentPage + 1;
      }
    }

    method HandlePreviousPage()
      requires Valid()
      modifies this`currentPage
      ensures Valid() && currentPage == PreviousPage(old(currentPage))
    {
      if currentPage > 0 {
        currentPage := currentPage - 1;
      }
    }

    /** `paginatedTimeSlots`: always a full page of 16 slots. */
    function PaginatedTimeSlots(): (r: seq<int>)
      requires Valid()
      reads this
      ensures |r| == ItemsPerPage
      ensures forall i :: 0 <= i < ItemsPerPage ==> r[i] == TimeSlots()[currentPage * ItemsPerPage + i]
    {
      PageSlots(currentPage)
    }
  }
}
