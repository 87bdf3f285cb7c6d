/** `Option`, as the views use `null` / `undefined`. */
module Wrappers {
  datatype Option<+T> = None | Some(value: T)
}

/** A sensor record of the `sensor/data` node, and the selections every view
    makes from a snapshot of that node.

    A snapshot is the sequence `Object.values(data)`, in iteration order. The
    database reads an empty node as `null`, so the empty sequence stands for
    the `null` snapshot that the views skip with `if (data)`. Timestamps are
    milliseconds on the local wall clock; temperatures are only compared. */
module Readings {
  import opened Wrappers
  import opened Sorting

  /** A status field: `None` when the record lacks it (or holds `null`). */
  type StatusField = Option<string>

  datatype Reading = Reading(
    timestamp: int,
    temperature: real,
    boardStatus: StatusField,
    wifiStatus: StatusField,
    sensorStatus: StatusField)

  /** Milliseconds per minute of the wall clock. */
  const MsPerMinute: int := 60000

  /** The comparator `(a, b) => new Date(a.timestamp) - new Date(b.timestamp)`. */
  function Timestamp(e: Reading): int { e.timestamp }

  /** The comparator `(a, b) => new Date(b.timestamp) - new Date(a.timestamp)`. */
  function NegTimestamp(e: Reading): int { -e.timestamp }

  /** The ascending comparator puts `a` before `b` (a negative result)
      exactly when `Timestamp` of `a` is the smaller, and ties them exactly
      when the keys are equal. */
  lemma AscendingComparatorKey(a: Reading, b: Reading)
    ensures a.timestamp - b.timestamp < 0 <==> Timestamp(a) < Timestamp(b)
    ensures a.timestamp - b.timestamp == 0 <==> Timestamp(a) == Timestamp(b)
  {
  }

  /** The descending comparator puts `a` before `b` exactly when `a` is the
      later reading, which is when `NegTimestamp` of `a` is the smaller. */
  lemma DescendingComparatorKey(a: Reading, b: Reading)
    ensures b.timestamp - a.timestamp < 0 <==> NegTimestamp(a) < NegTimestamp(b)
    ensures b.timestamp - a.timestamp == 0 <==> NegTimestamp(a) == NegTimestamp(b)
    ensures NegTimestamp(a) < NegTimestamp(b) <==> a.timestamp > b.timestamp
  {
  }

  /** The series sorted ascending by timestamp (stable). */
  function SortByTime(s: seq<Reading>): (r: seq<Reading>)
    ensures |r| == |s| && multiset(r) == multiset(s)
    ensures forall i, j :: 0 <= i < j < |r| ==> r[i].timestamp <= r[j].timestamp
  {
    var r := SortBy(s, Timestamp);
    assert SortedBy(r, Timestamp);
    r
  }

  /** Reordering the snapshot leaves the time axis of the sorted series as it
      was. */
  lemma SortedTimestampsIgnoreSnapshotOrder(a: seq<Reading>, b: seq<Reading>)
    requires multiset(a) == multiset(b)
    ensures Timestamps(SortByTime(a)) == Timestamps(SortByTime(b))
  {
    SortKeysIgnoreInputOrder(a, b, Timestamp);
  }

  /** With pairwise distinct timestamps, reordering the snapshot leaves the
      whole sorted series as it was. */
  lemma SortByTimeIgnoresSnapshotOrder(a: seq<Reading>, b: seq<Reading>)
    requires multiset(a) == multiset(b)
    requires forall i, j :: 0 <= i < j < |a| ==> a[i].timestamp != a[j].timestamp
    ensures SortByTime(a) == SortByTime(b)
  {
    SortIgnoresInputOrderForDistinctKeys(a, b, Timestamp);
  }

  /** Readings that share a timestamp stay in snapshot order, so swapping
      two of them with different temperatures changes the series. */
  lemma TiedTimestampsKeepSnapshotOrder(x: Reading, y: Reading)
    requires x.timestamp == y.timestamp
    ensures SortByTime([x, y]) == [x, y] && SortByTime([y, x]) == [y, x]
    ensures x.temperature != y.temperature ==>
              Temperatures(SortByTime([x, y])) != Temperatures(SortByTime([y, x]))
  {
    assert [x, y][1..] == [y] && [y, x][1..] == [x];
    assert [y][1..] == [] && [x][1..] == [];
    assert SortBy([y], Timestamp) == [y] && SortBy([x], Timestamp) == [x];
    assert Insert(x, [y], Timestamp) == [x, y] && Insert(y, [x], Timestamp) == [y, x];
    assert Temperatures([x, y])[0] == x.temperature;
    assert Temperatures([y, x])[0] == y.temperature;
  }

  /** `sortedData.map((entry) => entry.timestamp)` */
  function Timestamps(s: seq<Reading>): (r: seq<int>)
    ensures |r| == |s| && forall i :: 0 <= i < |s| ==> r[i] == s[i].timestamp
  {
    seq(|s|, i requires 0 <= i < |s| => s[i].timestamp)
  }

  /** `sortedData.map((entry) => entry.temperature)` */
  function Temperatures(s: seq<Reading>): (r: seq<real>)
    ensures |r| == |s| && forall i :: 0 <= i < |s| ==> r[i] == s[i].temperature
  {
    seq(|s|, i requires 0 <= i < |s| => s[i].temperature)
  }

  /** `sortedData[0]` after the descending sort: the latest reading, and among
      readings sharing the latest timestamp the one met first in the snapshot. */
  function LatestEntry(s: seq<Reading>): (r: Reading)
    requires |s| > 0
    ensures r in s
    ensures forall j :: 0 <= j < |s| ==> s[j].timestamp <= r.timestamp
    ensures exists i :: 0 <= i < |s| && s[i] == r
                        && forall j :: 0 <= j < i ==> s[j].timestamp < r.timestamp
  {
    var sorted := SortBy(s, NegTimestamp);
    SortHeadIsFirstMin(s, NegTimestamp);
    var i := FirstMinIndex(s, NegTimestamp);
    assert s[i] == sorted[0];
    assert forall j :: 0 <= j < |s| ==> NegTimestamp(s[i]) <= NegTimestamp(s[j]);
    assert forall j :: 0 <= j < i ==> NegTimestamp(s[i]) < NegTimestamp(s[j]);
    sorted[0]
  }
}
