/** The current-temperature widget (`TemperatureDisplay`): shows the latest
    reading and tracks whether the board is still sending. Every snapshot is a
    heartbeat; a periodic check marks the board disconnected once more than
    five seconds have passed since the last one. Clock readings (`Date.now()`)
    are passed in as `now`. */
module TemperatureDisplay {
  import opened Wrappers
  import opened Readings
  import opened Classification

  /** Milliseconds without data after which the board counts as disconnected. */
  const StaleAfter: int := 5000

  /** The check of the `setInterval` callback: strictly more than five
      seconds since the last update. */
  predicate Stale(lastUpdate: int, now: int) {
    now - lastUpdate > StaleAfter
  }

  /** Exactly five seconds of silence is not yet stale, one millisecond
      more is; once stale, every later check finds it stale too. */
  lemma StaleBoundary(lastUpdate: int, now: int, later: int)
    ensures !Stale(lastUpdate, lastUpdate + StaleAfter) && Stale(lastUpdate, lastUpdate + StaleAfter + 1)
    ensures Stale(lastUpdate, now) && now <= later ==> Stale(lastUpdate, later)
    ensures Stale(lastUpdate, now) ==> lastUpdate < now
  {
  }

  /** `temperature < 20 ? blue : temperature > 30 ? red : sky`. Before the
      first reading `temperature` is `null`, which compares as 0, so the
      widget starts blue. */
  function TemperatureColour(temperature: Option<real>): (c: TextColour)
    ensures temperature.None? ==> c == Blue
    ensures temperature.Some? ==> c == BandTextColour(LevelOf(temperature.value))
  {
    var value := if temperature.Some? then temperature.value else 0.0;
    if value < 20.0 then Blue
    else if value > 30.0 then Red
    else Sky
  }

  class Display {
    var temperature: Option<real>
    var timestamp: Option<int>
    var lastUpdate: int
    var isConnected: bool

    /** Mounting: no reading yet, `lastUpdate = Date.now()`, and the board
        assumed connected. */
    constructor (now: int)
      ensures temperature == None && timestamp == None
      ensures lastUpdate == now && isConnected
    {
      temperature, timestamp := None, None;
      lastUpdate, isConnected := now, true;
    }

    /** The `onValue` callback, at clock time `now`: a `null` snapshot changes
        nothing; otherwise the latest reading is shown, `lastUpdate` is
        stamped and the board is connected again. */
    method OnValue(snapshot: seq<Reading>, now: int)
      modifies this
      ensures snapshot == [] ==> temperature == old(temperature) && timestamp == old(timestamp)
                                 && lastUpdate == old(lastUpdate) && isConnected == old(isConnected)
      ensures snapshot != [] ==> temperature == Some(LatestEntry(snapshot).temperature)
                                 && timestamp == Some(LatestEntry(snapshot).timestamp)
                                 && lastUpdate == now && isConnected
    {
      if snapshot != [] {
        var latestEntry := LatestEntry(snapshot);
        temperature := Some(latestEntry.temperature);
        timestamp := Some(latestEntry.timestamp);
        lastUpdate := now;
        isConnected := true;
      }
    }

    /** The `checkConnection` interval callback, at clock time `now`: it only
        ever disconnects, exactly when the last update is stale, and never
        touches `lastUpdate`. */
    method CheckConnection(now: int)
      modifies this`isConnected
      ensures isConnected == (old(isConnected) && !Stale(lastUpdate, now))
    {
      if now - lastUpdate > StaleAfter {
        isConnected := false;
      }
    }
  }

  /** A heartbeat at t = 0: still connected 4.9 s later, disconnected at
      5.1 s; a heartbeat at 4 s moves the deadline to 9 s. */
  method LivenessScenario(snapshot: seq<Reading>)
    requires snapshot != []
  {
    var d := new Display(0);
    d.OnValue(snapshot, 0);
    d.CheckConnection(4900);
    assert d.isConnected;
    d.CheckConnection(5100);
    assert !d.isConnected;

    var e := new Display(0);
    e.OnValue(snapshot, 0);
    e.OnValue(snapshot, 4000);
    e.CheckConnection(8900);
    assert e.isConnected;
    e.CheckConnection(9100);
    assert !e.isConnected;
  }
}
