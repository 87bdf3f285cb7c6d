/** The board-information widget (`StatusDisplay`): the board, Wi-Fi and
    sensor status of the latest reading, each falling back to
    `'Disconnected'` when the field is falsy. */
module StatusDisplay {
  import opened Wrappers
  import opened Readings

  const Connected: string := "Connected"
  const Disconnected: string := "Disconnected"

  /** A status field is truthy when present and not the empty string. */
  predicate Truthy(field: StatusField) {
    field.Some? && field.value != ""
  }

  /** `field || 'Disconnected'` */
  function StatusOrDisconnected(field: StatusField): (status: string)
    ensures status != ""
    ensures Truthy(field) ==> status == field.value
    ensures !Truthy(field) ==> status == Disconnected
    ensures status == Connected ==> field == Some(Connected)
  {
    if Truthy(field) then field.value else Disconnected
  }

  /** The status is shown green iff it reads exactly `'Connected'`, so the
      fallback is never green. */
  function ShownGreen(status: string): (green: bool)
    ensures green ==> status != Disconnected && status != ""
  {
    status == Connected
  }

  /** Only a field that reads `'Connected'` turns green; an absent or empty
      field never does. */
  lemma GreenOnlyIfConnected(field: StatusField)
    ensures ShownGreen(StatusOrDisconnected(field)) <==> field == Some(Connected)
    ensures field == None ==> !ShownGreen(StatusOrDisconnected(field))
  {
  }

  class Status {
    var boardStatus: string
    var wifiStatus: string
    var sensorStatus: string

    constructor ()
      ensures boardStatus == Disconnected && wifiStatus == Disconnected && sensorStatus == Disconnected
    {
      boardStatus, wifiStatus, sensorStatus := Disconnected, Disconnected, Disconnected;
    }

    /** The `onValue` callback: a `null` snapshot leaves all three statuses;
        otherwise each comes from its own field of the latest reading. */
    method OnValue(snapshot: seq<Reading>)
      modifies this
      ensures snapshot == [] ==> boardStatus == old(boardStatus) && wifiStatus == old(wifiStatus)
                                 && sensorStatus == old(sensorStatus)
      ensures snapshot != [] ==>
        var latest := LatestEntry(snapshot);
        && boardStatus == StatusOrDisconnected(latest.boardStatus)
        && wifiStatus == StatusOrDisconnected(latest.wifiStatus)
        && sensorStatus == StatusOrDisconnected(latest.sensorStatus)
    {
      if snapshot != [] {
        var latestEntry := LatestEntry(snapshot);
        boardStatus := StatusOrDisconnected(latestEntry.boardStatus);
        wifiStatus := StatusOrDisconnected(latestEntry.wifiStatus);
        sensorStatus := StatusOrDisconnected(latestEntry.sensorStatus);
      }
    }
  }
}
