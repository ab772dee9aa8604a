/** What backends report to the manager. Free message texts are not modelled. */
module Events {
  import opened Text
  import opened DeviceRecords

  datatype ErrorCode = RadioOff | OtherError

  datatype Event =
    | ScanStarted
    | ScanStopped
    | DeviceFound(device: DeviceInfo)
    | DeviceRemoved(address: string, deviceAddress: string)
    | PairingStarted(address: string)
    | PairingSucceeded(address: string)
    | PairingFailed(address: string)
    | PairingConfirmationRequested(address: string, kind: string)
    | PairingPinRequested(address: string)
    | PairingDisplayPin(address: string, pin: string)
    | ConnectionChanged(address: string, connected: bool)
    | ErrorOccurred(operation: string, code: ErrorCode)
    | PairedDevicesUpdated(devices: seq<Option<Dict>>)  // None stands for a value that is no dictionary
    | BackendInitialized(radioOn: bool)

  /** What an event or signal says about scan sessions and pairing attempts. */
  datatype Mark =
    | ScanOpened | ScanClosed | ScanFailed
    | Started(address: string) | Succeeded(address: string) | Failed(address: string)

  const START_SCAN: string := "start_scan"

  function MarkOf(e: Event): seq<Mark> {
    match e
    case ScanStarted => [ScanOpened]
    case ScanStopped => [ScanClosed]
    case ErrorOccurred(operation, _) => if operation == START_SCAN then [ScanFailed] else []
    case PairingStarted(a) => [Started(a)]
    case PairingSucceeded(a) => [Succeeded(a)]
    case PairingFailed(a) => [Failed(a)]
    case _ => []
  }

  function Marks(events: seq<Event>): seq<Mark> {
    if events == [] then [] else Marks(events[..|events| - 1]) + MarkOf(events[|events| - 1])
  }

  lemma {:induction false} MarksConcat(a: seq<Event>, b: seq<Event>)
    ensures Marks(a + b) == Marks(a) + Marks(b)
  {
    hide MarkOf;
    if b == [] {
      assert a + b == a;
    } else {
      var front, last := b[..|b| - 1], b[|b| - 1];
      MarksConcat(a, front);
      assert (a + b)[..|a + b| - 1] == a + front && (a + b)[|a + b| - 1] == last;
      assert Marks(a) + (Marks(front) + MarkOf(last)) == Marks(a) + Marks(front) + MarkOf(last);
    }
  }

  // ----- well-bracketed traces -----

  datatype Phase = Phase(scanOpen: bool, pairing: Option<string>)

  const IDLE: Phase := Phase(false, None)

  /** One mark: a scan or pairing begins only when none is open, and ends only its own. */
  function Advance(phase: Phase, mark: Mark): Option<Phase> {
    match mark
    case ScanOpened => if phase.scanOpen then None else Some(phase.(scanOpen := true))
    case ScanClosed => if phase.scanOpen then Some(phase.(scanOpen := false)) else None
    case ScanFailed => if phase.scanOpen then Some(phase.(scanOpen := false)) else None
    case Started(a) => if phase.pairing.Some? then None else Some(phase.(pairing := Some(a)))
    case Succeeded(a) => if phase.pairing == Some(a) then Some(phase.(pairing := None)) else None
    case Failed(a) => if phase.pairing == Some(a) then Some(phase.(pairing := None)) else None
  }

  /** The phase after a trace, or None if the trace is not well bracketed. */
  function After(marks: seq<Mark>): Option<Phase> {
    if marks == [] then Some(IDLE)
    else
      var before := After(marks[..|marks| - 1]);
      if before.None? then None else Advance(before.value, marks[|marks| - 1])
  }

  lemma AfterOne(marks: seq<Mark>, mark: Mark)
    ensures After(marks + [mark]) == if After(marks).None? then None else Advance(After(marks).value, mark)
  {
    assert (marks + [mark])[..|marks|] == marks;
  }

  lemma {:induction false} AfterPrefix(marks: seq<Mark>, n: nat)
    requires After(marks).Some? && n <= |marks|
    ensures After(marks[..n]).Some?
    decreases |marks|
  {
    if n < |marks| {
      AfterPrefix(marks[..|marks| - 1], n);
      assert marks[..|marks| - 1][..n] == marks[..n];
    } else {
      assert marks[..n] == marks;
    }
  }
}
