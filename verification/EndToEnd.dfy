/** The pieces together: what the backend emits, through the event queue, to the manager's tables and signals. */
module EndToEnd {
  import opened Text
  import opened Addresses
  import opened DeviceRecords
  import opened OrderedTables
  import opened DeviceTables
  import opened DeviceCaches
  import opened Events
  import opened Manager
  import opened Replica
  import opened Bluez
  import opened LinuxBackends
  import Worker
  import BackendRuns
  import Pairing

  /**
   Whatever the threads do, the scan and pairing signals the manager has sent
   are a prefix of what the backend has emitted, in order; if the backend's
   trace is well bracketed, so is the script's.
   */
  lemma SignalsArePrefix(steps: seq<Worker.Step>)
    ensures var s := Worker.RunSteps(steps);
            var sent := SignalMarks(HandleAll(FRESH_MANAGER, s.handled).signals);
            && sent <= Marks(s.emitted)
            && (After(Marks(s.emitted)).Some? ==> After(sent).Some?)
  {
    Worker.RunKeepsInv(steps);
    SentIsPrefix(Worker.RunSteps(steps));
  }

  lemma SentIsPrefix(s: Worker.System)
    requires Worker.QueuesInv(s)
    ensures var sent := SignalMarks(HandleAll(FRESH_MANAGER, s.handled).signals);
            && sent <= Marks(s.emitted) && (s.events == [] ==> sent == Marks(s.emitted))
            && (After(Marks(s.emitted)).Some? ==> After(sent).Some?)
  {
    hide Handled, HandleAll, After, MarkOf, SignalMark;
    SignalsFollowEvents(FRESH_MANAGER, s.handled);
    MarksConcat(s.handled, s.events);
    assert SignalMarks([]) + Marks(s.handled) == Marks(s.handled);
    if After(Marks(s.emitted)).Some? {
      AfterPrefix(Marks(s.emitted), |Marks(s.handled)|);
    }
  }

  /**
   With the backend running its commands on the worker thread, the script's scan
   and pairing signals are well bracketed at any moment, whatever the outcomes
   and the interleaving; once the worker has ended and the queue is empty, every
   scan and pairing the script has heard of is over.
   */
  lemma SignalsAreBracketed(steps: seq<BackendRuns.Step>)
    ensures var w := BackendRuns.RunSteps(steps).worker;
            var sent := SignalMarks(HandleAll(FRESH_MANAGER, w.handled).signals);
            && After(sent).Some?
            && (w.pc.Done? && w.events == [] ==> After(sent) == Some(IDLE))
  {
    hide After, Marks, HandleAll, SignalMarks;
    BackendRuns.RunKeepsInv(steps);
    BackendRuns.EmittedIsBracketed(steps);
    SentIsPrefix(BackendRuns.RunSteps(steps).worker);
  }

  // ----- signals of BlueZ -----

  /** Whether the upsert of a record emits its DEVICE_FOUND: it is new or forced, and no filter holds it back. */
  predicate Announced(s: CacheState, p: DeviceInfo, force: bool, scanning: bool, options: ScanOptions) {
    && (KeyOf(p) !in s.tables.discovered.entries || force)
    && (!scanning || PassesScanFilter(options, Stored(s.tables.discovered, p)))
  }

  /** The record absorbs no entry, and with the one at its key it makes the given record. */
  predicate Makes(t: Table, p: DeviceInfo, e: DeviceInfo) {
    && KeyOf(p) in t.entries && StaleKeys(t, p) == []
    && MergeDeviceIdentity(Prepared(p), t.entries[KeyOf(p)]) == e
  }

  /** The record absorbs no entry and adds nothing to the one at its key. */
  predicate AddsNothing(t: Table, p: DeviceInfo) {
    KeyOf(p) in t.entries && Makes(t, p, t.entries[KeyOf(p)])
  }

  /** Any other remaining entry whose id is the very address is connected exactly if the record is. */
  ghost predicate OthersAgree(t: Table, p: DeviceInfo) {
    forall k :: k in t.entries && k != KeyOf(p) && k !in StaleKeys(t, p) && t.entries[k].deviceId == KeyOf(p)
                ==> t.entries[k].connected == p.connected
  }

  /** The record says it is connected or absorbs no connected entry, and no other entry disagrees. */
  ghost predicate ConnectionAgrees(t: Table, p: DeviceInfo) {
    (p.connected || !AbsorbsConnected(t, p)) && OthersAgree(t, p)
  }

  /** The record absorbs no entry, adds at most its connection to the one at its key, and no other entry disagrees. */
  ghost predicate AddsConnection(t: Table, p: DeviceInfo) {
    KeyOf(p) in t.entries && Makes(t, p, t.entries[KeyOf(p)].(connected := p.connected)) && OthersAgree(t, p)
  }

  /** When an upsert, announced or not and with or without a CONNECTION_CHANGED, keeps the tables equal. */
  ghost predicate KeptByUpsert(t: Table, p: DeviceInfo, announced: bool, told: bool) {
    if announced then told ==> ConnectionAgrees(t, p)
    else if told then AddsConnection(t, p)
    else AddsNothing(t, p)
  }

  function UpsertEvents(t: Table, p: DeviceInfo, announced: bool, told: bool): seq<Event> {
    (if announced then [DeviceFound(Stored(t, p))] else [])
    + (if told then [ConnectionChanged(KeyOf(p), p.connected)] else [])
  }

  predicate Forces(change: PropertyChange) {
    change.paired.Some? || change.connected.Some? || change.rssi.Some?
  }

  /** When the handler of a signal keeps the manager's tables equal to the cache's. */
  ghost predicate KeptBySignal(s: CacheState, signal: BluezSignal, scanning: bool, options: ScanOptions) {
    match signal
    case InterfaceAdded(props) =>
      var p := DeviceInfoFromBluez(props);
      KeptByUpsert(s.tables.discovered, p, Announced(s, p, true, scanning, options), false)
    case PropertiesChanged(change) =>
      var p := ChangeRecord(s, change);
      KeptByUpsert(s.tables.discovered, p, Announced(s, p, Forces(change), scanning, options), change.connected.Some?)
    case _ => true
  }

  predicate CanonicalSignal(s: CacheState, signal: BluezSignal) {
    match signal
    case InterfaceAdded(props) => CanonicalRecord(DeviceInfoFromBluez(props))
    case PropertiesChanged(change) => CanonicalRecord(ChangeRecord(s, change))
    case _ => true
  }

  /**
   Once the manager has handled the events the backend's handler emits for a
   signal of BlueZ, scanning under any filter or not, cache and manager are equal
   again: always for an object that disappears and for a prompt; for one that
   appears exactly if no filter holds it back or it adds nothing; for a property
   change exactly if it is announced and its connection, if it tells one, is what
   is stored, or it is not announced and adds nothing but what it tells.
   */
  lemma SignalKeepsReplica(
    s: CacheState, m: ManagerState, signal: BluezSignal, scanning: bool, options: ScanOptions)
    requires InStep(s, m) && CanonicalSignal(s, signal)
    ensures InStep(SignalCache(s, signal), HandleAll(m, SignalEvents(s, signal, scanning, options)))
            <==> KeptBySignal(s, signal, scanning, options)
  {
    hide InStep, Handled, HandleAll, Upserted, Removed, CanonicalRecord, ChangeRecord, FoundKey, DeviceInfoFromBluez;
    hide KeptByUpsert, UpsertEvents, Announced, FoundEvents, ConnectionEvents;
    var events := SignalEvents(s, signal, scanning, options);
    match signal {
      case InterfaceAdded(props) =>
        var p := DeviceInfoFromBluez(props);
        AddedEvents(s, p, scanning, options);
        UpsertKeepsReplica(s, m, p, Announced(s, p, true, scanning, options), false);
      case InterfaceRemoved(path) =>
        var key := FoundKey(s, path);
        if key.Some? {
          FoundKeyIsPresent(s, path);
          GoneStep(s, m, key.value);
          HandleOne(m, events);
        } else {
          HandleNone(m);
        }
      case PropertiesChanged(change) =>
        var p := ChangeRecord(s, change);
        ChangeEvents(s, change, scanning, options);
        UpsertKeepsReplica(s, m, p, Announced(s, p, Forces(change), scanning, options), change.connected.Some?);
      case AgentPrompt(path, prompt) =>
        HandleOne(m, events);
        PromptTables(m, path, prompt);
        SameTablesInStep(s, m, Handled(m, events[0]));
    }
  }

  lemma AddedEvents(s: CacheState, p: DeviceInfo, scanning: bool, options: ScanOptions)
    ensures FoundEvents(s, p, true, true, scanning, options)
            == UpsertEvents(s.tables.discovered, p, Announced(s, p, true, scanning, options), false)
  {
    hide Stored, KeyOf, PassesScanFilter;
  }

  lemma ChangeEvents(s: CacheState, change: PropertyChange, scanning: bool, options: ScanOptions)
    requires CanonicalRecord(ChangeRecord(s, change))
    ensures var p := ChangeRecord(s, change);
            var announced := Announced(s, p, Forces(change), scanning, options);
            SignalEvents(s, PropertiesChanged(change), scanning, options)
            == UpsertEvents(s.tables.discovered, p, announced, change.connected.Some?)
  {
    hide CanonicalRecord, Stored, ChangeRecord, KeyOf, IsValidAddress, NormalizeAddress, PassesScanFilter;
    CanonicalRecordKey(ChangeRecord(s, change));
  }

  /** The exact condition for an upsert and whatever events it comes with. */
  lemma UpsertKeepsReplica(s: CacheState, m: ManagerState, p: DeviceInfo, announced: bool, told: bool)
    requires InStep(s, m) && CanonicalRecord(p)
    ensures InStep(Upserted(s, p), HandleAll(m, UpsertEvents(s.tables.discovered, p, announced, told)))
            <==> KeptByUpsert(s.tables.discovered, p, announced, told)
  {
    hide InStep, Handled, HandleAll, Upserted, Stored, CanonicalRecord, KeyOf;
    hide AddsNothing, AddsConnection, ConnectionAgrees;
    var t := s.tables.discovered;
    var found, connection := DeviceFound(Stored(t, p)), ConnectionChanged(KeyOf(p), p.connected);
    FoundStep(s, m, p);
    if announced && told {
      assert UpsertEvents(t, p, announced, told) == [found, connection];
      HandleBoth(m, found, connection);
      ConnectionStep(s, Handled(m, found), p);
    } else if announced {
      assert UpsertEvents(t, p, announced, told) == [found];
      HandleOne(m, [found]);
    } else if told {
      assert UpsertEvents(t, p, announced, told) == [connection];
      HandleOne(m, [connection]);
      ToldOnly(s, m, p);
    } else {
      assert UpsertEvents(t, p, announced, told) == [];
      HandleNone(m);
      SilentUpsert(s, m, p);
    }
  }

  /** Each signal of the sequence is canonical and keeps the replica when its turn comes. */
  ghost predicate AllKeptBySignal(
    s: CacheState, signals: seq<BluezSignal>, scanning: bool, options: ScanOptions)
  {
    forall i :: 0 <= i < |signals| ==>
                  CanonicalSignal(SignalsCache(s, signals[..i]), signals[i])
                  && KeptBySignal(SignalsCache(s, signals[..i]), signals[i], scanning, options)
  }

  /**
   The same over the signals one poll dispatches, however late the manager handles
   the poll's events; the scan it may stop at the end changes no table.
   */
  lemma SignalsKeepReplica(
    s: CacheState, m: ManagerState, signals: seq<BluezSignal>, scanning: bool, options: ScanOptions, stops: bool)
    requires InStep(s, m) && AllKeptBySignal(s, signals, scanning, options)
    ensures InStep(SignalsCache(s, signals),
                   HandleAll(m, PolledEvents(s, signals, scanning, options) + if stops then [ScanStopped] else []))
  {
    hide InStep, Handled, SignalsCache, PolledEvents, AllKeptBySignal, HandleAll;
    var polled := PolledEvents(s, signals, scanning, options);
    PolledKeepReplica(s, m, signals, scanning, options);
    if stops {
      HandleConcat(m, polled, [ScanStopped]);
      HandleOne(HandleAll(m, polled), [ScanStopped]);
      StopTables(HandleAll(m, polled));
      SameTablesInStep(SignalsCache(s, signals), HandleAll(m, polled), Handled(HandleAll(m, polled), ScanStopped));
    } else {
      assert polled + [] == polled;
    }
  }

  lemma StopTables(m: ManagerState)
    ensures Handled(m, ScanStopped).tables == m.tables
  {
  }

  lemma {:induction false} PolledKeepReplica(
    s: CacheState, m: ManagerState, signals: seq<BluezSignal>, scanning: bool, options: ScanOptions)
    requires InStep(s, m) && AllKeptBySignal(s, signals, scanning, options)
    ensures InStep(SignalsCache(s, signals), HandleAll(m, PolledEvents(s, signals, scanning, options)))
  {
    hide InStep, Handled, SignalCache, SignalEvents, CanonicalSignal, KeptBySignal;
    if signals == [] {
      HandleNone(m);
    } else {
      var front, last := signals[..|signals| - 1], signals[|signals| - 1];
      assert forall i :: 0 <= i < |front| ==> front[..i] == signals[..i];
      PolledKeepReplica(s, m, front, scanning, options);
      var before, events := SignalsCache(s, front), PolledEvents(s, front, scanning, options);
      SignalKeepsReplica(before, HandleAll(m, events), last, scanning, options);
      HandleConcat(m, events, SignalEvents(before, last, scanning, options));
    }
  }

  lemma {:induction false} HandleConcat(m: ManagerState, a: seq<Event>, b: seq<Event>)
    ensures HandleAll(m, a + b) == HandleAll(HandleAll(m, a), b)
  {
    hide Handled;
    if b == [] {
      assert a + b == a;
    } else {
      var front, last := b[..|b| - 1], b[|b| - 1];
      assert (a + b)[..|a + b| - 1] == a + front;
      HandleConcat(m, a, front);
    }
  }

  lemma HandleNone(m: ManagerState)
    ensures HandleAll(m, []) == m
  {
  }

  lemma HandleOne(m: ManagerState, events: seq<Event>)
    requires |events| == 1
    ensures HandleAll(m, events) == Handled(m, events[0])
  {
    assert events[..0] == [];
    assert HandleAll(m, []) == m;
  }

  lemma PromptTables(m: ManagerState, path: string, prompt: Prompt)
    ensures Handled(m, PromptEvent(path, prompt)).tables == m.tables
  {
  }

  lemma SameTablesInStep(s: CacheState, m: ManagerState, next: ManagerState)
    requires InStep(s, m)
    ensures InStep(s, next) <==> next.tables == m.tables
  {
  }

  /** Storing a record without an event keeps the replica exactly if there was nothing to store. */
  lemma SilentUpsert(s: CacheState, m: ManagerState, p: DeviceInfo)
    requires InStep(s, m) && InStep(Upserted(s, p), Handled(m, DeviceFound(p)))
    ensures InStep(Upserted(s, p), m) <==> AddsNothing(s.tables.discovered, p)
  {
    hide Handled, Stored, StaleKeys, UpsertTables, KeyOf, Prepared, MergeDeviceIdentity, AddsNothing;
    NothingAdded(s.tables, p);
  }

  lemma NothingAdded(ts: Tables, p: DeviceInfo)
    requires PairedIsFilter(ts)
    ensures UpsertTables(ts, p) == ts <==> AddsNothing(ts.discovered, p)
  {
    hide KeyOf, Prepared, StaleKeys, MergeDeviceIdentity, Stored, UpsertTables;
    var t := ts.discovered;
    UpsertEntries(ts, p);
    StaleIsElsewhere(t, p);
    if KeyOf(p) in t.entries && StaleKeys(t, p) == [] {
      NothingAbsorbed(t, p);
      if AddsNothing(t, p) {
        RestoreUnmerged(ts, p);
      }
    } else if StaleKeys(t, p) != [] {
      assert StaleKeys(t, p)[0] in StaleKeys(t, p);
    }
  }

  lemma RestoreUnmerged(ts: Tables, p: DeviceInfo)
    requires PairedIsFilter(ts) && KeyOf(p) in ts.discovered.entries
    requires StaleKeys(ts.discovered, p) == [] && Stored(ts.discovered, p) == ts.discovered.entries[KeyOf(p)]
    ensures UpsertTables(ts, p) == ts
  {
    hide KeyOf, StaleKeys, Stored, Store, EraseBoth;
    RestoreStored(ts, KeyOf(p));
  }

  lemma NothingAbsorbed(t: Table, p: DeviceInfo)
    requires KeyOf(p) in t.entries && StaleKeys(t, p) == []
    ensures Stored(t, p) == MergeDeviceIdentity(Prepared(p), t.entries[KeyOf(p)])
  {
    hide KeyOf, StaleKeys, Prepared, MergeDeviceIdentity;
    assert Records([], t.entries) == [];
  }

  /** For a record stored without a DEVICE_FOUND, telling its connection is enough exactly if it adds no more. */
  lemma ToldOnly(s: CacheState, m: ManagerState, p: DeviceInfo)
    requires InStep(s, m) && InStep(Upserted(s, p), Handled(m, DeviceFound(p))) && CanonicalRecord(p)
    ensures InStep(Upserted(s, p), Handled(m, ConnectionChanged(KeyOf(p), p.connected)))
            <==> AddsConnection(s.tables.discovered, p)
  {
    hide Handled, InStep, Upserted, UpsertTables, UpdateTables, KeyOf, AddsConnection, Selects, CanonicalRecord;
    var connection := ConnectionChanged(KeyOf(p), p.connected);
    InStepTables(s, m);
    UpsertedTables(s, p);
    ConnectionTables(m, KeyOf(p), p.connected);
    EqualInStep(Upserted(s, p), Handled(m, DeviceFound(p)), Handled(m, connection));
    UpsertKeepsPaired(s.tables, p);
    ConnectionAdded(s.tables, p);
  }

  lemma EqualInStep(s: CacheState, m: ManagerState, other: ManagerState)
    requires InStep(s, m)
    ensures InStep(s, other) <==> other.tables == s.tables
  {
  }

  lemma ConnectionAdded(ts: Tables, p: DeviceInfo)
    requires PairedIsFilter(ts) && AllCanonical(ts.discovered) && CanonicalRecord(p)
    ensures UpdateTables(ts, AtAddressOrId(KeyOf(p)), SetConnected(p.connected)) == UpsertTables(ts, p)
            <==> AddsConnection(ts.discovered, p)
  {
    hide KeyOf, Prepared, StaleKeys, MergeDeviceIdentity, Stored, UpsertTables, UpdateTables, Selects, CanonicalRecord;
    var t := ts.discovered;
    var updated := UpdateTables(ts, AtAddressOrId(KeyOf(p)), SetConnected(p.connected));
    var stored := UpsertTables(ts, p);
    ConnectingKeepsOrder(ts, AtAddressOrId(KeyOf(p)), p.connected);
    UpsertKeepsPaired(ts, p);
    SameConnections(ts, p);
    if KeyOf(p) in t.entries && StaleKeys(t, p) == [] {
      NothingAbsorbed(t, p);
      if Stored(t, p).paired == t.entries[KeyOf(p)].paired {
        StoringKeepsOrder(ts, p);
        SameTables(updated, stored);
      }
    }
  }

  /** The entries after telling the connection are those after storing exactly if storing adds only the connection. */
  lemma SameConnections(ts: Tables, p: DeviceInfo)
    requires AllCanonical(ts.discovered) && CanonicalRecord(p)
    ensures UpdateTables(ts, AtAddressOrId(KeyOf(p)), SetConnected(p.connected)).discovered.entries
            == UpsertTables(ts, p).discovered.entries
            <==> AddsConnection(ts.discovered, p)
  {
    hide KeyOf, Prepared, StaleKeys, MergeDeviceIdentity, Stored, UpsertTables, UpdateTables, Selects, CanonicalRecord;
    var t := ts.discovered;
    var updated := UpdateTables(ts, AtAddressOrId(KeyOf(p)), SetConnected(p.connected)).discovered.entries;
    var stored := UpsertTables(ts, p).discovered.entries;
    UpsertEntries(ts, p);
    ConnectedEntries(ts, p);
    StaleIsElsewhere(t, p);
    if KeyOf(p) in t.entries && StaleKeys(t, p) == [] {
      NothingAbsorbed(t, p);
      assert stored.Keys == updated.Keys;
      if AddsConnection(t, p) {
        assert forall k :: k in updated ==> updated[k] == stored[k];
      }
    } else if StaleKeys(t, p) != [] {
      assert StaleKeys(t, p)[0] in StaleKeys(t, p);
    }
  }

  lemma ConnectedEntries(ts: Tables, p: DeviceInfo)
    requires AllCanonical(ts.discovered) && CanonicalRecord(p)
    ensures var t := ts.discovered;
            var after := UpdateTables(ts, AtAddressOrId(KeyOf(p)), SetConnected(p.connected)).discovered.entries;
            && after.Keys == t.entries.Keys
            && forall k :: k in t.entries ==>
                 after[k] == if k == KeyOf(p) || t.entries[k].deviceId == KeyOf(p)
                             then t.entries[k].(connected := p.connected) else t.entries[k]
  {
    hide Selects, KeyOf, CanonicalRecord, SyncPaired;
    CanonicalRecordKey(p);
    SelectedByAddressOrId(ts.discovered, KeyOf(p));
  }

  /** CONNECTION_CHANGED after its DEVICE_FOUND keeps the replica exactly if it agrees with what is stored. */
  lemma ConnectionStep(s: CacheState, found: ManagerState, p: DeviceInfo)
    requires InStep(Upserted(s, p), found) && CanonicalRecord(p)
    ensures InStep(Upserted(s, p), Handled(found, ConnectionChanged(KeyOf(p), p.connected)))
            <==> ConnectionAgrees(s.tables.discovered, p)
  {
    hide Handled, InStep, Upserted, ConnectionAgrees, KeyOf, UpsertTables, Truthful;
    CanonicalRecordKey(p);
    UpsertedTables(s, p);
    ToldStep(Upserted(s, p), found, p.address, p.connected);
    StoredAgrees(s.tables, p);
  }

  lemma StoredAgrees(ts: Tables, p: DeviceInfo)
    ensures Truthful(UpsertTables(ts, p).discovered, KeyOf(p), p.connected) <==> ConnectionAgrees(ts.discovered, p)
  {
    hide KeyOf, UpsertTables, Stored, StaleKeys;
    UpsertEntries(ts, p);
    StoredFlags(ts.discovered, p);
  }

  lemma InStepTables(s: CacheState, m: ManagerState)
    requires InStep(s, m)
    ensures PairedIsFilter(s.tables) && m.tables == s.tables && AllCanonical(s.tables.discovered)
  {
  }

  /**
   Where it breaks: a connected entry's path is seen at another address and not
   connected. The cache moves the entry there and keeps it connected, while the
   manager is told that it is not and answers so, announced or not.
   */
  lemma ReaddressedWhileConnected(
    s: CacheState, m: ManagerState, change: PropertyChange, key: string, scanning: bool, options: ScanOptions)
    requires InStep(s, m) && LinuxInv(s) && key in s.tables.discovered.entries
    requires var e := s.tables.discovered.entries[key]; e.connected && e.deviceId == change.path != ""
    requires change.connected == Some(false)
    requires CanonicalAddress(change.address) && NormalizeAddress(change.address) != key
    ensures var there := NormalizeAddress(change.address);
            var signal := PropertiesChanged(change);
            var after := SignalCache(s, signal).tables.discovered.entries;
            && there in after && after[there].connected
            && !ConnectedAnswer(HandleAll(m, SignalEvents(s, signal, scanning, options)).tables, there)
  {
    hide InStep, LinuxInv, FoundKey, Handled, HandleAll, Upserted, UpsertTables, Stored, ChangeRecord, ConnectedAnswer;
    hide CanonicalAddress, CanonicalRecord, Selects, IsValidAddress, NormalizeAddress, Announced, StaleKeys, Known;
    var p := ChangeRecord(s, change);
    MovedRecord(s, m, change, key);
    ChangeEvents(s, change, scanning, options);
    UpsertedTables(s, p);
    UpsertEntries(s.tables, p);
    StoredFlags(s.tables.discovered, p);
    ToldDisconnected(s, m, p, Announced(s, p, Forces(change), scanning, options));
  }

  /** After an upsert, announced or not, and the news that the device is not connected, the manager says so. */
  lemma ToldDisconnected(s: CacheState, m: ManagerState, p: DeviceInfo, announced: bool)
    requires InStep(s, m) && CanonicalRecord(p) && !p.connected
    ensures !ConnectedAnswer(HandleAll(m, UpsertEvents(s.tables.discovered, p, announced, true)).tables, KeyOf(p))
  {
    hide InStep, Handled, HandleAll, Upserted, Stored, ConnectedAnswer, CanonicalRecord, KeyOf, Known;
    var found, connection := DeviceFound(Stored(s.tables.discovered, p)), ConnectionChanged(KeyOf(p), false);
    FoundStep(s, m, p);
    InStepTables(s, m);
    InStepTables(Upserted(s, p), Handled(m, found));
    if announced {
      assert UpsertEvents(s.tables.discovered, p, announced, true) == [found, connection];
      HandleBoth(m, found, connection);
      ConnectionReadsBack(Handled(m, found), KeyOf(p), false);
    } else {
      assert UpsertEvents(s.tables.discovered, p, announced, true) == [connection];
      HandleOne(m, [connection]);
      ConnectionReadsBack(m, KeyOf(p), false);
    }
  }

  /** Two sightings are enough to get there. */
  lemma ReaddressedFromStart(first: DeviceInfo, change: PropertyChange, scanning: bool, options: ScanOptions)
    requires CanonicalRecord(first) && first.connected && first.deviceId == change.path != ""
    requires change.connected == Some(false) && CanonicalAddress(change.address)
    requires NormalizeAddress(change.address) != NormalizeAddress(first.address)
    ensures var s := Upserted(EMPTY_CACHE, first);
            var m := Handled(FRESH_MANAGER, DeviceFound(first));
            InStep(s, m) && !KeptBySignal(s, PropertiesChanged(change), scanning, options)
  {
    hide Upserted, Handled, InStep, LinuxInv, KeptBySignal, NormalizeAddress, CanonicalAddress, Stored, HandleAll;
    var s := Upserted(EMPTY_CACHE, first);
    var m := Handled(FRESH_MANAGER, DeviceFound(first));
    var key := NormalizeAddress(first.address);
    var signal := PropertiesChanged(change);
    NothingInStep();
    FoundStep(EMPTY_CACHE, FRESH_MANAGER, first);
    FirstCanonical(first);
    FirstConnected(first);
    ReaddressedWhileConnected(s, m, change, key, scanning, options);
    MovedRecord(s, m, change, key);
    SignalKeepsReplica(s, m, signal, scanning, options);
    StepAnswersConnected(SignalCache(s, signal), HandleAll(m, SignalEvents(s, signal, scanning, options)),
                         NormalizeAddress(change.address));
  }

  lemma FirstConnected(first: DeviceInfo)
    requires CanonicalRecord(first) && first.connected
    ensures var s := Upserted(EMPTY_CACHE, first);
            var key := NormalizeAddress(first.address);
            LinuxInv(s) && key in s.tables.discovered.entries && s.tables.discovered.entries[key].connected
  {
    hide UpsertTables, Stored, NormalizeAddress;
    NothingInStep();
    assert LinuxInv(EMPTY_CACHE);
    SeenKeepsInv(EMPTY_CACHE, first);
    UpsertEntries(NO_DEVICES, first);
    CanonicalRecordKey(first);
    StoredFlags(EMPTY, first);
  }

  /** Where cache and manager are equal, a connected entry is answered as connected. */
  lemma StepAnswersConnected(s: CacheState, m: ManagerState, key: string)
    requires key in s.tables.discovered.entries && s.tables.discovered.entries[key].connected
    ensures InStep(s, m) ==> ConnectedAnswer(m.tables, key)
  {
    hide Selects, First;
    if InStep(s, m) {
      CanonicalSelection(s.tables.discovered, key);
      FirstIsUnique(AtAddress(key), s.tables.discovered, key);
    }
  }

  lemma MovedRecord(s: CacheState, m: ManagerState, change: PropertyChange, key: string)
    requires InStep(s, m) && LinuxInv(s) && key in s.tables.discovered.entries
    requires s.tables.discovered.entries[key].deviceId == change.path != ""
    requires CanonicalAddress(change.address) && NormalizeAddress(change.address) != key
    ensures var p := ChangeRecord(s, change);
            && CanonicalRecord(p) && IsValidAddress(p.address)
            && KeyOf(p) == p.address == NormalizeAddress(change.address) == NormalizeAddress(p.address)
            && p.connected == GetOr(change.connected, s.tables.discovered.entries[key].connected)
            && key in StaleKeys(s.tables.discovered, p)
  {
    hide LinuxInv, FoundKey, ChangeRecord, IsMacAddressName, StaleKeys, IsValidAddress, NormalizeAddress;
    FindExact(s, change.path, key);
    CanonicalNormalForm(change.address);
    ChangeOfAddressMoves(s, change, key);
    PatchRecord(s, change, key);
    NormalizeIdempotent(change.address);
  }

  // ----- prompts -----

  function PromptOf(request: Pairing.Request): Prompt {
    match request
    case PinRequest(_) => PinPrompt
    case ConfirmRequest(_) => ConfirmPrompt
    case DisplayRequest(_, pin) => DisplayPrompt(pin)
  }

  /** What the agent begins a ceremony with is what the script is asked, with the same path, kind and PIN. */
  lemma ScriptIsAsked(m: ManagerState, request: Pairing.Request)
    ensures var event := PromptEvent(request.path, PromptOf(request));
            && HandlerEvent(request.path, Pairing.BeginKind(request), Pairing.BeginPin(request)) == Some(event)
            && Handled(m, event).tables == m.tables
            && Handled(m, event).signals
               == m.signals + [match request
                               case PinRequest(path) => SigPinRequested(path)
                               case ConfirmRequest(path) => SigConfirmationRequested(path, "confirm")
                               case DisplayRequest(path, pin) => SigDisplayPin(path, pin)]
  {
  }

  // ----- the snapshot of paired devices -----

  /** The cache's paired table as the Linux backend fills it from BlueZ: canonical addresses, object paths as ids. */
  ghost predicate BluezPaired(c: Table) {
    && AllCanonical(c) && UniqueIds(c)
    && forall k :: k in c.entries ==> c.entries[k].paired && c.entries[k].deviceId != ""
  }

  /** The entry for `k` is in the manager's table, paired, with the cache's id. */
  ghost predicate Arrived(t: Table, c: Table, k: string)
    requires k in c.entries
  {
    k in t.entries && t.entries[k].paired && t.entries[k].address == k && t.entries[k].deviceId == c.entries[k].deviceId
  }

  /** The record the snapshot carries for a cache entry. */
  function Carried(e: DeviceInfo): DeviceInfo {
    FromDictionary(ToDictionary(e))
  }

  lemma CarriedRecord(c: Table, k: string)
    requires BluezPaired(c) && k in c.entries
    ensures var p := Carried(c.entries[k]);
            && p.address == k && p.deviceId == c.entries[k].deviceId && p.paired
            && Prepared(p) == p && KeyOf(p) == k
  {
    NormalIsFixed(k);
    CanonicalNormalIsValid(k);
  }

  lemma ArrivesByUpsert(ts: Tables, c: Table, k: string)
    requires BluezPaired(c) && k in c.entries
    ensures Arrived(UpsertTables(ts, Carried(c.entries[k])).discovered, c, k)
  {
    var p := Carried(c.entries[k]);
    var own := Own(ts.discovered, KeyOf(p));
    CarriedRecord(c, k);
    UpsertEntries(ts, p);
    StoredFields(ts.discovered, p);
    StoredId(ts.discovered, p);
    AbsorbedFields(p, Records(StaleKeys(ts.discovered, p), ts.discovered.entries), own);
  }

  lemma ArrivedStays(ts: Tables, c: Table, j: string, k: string)
    requires BluezPaired(c) && j in c.entries && k in c.entries && j != k
    requires Arrived(ts.discovered, c, j)
    ensures Arrived(UpsertTables(ts, Carried(c.entries[k])).discovered, c, j)
  {
    var p := Carried(c.entries[k]);
    CarriedRecord(c, k);
    UpsertEntries(ts, p);
    MatchOnCanonical(j, k);
    NormalIsFixed(j);
    NormalIsFixed(k);
  }

  /** The first `n` records of a snapshot have arrived once they are upserted. */
  lemma {:induction false} SnapshotArrives(ts: Tables, c: Table, n: nat)
    requires BluezPaired(c) && n <= |c.order|
    ensures var after := UpsertAll(ts, SnapshotRecords(PairedArray(c)[..n])).discovered;
            forall i :: 0 <= i < n ==> c.order[i] in c.entries && Arrived(after, c, c.order[i])
  {
    hide UpsertTables, Arrived, BluezPaired, UpsertAll, FoundSignals;
    if n > 0 {
      SnapshotArrives(ts, c, n - 1);
      var k := c.order[n - 1];
      assert k in c.order;
      var before := SnapshotRecords(PairedArray(c)[..n - 1]);
      SnapshotStep(ts, PairedArray(c), n - 1);
      ArrivesByUpsert(UpsertAll(ts, before), c, k);
      forall i | 0 <= i < n - 1
        ensures Arrived(UpsertTables(UpsertAll(ts, before), Carried(c.entries[k])).discovered, c, c.order[i])
      {
        ArrivedStays(UpsertAll(ts, before), c, c.order[i], k);
      }
    }
  }

  /**
   After the manager has handled a snapshot of the cache's paired devices it
   answers that each of them is paired, whatever its tables held before.
   */
  lemma SnapshotReachesManager(m: ManagerState, c: Table, k: string)
    requires TablesInv(m.tables) && BluezPaired(c) && k in c.entries
    ensures PairedAnswer(Handled(m, PairedDevicesUpdated(PairedArray(c))).tables, k)
  {
    hide Handled, TablesInv, BluezPaired, AllCanonical, UpsertAll;
    var event := PairedDevicesUpdated(PairedArray(c));
    var after := Handled(m, event).tables;
    HandledKeepsTablesInv(m, event);
    SnapshotTables(m, PairedArray(c));
    SnapshotArrives(m.tables, c, |c.order|);
    assert PairedArray(c)[..|c.order|] == PairedArray(c);
    assert k in c.order;
    assert Arrived(after.discovered, c, k);
    MatchReflexive(k);
    PairedFilterOf(after);
    PairedAnswerIsExistence(after, k);
  }

  /** So a refresh that gets through reaches the manager: what the cache then holds as paired, it answers as paired. */
  lemma RefreshReachesManager(m: ManagerState, s: CacheState, initialized: bool, r: RefreshReply, k: string)
    requires TablesInv(m.tables) && (initialized || InitOk(r.init))
    requires var c := Enumerated(s, r.managed).tables.paired; BluezPaired(c) && k in c.entries
    ensures PairedAnswer(HandleAll(m, RefreshEvents(s, initialized, r)).tables, k)
  {
    hide TablesInv, BluezPaired, Handled, HandleAll, PairedAnswer, Enumerated, InitEvents, EnumerationEvents;
    var last := SnapshotEvent(Enumerated(s, r.managed));
    var before := InitEvents(initialized, r.init) + EnumerationEvents(r.managed, OtherError);
    assert RefreshEvents(s, initialized, r) == before + [last];
    HandleConcat(m, before, [last]);
    HandleAllKeepsTablesInv(m, before);
    HandleOne(HandleAll(m, before), [last]);
    SnapshotReachesManager(HandleAll(m, before), Enumerated(s, r.managed).tables.paired, k);
  }

  /** The start of a scan likewise tells what is already paired, even if the scan then fails. */
  lemma StartReachesManager(m: ManagerState, s: CacheState, initialized: bool, r: ScanReply, k: string)
    requires TablesInv(m.tables) && (initialized || InitOk(r.init))
    requires var c := Enumerated(s, r.managed).tables.paired; BluezPaired(c) && k in c.entries
    ensures PairedAnswer(HandleAll(m, StartEvents(s, initialized, false, r)).tables, k)
  {
    hide TablesInv, BluezPaired, Handled, HandleAll, PairedAnswer, Enumerated, InitEvents, EnumerationEvents;
    var last := SnapshotEvent(Enumerated(s, r.managed));
    var before := InitEvents(initialized, r.init) + ([ScanStarted] + EnumerationEvents(r.managed, r.code));
    var failure := if r.filterOk && r.discoveryOk then [] else [ErrorOccurred(START_SCAN, r.code)];
    assert StartEvents(s, initialized, false, r) == before + [last] + failure;
    HandleConcat(m, before + [last], failure);
    HandleConcat(m, before, [last]);
    HandleAllKeepsTablesInv(m, before);
    HandleOne(HandleAll(m, before), [last]);
    SnapshotReachesManager(HandleAll(m, before), Enumerated(s, r.managed).tables.paired, k);
    FailureTables(HandleAll(m, before + [last]), r);
  }

  lemma FailureTables(m: ManagerState, r: ScanReply)
    ensures HandleAll(m, if r.filterOk && r.discoveryOk then [] else [ErrorOccurred(START_SCAN, r.code)]).tables
            == m.tables
  {
    if r.filterOk && r.discoveryOk {
      HandleNone(m);
    } else {
      HandleOne(m, [ErrorOccurred(START_SCAN, r.code)]);
    }
  }

  // ----- initialisation -----

  /** Initialisation ends with the adapter powered, as far as the backend can tell. */
  predicate PoweredUp(r: InitReply) {
    r.powered == Some(false) ==> r.setPowerOk
  }

  /**
   A failed initialisation makes the manager take the backend for unavailable. So
   does one that succeeds while the adapter cannot be switched on, since its error
   names the same operation.
   */
  lemma InitialisationIsHeard(m: ManagerState, r: InitReply)
    ensures var after := HandleAll(m, InitEvents(false, r));
            && after.available == (m.available && InitOk(r) && PoweredUp(r))
            && (InitOk(r) && !PoweredUp(r) ==> !after.radioOn)
            && after.tables == m.tables
  {
    if InitEvents(false, r) == [] {
      HandleNone(m);
    } else {
      HandleOne(m, InitEvents(false, r));
    }
  }

  /** Then `bluetooth_ready` is never sent, though the backend is initialised. */
  lemma UnpoweredIsNeverReady(r: InitReply, later: seq<Event>)
    requires InitOk(r) && !PoweredUp(r)
    ensures ReadyCount(HandleAll(FRESH_MANAGER, InitEvents(false, r) + later).signals) == 0
  {
    hide HandleAll, ReadyCount;
    var events := InitEvents(false, r) + later;
    assert InitFailed(events[0]) && !Announces(events[0]);
    ReadyIsSentOnce(events);
  }

  lemma PairedFilterOf(ts: Tables)
    requires TablesInv(ts)
    ensures PairedIsFilter(ts)
  {
  }

  /** The paired table of a cache that holds canonical addresses and object paths is such a table. */
  lemma CachePairedIsBluez(s: CacheState)
    requires Inv(s) && AllCanonical(s.tables.discovered)
    requires forall k :: k in s.tables.discovered.entries ==> s.tables.discovered.entries[k].deviceId != ""
    ensures BluezPaired(s.tables.paired)
  {
  }
}
