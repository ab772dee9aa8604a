/**
 The manager on the script side: it replays backend events on its own copy of
 the device tables and turns them into signals.
 */
module Manager {
  import opened Text
  import opened Addresses
  import opened DeviceRecords
  import opened OrderedTables
  import opened DeviceTables
  import opened Events

  datatype Signal =
    | SigScanStarted
    | SigScanStopped
    | SigDeviceFound(device: Dict)
    | SigDeviceRemoved(address: string)
    | SigPairingStarted(address: string)
    | SigPairingSucceeded(address: string)
    | SigPairingFailed(address: string)
    | SigConfirmationRequested(address: string, kind: string)
    | SigPinRequested(address: string)
    | SigDisplayPin(address: string, pin: string)
    | SigConnectionChanged(address: string, connected: bool)
    | SigErrorOccurred(operation: string, code: ErrorCode)
    | SigDevicesRefreshed
    | SigBluetoothReady

  datatype ManagerState = ManagerState(
    tables: Tables, signals: seq<Signal>, available: bool, radioOn: bool, readyEmitted: bool)

  const FRESH_MANAGER: ManagerState := ManagerState(NO_DEVICES, [], true, true, false)

  // ----- what the handlers do -----

  /** The address announced for a removal: that of the last removed entry that has one. */
  function RemovalAddress(given: string, removed: seq<DeviceInfo>): string {
    if removed == [] then given
    else
      var address := removed[|removed| - 1].address;
      if IsValidAddress(address) then NormalizeAddress(address)
      else if address != "" then address
      else RemovalAddress(given, removed[..|removed| - 1])
  }

  function RemovedAt(ts: Tables, address: string): Tables {
    EraseBoth(ts, Elements(Selected(AtAddress(address), ts.discovered)))
  }

  function FoundSignals(infos: seq<DeviceInfo>): seq<Signal> {
    seq(|infos|, i requires 0 <= i < |infos| => SigDeviceFound(ToDictionary(infos[i])))
  }

  /** The records in a snapshot; values that are not dictionaries are skipped. */
  function SnapshotRecords(devices: seq<Option<Dict>>): seq<DeviceInfo> {
    if devices == [] then []
    else
      var last := devices[|devices| - 1];
      SnapshotRecords(devices[..|devices| - 1]) + if last.Some? then [FromDictionary(last.value)] else []
  }

  function UpsertAll(ts: Tables, infos: seq<DeviceInfo>): Tables {
    if infos == [] then ts else UpsertTables(UpsertAll(ts, infos[..|infos| - 1]), infos[|infos| - 1])
  }

  function WithReady(m: ManagerState): ManagerState {
    if m.readyEmitted || !m.available then m
    else m.(readyEmitted := true, signals := m.signals + [SigBluetoothReady])
  }

  function Emit(m: ManagerState, signals: seq<Signal>): ManagerState {
    m.(signals := m.signals + signals)
  }

  function UpdatedAt(m: ManagerState, address: string, mutation: Mutation): ManagerState {
    var q := AtAddressOrId(address);
    var ts := UpdateTables(m.tables, q, mutation);
    Emit(m.(tables := ts), FoundSignals(Records(Selected(q, ts.discovered), ts.discovered.entries)))
  }

  function Handled(m: ManagerState, e: Event): ManagerState {
    match e
    case ScanStarted => Emit(m, [SigScanStarted])
    case ScanStopped => Emit(m, [SigScanStopped])
    case DeviceFound(info) =>
      Emit(m.(tables := UpsertTables(m.tables, info)), [SigDeviceFound(ToDictionary(info))])
    case DeviceRemoved(given, deviceAddress) =>
      var address := if given == "" then deviceAddress else given;
      var keys := Selected(AtAddress(address), m.tables.discovered);
      if keys == [] then m
      else Emit(m.(tables := RemovedAt(m.tables, address)),
                [SigDeviceRemoved(RemovalAddress(address, Records(keys, m.tables.discovered.entries)))])
    case PairingStarted(a) => Emit(m, [SigPairingStarted(a)])
    case PairingSucceeded(a) => Emit(UpdatedAt(m, a, MarkPaired), [SigPairingSucceeded(a)])
    case PairingFailed(a) => Emit(m, [SigPairingFailed(a)])
    case PairingConfirmationRequested(a, kind) => Emit(m, [SigConfirmationRequested(a, kind)])
    case PairingPinRequested(a) => Emit(m, [SigPinRequested(a)])
    case PairingDisplayPin(a, pin) => Emit(m, [SigDisplayPin(a, pin)])
    case ConnectionChanged(a, c) => Emit(UpdatedAt(m, a, SetConnected(c)), [SigConnectionChanged(a, c)])
    case ErrorOccurred(operation, code) =>
      Emit(m.(available := m.available && operation != "initialize", radioOn := m.radioOn && code != RadioOff),
           [SigErrorOccurred(operation, code)])
    case PairedDevicesUpdated(devices) =>
      var infos := SnapshotRecords(devices);
      WithReady(Emit(Emit(m.(tables := UpsertAll(m.tables, infos)), FoundSignals(infos)), [SigDevicesRefreshed]))
    case BackendInitialized(radioOn) => WithReady(m.(radioOn := radioOn))
  }

  function HandleAll(m: ManagerState, events: seq<Event>): ManagerState {
    if events == [] then m else Handled(HandleAll(m, events[..|events| - 1]), events[|events| - 1])
  }

  // ----- what single events do to the tables -----

  lemma FoundTables(m: ManagerState, p: DeviceInfo)
    ensures Handled(m, DeviceFound(p)).tables == UpsertTables(m.tables, p)
  {
    hide UpsertTables;
  }

  lemma ConnectionTables(m: ManagerState, address: string, connected: bool)
    ensures Handled(m, ConnectionChanged(address, connected)).tables
            == UpdateTables(m.tables, AtAddressOrId(address), SetConnected(connected))
  {
    hide UpdateTables, Selects;
  }

  lemma PairingTables(m: ManagerState, address: string)
    ensures Handled(m, PairingSucceeded(address)).tables
            == UpdateTables(m.tables, AtAddressOrId(address), MarkPaired)
  {
    hide UpdateTables, Selects;
  }

  lemma RemovalTables(m: ManagerState, address: string, deviceAddress: string)
    ensures Handled(m, DeviceRemoved(address, deviceAddress)).tables
            == RemovedAt(m.tables, if address == "" then deviceAddress else address)
  {
    hide Selects, RemovedAt, RemovalAddress;
    NothingToRemove(m.tables, if address == "" then deviceAddress else address);
  }

  lemma SnapshotTables(m: ManagerState, devices: seq<Option<Dict>>)
    ensures Handled(m, PairedDevicesUpdated(devices)).tables == UpsertAll(m.tables, SnapshotRecords(devices))
  {
    hide UpsertAll, SnapshotRecords;
  }

  // ----- invariants -----

  ghost predicate TablesInv(ts: Tables) {
    Consistent(ts) && Coherent(ts.discovered)
  }

  lemma UpsertKeepsTablesInv(ts: Tables, p: DeviceInfo)
    requires TablesInv(ts)
    ensures TablesInv(UpsertTables(ts, p))
  {
    UpsertKeepsConsistent(ts, p);
    UpsertKeepsCoherent(ts, p);
  }

  lemma {:induction false} UpsertAllKeepsTablesInv(ts: Tables, infos: seq<DeviceInfo>)
    requires TablesInv(ts)
    ensures TablesInv(UpsertAll(ts, infos))
  {
    if infos != [] {
      UpsertAllKeepsTablesInv(ts, infos[..|infos| - 1]);
      UpsertKeepsTablesInv(UpsertAll(ts, infos[..|infos| - 1]), infos[|infos| - 1]);
    }
  }

  lemma UpdateKeepsTablesInv(ts: Tables, q: Query, mutation: Mutation)
    requires TablesInv(ts) && !mutation.SetEndpoint?
    ensures TablesInv(UpdateTables(ts, q, mutation))
  {
    UpdateKeepsConsistent(ts, q, mutation);
    UpdateKeepsCoherent(ts.discovered, Selected(q, ts.discovered), mutation);
  }

  lemma HandledKeepsTablesInv(m: ManagerState, e: Event)
    requires TablesInv(m.tables)
    ensures TablesInv(Handled(m, e).tables)
  {
    match e
    case DeviceFound(info) => UpsertKeepsTablesInv(m.tables, info);
    case DeviceRemoved(given, deviceAddress) =>
      var address := if given == "" then deviceAddress else given;
      EraseKeepsConsistent(m.tables, Elements(Selected(AtAddress(address), m.tables.discovered)));
    case PairingSucceeded(a) => UpdateKeepsTablesInv(m.tables, AtAddressOrId(a), MarkPaired);
    case ConnectionChanged(a, c) => UpdateKeepsTablesInv(m.tables, AtAddressOrId(a), SetConnected(c));
    case PairedDevicesUpdated(devices) => UpsertAllKeepsTablesInv(m.tables, SnapshotRecords(devices));
    case _ =>
  }

  /** Over every sequence of events: coherent keys, unique ids, and the paired table is the paired part. */
  lemma {:induction false} HandleAllKeepsTablesInv(m: ManagerState, events: seq<Event>)
    requires TablesInv(m.tables)
    ensures TablesInv(HandleAll(m, events).tables)
  {
    if events != [] {
      HandleAllKeepsTablesInv(m, events[..|events| - 1]);
      HandledKeepsTablesInv(HandleAll(m, events[..|events| - 1]), events[|events| - 1]);
    }
  }

  // ----- queries -----

  function PairedAnswer(ts: Tables, address: string): bool {
    First(AtAddress(address), ts.paired).Some?
    || (var first := First(AtAddress(address), ts.discovered);
        first.Some? && ts.discovered.entries[first.value].paired)
  }

  function ConnectedAnswer(ts: Tables, address: string): bool {
    var first := First(AtAddress(address), ts.discovered);
    var second := First(AtAddress(address), ts.paired);
    if first.Some? then ts.discovered.entries[first.value].connected
    else second.Some? && ts.paired.entries[second.value].connected
  }

  ghost predicate Known(ts: Tables, address: string) {
    exists k :: k in ts.discovered.entries && Selects(AtAddress(address), k, ts.discovered.entries[k])
  }

  /** `is_paired` does not depend on iteration order: some matching entry is paired. */
  lemma PairedAnswerIsExistence(ts: Tables, address: string)
    requires PairedIsFilter(ts)
    ensures PairedAnswer(ts, address)
            <==> exists k :: k in ts.discovered.entries && ts.discovered.entries[k].paired
                             && Selects(AtAddress(address), k, ts.discovered.entries[k])
    ensures First(AtAddress(address), ts.paired).None? ==> !PairedAnswer(ts, address)
  {
    hide AddressesMatch;
    var first := First(AtAddress(address), ts.paired);
    forall k | k in ts.discovered.entries && ts.discovered.entries[k].paired
               && Selects(AtAddress(address), k, ts.discovered.entries[k])
      ensures first.Some?
    {
      assert k in ts.paired.entries;
    }
  }

  /** All entries at the address are connected, or none is. */
  ghost predicate AgreeOnConnected(t: Table, address: string) {
    forall j, k :: j in t.entries && k in t.entries
                   && Selects(AtAddress(address), j, t.entries[j]) && Selects(AtAddress(address), k, t.entries[k])
                   ==> t.entries[j].connected == t.entries[k].connected
  }

  ghost predicate SameEntries(ts: Tables, other: Tables) {
    ts.discovered.entries == other.discovered.entries && ts.paired.entries == other.paired.entries
  }

  /** The second loop of `is_connected` never decides: what is paired has been seen in the first. */
  lemma SecondLoopIsIdle(ts: Tables, address: string)
    requires PairedIsFilter(ts)
    ensures First(AtAddress(address), ts.discovered).None? ==> First(AtAddress(address), ts.paired).None?
    ensures Known(ts, address) <==> First(AtAddress(address), ts.discovered).Some?
    ensures !Known(ts, address) ==> !ConnectedAnswer(ts, address)
  {
    hide Selects, KeysBefore;
  }

  /**
   Unlike `is_paired`, `is_connected` may depend on the order in which devices
   were first seen: it does not exactly if all matching entries agree.
   */
  lemma ConnectedOrderFree(ts: Tables, address: string)
    requires PairedIsFilter(ts)
    ensures (forall other: Tables :: SameEntries(ts, other) ==>
               ConnectedAnswer(other, address) == ConnectedAnswer(ts, address))
            <==> AgreeOnConnected(ts.discovered, address)
  {
    hide Selects, First;
    var t := ts.discovered;
    if AgreeOnConnected(t, address) {
      forall other: Tables | SameEntries(ts, other)
        ensures ConnectedAnswer(other, address) == ConnectedAnswer(ts, address)
      {
        AgreedAnswer(ts, other, address);
      }
    } else {
      var j, k :| j in t.entries && k in t.entries
                  && Selects(AtAddress(address), j, t.entries[j]) && Selects(AtAddress(address), k, t.entries[k])
                  && t.entries[j].connected != t.entries[k].connected;
      FrontedAnswer(ts, address, j);
      FrontedAnswer(ts, address, k);
      assert ConnectedAnswer(Fronted(ts, j), address) != ConnectedAnswer(Fronted(ts, k), address);
    }
  }

  lemma AgreedAnswer(ts: Tables, other: Tables, address: string)
    requires PairedIsFilter(ts) && SameEntries(ts, other) && AgreeOnConnected(ts.discovered, address)
    ensures ConnectedAnswer(other, address) == ConnectedAnswer(ts, address)
  {
    hide Selects, First;
    SecondLoopIsIdle(ts, address);
    SecondLoopIsIdle(other, address);
  }

  /** The same entries, with the one at `key` first. */
  function Fronted(ts: Tables, key: string): (r: Tables)
    requires key in ts.discovered.entries
    ensures SameEntries(ts, r) && r.discovered.order != [] && r.discovered.order[0] == key
  {
    var t := ts.discovered;
    assert key in t.order;
    WithoutMembers(t.order, {key});
    Tables(RawTable([key] + Without(t.order, {key}), t.entries), ts.paired)
  }

  lemma FrontedAnswer(ts: Tables, address: string, key: string)
    requires key in ts.discovered.entries && Selects(AtAddress(address), key, ts.discovered.entries[key])
    ensures ConnectedAnswer(Fronted(ts, key), address) == ts.discovered.entries[key].connected
  {
    hide Selects, ConnectedAnswer;
    FirstAnswers(Fronted(ts, key), address);
  }

  /**
   Both orders happen: a connected device at `a` and an unconnected record that
   only its id ties to `a` give one answer in one order and the other in the other.
   */
  lemma ConnectedDependsOnOrder(here: DeviceInfo, named: DeviceInfo)
    requires Canonical(here.address) && IsNormal(here.address) && here.connected
    requires named.address == "" && Contains(named.deviceId, here.address) && !named.connected
    requires named.deviceId != here.address && named.deviceId != here.deviceId
    ensures var one := HandleAll(FRESH_MANAGER, [DeviceFound(here), DeviceFound(named)]).tables;
            var other := HandleAll(FRESH_MANAGER, [DeviceFound(named), DeviceFound(here)]).tables;
            && SameEntries(one, other)
            && ConnectedAnswer(one, here.address) && !ConnectedAnswer(other, here.address)
  {
    hide HandleAll, Selects, ConnectedAnswer, Canonical, IsNormal, Contains;
    var one, other := [DeviceFound(here), DeviceFound(named)], [DeviceFound(named), DeviceFound(here)];
    HereAndNamed(here, named);
    BothFound(here, named);
    BothFound(named, here);
    HandleAllKeepsTablesInv(FRESH_MANAGER, one);
    HandleAllKeepsTablesInv(FRESH_MANAGER, other);
    SameFilter(HandleAll(FRESH_MANAGER, one).tables, HandleAll(FRESH_MANAGER, other).tables);
    FirstAnswers(HandleAll(FRESH_MANAGER, one).tables, here.address);
    FirstAnswers(HandleAll(FRESH_MANAGER, other).tables, here.address);
  }

  /** Records under different keys, as the tables hold them, of which neither would absorb the other. */
  predicate Strangers(p: DeviceInfo, r: DeviceInfo) {
    && DeviceKey(p) != DeviceKey(r) && Prepared(p) == p && Prepared(r) == r
    && !Selects(StaleFor(p, DeviceKey(p)), DeviceKey(r), r) && !Selects(StaleFor(r, DeviceKey(r)), DeviceKey(p), p)
  }

  lemma HereAndNamed(here: DeviceInfo, named: DeviceInfo)
    requires Canonical(here.address) && IsNormal(here.address)
    requires named.address == "" && Contains(named.deviceId, here.address)
    requires named.deviceId != here.address && named.deviceId != here.deviceId
    ensures Strangers(here, named) && DeviceKey(here) == here.address
    ensures Selects(AtAddress(here.address), DeviceKey(here), here)
    ensures Selects(AtAddress(here.address), DeviceKey(named), named)
  {
    hide Contains, IsValidAddress, NormalizeAddress;
    NormalIsFixed(here.address);
    NormalIsFixed("");
    CanonicalNormalIsValid(here.address);
    EmptyIsNotValid();
    EmptyContainsNothing(here.address);
    EmptyContainsNothing(RemoveChar(here.address, ':'));
  }

  lemma EmptyContainsNothing(t: string)
    ensures !Contains("", t)
  {
  }

  lemma BothFound(p: DeviceInfo, r: DeviceInfo)
    requires Strangers(p, r)
    ensures var t := HandleAll(FRESH_MANAGER, [DeviceFound(p), DeviceFound(r)]).tables.discovered;
            && t.order == [DeviceKey(p), DeviceKey(r)]
            && t.entries == map[DeviceKey(p) := p, DeviceKey(r) := r]
  {
    hide Handled, UpsertTables, Selects, DeviceKey, Prepared;
    var m := Handled(FRESH_MANAGER, DeviceFound(p));
    FoundTables(FRESH_MANAGER, p);
    FoundTables(m, r);
    LoneUpsert(NO_DEVICES, p);
    LoneUpsert(m.tables, r);
    HandleBoth(FRESH_MANAGER, DeviceFound(p), DeviceFound(r));
  }

  lemma HandleBoth(m: ManagerState, e: Event, f: Event)
    ensures HandleAll(m, [e, f]) == Handled(Handled(m, e), f)
  {
    hide Handled;
    assert [e, f][..1] == [e] && [e][..0] == [];
    assert HandleAll(m, []) == m;
  }

  lemma SameFilter(ts: Tables, other: Tables)
    requires PairedIsFilter(ts) && PairedIsFilter(other) && ts.discovered.entries == other.discovered.entries
    ensures SameEntries(ts, other)
  {
    assert forall k :: k in ts.paired.entries <==> k in other.paired.entries;
  }

  lemma FirstAnswers(ts: Tables, address: string)
    requires ts.discovered.order != [] && ts.discovered.order[0] in ts.discovered.entries
    requires var key := ts.discovered.order[0]; Selects(AtAddress(address), key, ts.discovered.entries[key])
    ensures ConnectedAnswer(ts, address) == ts.discovered.entries[ts.discovered.order[0]].connected
  {
    hide Selects, First;
    NothingBefore(AtAddress(address), ts.discovered);
    FirstInOrder(AtAddress(address), ts.discovered, 0);
  }

  /** An update at an address changes no entry's standing with that address, and reaches every entry there. */
  lemma UpdatedEntry(t: Table, address: string, mutation: Mutation, k: string)
    requires !mutation.SetEndpoint? && k in t.entries
    ensures var after := MutateKeys(t, Selected(AtAddressOrId(address), t), mutation);
            && k in after.entries
            && Selects(AtAddress(address), k, after.entries[k]) == Selects(AtAddress(address), k, t.entries[k])
            && (Selects(AtAddress(address), k, t.entries[k]) ==> after.entries[k] == Mutated(mutation, t.entries[k]))
  {
    hide AddressesMatch;
  }

  /** After a connection event the matching entries answer with its value; if there are none the answer is no. */
  lemma ConnectionReadsBack(m: ManagerState, address: string, connected: bool)
    ensures var after := Handled(m, ConnectionChanged(address, connected)).tables;
            && (Known(m.tables, address) ==> ConnectedAnswer(after, address) == connected)
            && (PairedIsFilter(m.tables) && !Known(m.tables, address) ==> !ConnectedAnswer(after, address))
  {
    hide Handled, UpdateTables, ConnectedAnswer, Selects, Known;
    ConnectionTables(m, address, connected);
    UpdatedConnection(m.tables, address, connected);
    if PairedIsFilter(m.tables) {
      ConnectingKeepsOrder(m.tables, AtAddressOrId(address), connected);
      SecondLoopIsIdle(UpdateTables(m.tables, AtAddressOrId(address), SetConnected(connected)), address);
    }
  }

  lemma UpdatedConnection(ts: Tables, address: string, connected: bool)
    ensures var after := UpdateTables(ts, AtAddressOrId(address), SetConnected(connected));
            (Known(after, address) <==> Known(ts, address))
            && (Known(ts, address) ==> ConnectedAnswer(after, address) == connected)
  {
    hide Selects, SyncPaired, MutateKeys;
    var after := UpdateTables(ts, AtAddressOrId(address), SetConnected(connected)).discovered;
    MutatedKeys(ts.discovered, Selected(AtAddressOrId(address), ts.discovered), SetConnected(connected));
    forall k | k in ts.discovered.entries
      ensures Selects(AtAddress(address), k, after.entries[k])
              == Selects(AtAddress(address), k, ts.discovered.entries[k])
      ensures Selects(AtAddress(address), k, ts.discovered.entries[k]) ==> after.entries[k].connected == connected
    {
      UpdatedEntry(ts.discovered, address, SetConnected(connected), k);
    }
  }

  /**
   CONNECTION_CHANGED writes its flag to exactly the entries whose key or address
   matches or whose id is the address, and changes nothing else.
   */
  lemma ConnectionWritesExactly(m: ManagerState, address: string, connected: bool, k: string)
    requires k in m.tables.discovered.entries
    ensures var e := m.tables.discovered.entries[k];
            var after := Handled(m, ConnectionChanged(address, connected)).tables.discovered.entries;
            && k in after
            && after[k] == if AddressesMatch(k, address) || AddressesMatch(e.address, address) || e.deviceId == address
                           then e.(connected := connected) else e
  {
    hide AddressesMatch, Handled, SyncPaired;
    ConnectionTables(m, address, connected);
  }

  /** PAIRING_SUCCEEDED marks exactly those entries as paired. */
  lemma PairingWritesExactly(m: ManagerState, address: string, k: string)
    requires k in m.tables.discovered.entries
    ensures var e := m.tables.discovered.entries[k];
            var after := Handled(m, PairingSucceeded(address)).tables.discovered.entries;
            && k in after
            && after[k] == if AddressesMatch(k, address) || AddressesMatch(e.address, address) || e.deviceId == address
                           then e.(paired := true) else e
  {
    hide AddressesMatch, Handled, SyncPaired;
    PairingTables(m, address);
  }

  /** DEVICE_REMOVED takes away exactly the entries whose key or address matches. */
  lemma RemovalTakesExactly(m: ManagerState, address: string, deviceAddress: string, k: string)
    requires k in m.tables.discovered.entries
    ensures var e := m.tables.discovered.entries[k];
            var gone := if address == "" then deviceAddress else address;
            var after := Handled(m, DeviceRemoved(address, deviceAddress)).tables.discovered.entries;
            && (k in after <==> !AddressesMatch(k, gone) && !AddressesMatch(e.address, gone))
            && (k in after ==> after[k] == e)
  {
    hide AddressesMatch, Handled;
    RemovalTables(m, address, deviceAddress);
  }

  lemma MutatedKeys(t: Table, keys: seq<string>, mutation: Mutation)
    ensures MutateKeys(t, keys, mutation).order == t.order
    ensures MutateKeys(t, keys, mutation).entries.Keys == t.entries.Keys
  {
  }

  /** After a successful pairing the device is paired exactly if the manager knows an entry at the address. */
  lemma PairingReadsBack(m: ManagerState, address: string)
    requires PairedIsFilter(m.tables)
    ensures var after := Handled(m, PairingSucceeded(address)).tables;
            PairedAnswer(after, address) <==> Known(m.tables, address)
  {
    hide Handled, Selects, MutateKeys, SyncPaired, PairedAnswer;
    var after := UpdateTables(m.tables, AtAddressOrId(address), MarkPaired);
    PairingTables(m, address);
    SyncKeepsPaired(m.tables, Selected(AtAddressOrId(address), m.tables.discovered), MarkPaired);
    PairedAnswerIsExistence(after, address);
    UpdatedPairing(m.tables, address);
  }

  lemma UpdatedPairing(ts: Tables, address: string)
    ensures var after := UpdateTables(ts, AtAddressOrId(address), MarkPaired).discovered.entries;
            Known(ts, address)
            <==> exists k :: k in after && after[k].paired && Selects(AtAddress(address), k, after[k])
  {
    hide Selects, SyncPaired, MutateKeys;
    var after := UpdateTables(ts, AtAddressOrId(address), MarkPaired).discovered;
    MutatedKeys(ts.discovered, Selected(AtAddressOrId(address), ts.discovered), MarkPaired);
    forall k | k in ts.discovered.entries
      ensures Selects(AtAddress(address), k, after.entries[k])
              == Selects(AtAddress(address), k, ts.discovered.entries[k])
      ensures Selects(AtAddress(address), k, ts.discovered.entries[k]) ==> after.entries[k].paired
    {
      UpdatedEntry(ts.discovered, address, MarkPaired, k);
    }
  }

  /** After a removal nothing at the event's address, or else its device's, is known, paired or connected. */
  lemma RemovalReadsBack(m: ManagerState, address: string, deviceAddress: string)
    requires PairedIsFilter(m.tables)
    ensures var after := Handled(m, DeviceRemoved(address, deviceAddress)).tables;
            var gone := if address == "" then deviceAddress else address;
            !Known(after, gone) && !PairedAnswer(after, gone) && !ConnectedAnswer(after, gone)
  {
    hide Handled, RemovedAt, Known, PairedAnswer, ConnectedAnswer;
    RemovalTables(m, address, deviceAddress);
    NothingLeftAt(m.tables, if address == "" then deviceAddress else address);
  }

  lemma NothingLeftAt(ts: Tables, address: string)
    requires PairedIsFilter(ts)
    ensures var after := RemovedAt(ts, address);
            !Known(after, address) && !PairedAnswer(after, address) && !ConnectedAnswer(after, address)
  {
    hide Selects;
    var after := RemovedAt(ts, address);
    assert !Known(after, address);
    assert forall k :: k in after.paired.entries ==>
                         k in after.discovered.entries && after.paired.entries[k] == after.discovered.entries[k];
  }

  lemma NothingToRemove(ts: Tables, address: string)
    ensures Selected(AtAddress(address), ts.discovered) == [] ==> RemovedAt(ts, address) == ts
  {
    hide Selects;
    if Selected(AtAddress(address), ts.discovered) == [] {
      EraseAbsent(ts.discovered, Elements([]));
      EraseAbsent(ts.paired, Elements([]));
    }
  }

  // ----- signals -----

  function SignalMark(s: Signal): seq<Mark> {
    match s
    case SigScanStarted => [ScanOpened]
    case SigScanStopped => [ScanClosed]
    case SigErrorOccurred(operation, _) => if operation == START_SCAN then [ScanFailed] else []
    case SigPairingStarted(a) => [Started(a)]
    case SigPairingSucceeded(a) => [Succeeded(a)]
    case SigPairingFailed(a) => [Failed(a)]
    case _ => []
  }

  function SignalMarks(signals: seq<Signal>): seq<Mark> {
    if signals == [] then [] else SignalMarks(signals[..|signals| - 1]) + SignalMark(signals[|signals| - 1])
  }

  lemma {:induction false} SignalMarksConcat(a: seq<Signal>, b: seq<Signal>)
    ensures SignalMarks(a + b) == SignalMarks(a) + SignalMarks(b)
  {
    hide SignalMark;
    if b == [] {
      assert a + b == a;
    } else {
      var front, last := b[..|b| - 1], b[|b| - 1];
      SignalMarksConcat(a, front);
      assert (a + b)[..|a + b| - 1] == a + front && (a + b)[|a + b| - 1] == last;
      assert SignalMarks(a) + (SignalMarks(front) + SignalMark(last))
             == SignalMarks(a) + SignalMarks(front) + SignalMark(last);
    }
  }

  lemma {:induction false} UnmarkedSignals(signals: seq<Signal>)
    requires forall i :: 0 <= i < |signals| ==> SignalMark(signals[i]) == []
    ensures SignalMarks(signals) == []
  {
    if signals != [] {
      UnmarkedSignals(signals[..|signals| - 1]);
    }
  }

  lemma EmitMarks(m: ManagerState, signals: seq<Signal>)
    ensures SignalMarks(Emit(m, signals).signals) == SignalMarks(m.signals) + SignalMarks(signals)
  {
    SignalMarksConcat(m.signals, signals);
  }

  lemma OneMark(s: Signal)
    ensures SignalMarks([s]) == SignalMark(s)
  {
    assert [s][..0] == [];
  }

  lemma EmitOneMark(m: ManagerState, s: Signal)
    ensures SignalMarks(Emit(m, [s]).signals) == SignalMarks(m.signals) + SignalMark(s)
  {
    EmitMarks(m, [s]);
    OneMark(s);
  }

  lemma EmitFoundMarks(m: ManagerState, infos: seq<DeviceInfo>)
    ensures SignalMarks(Emit(m, FoundSignals(infos)).signals) == SignalMarks(m.signals)
  {
    UnmarkedSignals(FoundSignals(infos));
    EmitMarks(m, FoundSignals(infos));
  }

  lemma ReadyMarks(m: ManagerState)
    ensures SignalMarks(WithReady(m).signals) == SignalMarks(m.signals)
  {
    EmitOneMark(m, SigBluetoothReady);
  }

  lemma UpdatedMarks(m: ManagerState, address: string, mutation: Mutation)
    ensures SignalMarks(UpdatedAt(m, address, mutation).signals) == SignalMarks(m.signals)
  {
    var q := AtAddressOrId(address);
    var ts := UpdateTables(m.tables, q, mutation);
    EmitFoundMarks(m.(tables := ts), Records(Selected(q, ts.discovered), ts.discovered.entries));
  }

  lemma HandledMarks(m: ManagerState, e: Event)
    ensures SignalMarks(Handled(m, e).signals) == SignalMarks(m.signals) + MarkOf(e)
  {
    hide UpdatedAt, FoundSignals, WithReady, SignalMarks, Emit, UpsertTables, SnapshotRecords;
    assert SignalMarks(m.signals) + [] == SignalMarks(m.signals);
    match e
    case ScanStarted => EmitOneMark(m, SigScanStarted);
    case ScanStopped => EmitOneMark(m, SigScanStopped);
    case DeviceFound(info) =>
      EmitOneMark(m.(tables := UpsertTables(m.tables, info)), SigDeviceFound(ToDictionary(info)));
    case DeviceRemoved(given, deviceAddress) => RemovalMarks(m, given, deviceAddress);
    case PairingStarted(a) => EmitOneMark(m, SigPairingStarted(a));
    case PairingSucceeded(a) =>
      UpdatedMarks(m, a, MarkPaired);
      EmitOneMark(UpdatedAt(m, a, MarkPaired), SigPairingSucceeded(a));
    case PairingFailed(a) => EmitOneMark(m, SigPairingFailed(a));
    case PairingConfirmationRequested(a, kind) => EmitOneMark(m, SigConfirmationRequested(a, kind));
    case PairingPinRequested(a) => EmitOneMark(m, SigPinRequested(a));
    case PairingDisplayPin(a, pin) => EmitOneMark(m, SigDisplayPin(a, pin));
    case ConnectionChanged(a, c) =>
      UpdatedMarks(m, a, SetConnected(c));
      EmitOneMark(UpdatedAt(m, a, SetConnected(c)), SigConnectionChanged(a, c));
    case ErrorOccurred(operation, code) =>
      EmitOneMark(m.(available := m.available && operation != "initialize", radioOn := m.radioOn && code != RadioOff),
                  SigErrorOccurred(operation, code));
    case PairedDevicesUpdated(devices) => SnapshotMarks(m, SnapshotRecords(devices));
    case BackendInitialized(radioOn) => ReadyMarks(m.(radioOn := radioOn));
  }

  lemma RemovalMarks(m: ManagerState, given: string, deviceAddress: string)
    ensures SignalMarks(Handled(m, DeviceRemoved(given, deviceAddress)).signals) == SignalMarks(m.signals)
  {
    hide RemovalAddress, RemovedAt, Selects, SignalMarks;
    var address := if given == "" then deviceAddress else given;
    var keys := Selected(AtAddress(address), m.tables.discovered);
    if keys != [] {
      EmitOneMark(m.(tables := RemovedAt(m.tables, address)),
                  SigDeviceRemoved(RemovalAddress(address, Records(keys, m.tables.discovered.entries))));
    }
  }

  lemma SnapshotMarks(m: ManagerState, infos: seq<DeviceInfo>)
    ensures var stored := m.(tables := UpsertAll(m.tables, infos));
            SignalMarks(WithReady(Emit(Emit(stored, FoundSignals(infos)), [SigDevicesRefreshed])).signals)
            == SignalMarks(m.signals)
  {
    var stored := m.(tables := UpsertAll(m.tables, infos));
    EmitFoundMarks(stored, infos);
    EmitOneMark(Emit(stored, FoundSignals(infos)), SigDevicesRefreshed);
    ReadyMarks(Emit(Emit(stored, FoundSignals(infos)), [SigDevicesRefreshed]));
  }

  /** Scan and pairing signals come out in the order of the events handled, one for one. */
  lemma {:induction false} SignalsFollowEvents(m: ManagerState, events: seq<Event>)
    ensures SignalMarks(HandleAll(m, events).signals) == SignalMarks(m.signals) + Marks(events)
  {
    hide Handled, MarkOf, SignalMark;
    if events != [] {
      var front, last := events[..|events| - 1], events[|events| - 1];
      SignalsFollowEvents(m, front);
      HandledMarks(HandleAll(m, front), last);
      assert SignalMarks(m.signals) + Marks(front) + MarkOf(last)
             == SignalMarks(m.signals) + (Marks(front) + MarkOf(last));
    }
  }

  // ----- what signals tell -----

  /** The event a script can read off a signal, where there is one. */
  function Heard(s: Signal): Option<Event> {
    match s
    case SigScanStarted => Some(ScanStarted)
    case SigScanStopped => Some(ScanStopped)
    case SigDeviceFound(d) => Some(DeviceFound(FromDictionary(d)))
    case SigPairingStarted(a) => Some(PairingStarted(a))
    case SigPairingSucceeded(a) => Some(PairingSucceeded(a))
    case SigPairingFailed(a) => Some(PairingFailed(a))
    case SigConfirmationRequested(a, kind) => Some(PairingConfirmationRequested(a, kind))
    case SigPinRequested(a) => Some(PairingPinRequested(a))
    case SigDisplayPin(a, pin) => Some(PairingDisplayPin(a, pin))
    case SigConnectionChanged(a, c) => Some(ConnectionChanged(a, c))
    case SigErrorOccurred(operation, code) => Some(ErrorOccurred(operation, code))
    case SigDeviceRemoved(_) => None
    case SigDevicesRefreshed => None
    case SigBluetoothReady => None
  }

  /** Apart from removals, snapshots and initialisation, the last signal of an event tells all of it. */
  lemma SignalTellsEvent(m: ManagerState, e: Event)
    requires !e.DeviceRemoved? && !e.PairedDevicesUpdated? && !e.BackendInitialized?
    requires e.DeviceFound? ==> e.device.hasRssi || e.device.rssi == 0
    ensures var signals := Handled(m, e).signals;
            signals != [] && Heard(signals[|signals| - 1]) == Some(e)
  {
    hide UpsertTables, UpdateTables, Selects;
    if e.DeviceFound? {
      DictionaryRoundTrip(e.device);
    }
  }

  /** The event at that address reaches the entry: key or address matches, or the id is the address. */
  predicate Reaches(address: string, key: string, e: DeviceInfo) {
    AddressesMatch(key, address) || AddressesMatch(e.address, address) || e.deviceId == address
  }

  /** The signal announces one of the entries the event reaches. */
  ghost predicate AnnouncesReached(signal: Signal, address: string, entries: map<string, DeviceInfo>) {
    exists k :: k in entries && Reaches(address, k, entries[k]) && signal == SigDeviceFound(ToDictionary(entries[k]))
  }

  /**
   Before its own signal, a connection or pairing event announces with their new
   data the entries it reaches, all of them and no others.
   */
  lemma UpdateIsAnnounced(m: ManagerState, e: Event)
    requires e.ConnectionChanged? || e.PairingSucceeded?
    ensures var after := Handled(m, e).tables.discovered.entries;
            var told := Handled(m, e).signals;
            && m.signals < told
            && var found := told[|m.signals|..|told| - 1];
               (forall k :: k in after && Reaches(e.address, k, after[k]) ==>
                  SigDeviceFound(ToDictionary(after[k])) in found)
               && (forall signal :: signal in found ==> AnnouncesReached(signal, e.address, after))
  {
    hide AddressesMatch, UpdateTables, ToDictionary, Handled, FoundSignals;
    var t := Handled(m, e).tables.discovered;
    var keys := Selected(AtAddressOrId(e.address), t);
    var found, told := FoundSignals(Records(keys, t.entries)), Handled(m, e).signals;
    UpdateSignals(m, e);
    assert told[|m.signals|..|told| - 1] == found;
    FoundMembers(keys, t.entries);
    forall signal | signal in found ensures AnnouncesReached(signal, e.address, t.entries) {
      var k :| k in keys && signal == SigDeviceFound(ToDictionary(t.entries[k]));
      assert Reaches(e.address, k, t.entries[k]);
    }
  }

  lemma UpdateSignals(m: ManagerState, e: Event)
    requires e.ConnectionChanged? || e.PairingSucceeded?
    ensures var t := Handled(m, e).tables.discovered;
            var found := FoundSignals(Records(Selected(AtAddressOrId(e.address), t), t.entries));
            var last := if e.ConnectionChanged? then SigConnectionChanged(e.address, e.connected)
                        else SigPairingSucceeded(e.address);
            Handled(m, e).signals == m.signals + found + [last]
  {
    hide Selects, UpdateTables, FoundSignals;
  }

  lemma FoundMembers(keys: seq<string>, entries: map<string, DeviceInfo>)
    requires forall k :: k in keys ==> k in entries
    ensures forall signal :: signal in FoundSignals(Records(keys, entries))
                             <==> exists k :: k in keys && signal == SigDeviceFound(ToDictionary(entries[k]))
  {
    hide ToDictionary;
    var found := FoundSignals(Records(keys, entries));
    assert |found| == |keys|;
    assert forall i :: 0 <= i < |keys| ==>
                         keys[i] in keys && found[i] == SigDeviceFound(ToDictionary(entries[keys[i]]));
    forall k | k in keys ensures SigDeviceFound(ToDictionary(entries[k])) in found {
      var i :| 0 <= i < |keys| && keys[i] == k;
      assert found[i] in found;
    }
  }

  /**
   A removal that takes nothing tells nothing. Any other is told once, with the
   address of the last entry taken that has one, in normal form if it is valid; if
   none has one, with the address it was given.
   */
  lemma RemovalIsTold(m: ManagerState, address: string, deviceAddress: string, i: nat)
    requires var gone := if address == "" then deviceAddress else address;
             var keys := Selected(AtAddress(gone), m.tables.discovered);
             && i <= |keys|
             && (forall j :: i <= j < |keys| ==>
                   keys[j] in m.tables.discovered.entries && m.tables.discovered.entries[keys[j]].address == "")
             && (i > 0 ==> keys[i - 1] in m.tables.discovered.entries
                           && m.tables.discovered.entries[keys[i - 1]].address != "")
    ensures var gone := if address == "" then deviceAddress else address;
            var keys := Selected(AtAddress(gone), m.tables.discovered);
            var told := Handled(m, DeviceRemoved(address, deviceAddress)).signals;
            if keys == [] then told == m.signals
            else if i == 0 then told == m.signals + [SigDeviceRemoved(gone)]
            else
              var last := m.tables.discovered.entries[keys[i - 1]].address;
              told == m.signals + [SigDeviceRemoved(if IsValidAddress(last) then NormalizeAddress(last) else last)]
  {
    hide Selects, RemovedAt, IsValidAddress, NormalizeAddress, RemovalAddress, Selected;
    var gone := if address == "" then deviceAddress else address;
    var keys := Selected(AtAddress(gone), m.tables.discovered);
    assert forall j :: 0 <= j < |keys| ==> keys[j] in keys;
    LastAddress(gone, Records(keys, m.tables.discovered.entries), i);
  }

  lemma {:induction false} LastAddress(given: string, removed: seq<DeviceInfo>, i: nat)
    requires i <= |removed| && forall j :: i <= j < |removed| ==> removed[j].address == ""
    requires i > 0 ==> removed[i - 1].address != ""
    ensures RemovalAddress(given, removed)
            == if i == 0 then given
               else if IsValidAddress(removed[i - 1].address) then NormalizeAddress(removed[i - 1].address)
               else removed[i - 1].address
    decreases |removed|
  {
    hide IsValidAddress, NormalizeAddress;
    if i < |removed| {
      NoAddressIsNotValid();
      LastAddress(given, removed[..|removed| - 1], i);
    }
  }

  lemma NoAddressIsNotValid()
    ensures !IsValidAddress("")
  {
    EmptyIsNotValid();
  }

  /** A snapshot announces its records one by one, in order, and then the refresh. */
  lemma SnapshotIsTold(m: ManagerState, devices: seq<Option<Dict>>)
    requires forall i :: 0 <= i < |devices| ==> devices[i].Some?
    ensures var told := Handled(m, PairedDevicesUpdated(devices)).signals;
            var n := |m.signals|;
            && m.signals <= told && |told| > n + |devices| && told[n + |devices|] == SigDevicesRefreshed
            && forall i :: 0 <= i < |devices| ==>
                 told[n + i] == SigDeviceFound(ToDictionary(FromDictionary(devices[i].value)))
  {
    hide UpsertAll, ToDictionary, FromDictionary;
    RecordsInOrder(devices);
  }

  lemma {:induction false} RecordsInOrder(devices: seq<Option<Dict>>)
    requires forall i :: 0 <= i < |devices| ==> devices[i].Some?
    ensures |SnapshotRecords(devices)| == |devices|
    ensures forall i :: 0 <= i < |devices| ==> SnapshotRecords(devices)[i] == FromDictionary(devices[i].value)
  {
    if devices != [] {
      RecordsInOrder(devices[..|devices| - 1]);
    }
  }

  // ----- whether the radio is on -----

  /** What an event says about the radio. */
  predicate TellsRadio(e: Event) {
    e.BackendInitialized? || (e.ErrorOccurred? && e.code == RadioOff)
  }

  /** The radio is on unless the last event to speak of it said otherwise. */
  lemma {:induction false} RadioFollowsLastNews(events: seq<Event>, i: nat)
    requires i <= |events| && forall j :: i <= j < |events| ==> !TellsRadio(events[j])
    requires i > 0 ==> TellsRadio(events[i - 1])
    ensures HandleAll(FRESH_MANAGER, events).radioOn
            <==> i == 0 || (events[i - 1].BackendInitialized? && events[i - 1].radioOn)
    decreases |events|
  {
    hide UpsertTables, UpdateTables, UpsertAll, RemovalAddress, RemovedAt, Selected, SnapshotRecords;
    if i < |events| {
      RadioFollowsLastNews(events[..|events| - 1], i);
    }
  }

  // ----- bluetooth_ready -----

  function ReadyCount(signals: seq<Signal>): nat {
    if signals == [] then 0
    else ReadyCount(signals[..|signals| - 1]) + if signals[|signals| - 1].SigBluetoothReady? then 1 else 0
  }

  lemma {:induction false} ReadyCountConcat(a: seq<Signal>, b: seq<Signal>)
    ensures ReadyCount(a + b) == ReadyCount(a) + ReadyCount(b)
  {
    if b == [] {
      assert a + b == a;
    } else {
      var front, last := b[..|b| - 1], b[|b| - 1];
      ReadyCountConcat(a, front);
      assert (a + b)[..|a + b| - 1] == a + front && (a + b)[|a + b| - 1] == last;
    }
  }

  lemma {:induction false} NoReady(signals: seq<Signal>)
    requires forall i :: 0 <= i < |signals| ==> !signals[i].SigBluetoothReady?
    ensures ReadyCount(signals) == 0
  {
    if signals != [] {
      NoReady(signals[..|signals| - 1]);
    }
  }

  /** The signal has been sent once if the flag is set, and not at all otherwise. */
  ghost predicate ReadyInv(m: ManagerState) {
    ReadyCount(m.signals) == if m.readyEmitted then 1 else 0
  }

  lemma EmitKeepsReady(m: ManagerState, signals: seq<Signal>)
    requires ReadyInv(m) && forall i :: 0 <= i < |signals| ==> !signals[i].SigBluetoothReady?
    ensures ReadyInv(Emit(m, signals))
  {
    NoReady(signals);
    ReadyCountConcat(m.signals, signals);
  }

  lemma WithReadyKeepsReady(m: ManagerState)
    requires ReadyInv(m)
    ensures ReadyInv(WithReady(m))
  {
    ReadyCountConcat(m.signals, [SigBluetoothReady]);
    assert [SigBluetoothReady][..0] == [];
  }

  lemma HandledKeepsReady(m: ManagerState, e: Event)
    requires ReadyInv(m)
    ensures ReadyInv(Handled(m, e))
  {
    hide ReadyCount, UpsertTables, UpdatedAt, UpsertAll, RemovalAddress, RemovedAt, SnapshotRecords;
    match e
    case BackendInitialized(radioOn) => WithReadyKeepsReady(m.(radioOn := radioOn));
    case PairedDevicesUpdated(devices) =>
      var infos := SnapshotRecords(devices);
      var stored := m.(tables := UpsertAll(m.tables, infos));
      EmitKeepsReady(stored, FoundSignals(infos));
      EmitKeepsReady(Emit(stored, FoundSignals(infos)), [SigDevicesRefreshed]);
      WithReadyKeepsReady(Emit(Emit(stored, FoundSignals(infos)), [SigDevicesRefreshed]));
    case DeviceRemoved(given, deviceAddress) => RemovalKeepsReady(m, given, deviceAddress);
    case PairingSucceeded(a) =>
      UpdateKeepsReady(m, a, MarkPaired);
      EmitKeepsReady(UpdatedAt(m, a, MarkPaired), [SigPairingSucceeded(a)]);
    case ConnectionChanged(a, c) =>
      UpdateKeepsReady(m, a, SetConnected(c));
      EmitKeepsReady(UpdatedAt(m, a, SetConnected(c)), [SigConnectionChanged(a, c)]);
    case _ => OneSignalKeepsReady(m, e);
  }

  lemma RemovalKeepsReady(m: ManagerState, given: string, deviceAddress: string)
    requires ReadyInv(m)
    ensures ReadyInv(Handled(m, DeviceRemoved(given, deviceAddress)))
  {
    hide ReadyCount, RemovalAddress, RemovedAt, Selects;
    var address := if given == "" then deviceAddress else given;
    var keys := Selected(AtAddress(address), m.tables.discovered);
    if keys != [] {
      EmitKeepsReady(m.(tables := RemovedAt(m.tables, address)),
                     [SigDeviceRemoved(RemovalAddress(address, Records(keys, m.tables.discovered.entries)))]);
    }
  }

  lemma UpdateKeepsReady(m: ManagerState, address: string, mutation: Mutation)
    requires ReadyInv(m)
    ensures ReadyInv(UpdatedAt(m, address, mutation))
  {
    hide ReadyCount, UpdateTables, Selects;
    var q := AtAddressOrId(address);
    var ts := UpdateTables(m.tables, q, mutation);
    EmitKeepsReady(m.(tables := ts), FoundSignals(Records(Selected(q, ts.discovered), ts.discovered.entries)));
  }

  lemma OneSignalKeepsReady(m: ManagerState, e: Event)
    requires ReadyInv(m)
    requires !e.BackendInitialized? && !e.PairedDevicesUpdated? && !e.DeviceRemoved?
             && !e.PairingSucceeded? && !e.ConnectionChanged?
    ensures ReadyInv(Handled(m, e))
  {
    hide ReadyCount, UpsertTables;
    var signals := Handled(m, e).signals;
    var last := signals[|signals| - 1];
    EmitKeepsReady(m, [last]);
  }

  predicate Announces(e: Event) {
    e.BackendInitialized? || e.PairedDevicesUpdated?
  }

  predicate InitFailed(e: Event) {
    e.ErrorOccurred? && e.operation == "initialize"
  }

  /** Some initialisation or snapshot event has been handled before any initialisation error. */
  ghost predicate Announced(events: seq<Event>) {
    exists i :: 0 <= i < |events| && Announces(events[i]) && forall j :: 0 <= j < i ==> !InitFailed(events[j])
  }

  /**
   `bluetooth_ready` is sent at most once in any run, and it has been sent
   exactly if the backend reported success, by either kind of event, before it
   reported an initialisation error.
   */
  lemma ReadyIsSentOnce(events: seq<Event>)
    ensures var m := HandleAll(FRESH_MANAGER, events);
            && ReadyCount(m.signals) == (if Announced(events) then 1 else 0)
            && (m.available <==> forall j :: 0 <= j < |events| ==> !InitFailed(events[j]))
  {
    hide ReadyCount, Handled;
    ReadyRun(events);
    AnnouncedRun(events);
  }

  lemma {:induction false} ReadyRun(events: seq<Event>)
    ensures ReadyInv(HandleAll(FRESH_MANAGER, events))
  {
    hide Handled;
    if events != [] {
      ReadyRun(events[..|events| - 1]);
      HandledKeepsReady(HandleAll(FRESH_MANAGER, events[..|events| - 1]), events[|events| - 1]);
    }
  }

  lemma HandledFlags(m: ManagerState, e: Event)
    ensures Handled(m, e).available == (m.available && !InitFailed(e))
    ensures Handled(m, e).readyEmitted == (m.readyEmitted || (Announces(e) && m.available))
  {
    hide UpsertTables, UpdateTables, UpsertAll, RemovalAddress, RemovedAt, Selected, SnapshotRecords;
  }

  lemma {:induction false} AnnouncedRun(events: seq<Event>)
    ensures var m := HandleAll(FRESH_MANAGER, events);
            && (m.readyEmitted <==> Announced(events))
            && (m.available <==> forall j :: 0 <= j < |events| ==> !InitFailed(events[j]))
  {
    hide Handled, Announces, InitFailed;
    if events != [] {
      var front, last := events[..|events| - 1], events[|events| - 1];
      AnnouncedRun(front);
      HandledFlags(HandleAll(FRESH_MANAGER, front), last);
      assert forall i :: 0 <= i < |front| ==> events[i] == front[i];
      if Announced(front) {
        var i :| 0 <= i < |front| && Announces(front[i]) && forall j :: 0 <= j < i ==> !InitFailed(front[j]);
        assert Announces(events[i]);
      }
      if Announced(events) {
        var i :| 0 <= i < |events| && Announces(events[i]) && forall j :: 0 <= j < i ==> !InitFailed(events[j]);
        if i < |front| {
          assert Announces(front[i]);
        } else {
          assert forall j :: 0 <= j < |front| ==> !InitFailed(front[j]);
        }
      }
      if Announces(last) && HandleAll(FRESH_MANAGER, front).available {
        assert Announces(events[|front|]);
      }
    }
  }

  // ----- the class -----

  lemma SnapshotStep(ts: Tables, devices: seq<Option<Dict>>, i: nat)
    requires i < |devices|
    ensures var before, after := SnapshotRecords(devices[..i]), SnapshotRecords(devices[..i + 1]);
            if devices[i].None? then after == before
            else
              var info := FromDictionary(devices[i].value);
              && UpsertAll(ts, after) == UpsertTables(UpsertAll(ts, before), info)
              && FoundSignals(after) == FoundSignals(before) + [SigDeviceFound(ToDictionary(info))]
  {
    hide UpsertTables;
    var before := SnapshotRecords(devices[..i]);
    assert devices[..i + 1][..i] == devices[..i];
    if devices[i].Some? {
      assert (before + [FromDictionary(devices[i].value)])[..|before|] == before;
    } else {
      assert before + [] == before;
    }
  }

  lemma SnapshotStart(ts: Tables, devices: seq<Option<Dict>>)
    ensures UpsertAll(ts, SnapshotRecords(devices[..0])) == ts && FoundSignals(SnapshotRecords(devices[..0])) == []
  {
  }

  class BluetoothManager {
    var discovered: Table
    var paired: Table
    var signals: seq<Signal>
    var backendAvailable: bool
    var radioOn: bool
    var readyEmitted: bool

    function State(): ManagerState
      reads this
    {
      ManagerState(Tables(discovered, paired), signals, backendAvailable, radioOn, readyEmitted)
    }

    ghost predicate Valid()
      reads this
    {
      TablesInv(Tables(discovered, paired))
    }

    /** The manager once `_ready` has started its worker. */
    constructor ()
      ensures Valid() && State() == FRESH_MANAGER
    {
      discovered, paired, signals := EMPTY, EMPTY, [];
      backendAvailable, radioOn, readyEmitted := true, true, false;
    }

    method UpsertDevice(p: DeviceInfo)
      modifies this`discovered, this`paired
      ensures Tables(discovered, paired) == UpsertTables(old(State()).tables, p)
    {
      var info := if IsValidAddress(p.address) then p.(address := NormalizeAddress(p.address)) else p;
      var key := DeviceKey(info);
      var staleKeys := CollectKeys(StaleFor(info, key), discovered);
      info := AbsorbStale(info, staleKeys);
      if key in discovered.entries {
        info := MergeDeviceIdentity(info, discovered.entries[key]);
      }
      assert info == Stored(old(discovered), p);
      discovered := Put(discovered, key, info);
      if info.paired {
        paired := Put(paired, key, info);
      } else {
        paired := Erase(paired, {key});
      }
    }

    method AbsorbStale(p: DeviceInfo, staleKeys: seq<string>) returns (info: DeviceInfo)
      requires Distinct(staleKeys) && forall k :: k in staleKeys ==> k in discovered.entries
      modifies this`discovered, this`paired
      ensures info == MergeAll(p, Records(staleKeys, old(discovered).entries))
      ensures Tables(discovered, paired) == EraseBoth(old(State()).tables, Elements(staleKeys))
    {
      info := p;
      EraseAbsent(discovered, Elements(staleKeys[..0]));
      EraseAbsent(paired, Elements(staleKeys[..0]));
      for i := 0 to |staleKeys|
        invariant discovered == Erase(old(discovered), Elements(staleKeys[..i]))
        invariant paired == Erase(old(paired), Elements(staleKeys[..i]))
        invariant info == MergeAll(p, Records(staleKeys[..i], old(discovered).entries))
      {
        AbsorbStep(old(discovered), staleKeys, i, p);
        ErasePairedStep(old(paired), staleKeys, i);
        if staleKeys[i] in discovered.entries {
          info := MergeDeviceEndpoints(info, discovered.entries[staleKeys[i]]);
        }
        discovered := Erase(discovered, {staleKeys[i]});
        paired := Erase(paired, {staleKeys[i]});
      }
      assert staleKeys[..|staleKeys|] == staleKeys;
    }

    /** Erases the listed keys from both tables. */
    method EraseKeys(keys: seq<string>)
      modifies this`discovered, this`paired
      ensures Tables(discovered, paired) == EraseBoth(old(State()).tables, Elements(keys))
    {
      EraseAbsent(discovered, Elements(keys[..0]));
      EraseAbsent(paired, Elements(keys[..0]));
      for i := 0 to |keys|
        invariant discovered == Erase(old(discovered), Elements(keys[..i]))
        invariant paired == Erase(old(paired), Elements(keys[..i]))
      {
        ErasePairedStep(old(discovered), keys, i);
        ErasePairedStep(old(paired), keys, i);
        discovered := Erase(discovered, {keys[i]});
        paired := Erase(paired, {keys[i]});
      }
      assert keys[..|keys|] == keys;
    }

    method RemoveDeviceForAddress(address: string)
      modifies this`discovered, this`paired, this`signals
      ensures State() == Handled(old(State()), DeviceRemoved(address, address))
    {
      hide Selects;
      var keysToRemove := CollectKeys(AtAddress(address), discovered);
      if keysToRemove == [] {
        return;
      }
      var signalAddress := SignalAddress(address, keysToRemove);
      EraseKeys(keysToRemove);
      signals := signals + [SigDeviceRemoved(signalAddress)];
    }

    /** The address to announce, chosen while the entries are still there. */
    method SignalAddress(address: string, keys: seq<string>) returns (r: string)
      requires forall k :: k in keys ==> k in discovered.entries
      ensures r == RemovalAddress(address, Records(keys, discovered.entries))
    {
      ghost var removed := Records(keys, discovered.entries);
      r := address;
      for i := 0 to |keys|
        invariant r == RemovalAddress(address, removed[..i])
      {
        assert keys[i] in keys;
        assert removed[..i + 1][..i] == removed[..i];
        var infoAddress := discovered.entries[keys[i]].address;
        if IsValidAddress(infoAddress) {
          r := NormalizeAddress(infoAddress);
        } else if infoAddress != "" {
          r := infoAddress;
        }
      }
      assert removed[..|keys|] == removed;
    }

    /**
     Rewrites the entries at an address while iterating over them. Keys are
     coherent, so no entry moves: the order is as before and nothing is left to
     remove afterwards.
     */
    method UpdateDevicesForAddress(address: string, mutation: Mutation) returns (ghost moved: seq<string>)
      requires Valid() && !mutation.SetEndpoint?
      modifies this`discovered, this`paired
      ensures Valid() && moved == []
      ensures Tables(discovered, paired) == UpdateTables(old(State()).tables, AtAddressOrId(address), mutation)
      ensures discovered.order == old(discovered).order
    {
      hide Selects, MutateKeys, SyncPaired, KeysBefore, IsValidAddress, NormalizeAddress;
      ghost var q := AtAddressOrId(address);
      ghost var ts := State().tables;
      ghost var visited: seq<string> := [];
      var keysToRemove: seq<string> := [];
      NothingVisited(ts, q, mutation);
      MutatedKeys(ts.discovered, [], mutation);
      for i := 0 to |discovered.order|
        invariant discovered.order == ts.discovered.order && keysToRemove == []
        invariant visited == KeysBefore(q, ts.discovered, i)
        invariant discovered == MutateKeys(ts.discovered, visited, mutation)
        invariant paired == SyncPaired(ts.paired, visited, ts.discovered.entries, mutation)
      {
        VisitStep(ts, q, i, mutation);
        var key := discovered.order[i];
        var item := discovered.entries[key];
        if Selects(AtAddressOrId(address), key, item) {
          var rekeyed := WriteBack(key, item, mutation);
          keysToRemove := keysToRemove + rekeyed;
          visited := visited + [key];
        }
      }
      moved := keysToRemove;
      UpdateKeepsTablesInv(ts, q, mutation);
      EraseAbsent(discovered, Elements(keysToRemove));
      EraseAbsent(paired, Elements(keysToRemove));
      EraseKeys(keysToRemove);
    }

    /** Stores the mutated record under the key it now has; returns the old key if that is another one. */
    method WriteBack(oldKey: string, item: DeviceInfo, mutation: Mutation) returns (rekeyed: seq<string>)
      requires DeviceKey(item) == oldKey && Prepared(item) == item && !mutation.SetEndpoint?
      modifies this`discovered, this`paired
      ensures rekeyed == []
      ensures var info := Mutated(mutation, item);
              && discovered == Put(old(discovered), oldKey, info)
              && paired == if info.paired then Put(old(paired), oldKey, info) else Erase(old(paired), {oldKey})
    {
      var info := Mutated(mutation, item);
      if IsValidAddress(info.address) {
        info := info.(address := NormalizeAddress(info.address));
      }
      var key := DeviceKey(info);
      rekeyed := if key != oldKey then [oldKey] else [];
      discovered := Put(discovered, key, info);
      if info.paired {
        paired := Put(paired, key, info);
      } else {
        paired := Erase(paired, {key});
      }
    }

    method EmitDeviceUpdatesForAddress(address: string)
      modifies this`signals
      ensures signals == old(signals)
                         + FoundSignals(Records(Selected(AtAddressOrId(address), discovered), discovered.entries))
    {
      var keys := CollectKeys(AtAddressOrId(address), discovered);
      signals := signals + FoundSignals(Records(keys, discovered.entries));
    }

    method SyncDevicesFromSnapshot(devices: seq<Option<Dict>>)
      modifies this`discovered, this`paired, this`signals
      ensures var infos := SnapshotRecords(devices);
              && Tables(discovered, paired) == UpsertAll(old(State()).tables, infos)
              && signals == old(signals) + FoundSignals(infos)
    {
      hide UpsertTables, UpsertAll, SnapshotRecords, FoundSignals;
      SnapshotStart(State().tables, devices);
      assert signals + [] == signals;
      for i := 0 to |devices|
        invariant Tables(discovered, paired) == UpsertAll(old(State()).tables, SnapshotRecords(devices[..i]))
        invariant signals == old(signals) + FoundSignals(SnapshotRecords(devices[..i]))
      {
        SnapshotStep(old(State()).tables, devices, i);
        if devices[i].Some? {
          var info := FromDictionary(devices[i].value);
          UpsertDevice(info);
          signals := signals + [SigDeviceFound(ToDictionary(info))];
        }
      }
      assert devices[..|devices|] == devices;
    }

    method MaybeEmitBluetoothReady()
      modifies this`signals, this`readyEmitted
      ensures State() == WithReady(old(State()))
    {
      if readyEmitted || !backendAvailable {
        return;
      }
      readyEmitted := true;
      signals := signals + [SigBluetoothReady];
    }

    method HandleEvent(e: Event)
      requires Valid()
      modifies this
      ensures Valid() && State() == Handled(old(State()), e)
    {
      hide TablesInv, UpsertTables, UpdateTables, UpsertAll, RemovalAddress, RemovedAt, Selects;
      hide SnapshotRecords, FoundSignals, WithReady;
      HandledKeepsTablesInv(State(), e);
      match e
      case ScanStarted => signals := signals + [SigScanStarted];
      case ScanStopped => signals := signals + [SigScanStopped];
      case DeviceFound(info) =>
        UpsertDevice(info);
        signals := signals + [SigDeviceFound(ToDictionary(info))];
      case DeviceRemoved(given, deviceAddress) =>
        var address := if given == "" then deviceAddress else given;
        RemoveDeviceForAddress(address);
      case PairingStarted(a) => signals := signals + [SigPairingStarted(a)];
      case PairingSucceeded(a) =>
        ghost var moved := UpdateDevicesForAddress(a, MarkPaired);
        EmitDeviceUpdatesForAddress(a);
        signals := signals + [SigPairingSucceeded(a)];
      case PairingFailed(a) => signals := signals + [SigPairingFailed(a)];
      case PairingConfirmationRequested(a, kind) => signals := signals + [SigConfirmationRequested(a, kind)];
      case PairingPinRequested(a) => signals := signals + [SigPinRequested(a)];
      case PairingDisplayPin(a, pin) => signals := signals + [SigDisplayPin(a, pin)];
      case ConnectionChanged(a, c) =>
        ghost var moved := UpdateDevicesForAddress(a, SetConnected(c));
        EmitDeviceUpdatesForAddress(a);
        signals := signals + [SigConnectionChanged(a, c)];
      case ErrorOccurred(operation, code) =>
        if operation == "initialize" {
          backendAvailable := false;
        }
        if code == RadioOff {
          radioOn := false;
        }
        signals := signals + [SigErrorOccurred(operation, code)];
      case PairedDevicesUpdated(devices) =>
        SyncDevicesFromSnapshot(devices);
        signals := signals + [SigDevicesRefreshed];
        MaybeEmitBluetoothReady();
      case BackendInitialized(r) =>
        radioOn := r;
        MaybeEmitBluetoothReady();
    }

    method IsPaired(address: string) returns (answer: bool)
      ensures answer == PairedAnswer(State().tables, address)
    {
      var inPaired := FindFirst(AtAddress(address), paired);
      if inPaired.Some? {
        return true;
      }
      var inDiscovered := FindFirst(AtAddress(address), discovered);
      answer := inDiscovered.Some? && discovered.entries[inDiscovered.value].paired;
    }

    method IsConnected(address: string) returns (answer: bool)
      ensures answer == ConnectedAnswer(State().tables, address)
    {
      var inDiscovered := FindFirst(AtAddress(address), discovered);
      if inDiscovered.Some? {
        return discovered.entries[inDiscovered.value].connected;
      }
      var inPaired := FindFirst(AtAddress(address), paired);
      answer := inPaired.Some? && paired.entries[inPaired.value].connected;
    }
  }
}
