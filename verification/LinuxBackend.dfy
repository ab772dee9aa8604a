/**
 The Linux backend's commands and signal handlers: what they do to the cache,
 to the scan session, and which events they emit. D-Bus replies and the clock
 are arbitrary inputs.
 */
module LinuxBackends {
  import opened Text
  import opened Addresses
  import opened DeviceRecords
  import opened OrderedTables
  import opened DeviceTables
  import opened DeviceCaches
  import opened Events
  import opened Bluez

  // ----- the scan and pairing view of a command -----

  /** The part of the backend that scan sessions and pairing attempts depend on. */
  datatype BackendView = BackendView(
    initialized: bool, scanning: bool, options: ScanOptions, deadline: Option<int>, marks: seq<Mark>)

  const FRESH_BACKEND: BackendView := BackendView(false, false, DEFAULT_OPTIONS, None, [])

  /** A command with the outcomes of the calls it makes. */
  datatype Command =
    | StartScan(options: ScanOptions, initOk: bool, filterOk: bool, discoveryOk: bool, now: int)
    | StopScan
    | Poll(time: int)
    | Shutdown
    | Pair(address: string, succeeds: bool, refreshInitOk: bool)
    | Initialize(ok: bool)  // also a refresh of the paired devices
    | Quiet                 // any handler that neither scans nor pairs

  function Stopped(v: BackendView): BackendView {
    if v.scanning then v.(scanning := false, deadline := None, marks := v.marks + [ScanClosed]) else v
  }

  function Initialized(v: BackendView, ok: bool): BackendView {
    v.(initialized := v.initialized || ok)
  }

  function ViewStep(v: BackendView, c: Command): BackendView {
    match c
    case StartScan(options, initOk, filterOk, discoveryOk, now) =>
      var ready := Initialized(v, initOk);
      if !ready.initialized || v.scanning then ready
      else
        var deadline := if options.timeoutSeconds > 0 then Some(now + options.timeoutSeconds) else None;
        var begun := ready.(options := options, deadline := deadline, marks := v.marks + [ScanOpened]);
        if filterOk && discoveryOk then begun.(scanning := true)
        else begun.(marks := begun.marks + [ScanFailed])
    case StopScan => Stopped(v)
    case Poll(now) =>
      if v.initialized && v.scanning && v.deadline.Some? && now >= v.deadline.value then Stopped(v) else v
    case Shutdown => Stopped(v).(initialized := false)
    case Pair(address, succeeds, refreshInitOk) =>
      var result := if succeeds then Succeeded(address) else Failed(address);
      var done := v.(marks := v.marks + [Started(address)] + [result]);
      if succeeds then Initialized(done, refreshInitOk) else done
    case Initialize(ok) => Initialized(v, ok)
    case Quiet => v
  }

  function ViewRun(v: BackendView, commands: seq<Command>): BackendView {
    if commands == [] then v
    else ViewStep(ViewRun(v, commands[..|commands| - 1]), commands[|commands| - 1])
  }

  /**
   The trace so far is well bracketed and its open scan is the running one;
   scanning implies initialised; a running scan has a deadline exactly when
   its timeout is positive.
   */
  ghost predicate Sound(v: BackendView) {
    && After(v.marks) == Some(Phase(v.scanning, None))
    && (v.scanning ==> v.initialized)
    && (v.scanning ==> (v.deadline.Some? <==> v.options.timeoutSeconds > 0))
  }

  lemma StepKeepsSound(v: BackendView, c: Command)
    requires Sound(v)
    ensures Sound(ViewStep(v, c))
  {
    hide After;
    AfterOne(v.marks, ScanOpened);
    AfterOne(v.marks + [ScanOpened], ScanFailed);
    AfterOne(v.marks, ScanClosed);
    if c.Pair? {
      AfterOne(v.marks, Started(c.address));
      AfterOne(v.marks + [Started(c.address)], if c.succeeds then Succeeded(c.address) else Failed(c.address));
    }
  }

  /**
   Over any run of commands with any outcomes, every scan that opens is closed
   by exactly one stop or one start_scan error before the next opens, no scan
   is closed that is not open, and every pairing attempt gets exactly one result
   before the next begins; so does every prefix of the trace.
   */
  lemma {:induction false} RunIsBracketed(commands: seq<Command>)
    ensures Sound(ViewRun(FRESH_BACKEND, commands))
    ensures forall n :: 0 <= n <= |ViewRun(FRESH_BACKEND, commands).marks| ==>
              After(ViewRun(FRESH_BACKEND, commands).marks[..n]).Some?
  {
    hide ViewStep;
    if commands != [] {
      RunIsBracketed(commands[..|commands| - 1]);
      StepKeepsSound(ViewRun(FRESH_BACKEND, commands[..|commands| - 1]), commands[|commands| - 1]);
    }
    var marks := ViewRun(FRESH_BACKEND, commands).marks;
    forall n | 0 <= n <= |marks| ensures After(marks[..n]).Some? {
      AfterPrefix(marks, n);
    }
  }

  /** The scan is running now and after each of the commands. */
  predicate StaysScanning(v: BackendView, commands: seq<Command>) {
    if commands == [] then v.scanning
    else StaysScanning(v, commands[..|commands| - 1]) && ViewRun(v, commands).scanning
  }

  lemma {:induction false} DeadlineStays(v: BackendView, commands: seq<Command>)
    requires Sound(v) && StaysScanning(v, commands)
    ensures var w := ViewRun(v, commands);
            Sound(w) && w.scanning && w.deadline == v.deadline
  {
    if commands != [] {
      var front := commands[..|commands| - 1];
      DeadlineStays(v, front);
      StepKeepsSound(ViewRun(v, front), commands[|commands| - 1]);
    }
  }

  /** Whatever commands come while it runs, a scan with a positive timeout ends at the first poll past its deadline. */
  lemma ScanTimesOut(v: BackendView, start: Command, between: seq<Command>, late: int)
    requires Sound(v) && !v.scanning && start.StartScan? && start.options.timeoutSeconds > 0
    requires StaysScanning(ViewStep(v, start), between)
    requires late >= start.now + start.options.timeoutSeconds
    ensures var w := ViewStep(ViewRun(ViewStep(v, start), between), Poll(late));
            !w.scanning && w.marks == ViewRun(ViewStep(v, start), between).marks + [ScanClosed]
  {
    var started := ViewStep(v, start);
    StepKeepsSound(v, start);
    DeadlineStays(started, between);
    StaysMeansStarted(started, between);
  }

  lemma {:induction false} StaysMeansStarted(v: BackendView, commands: seq<Command>)
    requires StaysScanning(v, commands)
    ensures v.scanning
  {
    if commands != [] {
      StaysMeansStarted(v, commands[..|commands| - 1]);
    }
  }

  /** Not a command that ends a scan: no stop, no shutdown, and no poll at or past the deadline. */
  predicate LetsScan(c: Command, start: Command)
    requires start.StartScan?
  {
    && !c.StopScan? && !c.Shutdown?
    && (c.Poll? ==> start.options.timeoutSeconds <= 0 || c.time < start.now + start.options.timeoutSeconds)
  }

  /** What `v` has emitted since `w`. */
  predicate NoScanClosed(w: BackendView, v: BackendView) {
    w.marks <= v.marks && ScanClosed !in v.marks[|w.marks|..]
  }

  /**
   A scan that starts runs until it is stopped, the backend is shut down, or a poll
   comes at or past its deadline; without a timeout no poll ends it.
   */
  lemma {:induction false} ScanRunsOn(v: BackendView, start: Command, between: seq<Command>)
    requires Sound(v) && start.StartScan? && !v.scanning && (v.initialized || start.initOk)
    requires start.filterOk && start.discoveryOk
    requires forall c :: c in between ==> LetsScan(c, start)
    ensures var w := ViewRun(ViewStep(v, start), between);
            && w.scanning && NoScanClosed(v, w)
            && w.deadline == (if start.options.timeoutSeconds > 0
                              then Some(start.now + start.options.timeoutSeconds) else None)
            && w.options == start.options && Sound(w)
  {
    hide After;
    if between == [] {
      StepKeepsSound(v, start);
      assert ViewStep(v, start).marks[|v.marks|..] == [ScanOpened];
    } else {
      var front, last := between[..|between| - 1], between[|between| - 1];
      assert last in between;
      ScanRunsOn(v, start, front);
      StepKeepsSound(ViewRun(ViewStep(v, start), front), last);
      ScanningStep(v, ViewRun(ViewStep(v, start), front), last);
    }
  }

  lemma ScanningStep(before: BackendView, w: BackendView, c: Command)
    requires w.scanning && NoScanClosed(before, w) && !c.StopScan? && !c.Shutdown?
    requires c.Poll? && w.deadline.Some? ==> c.time < w.deadline.value
    requires w.initialized
    ensures var next := ViewStep(w, c);
            next.scanning && next.deadline == w.deadline && next.options == w.options && NoScanClosed(before, next)
  {
    if c.Pair? {
      var result := if c.succeeds then Succeeded(c.address) else Failed(c.address);
      assert ViewStep(w, c).marks[|before.marks|..] == w.marks[|before.marks|..] + [Started(c.address)] + [result];
    }
  }

  /** So a scan with a timeout is stopped by the first poll at or past its deadline and by none before. */
  lemma ScanEndsAtDeadline(v: BackendView, start: Command, between: seq<Command>, poll: int)
    requires Sound(v) && start.StartScan? && !v.scanning && (v.initialized || start.initOk)
    requires start.filterOk && start.discoveryOk && start.options.timeoutSeconds > 0
    requires forall c :: c in between ==> LetsScan(c, start)
    ensures var w := ViewRun(ViewStep(v, start), between);
            var next := ViewStep(w, Poll(poll));
            var late := poll >= start.now + start.options.timeoutSeconds;
            next.scanning == !late && next.marks == w.marks + (if late then [ScanClosed] else [])
  {
    hide ViewRun;
    ScanRunsOn(v, start, between);
  }

  /**
   A start without an initialised backend does nothing, one during a scan leaves it
   alone, and one whose filter or discovery fails leaves no scan but says so.
   */
  lemma StartOutcome(v: BackendView, start: Command)
    requires start.StartScan?
    ensures var next := ViewStep(v, start);
            if !v.initialized && !start.initOk then next == v
            else if v.scanning then next == v.(initialized := true)
            else
              && next.initialized && next.scanning == (start.filterOk && start.discoveryOk)
              && next.marks == v.marks + [ScanOpened] + (if next.scanning then [] else [ScanFailed])
  {
    assert v.marks + [ScanOpened] + [] == v.marks + [ScanOpened];
  }

  /** Stopping twice is stopping once, and after a shutdown nothing runs or polls until the next initialisation. */
  lemma StoppedIsStopped(v: BackendView, time: int)
    ensures var stopped, down := ViewStep(v, StopScan), ViewStep(v, Shutdown);
            && !stopped.scanning && ViewStep(stopped, StopScan) == stopped && stopped.initialized == v.initialized
            && stopped.marks == v.marks + (if v.scanning then [ScanClosed] else [])
            && !down.scanning && !down.initialized && down.marks == stopped.marks
            && ViewStep(down, Poll(time)) == down && ViewStep(down, Initialize(true)).initialized
  {
    assert v.marks + [] == v.marks;
  }

  /** A pairing attempt leaves the scan alone; its refresh initialises the backend only if the attempt succeeded. */
  lemma PairLeavesScan(v: BackendView, address: string, succeeds: bool, initOk: bool)
    ensures var next := ViewStep(v, Pair(address, succeeds, initOk));
            && next.scanning == v.scanning && next.deadline == v.deadline && next.options == v.options
            && (next.initialized <==> v.initialized || (succeeds && initOk))
            && next.marks == v.marks + [Started(address), if succeeds then Succeeded(address) else Failed(address)]
  {
  }

  // ----- replies -----

  datatype InitReply = InitReply(
    connectOk: bool, agentOk: bool, adapterOk: bool, powered: Option<bool>, setPowerOk: bool, code: ErrorCode)

  predicate InitOk(r: InitReply) {
    r.connectOk && r.agentOk && r.adapterOk
  }

  /** None stands for a failed GetManagedObjects call. */
  datatype RefreshReply = RefreshReply(init: InitReply, managed: Option<seq<BluezProps>>)

  datatype ScanReply = ScanReply(
    init: InitReply, managed: Option<seq<BluezProps>>, filterOk: bool, discoveryOk: bool, now: int, code: ErrorCode)

  datatype PairReply = PairReply(
    managed: Option<seq<BluezProps>>, pairOk: bool, props: Option<BluezProps>, refresh: RefreshReply)

  datatype Prompt = ConfirmPrompt | PinPrompt | DisplayPrompt(pin: string)

  datatype BluezSignal =
    | InterfaceAdded(props: BluezProps)
    | InterfaceRemoved(path: string)
    | PropertiesChanged(change: PropertyChange)
    | AgentPrompt(path: string, prompt: Prompt)

  // ----- what the handlers do -----

  /** The event of a backend upsert: the cache's entry, if it is new or forced and passes the filter in force. */
  function FoundEvents(
    s: CacheState, p: DeviceInfo, emit: bool, force: bool, scanning: bool, options: ScanOptions): seq<Event>
  {
    var m := Stored(s.tables.discovered, p);
    if emit && (KeyOf(p) !in s.tables.discovered.entries || force) && (!scanning || PassesScanFilter(options, m))
    then [DeviceFound(m)] else []
  }

  /** A DEVICE_FOUND carries exactly the entry the cache now holds, and passes the filter while scanning. */
  lemma FoundEventsAreCached(
    s: CacheState, p: DeviceInfo, emit: bool, force: bool, scanning: bool, options: ScanOptions)
    ensures var after := Upserted(s, p).tables.discovered.entries;
            var events := FoundEvents(s, p, emit, force, scanning, options);
            && KeyOf(p) in after
            && (events != [] ==> events == [DeviceFound(after[KeyOf(p)])]
                                 && emit && (scanning ==> PassesScanFilter(options, after[KeyOf(p)])))
            && (emit && force && !scanning ==> events != [])
  {
    UpsertEntries(s.tables, p);
  }

  /**
   A DEVICE_FOUND comes exactly for a record that is to be announced, is new or
   forced, and has, while scanning, the name, the class and the strength asked for;
   an unknown strength is never too weak.
   */
  lemma FoundEventsExactly(
    s: CacheState, p: DeviceInfo, emit: bool, force: bool, scanning: bool, options: ScanOptions)
    ensures var after := Upserted(s, p).tables.discovered.entries;
            && KeyOf(p) in after
            && var m := after[KeyOf(p)];
               var asked := (options.namedOnly ==> m.name != "")
                            && (options.gamepadsOnly ==> m.deviceClass == "gamepad")
                            && (m.hasRssi && options.minRssi > -127 ==> m.rssi >= options.minRssi);
               FoundEvents(s, p, emit, force, scanning, options)
               == if emit && (force || KeyOf(p) !in s.tables.discovered.entries) && (scanning ==> asked)
                  then [DeviceFound(m)] else []
  {
    hide Stored, KeyOf;
    UpsertEntries(s.tables, p);
  }

  function SeenAll(s: CacheState, devices: seq<BluezProps>): CacheState {
    if devices == [] then s
    else Upserted(SeenAll(s, devices[..|devices| - 1]), DeviceInfoFromBluez(devices[|devices| - 1]))
  }

  function Enumerated(s: CacheState, managed: Option<seq<BluezProps>>): CacheState {
    if managed.None? then s else SeenAll(s, managed.value)
  }

  /** The first managed object whose address matches. */
  function FirstManaged(devices: seq<BluezProps>, address: string): Option<BluezProps> {
    if devices == [] then None
    else if AddressesMatch(devices[0].address, address) then Some(devices[0])
    else FirstManaged(devices[1..], address)
  }

  /** `resolve_device_path`: the cache first, then BlueZ's objects, which are cached if they match. */
  function PathResolved(s: CacheState, address: string, managed: Option<seq<BluezProps>>): (CacheState, string) {
    var cached := ResolvedId(s, address);
    if cached != "" then (s, cached)
    else if managed.None? then (s, "")
    else
      var found := FirstManaged(managed.value, NormalizeAddress(address));
      if found.None? then (s, "")
      else (Upserted(s, DeviceInfoFromBluez(found.value)), found.value.objectPath)
  }

  /**
   An address the cache does not resolve leads to the first of BlueZ's objects whose
   address matches, which is cached; without one it leads nowhere and nothing changes.
   */
  lemma PathIsFirstMatch(s: CacheState, address: string, devices: seq<BluezProps>, i: nat)
    requires ResolvedId(s, address) == "" && i <= |devices|
    requires forall j :: 0 <= j < i ==> !AddressesMatch(devices[j].address, NormalizeAddress(address))
    requires i < |devices| ==> AddressesMatch(devices[i].address, NormalizeAddress(address))
    ensures PathResolved(s, address, Some(devices))
            == if i < |devices| then (Upserted(s, DeviceInfoFromBluez(devices[i])), devices[i].objectPath) else (s, "")
    ensures PathResolved(s, address, None) == (s, "")
  {
    hide ResolvedId, Upserted, AddressesMatch, NormalizeAddress;
    FirstManagedAt(devices, NormalizeAddress(address), i);
  }

  lemma {:induction false} FirstManagedAt(devices: seq<BluezProps>, address: string, i: nat)
    requires i <= |devices|
    requires forall j :: 0 <= j < i ==> !AddressesMatch(devices[j].address, address)
    requires i < |devices| ==> AddressesMatch(devices[i].address, address)
    ensures FirstManaged(devices, address) == if i < |devices| then Some(devices[i]) else None
  {
    hide AddressesMatch;
    if devices != [] && i > 0 {
      FirstManagedAt(devices[1..], address, i - 1);
    }
  }

  /** A path the cache knows is used as it is. */
  lemma KnownPathIsUsed(s: CacheState, address: string, managed: Option<seq<BluezProps>>)
    requires ResolvedId(s, address) != ""
    ensures PathResolved(s, address, managed) == (s, ResolvedId(s, address))
  {
  }

  predicate CachedAsPaired(s: CacheState, address: string) {
    LookedUp(s, address).Some? && LookedUp(s, address).value.paired
  }

  /** Pairing by address succeeds if the address is valid, a path is found, and the device is or becomes paired. */
  predicate PairSucceeds(s: CacheState, address: string, r: PairReply) {
    var normalized := NormalizeAddress(address);
    var resolved := PathResolved(s, normalized, r.managed);
    IsValidAddress(normalized) && resolved.1 != "" && (CachedAsPaired(resolved.0, normalized) || r.pairOk)
  }

  /** The address a pairing by device id reports. */
  function PairEventAddress(s: CacheState, deviceId: string): string {
    var key := FoundKey(s, deviceId);
    var address :=
      if key.Some? && s.tables.discovered.entries[key.value].address != ""
      then s.tables.discovered.entries[key.value].address else deviceId;
    EventAddress(address)
  }

  predicate PairByIdSucceeds(s: CacheState, deviceId: string, r: PairReply) {
    var address := PairEventAddress(s, deviceId);
    deviceId != "" && ((address != "" && CachedAsPaired(s, address)) || r.pairOk)
  }

  /** The cache after a pairing attempt whose path resolution left it in state `s`. */
  function PairedCache(s: CacheState, alreadyPaired: bool, refreshed: bool, r: PairReply): CacheState {
    if !alreadyPaired && !r.pairOk then s
    else
      var seen := if alreadyPaired || r.props.None? then s else Upserted(s, DeviceInfoFromBluez(r.props.value));
      if refreshed then Enumerated(seen, r.refresh.managed) else seen
  }

  /**
   How a pairing by address ends. It fails, and the cache stays, for text that is no
   address and for an address nothing leads from; a device cached as paired succeeds
   without asking BlueZ; otherwise BlueZ decides, and a refusal leaves only what was
   cached to find the path.
   */
  lemma PairingOutcome(s: CacheState, address: string, r: PairReply)
    ensures var n := NormalizeAddress(address);
            var (found, path) := PathResolved(s, n, r.managed);
            && (!IsValidAddress(address) ==> !PairSucceeds(s, address, r))
            && (path == "" ==> !PairSucceeds(s, address, r))
            && (IsValidAddress(address) && path != "" ==>
                  if LookedUp(found, address).Some? && LookedUp(found, address).value.paired
                  then PairSucceeds(s, address, r) && PairedCache(found, true, false, r) == found
                  else (PairSucceeds(s, address, r) <==> r.pairOk)
                       && (!r.pairOk ==> PairedCache(found, false, true, r) == found))
  {
    hide PathResolved;
    NormalizeIdempotent(address);
  }

  /**
   A pairing by id goes by the entry's address if it has one, in normal form if it is
   valid, or else by the id itself. It fails without an id, succeeds without asking
   BlueZ if that address is cached as paired, and else ends as BlueZ decides.
   */
  lemma PairingByIdOutcome(s: CacheState, deviceId: string, key: string, r: PairReply)
    requires FoundKey(s, deviceId) in {None, Some(key)}
    requires FoundKey(s, deviceId) == Some(key) ==> key in s.tables.discovered.entries
    ensures var at := PairEventAddress(s, deviceId);
            var known := FoundKey(s, deviceId) == Some(key) && s.tables.discovered.entries[key].address != "";
            var named := if known then s.tables.discovered.entries[key].address else deviceId;
            && at == (if IsValidAddress(named) then NormalizeAddress(named) else named)
            && (deviceId == "" ==> !PairByIdSucceeds(s, deviceId, r))
            && (deviceId != "" ==>
                  if at != "" && LookedUp(s, at).Some? && LookedUp(s, at).value.paired
                  then PairByIdSucceeds(s, deviceId, r) else PairByIdSucceeds(s, deviceId, r) == r.pairOk)
  {
    hide FoundKey, LookedUp, IsValidAddress, NormalizeAddress;
  }

  /**
   What follows a pairing that BlueZ grants: the device as it is now cached, then the
   success; for a device already paired just the success.
   */
  lemma PairingIsTold(
    s: CacheState, address: string, initialized: bool, scanning: bool, options: ScanOptions, r: PairReply)
    ensures var m := Stored(s.tables.discovered, DeviceInfoFromBluez(GetOr(r.props, NO_PROPERTIES)));
            var told := FinishEvents(s, address, false, initialized, scanning, options, r);
            r.pairOk && r.props.Some? && (scanning ==> PassesScanFilter(options, m)) ==>
              |told| > 1 && told[0] == DeviceFound(m) && told[1] == PairingSucceeded(address)
    ensures FinishEvents(s, address, true, initialized, scanning, options, r)
            == [PairingSucceeded(address)] + RefreshEvents(s, initialized, r.refresh)
  {
    hide Stored, RefreshEvents, DeviceInfoFromBluez, PassesScanFilter;
  }

  /** A pairing that BlueZ confirms is cached: the address is then looked up as paired. */
  lemma PairingIsCached(s: CacheState, address: string, r: PairReply)
    requires r.pairOk && r.props.Some? && r.props.value.paired
    requires CanonicalAddress(r.props.value.address)
    requires NormalizeAddress(address) == NormalizeAddress(r.props.value.address)
    ensures CachedAsPaired(PairedCache(s, false, false, r), address)
  {
    hide NormalizeAddress, Stored, UpsertTables, CanonicalAddress;
    var p := DeviceInfoFromBluez(r.props.value);
    RecordName(r.props.value);
    CanonicalNormalForm(r.props.value.address);
    CanonicalNormalRecord(p);
    UpsertEntries(s.tables, p);
    StoredFlags(s.tables.discovered, p);
  }

  function SignalCache(s: CacheState, signal: BluezSignal): CacheState {
    match signal
    case InterfaceAdded(props) => Upserted(s, DeviceInfoFromBluez(props))
    case InterfaceRemoved(path) => ApplyLinux(s, InterfacesRemoved(path))
    case PropertiesChanged(change) => Upserted(s, ChangeRecord(s, change))
    case AgentPrompt(_, _) => s
  }

  function SignalsCache(s: CacheState, signals: seq<BluezSignal>): CacheState {
    if signals == [] then s
    else SignalCache(SignalsCache(s, signals[..|signals| - 1]), signals[|signals| - 1])
  }

  function ConnectionEvents(change: PropertyChange, record: DeviceInfo): seq<Event> {
    if change.connected.Some? && IsValidAddress(record.address)
    then [ConnectionChanged(NormalizeAddress(record.address), record.connected)] else []
  }

  /** The pairing request handler the backend gives to the agent. */
  function HandlerEvent(path: string, kind: string, pin: string): Option<Event> {
    if kind == "confirm" then Some(PairingConfirmationRequested(path, kind))
    else if kind == "provide_pin" then Some(PairingPinRequested(path))
    else if kind == "display_pin" then Some(PairingDisplayPin(path, pin))
    else None
  }

  function PromptEvent(path: string, prompt: Prompt): Event {
    match prompt
    case ConfirmPrompt => PairingConfirmationRequested(path, "confirm")
    case PinPrompt => PairingPinRequested(path)
    case DisplayPrompt(pin) => PairingDisplayPin(path, pin)
  }

  function SignalEvents(s: CacheState, signal: BluezSignal, scanning: bool, options: ScanOptions): seq<Event> {
    match signal
    case InterfaceAdded(props) => FoundEvents(s, DeviceInfoFromBluez(props), true, true, scanning, options)
    case InterfaceRemoved(path) =>
      var key := FoundKey(s, path);
      if key.None? then []
      else [DeviceRemoved(EventAddress(s.tables.discovered.entries[key.value].address), "")]
    case PropertiesChanged(change) =>
      var record := ChangeRecord(s, change);
      var force := change.paired.Some? || change.connected.Some? || change.rssi.Some?;
      FoundEvents(s, record, true, force, scanning, options) + ConnectionEvents(change, record)
    case AgentPrompt(path, prompt) => [PromptEvent(path, prompt)]
  }

  /** The events of signals handled one after the other. */
  function PolledEvents(
    s: CacheState, signals: seq<BluezSignal>, scanning: bool, options: ScanOptions): seq<Event>
  {
    if signals == [] then []
    else
      var front, last := signals[..|signals| - 1], signals[|signals| - 1];
      PolledEvents(s, front, scanning, options) + SignalEvents(SignalsCache(s, front), last, scanning, options)
  }

  // ----- one after the other -----

  /** One sighting for each of BlueZ's objects, in order. */
  function Sightings(devices: seq<BluezProps>): seq<LinuxOp> {
    seq(|devices|, i requires 0 <= i < |devices| => DeviceSeen(DeviceInfoFromBluez(devices[i])))
  }

  /** Enumerating BlueZ's objects is a run of sightings. */
  lemma {:induction false} EnumerationIsRun(s: CacheState, devices: seq<BluezProps>)
    ensures Enumerated(s, Some(devices)) == RunLinux(s, Sightings(devices))
  {
    hide Upserted, DeviceInfoFromBluez;
    if devices != [] {
      var front, last := devices[..|devices| - 1], devices[|devices| - 1];
      EnumerationIsRun(s, front);
      assert Sightings(devices) == Sightings(front) + [DeviceSeen(DeviceInfoFromBluez(last))];
      RunLinuxSnoc(s, Sightings(front), DeviceSeen(DeviceInfoFromBluez(last)));
    }
  }

  /** An enumeration that fails caches nothing and says so; one that does not says nothing. */
  lemma FailedEnumeration(s: CacheState, managed: Option<seq<BluezProps>>, code: ErrorCode)
    ensures managed.None? ==>
              Enumerated(s, managed) == s
              && EnumerationEvents(managed, code) == [ErrorOccurred("enumerate_devices", code)]
    ensures managed.Some? ==> EnumerationEvents(managed, code) == []
  {
  }

  lemma {:induction false} RunLinuxSnoc(s: CacheState, ops: seq<LinuxOp>, last: LinuxOp)
    ensures RunLinux(s, ops + [last]) == ApplyLinux(RunLinux(s, ops), last)
    decreases |ops|
  {
    hide ApplyLinux;
    if ops == [] {
      assert [] + [last] == [last] && [last][1..] == [];
      assert RunLinux(ApplyLinux(s, last), []) == ApplyLinux(s, last);
    } else {
      assert (ops + [last])[0] == ops[0] && (ops + [last])[1..] == ops[1..] + [last];
      RunLinuxSnoc(ApplyLinux(s, ops[0]), ops[1..], last);
    }
  }

  /** A granted pairing caches what BlueZ says of the device and then, if it could refresh, all of BlueZ's objects. */
  lemma PairingIsRun(s: CacheState, alreadyPaired: bool, refreshed: bool, r: PairReply)
    ensures var asked := if !alreadyPaired && r.pairOk && r.props.Some? then [r.props.value] else [];
            var others := if (alreadyPaired || r.pairOk) && refreshed && r.refresh.managed.Some?
                          then r.refresh.managed.value else [];
            PairedCache(s, alreadyPaired, refreshed, r) == RunLinux(RunLinux(s, Sightings(asked)), Sightings(others))
  {
    hide Upserted, DeviceInfoFromBluez;
    if r.props.Some? {
      OneSighting(s, r.props.value);
    }
    var seen := if alreadyPaired || !r.pairOk || r.props.None? then s
                else Upserted(s, DeviceInfoFromBluez(r.props.value));
    assert RunLinux(s, Sightings([])) == s && RunLinux(seen, Sightings([])) == seen;
    if r.refresh.managed.Some? {
      EnumerationIsRun(seen, r.refresh.managed.value);
    }
  }

  lemma OneSighting(s: CacheState, device: BluezProps)
    ensures RunLinux(s, Sightings([device])) == Upserted(s, DeviceInfoFromBluez(device))
  {
    hide Upserted, DeviceInfoFromBluez;
    var next := Upserted(s, DeviceInfoFromBluez(device));
    assert Sightings([device]) == [DeviceSeen(DeviceInfoFromBluez(device))];
    assert [DeviceSeen(DeviceInfoFromBluez(device))][1..] == [] && RunLinux(next, []) == next;
  }

  /** Signals take effect one after the other: the first on the cache as it is, the others on what it leaves. */
  lemma {:induction false} SignalsInTurn(
    s: CacheState, first: BluezSignal, rest: seq<BluezSignal>, scanning: bool, options: ScanOptions)
    ensures SignalsCache(s, [first] + rest) == SignalsCache(SignalCache(s, first), rest)
    ensures PolledEvents(s, [first] + rest, scanning, options)
            == SignalEvents(s, first, scanning, options)
               + PolledEvents(SignalCache(s, first), rest, scanning, options)
    decreases |rest|
  {
    hide SignalCache, SignalEvents;
    var all := [first] + rest;
    if rest == [] {
      assert all[..0] == [] && all == [first];
      assert SignalsCache(s, []) == s && PolledEvents(s, [], scanning, options) == [];
      assert [] + SignalEvents(s, first, scanning, options) == SignalEvents(s, first, scanning, options) + [];
    } else {
      var front, last := rest[..|rest| - 1], rest[|rest| - 1];
      assert all[..|all| - 1] == [first] + front && all[|all| - 1] == last;
      SignalsInTurn(s, first, front, scanning, options);
      var late := SignalEvents(SignalsCache(SignalCache(s, first), front), last, scanning, options);
      Joined(SignalEvents(s, first, scanning, options),
             PolledEvents(SignalCache(s, first), front, scanning, options), late);
    }
  }

  lemma Joined(a: seq<Event>, b: seq<Event>, c: seq<Event>)
    ensures a + b + c == a + (b + c)
  {
  }

  // ----- the events of commands -----

  function InitEvents(initialized: bool, r: InitReply): seq<Event> {
    if initialized then []
    else if !InitOk(r) then [ErrorOccurred("initialize", r.code)]
    else if r.powered == Some(false) && !r.setPowerOk then [ErrorOccurred("initialize", RadioOff)]
    else []
  }

  function EnumerationEvents(managed: Option<seq<BluezProps>>, code: ErrorCode): seq<Event> {
    if managed.None? then [ErrorOccurred("enumerate_devices", code)] else []
  }

  function SnapshotEvent(s: CacheState): Event {
    PairedDevicesUpdated(PairedArray(s.tables.paired))
  }

  function RefreshEvents(s: CacheState, initialized: bool, r: RefreshReply): seq<Event> {
    InitEvents(initialized, r.init)
    + if initialized || InitOk(r.init)
      then EnumerationEvents(r.managed, OtherError) + [SnapshotEvent(Enumerated(s, r.managed))] else []
  }

  function StartEvents(s: CacheState, initialized: bool, scanning: bool, r: ScanReply): seq<Event> {
    InitEvents(initialized, r.init)
    + if scanning || !(initialized || InitOk(r.init)) then []
      else [ScanStarted] + EnumerationEvents(r.managed, r.code) + [SnapshotEvent(Enumerated(s, r.managed))]
           + if r.filterOk && r.discoveryOk then [] else [ErrorOccurred(START_SCAN, r.code)]
  }

  /** The events of a pairing attempt whose path is known, after its PAIRING_STARTED. */
  function FinishEvents(
    s: CacheState, address: string, alreadyPaired: bool, initialized: bool, scanning: bool, options: ScanOptions,
    r: PairReply): seq<Event>
  {
    if !alreadyPaired && !r.pairOk then [PairingFailed(address)]
    else if alreadyPaired || r.props.None? then [PairingSucceeded(address)] + RefreshEvents(s, initialized, r.refresh)
    else
      var p := DeviceInfoFromBluez(r.props.value);
      FoundEvents(s, p, true, true, scanning, options)
      + ([PairingSucceeded(address)] + RefreshEvents(Upserted(s, p), initialized, r.refresh))
  }

  lemma {:induction false} SeenAllKeepsInv(s: CacheState, devices: seq<BluezProps>)
    requires LinuxInv(s)
    ensures LinuxInv(SeenAll(s, devices))
  {
    hide LinuxInv, Upserted;
    if devices != [] {
      SeenAllKeepsInv(s, devices[..|devices| - 1]);
      SeenKeepsInv(SeenAll(s, devices[..|devices| - 1]), DeviceInfoFromBluez(devices[|devices| - 1]));
    }
  }

  lemma SeenKeepsInv(s: CacheState, p: DeviceInfo)
    requires LinuxInv(s)
    ensures LinuxInv(Upserted(s, p))
  {
    LinuxKeepsInv(s, DeviceSeen(p));
  }

  /** Events without marks leave the trace as it is. */
  lemma UnmarkedEvents(events: seq<Event>, more: seq<Event>)
    requires |more| <= 1 && (more != [] ==> MarkOf(more[0]) == [])
    ensures Marks(events + more) == Marks(events)
  {
    hide MarkOf;
    MarksConcat(events, more);
    if more != [] {
      assert more[..0] == [];
    }
  }

  lemma OneMarkedEvent(events: seq<Event>, e: Event)
    ensures Marks(events + [e]) == Marks(events) + MarkOf(e)
  {
    hide MarkOf;
    assert (events + [e])[..|events|] == events;
  }

  // ----- events and marks -----

  lemma MarksOfNone()
    ensures Marks([]) == []
  {
  }

  lemma InitIsUnmarked(initialized: bool, r: InitReply)
    ensures Marks(InitEvents(initialized, r)) == []
  {
    MarksOfNone();
    UnmarkedEvents([], InitEvents(initialized, r));
    assert [] + InitEvents(initialized, r) == InitEvents(initialized, r);
  }

  lemma RefreshIsUnmarked(s: CacheState, initialized: bool, r: RefreshReply)
    ensures Marks(RefreshEvents(s, initialized, r)) == []
  {
    hide Marks, InitEvents, Enumerated, EnumerationEvents;
    var init, listed := InitEvents(initialized, r.init), EnumerationEvents(r.managed, OtherError);
    InitIsUnmarked(initialized, r.init);
    if initialized || InitOk(r.init) {
      var last := [SnapshotEvent(Enumerated(s, r.managed))];
      ListingIsUnmarked(r.managed, OtherError);
      MarksConcat(listed, last);
      MarksOfOne(last[0]);
      MarksConcat(init, listed + last);
    } else {
      assert init + [] == init;
    }
  }

  lemma ListingIsUnmarked(managed: Option<seq<BluezProps>>, code: ErrorCode)
    ensures Marks(EnumerationEvents(managed, code)) == []
  {
    if managed.None? {
      MarksOfOne(ErrorOccurred("enumerate_devices", code));
    }
  }

  lemma MarksOfOne(e: Event)
    ensures Marks([e]) == MarkOf(e)
  {
    assert [e][..0] == [];
  }

  /** The events of a pairing attempt carry its start and its one result, and no other mark. */
  lemma PairingMarks(
    s: CacheState, address: string, alreadyPaired: bool, initialized: bool, scanning: bool, options: ScanOptions,
    r: PairReply)
    ensures Marks([PairingStarted(address)]
                  + FinishEvents(s, address, alreadyPaired, initialized, scanning, options, r))
            == [Started(address), if alreadyPaired || r.pairOk then Succeeded(address) else Failed(address)]
  {
    hide Marks, RefreshEvents, FoundEvents, DeviceInfoFromBluez, Upserted;
    var finish := FinishEvents(s, address, alreadyPaired, initialized, scanning, options, r);
    MarksOfOne(PairingStarted(address));
    MarksConcat([PairingStarted(address)], finish);
    if !alreadyPaired && !r.pairOk {
      MarksOfOne(PairingFailed(address));
    } else {
      MarksOfOne(PairingSucceeded(address));
      var seen := if alreadyPaired || r.props.None? then s else Upserted(s, DeviceInfoFromBluez(r.props.value));
      var refresh := RefreshEvents(seen, initialized, r.refresh);
      RefreshIsUnmarked(seen, initialized, r.refresh);
      MarksConcat([PairingSucceeded(address)], refresh);
      if !alreadyPaired && r.props.Some? {
        var found := FoundEvents(s, DeviceInfoFromBluez(r.props.value), true, true, scanning, options);
        FoundIsUnmarked(s, DeviceInfoFromBluez(r.props.value), scanning, options);
        MarksConcat(found, [PairingSucceeded(address)] + refresh);
      }
    }
  }

  lemma FoundIsUnmarked(s: CacheState, p: DeviceInfo, scanning: bool, options: ScanOptions)
    ensures Marks(FoundEvents(s, p, true, true, scanning, options)) == []
  {
    hide Stored;
    MarksOfOne(DeviceFound(Stored(s.tables.discovered, p)));
    MarksOfNone();
  }

  /** The events of a scan start carry exactly the marks by which the trace grows. */
  lemma StartMarks(s: CacheState, v: BackendView, options: ScanOptions, r: ScanReply)
    ensures ViewStep(v, StartScan(options, InitOk(r.init), r.filterOk, r.discoveryOk, r.now)).marks
            == v.marks + Marks(StartEvents(s, v.initialized, v.scanning, r))
  {
    hide Marks, Enumerated, InitEvents, EnumerationEvents;
    var init, listed := InitEvents(v.initialized, r.init), EnumerationEvents(r.managed, r.code);
    InitIsUnmarked(v.initialized, r.init);
    assert v.marks + [] == v.marks && init + [] == init;
    if !v.scanning && (v.initialized || InitOk(r.init)) {
      var begun := [ScanStarted] + listed + [SnapshotEvent(Enumerated(s, r.managed))];
      var ending := if r.filterOk && r.discoveryOk then [] else [ErrorOccurred(START_SCAN, r.code)];
      BegunMarks(s, r);
      EndingMarks(r);
      MarksConcat(begun, ending);
      MarksConcat(init, begun + ending);
    }
  }

  lemma BegunMarks(s: CacheState, r: ScanReply)
    ensures Marks([ScanStarted] + EnumerationEvents(r.managed, r.code) + [SnapshotEvent(Enumerated(s, r.managed))])
            == [ScanOpened]
  {
    hide Marks, Enumerated, EnumerationEvents;
    var listed, last := EnumerationEvents(r.managed, r.code), [SnapshotEvent(Enumerated(s, r.managed))];
    MarksOfOne(ScanStarted);
    MarksOfOne(last[0]);
    ListingIsUnmarked(r.managed, r.code);
    MarksConcat([ScanStarted], listed);
    MarksConcat([ScanStarted] + listed, last);
  }

  lemma EndingMarks(r: ScanReply)
    ensures Marks(if r.filterOk && r.discoveryOk then [] else [ErrorOccurred(START_SCAN, r.code)])
            == if r.filterOk && r.discoveryOk then [] else [ScanFailed]
  {
    MarksOfOne(ErrorOccurred(START_SCAN, r.code));
    MarksOfNone();
  }

  // ----- the class -----

  class LinuxBackend {
    const cache: DeviceCache
    var scanOptions: ScanOptions
    var scanDeadline: Option<int>
    var initialized: bool
    var scanning: bool
    var adapterPowered: bool
    var events: seq<Event>  // everything emitted so far

    function View(): BackendView
      reads this
    {
      BackendView(initialized, scanning, scanOptions, scanDeadline, Marks(events))
    }

    ghost predicate Valid()
      reads this, cache
    {
      LinuxInv(cache.State()) && Sound(View())
    }

    constructor ()
      ensures Valid() && View() == FRESH_BACKEND && fresh(cache) && cache.State() == EMPTY_CACHE
    {
      cache := new DeviceCache();
      scanOptions, scanDeadline := DEFAULT_OPTIONS, None;
      initialized, scanning, adapterPowered, events := false, false, false, [];
    }

    method EmitUnmarked(e: Event)
      requires MarkOf(e) == []
      modifies this`events
      ensures events == old(events) + [e] && Marks(events) == Marks(old(events))
    {
      UnmarkedEvents(events, [e]);
      events := events + [e];
    }

    method EmitMarked(e: Event)
      modifies this`events
      ensures events == old(events) + [e] && Marks(events) == Marks(old(events)) + MarkOf(e)
    {
      OneMarkedEvent(events, e);
      events := events + [e];
    }

    method UpsertDevice(p: DeviceInfo, emit: bool, force: bool)
      requires LinuxInv(cache.State())
      modifies cache, this`events
      ensures cache.State() == Upserted(old(cache.State()), p) && LinuxInv(cache.State())
      ensures events == old(events) + FoundEvents(old(cache.State()), p, emit, force, scanning, scanOptions)
      ensures Marks(events) == Marks(old(events))
    {
      hide Upserted, LinuxInv, Stored;
      SeenKeepsInv(cache.State(), p);
      UpsertedEntry(cache.State(), p);
      var ok, isNew := cache.Upsert(p);
      if emit && (isNew || force) {
        var emitInfo := p;
        var cached := cache.GetDevice(DeviceKey(p));
        if cached.Some? {
          emitInfo := cached.value;
        }
        if !scanning || PassesScanFilter(scanOptions, emitInfo) {
          EmitUnmarked(DeviceFound(emitInfo));
        }
      }
    }

    method EnumerateDevices(managed: Option<seq<BluezProps>>, code: ErrorCode)
      requires LinuxInv(cache.State())
      modifies cache, this`events
      ensures cache.State() == Enumerated(old(cache.State()), managed) && LinuxInv(cache.State())
      ensures events == old(events) + EnumerationEvents(managed, code)
      ensures Marks(events) == Marks(old(events))
    {
      hide Upserted, LinuxInv;
      if managed.None? {
        EmitUnmarked(ErrorOccurred("enumerate_devices", code));
        return;
      }
      var devices := managed.value;
      for i := 0 to |devices|
        invariant cache.State() == SeenAll(old(cache.State()), devices[..i]) && LinuxInv(cache.State())
        invariant events == old(events)
      {
        assert devices[..i + 1][..i] == devices[..i];
        UpsertDevice(DeviceInfoFromBluez(devices[i]), false, false);
      }
      assert devices[..|devices|] == devices;
    }

    method EmitPairedDevicesUpdated()
      modifies this`events
      ensures Marks(events) == Marks(old(events))
      ensures events == old(events) + [SnapshotEvent(cache.State())]
    {
      EmitUnmarked(PairedDevicesUpdated(PairedArray(cache.paired)));
    }

    method InitializeBackend(r: InitReply) returns (ok: bool)
      modifies this`initialized, this`adapterPowered, this`events
      ensures ok == initialized
      ensures View() == ViewStep(old(View()), Initialize(InitOk(r)))
      ensures events == old(events) + InitEvents(old(initialized), r)
      ensures adapterPowered == if old(initialized) || !InitOk(r) || r.powered.None? then old(adapterPowered)
                                else r.powered.value || r.setPowerOk
    {
      if initialized {
        return true;
      }
      if !r.connectOk || !r.agentOk || !r.adapterOk {
        EmitUnmarked(ErrorOccurred("initialize", r.code));
        return false;
      }
      if r.powered.Some? {
        adapterPowered := r.powered.value;
        if !r.powered.value {
          if r.setPowerOk {
            adapterPowered := true;
          } else {
            EmitUnmarked(ErrorOccurred("initialize", RadioOff));
          }
        }
      }
      initialized := true;
      ok := true;
    }

    method StopScanning()
      requires Valid()
      modifies this`scanning, this`scanDeadline, this`events
      ensures Valid() && View() == ViewStep(old(View()), StopScan)
      ensures events == old(events) + if old(scanning) then [ScanStopped] else []
    {
      hide LinuxInv, Marks, After, Sound;
      StepKeepsSound(View(), StopScan);
      if !scanning {
        return;
      }
      scanning := false;
      scanDeadline := None;
      EmitMarked(ScanStopped);
    }

    method ShutDown()
      requires Valid()
      modifies this`scanning, this`scanDeadline, this`events, this`initialized
      ensures Valid() && View() == ViewStep(old(View()), Shutdown)
    {
      StepKeepsSound(View(), Shutdown);
      StopScanning();
      if initialized {
        initialized := false;
      }
    }

    method StartScanning(options: ScanOptions, r: ScanReply)
      requires Valid()
      modifies this, cache
      ensures Valid()
      ensures View() == ViewStep(old(View()), StartScan(options, InitOk(r.init), r.filterOk, r.discoveryOk, r.now))
      ensures cache.State() == if old(scanning) || !initialized then old(cache.State())
                               else Enumerated(old(cache.State()), r.managed)
      ensures events == old(events) + StartEvents(old(cache.State()), old(initialized), old(scanning), r)
    {
      hide LinuxInv, Enumerated, Sound, Marks, InitEvents, EnumerationEvents, SnapshotEvent, After;
      StepKeepsSound(View(), StartScan(options, InitOk(r.init), r.filterOk, r.discoveryOk, r.now));
      var ready := InitializeBackend(r.init);
      if !ready || scanning {
        return;
      }
      AnnounceScan(options, r);
      if !r.filterOk {
        EmitMarked(ErrorOccurred(START_SCAN, r.code));
        return;
      }
      if !r.discoveryOk {
        EmitMarked(ErrorOccurred(START_SCAN, r.code));
        return;
      }
      scanning := true;
    }

    /** The first half of `start_scan`: options, deadline, SCAN_STARTED and what is already known. */
    method AnnounceScan(options: ScanOptions, r: ScanReply)
      requires LinuxInv(cache.State())
      modifies this`scanOptions, this`scanDeadline, this`events, cache
      ensures LinuxInv(cache.State()) && cache.State() == Enumerated(old(cache.State()), r.managed)
      ensures View() == old(View()).(
              options := options,
              deadline := if options.timeoutSeconds > 0 then Some(r.now + options.timeoutSeconds) else None,
              marks := old(View()).marks + [ScanOpened])
      ensures events == old(events) + ([ScanStarted] + EnumerationEvents(r.managed, r.code)
                                       + [SnapshotEvent(cache.State())])
    {
      hide LinuxInv, Enumerated, Marks, EnumerationEvents, SnapshotEvent;
      scanOptions := options;
      scanDeadline := if options.timeoutSeconds > 0 then Some(r.now + options.timeoutSeconds) else None;
      EmitMarked(ScanStarted);
      EnumerateDevices(r.managed, r.code);
      EmitPairedDevicesUpdated();
    }

    method RefreshPairedDevices(r: RefreshReply)
      requires LinuxInv(cache.State())
      modifies this`initialized, this`adapterPowered, this`events, cache
      ensures LinuxInv(cache.State())
      ensures View() == ViewStep(old(View()), Initialize(InitOk(r.init)))
      ensures cache.State() == if initialized then Enumerated(old(cache.State()), r.managed) else old(cache.State())
      ensures events == old(events) + RefreshEvents(old(cache.State()), old(initialized), r)
    {
      hide LinuxInv, Enumerated, EnumerationEvents, InitEvents, Marks, SnapshotEvent;
      var ready := InitializeBackend(r.init);
      if !ready {
        return;
      }
      EnumerateDevices(r.managed, OtherError);
      EmitPairedDevicesUpdated();
    }

    method ResolveDevicePath(address: string, managed: Option<seq<BluezProps>>) returns (path: string)
      requires LinuxInv(cache.State())
      modifies cache, this`events
      ensures LinuxInv(cache.State()) && events == old(events)
      ensures (cache.State(), path) == PathResolved(old(cache.State()), address, managed)
    {
      hide LinuxInv, Upserted, ResolvedId, NormalizeAddress, AddressesMatch;
      var cached := cache.ResolveDeviceId(address);
      if cached != "" {
        return cached;
      }
      if managed.None? {
        return "";
      }
      var devices := managed.value;
      for i := 0 to |devices|
        invariant cache.State() == old(cache.State()) && events == old(events)
        invariant FirstManaged(devices, NormalizeAddress(address))
                  == FirstManaged(devices[i..], NormalizeAddress(address))
      {
        assert devices[i..][1..] == devices[i + 1..];
        if AddressesMatch(devices[i].address, NormalizeAddress(address)) {
          UpsertDevice(DeviceInfoFromBluez(devices[i]), false, false);
          return devices[i].objectPath;
        }
      }
      path := "";
    }

    /** The part of both pairing commands that follows once the path is known. */
    method FinishPairing(address: string, alreadyPaired: bool, r: PairReply)
      requires LinuxInv(cache.State())
      modifies this`initialized, this`adapterPowered, this`events, cache
      ensures LinuxInv(cache.State())
      ensures cache.State() == PairedCache(old(cache.State()), alreadyPaired, initialized, r)
      ensures var ok := alreadyPaired || r.pairOk;
              var result := if ok then Succeeded(address) else Failed(address);
              var done := old(View()).(marks := old(View()).marks + [result]);
              View() == if ok then Initialized(done, InitOk(r.refresh.init)) else done
      ensures events == old(events) + FinishEvents(old(cache.State()), address, alreadyPaired, old(initialized),
                                                      scanning, scanOptions, r)
    {
      hide LinuxInv, Marks, Upserted, Enumerated, FoundEvents, RefreshEvents, DeviceInfoFromBluez;
      if !alreadyPaired && !r.pairOk {
        EmitMarked(PairingFailed(address));
        return;
      }
      if !alreadyPaired && r.props.Some? {
        UpsertDevice(DeviceInfoFromBluez(r.props.value), true, true);
      }
      ReportPaired(address, r.refresh);
    }

    method ReportPaired(address: string, r: RefreshReply)
      requires LinuxInv(cache.State())
      modifies this`initialized, this`adapterPowered, this`events, cache
      ensures LinuxInv(cache.State())
      ensures cache.State() == if initialized then Enumerated(old(cache.State()), r.managed) else old(cache.State())
      ensures View() == Initialized(old(View()).(marks := old(View()).marks + [Succeeded(address)]), InitOk(r.init))
      ensures events == old(events) + ([PairingSucceeded(address)]
                                       + RefreshEvents(old(cache.State()), old(initialized), r))
    {
      hide LinuxInv, Marks, Enumerated, RefreshEvents;
      EmitMarked(PairingSucceeded(address));
      RefreshPairedDevices(r);
    }

    method PairDevice(address: string, r: PairReply)
      requires Valid()
      modifies this`initialized, this`adapterPowered, this`events, cache
      ensures Valid()
      ensures var normalized := NormalizeAddress(address);
              View() == ViewStep(old(View()), Pair(normalized, PairSucceeds(old(cache.State()), address, r),
                                                   InitOk(r.refresh.init)))
      ensures var normalized := NormalizeAddress(address);
              var resolved := PathResolved(old(cache.State()), normalized, r.managed);
              cache.State() == if !IsValidAddress(normalized) then old(cache.State())
                               else if resolved.1 == "" then resolved.0
                               else PairedCache(resolved.0, CachedAsPaired(resolved.0, normalized), initialized, r)
      ensures var normalized := NormalizeAddress(address);
              var resolved := PathResolved(old(cache.State()), normalized, r.managed);
              events == old(events) + [PairingStarted(normalized)]
                        + if !IsValidAddress(normalized) || resolved.1 == "" then [PairingFailed(normalized)]
                          else FinishEvents(resolved.0, normalized, CachedAsPaired(resolved.0, normalized),
                                            old(initialized), scanning, scanOptions, r)
    {
      hide LinuxInv, Marks, Sound, PathResolved, PairedCache, NormalizeAddress, IsValidAddress, LookedUp;
      hide FinishEvents;
      var normalized := NormalizeAddress(address);
      StepKeepsSound(View(), Pair(normalized, PairSucceeds(cache.State(), address, r), InitOk(r.refresh.init)));
      EmitMarked(PairingStarted(normalized));
      if !IsValidAddress(normalized) {
        EmitMarked(PairingFailed(normalized));
        return;
      }
      var path := ResolveDevicePath(normalized, r.managed);
      if path == "" {
        EmitMarked(PairingFailed(normalized));
        return;
      }
      var cached := cache.LookupCachedState(normalized, (info: DeviceInfo) => info.paired);
      FinishPairing(normalized, cached == Some(true), r);
    }

    method PairDeviceById(deviceId: string, r: PairReply)
      requires Valid()
      modifies this`initialized, this`adapterPowered, this`events, cache
      ensures Valid()
      ensures View() == ViewStep(old(View()), Pair(PairEventAddress(old(cache.State()), deviceId),
                                                   PairByIdSucceeds(old(cache.State()), deviceId, r),
                                                   InitOk(r.refresh.init)))
      ensures var s := old(cache.State());
              var address := PairEventAddress(s, deviceId);
              cache.State() == if deviceId == "" then s
                               else PairedCache(s, address != "" && CachedAsPaired(s, address), initialized, r)
      ensures var s := old(cache.State());
              var address := PairEventAddress(s, deviceId);
              events == old(events) + [PairingStarted(address)]
                        + if deviceId == "" then [PairingFailed(address)]
                          else FinishEvents(s, address, address != "" && CachedAsPaired(s, address), old(initialized),
                                            scanning, scanOptions, r)
    {
      hide LinuxInv, Sound, ViewStep, PairedCache, NormalizeAddress, IsValidAddress, CachedAsPaired, FoundKey;
      hide FinishEvents, Marks;
      var eventAddress := deviceId;
      var found := cache.FindByDeviceId(deviceId);
      if found.Some? && found.value.1.address != "" {
        eventAddress := found.value.1.address;
      }
      PairDeviceAtPath(deviceId, eventAddress, r);
    }

    method PairDeviceAtPath(path: string, address: string, r: PairReply)
      requires Valid()
      modifies this`initialized, this`adapterPowered, this`events, cache
      ensures Valid()
      ensures var s, at := old(cache.State()), EventAddress(address);
              var ok := path != "" && ((at != "" && CachedAsPaired(s, at)) || r.pairOk);
              View() == ViewStep(old(View()), Pair(at, ok, InitOk(r.refresh.init)))
      ensures var s, at := old(cache.State()), EventAddress(address);
              cache.State() == if path == "" then s
                               else PairedCache(s, at != "" && CachedAsPaired(s, at), initialized, r)
      ensures var s, at := old(cache.State()), EventAddress(address);
              events == old(events) + [PairingStarted(at)]
                        + if path == "" then [PairingFailed(at)]
                          else FinishEvents(s, at, at != "" && CachedAsPaired(s, at), old(initialized), scanning,
                                            scanOptions, r)
    {
      hide LinuxInv, Marks, Sound, PairedCache, NormalizeAddress, IsValidAddress, CachedAsPaired, FinishEvents;
      var eventAddress := if IsValidAddress(address) then NormalizeAddress(address) else address;
      var alreadyPaired := IsCachedAsPaired(eventAddress);
      StepKeepsSound(View(), Pair(eventAddress, path != "" && (alreadyPaired || r.pairOk), InitOk(r.refresh.init)));
      EmitMarked(PairingStarted(eventAddress));
      if path == "" {
        EmitMarked(PairingFailed(eventAddress));
        return;
      }
      FinishPairing(eventAddress, alreadyPaired, r);
    }

    method IsCachedAsPaired(address: string) returns (r: bool)
      ensures r == (address != "" && CachedAsPaired(cache.State(), address))
    {
      if address == "" {
        return false;
      }
      var cached := cache.LookupCachedState(address, (info: DeviceInfo) => info.paired);
      r := cached == Some(true);
    }

    method HandleInterfaceRemoved(path: string)
      requires LinuxInv(cache.State())
      modifies cache, this`events
      ensures cache.State() == ApplyLinux(old(cache.State()), InterfacesRemoved(path)) && LinuxInv(cache.State())
      ensures events == old(events) + SignalEvents(old(cache.State()), InterfaceRemoved(path), scanning, scanOptions)
      ensures Marks(events) == Marks(old(events))
    {
      hide LinuxInv, Removed, FoundKey;
      LinuxKeepsInv(cache.State(), InterfacesRemoved(path));
      var found := cache.FindByDeviceId(path);
      if found.Some? {
        var address := found.value.1.address;
        cache.Remove(found.value.0, address);
        EmitDeviceRemoved(address);
      }
    }

    method EmitDeviceRemoved(address: string)
      modifies this`events
      ensures events == old(events) + [DeviceRemoved(EventAddress(address), "")]
      ensures Marks(events) == Marks(old(events))
    {
      EmitUnmarked(DeviceRemoved(if IsValidAddress(address) then NormalizeAddress(address) else address, ""));
    }

    /** The end of `unpair_device`, once BlueZ has removed the device. */
    method ForgetUnpaired(path: string, address: string)
      requires LinuxInv(cache.State())
      modifies cache, this`events
      ensures cache.State() == ApplyLinux(old(cache.State()), Unpaired(path, address)) && LinuxInv(cache.State())
      ensures events == old(events) + [DeviceRemoved(EventAddress(NormalizeAddress(address)), "")]
      ensures Marks(events) == Marks(old(events))
    {
      hide LinuxInv, Removed, FoundKey, NormalizeAddress;
      LinuxKeepsInv(cache.State(), Unpaired(path, address));
      var removalKey, removalAddress := NormalizeAddress(address), NormalizeAddress(address);
      var found := cache.FindByDeviceId(path);
      if found.Some? {
        removalKey, removalAddress := found.value.0, found.value.1.address;
      }
      cache.Remove(removalKey, removalAddress);
      EmitDeviceRemoved(NormalizeAddress(address));
    }

    method HandlePropertiesChanged(change: PropertyChange)
      requires LinuxInv(cache.State())
      modifies cache, this`events
      ensures cache.State() == Upserted(old(cache.State()), ChangeRecord(old(cache.State()), change))
      ensures LinuxInv(cache.State())
      ensures events == old(events) + SignalEvents(old(cache.State()), PropertiesChanged(change), scanning, scanOptions)
      ensures Marks(events) == Marks(old(events))
    {
      hide LinuxInv, Inv, Upserted, FoundKey, DeviceInfoFromBluez, Patched, FoundEvents;
      hide Marks, NormalizeAddress, IsValidAddress;
      var found := cache.FindByDeviceId(change.path);
      var props := Patched(change, if found.Some? then Some(found.value.1) else None);
      var info := DeviceInfoFromBluez(props);
      UpsertDevice(info, true, change.paired.Some? || change.connected.Some? || change.rssi.Some?);
      if change.connected.Some? && IsValidAddress(info.address) {
        EmitUnmarked(ConnectionChanged(NormalizeAddress(info.address), info.connected));
      }
    }

    method HandleSignal(signal: BluezSignal)
      requires LinuxInv(cache.State())
      modifies cache, this`events
      ensures cache.State() == SignalCache(old(cache.State()), signal) && LinuxInv(cache.State())
      ensures events == old(events) + SignalEvents(old(cache.State()), signal, scanning, scanOptions)
      ensures Marks(events) == Marks(old(events))
    {
      match signal
      case InterfaceAdded(props) => UpsertDevice(DeviceInfoFromBluez(props), true, true);
      case InterfaceRemoved(path) => HandleInterfaceRemoved(path);
      case PropertiesChanged(change) => HandlePropertiesChanged(change);
      case AgentPrompt(path, prompt) => EmitUnmarked(PromptEvent(path, prompt));
    }

    /** Dispatches the signals that have arrived, then checks the scan deadline. */
    method PollOnce(signals: seq<BluezSignal>, now: int)
      requires Valid()
      modifies this`scanning, this`scanDeadline, this`events, cache
      ensures Valid() && View() == ViewStep(old(View()), Poll(now))
      ensures cache.State() == if initialized then SignalsCache(old(cache.State()), signals) else old(cache.State())
      ensures var polled := PolledEvents(old(cache.State()), signals, old(scanning), scanOptions);
              events == old(events) + (if initialized then polled else [])
                        + (if old(scanning) && !scanning then [ScanStopped] else [])
    {
      hide LinuxInv, Marks, Sound, SignalCache, SignalEvents;
      StepKeepsSound(View(), Poll(now));
      if !initialized {
        return;
      }
      for i := 0 to |signals|
        invariant LinuxInv(cache.State()) && cache.State() == SignalsCache(old(cache.State()), signals[..i])
        invariant View() == old(View())
        invariant events == old(events) + PolledEvents(old(cache.State()), signals[..i], old(scanning), scanOptions)
      {
        assert signals[..i + 1][..i] == signals[..i];
        HandleSignal(signals[i]);
      }
      assert signals[..|signals|] == signals;
      if scanning && scanDeadline.Some? && now >= scanDeadline.value {
        StopScanning();
      }
    }
  }

  function PairedArray(paired: Table): seq<Option<Dict>> {
    seq(|paired.order|, i requires 0 <= i < |paired.order| =>
      assert paired.order[i] in paired.order; Some(ToDictionary(paired.entries[paired.order[i]])))
  }

  lemma UpsertedEntry(s: CacheState, p: DeviceInfo)
    ensures Own(Upserted(s, p).tables.discovered, DeviceKey(p)) == Some(Stored(s.tables.discovered, p))
  {
    KeyOfIsDeviceKey(p);
    UpsertEntries(s.tables, p);
  }
}
