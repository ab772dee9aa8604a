/**
 The manager's tables as a replica of the cache's: an emitted event makes the
 manager repeat what the cache did.
 */
module Replica {
  import opened Text
  import opened Addresses
  import opened DeviceRecords
  import opened OrderedTables
  import opened DeviceTables
  import opened DeviceCaches
  import opened Events
  import opened Manager

  // ----- one step -----

  /**
   If the manager's tables are the cache's, then after the cache stores a
   record and the manager handles its DEVICE_FOUND they are equal again,
   iteration order included, whether the event carries the raw record or the
   cache's merged one.
   */
  lemma FoundKeepsReplica(s: CacheState, m: ManagerState, p: DeviceInfo)
    requires UniqueIds(s.tables.discovered) && KeysFitIds(s.tables.discovered) && m.tables == s.tables
    ensures Handled(m, DeviceFound(p)).tables == Upserted(s, p).tables
    ensures Handled(m, DeviceFound(Stored(s.tables.discovered, p))).tables == Upserted(s, p).tables
  {
    UpsertEcho(s.tables, p);
  }

  /**
   After BlueZ removes an object, the cache forgets its entry and the manager
   handles the DEVICE_REMOVED for that entry: the tables are equal again exactly
   if the key and the address of no other entry match the event's address.
   */
  lemma GoneKeepsReplica(s: CacheState, m: ManagerState, key: string)
    requires m.tables == s.tables && key in s.tables.discovered.entries && PairedIsFilter(s.tables)
    ensures var entries := s.tables.discovered.entries;
            var address := entries[key].address;
            var event := DeviceRemoved(EventAddress(address), "");
            Handled(m, event).tables == Removed(s, key, address).tables
            <==> forall k :: k in entries && k != key ==>
                   !AddressesMatch(k, EventAddress(address))
                   && !AddressesMatch(entries[k].address, EventAddress(address))
  {
    hide AddressesMatch, EventAddress, Handled;
    var t := s.tables.discovered;
    var address := EventAddress(t.entries[key].address);
    RemovalTables(m, address, "");
    RemovalReachesItsEntry(t.entries[key], key);
    ErasedAlike(s.tables, Elements(Selected(AtAddress(address), t)), key);
  }

  /**
   After `unpair_device` the cache forgets the entry found by path, or else the
   one under the address, while the event carries the caller's address: the
   tables are equal again exactly if that address selects just that entry.
   */
  lemma UnpairKeepsReplica(s: CacheState, m: ManagerState, path: string, address: string)
    requires m.tables == s.tables && PairedIsFilter(s.tables)
    ensures var entries := s.tables.discovered.entries;
            var normalized := NormalizeAddress(address);
            var forgotten := GetOr(FoundKey(s, path), normalized);
            var event := DeviceRemoved(EventAddress(normalized), "");
            Handled(m, event).tables == ApplyLinux(s, Unpaired(path, address)).tables
            <==> forall k :: k in entries ==> (Selects(AtAddress(normalized), k, entries[k]) <==> k == forgotten)
  {
    hide Selects, Handled, FoundKey;
    var normalized := NormalizeAddress(address);
    NormalizeIdempotent(address);
    RemovalTables(m, normalized, "");
    ErasedAlike(s.tables, Elements(Selected(AtAddress(normalized), s.tables.discovered)),
                GetOr(FoundKey(s, path), normalized));
  }

  /** An entry is always among those its own removal event selects. */
  lemma RemovalReachesItsEntry(info: DeviceInfo, key: string)
    ensures Selects(AtAddress(EventAddress(info.address)), key, info)
  {
    MatchReflexive(info.address);
  }

  // ----- canonical addresses -----

  /** Among canonical addresses an address selects the entry under it and no other. */
  lemma CanonicalSelection(t: Table, address: string)
    requires AllCanonical(t) && Canonical(address) && IsNormal(address)
    ensures EventAddress(address) == address
    ensures forall k :: k in t.entries ==> (Selects(AtAddress(address), k, t.entries[k]) <==> k == address)
  {
    NormalIsFixed(address);
    forall k | k in t.entries ensures Selects(AtAddress(address), k, t.entries[k]) <==> k == address {
      MatchOnCanonical(k, address);
      NormalIsFixed(k);
    }
  }

  // ----- whole runs of emitted steps -----

  /**
   Steps of the backend whose event is emitted. `merged` says which record
   DEVICE_FOUND carries; `Forgotten` is the end of `unpair_device`; `Told` is a
   CONNECTION_CHANGED, which does not touch the cache.
   */
  datatype EmittedStep =
    | Found(info: DeviceInfo, merged: bool)
    | Gone(path: string)
    | Forgotten(path: string, address: string)
    | Told(address: string, connected: bool)

  /** The cache after the step, and the event it emits, if any. */
  function CacheStep(s: CacheState, step: EmittedStep): (CacheState, Option<Event>) {
    match step
    case Found(p, merged) =>
      (Upserted(s, p), Some(DeviceFound(if merged then Stored(s.tables.discovered, p) else p)))
    case Gone(path) =>
      var key := FoundKey(s, path);
      if key.None? then (s, None)
      else
        var address := s.tables.discovered.entries[key.value].address;
        (Removed(s, key.value, address), Some(DeviceRemoved(EventAddress(address), "")))
    case Forgotten(path, address) =>
      (ApplyLinux(s, Unpaired(path, address)),
       Some(DeviceRemoved(EventAddress(NormalizeAddress(address)), "")))
    case Told(address, connected) => (s, Some(ConnectionChanged(NormalizeAddress(address), connected)))
  }

  /** The entries that a CONNECTION_CHANGED reaches say what it says. */
  ghost predicate Truthful(t: Table, address: string, connected: bool) {
    forall k :: k in t.entries && (k == address || t.entries[k].deviceId == address)
                ==> t.entries[k].connected == connected
  }

  predicate CanonicalStep(step: EmittedStep) {
    match step
    case Found(p, _) => CanonicalRecord(p)
    case Gone(_) => true
    case Forgotten(_, address) => CanonicalAddress(address)
    case Told(address, _) => CanonicalAddress(address)
  }

  /**
   If the step forgets an unpaired device, the path leads to the entry at the
   address or to none; if it tells of a connection, the cache agrees.
   */
  ghost predicate Repeatable(s: CacheState, step: EmittedStep) {
    match step
    case Forgotten(path, address) => FoundKey(s, path) in {None, Some(NormalizeAddress(address))}
    case Told(address, connected) => Truthful(s.tables.discovered, NormalizeAddress(address), connected)
    case _ => true
  }

  ghost predicate AllRepeatable(s: CacheState, steps: seq<EmittedStep>)
    decreases |steps|
  {
    steps == []
    || (CanonicalStep(steps[0]) && Repeatable(s, steps[0]) && AllRepeatable(CacheStep(s, steps[0]).0, steps[1..]))
  }

  function Received(m: ManagerState, event: Option<Event>): ManagerState {
    if event.Some? then Handled(m, event.value) else m
  }

  /** Both sides after a run in which the manager handles each event as it comes. */
  function BothAfter(s: CacheState, m: ManagerState, steps: seq<EmittedStep>): (CacheState, ManagerState)
    decreases |steps|
  {
    if steps == [] then (s, m)
    else
      var (next, event) := CacheStep(s, steps[0]);
      BothAfter(next, Received(m, event), steps[1..])
  }

  ghost predicate InStep(s: CacheState, m: ManagerState) {
    Inv(s) && AllCanonical(s.tables.discovered) && m.tables == s.tables
  }

  lemma FoundStep(s: CacheState, m: ManagerState, p: DeviceInfo)
    requires InStep(s, m) && CanonicalRecord(p)
    ensures InStep(Upserted(s, p), Handled(m, DeviceFound(p)))
    ensures InStep(Upserted(s, p), Handled(m, DeviceFound(Stored(s.tables.discovered, p))))
  {
    hide Upserted, Handled, Stored, UpsertTables;
    UpsertKeepsInv(s, p);
    CanonicalUpsert(s.tables, p);
    FoundKeepsReplica(s, m, p);
    UpsertedTables(s, p);
  }

  lemma UpsertedTables(s: CacheState, p: DeviceInfo)
    ensures Upserted(s, p).tables == UpsertTables(s.tables, p)
  {
  }

  lemma GoneStep(s: CacheState, m: ManagerState, key: string)
    requires InStep(s, m) && key in s.tables.discovered.entries
    ensures var address := s.tables.discovered.entries[key].address;
            InStep(Removed(s, key, address), Handled(m, DeviceRemoved(EventAddress(address), "")))
  {
    hide Handled, AddressesMatch;
    var address := s.tables.discovered.entries[key].address;
    RemoveKeepsInv(s, key, address);
    CanonicalSelection(s.tables.discovered, key);
    GoneKeepsReplica(s, m, key);
  }

  /**
   Among canonical addresses, unpairing keeps the replica exactly if the path
   it was given leads to the entry at the address it was given, or to none.
   */
  lemma ForgottenStep(s: CacheState, m: ManagerState, path: string, address: string)
    requires InStep(s, m) && CanonicalAddress(address)
    ensures var event := DeviceRemoved(EventAddress(NormalizeAddress(address)), "");
            InStep(ApplyLinux(s, Unpaired(path, address)), Handled(m, event))
            <==> FoundKey(s, path) in {None, Some(NormalizeAddress(address))}
  {
    hide Handled, Selects, FoundKey, NormalizeAddress;
    CanonicalNormalForm(address);
    CanonicalSelection(s.tables.discovered, NormalizeAddress(address));
    FoundKeyIsPresent(s, path);
    UnpairKeepsReplica(s, m, path, address);
    ForgottenKeepsInv(s, path, address);
  }

  /** Among canonical addresses, CONNECTION_CHANGED keeps the replica exactly if the cache agrees with it. */
  lemma ToldStep(s: CacheState, m: ManagerState, address: string, connected: bool)
    requires InStep(s, m) && CanonicalAddress(address)
    ensures InStep(s, Handled(m, ConnectionChanged(NormalizeAddress(address), connected)))
            <==> Truthful(s.tables.discovered, NormalizeAddress(address), connected)
  {
    hide Handled, NormalizeAddress, UpdateTables, Selects;
    var there := NormalizeAddress(address);
    CanonicalNormalForm(address);
    ConnectionTables(m, there, connected);
    UpdateIsIdle(s.tables, AtAddressOrId(there), SetConnected(connected));
    SelectedByAddressOrId(s.tables.discovered, there);
  }

  lemma SelectedByAddressOrId(t: Table, address: string)
    requires AllCanonical(t) && Canonical(address) && IsNormal(address)
    ensures forall k :: k in t.entries ==> (Selects(AtAddressOrId(address), k, t.entries[k])
                                            <==> k == address || t.entries[k].deviceId == address)
  {
    hide AddressesMatch;
    CanonicalSelection(t, address);
  }

  lemma ForgottenKeepsInv(s: CacheState, path: string, address: string)
    requires Inv(s) && AllCanonical(s.tables.discovered)
    ensures Inv(ApplyLinux(s, Unpaired(path, address)))
    ensures AllCanonical(ApplyLinux(s, Unpaired(path, address)).tables.discovered)
  {
    hide Inv, FoundKey;
    FoundKeyIsPresent(s, path);
    var key := FoundKey(s, path);
    var normalized := NormalizeAddress(address);
    if key.Some? {
      RemoveKeepsInv(s, key.value, s.tables.discovered.entries[key.value].address);
    } else {
      RemoveKeepsInv(s, normalized, normalized);
    }
  }

  /** On canonical addresses a step keeps the tables equal exactly if it is repeatable. */
  lemma StepKeepsReplica(s: CacheState, m: ManagerState, step: EmittedStep)
    requires InStep(s, m) && CanonicalStep(step)
    ensures var (next, event) := CacheStep(s, step);
            InStep(next, Received(m, event)) <==> Repeatable(s, step)
  {
    hide Upserted, Handled, Stored, Removed, InStep, ApplyLinux, FoundKey, Truthful, CanonicalAddress;
    match step
    case Found(p, merged) => FoundStep(s, m, p);
    case Gone(path) =>
      var key := FoundKey(s, path);
      if key.Some? {
        FoundKeyIsPresent(s, path);
        GoneStep(s, m, key.value);
      }
    case Forgotten(path, address) => ForgottenStep(s, m, path, address);
    case Told(address, connected) => ToldStep(s, m, address, connected);
  }

  /** From equal tables, any run of repeatable steps ends in equal tables. */
  lemma {:induction false} EmittedRunKeepsReplica(s: CacheState, m: ManagerState, steps: seq<EmittedStep>)
    requires InStep(s, m) && AllRepeatable(s, steps)
    ensures InStep(BothAfter(s, m, steps).0, BothAfter(s, m, steps).1)
    decreases |steps|
  {
    hide Handled, InStep, CacheStep, Repeatable, CanonicalStep;
    if steps != [] {
      var (next, event) := CacheStep(s, steps[0]);
      StepKeepsReplica(s, m, steps[0]);
      EmittedRunKeepsReplica(next, Received(m, event), steps[1..]);
    }
  }

  lemma FoundKeyIsPresent(s: CacheState, path: string)
    ensures FoundKey(s, path).Some? ==> FoundKey(s, path).value in s.tables.discovered.entries
  {
  }

  // ----- where unpairing breaks the replica -----

  /** An address that an entry holds now, with an id, resolves to that entry: unpairing by it keeps the replica. */
  lemma HeldAddressIsSafe(s: CacheState, address: string)
    requires LinuxInv(s) && NormalizeAddress(address) in s.tables.discovered.entries
    requires var e := s.tables.discovered.entries[NormalizeAddress(address)];
             IsValidAddress(e.address) && e.deviceId != ""
    ensures FoundKey(s, ResolvedId(s, address)) == Some(NormalizeAddress(address))
  {
    hide FoundKey, ResolvedId, IsValidAddress;
    var key := NormalizeAddress(address);
    var e := s.tables.discovered.entries[key];
    EntryAddressIsKey(s, key);
    LookupsAreExact(s, key, address);
    FindExact(s, e.deviceId, key);
  }

  lemma EntryAddressIsKey(s: CacheState, key: string)
    requires LinuxInv(s) && key in s.tables.discovered.entries
    requires IsValidAddress(s.tables.discovered.entries[key].address)
    ensures s.tables.discovered.entries[key].address == key
  {
    var e := s.tables.discovered.entries[key];
    assert Prepared(e) == e;
    assert DeviceKey(e) == key;
  }

  /**
   The address index keeps a former address. If one object path is seen at one
   address and then at another, and the device is unpaired by the first, the
   cache forgets the device while the manager keeps it at the second.
   */
  lemma UnpairByFormerAddress(first: DeviceInfo, second: DeviceInfo)
    requires CanonicalRecord(first) && CanonicalRecord(second)
    requires first.deviceId == second.deviceId != ""
    requires NormalizeAddress(first.address) != NormalizeAddress(second.address)
    ensures var s := Upserted(Upserted(EMPTY_CACHE, first), second);
            var m := Handled(Handled(FRESH_MANAGER, DeviceFound(first)), DeviceFound(second));
            var event := DeviceRemoved(EventAddress(NormalizeAddress(first.address)), "");
            && InStep(s, m)
            && ResolvedId(s, first.address) == first.deviceId
            && ApplyLinux(s, Unpaired(first.deviceId, first.address)).tables.discovered.entries == map[]
            && NormalizeAddress(second.address) in Handled(m, event).tables.discovered.entries
  {
    hide Upserted, Handled, InStep, ApplyLinux, FoundKey, ResolvedId, NormalizeAddress, CanonicalAddress;
    var s1 := Upserted(EMPTY_CACHE, first);
    var s := Upserted(s1, second);
    var a, b := NormalizeAddress(first.address), NormalizeAddress(second.address);
    var m1 := Handled(FRESH_MANAGER, DeviceFound(first));
    var m := Handled(m1, DeviceFound(second));
    NothingInStep();
    FoundStep(EMPTY_CACHE, FRESH_MANAGER, first);
    FoundStep(s1, m1, second);
    FirstCanonical(first);
    MovedToSecond(s1, a, second);
    FormerAddressResolves(s, first.address, first.deviceId);
    ForgetOnly(s, m, first.deviceId, first.address, b);
    NothingForgottenAt(s, m, first.address, b);
  }

  lemma NothingInStep()
    ensures InStep(EMPTY_CACHE, FRESH_MANAGER)
  {
  }

  lemma FirstCanonical(p: DeviceInfo)
    requires CanonicalRecord(p) && p.deviceId != ""
    ensures var s := Upserted(EMPTY_CACHE, p);
            var a := NormalizeAddress(p.address);
            && s.tables.discovered.entries.Keys == {a} && s.tables.discovered.entries[a].deviceId == p.deviceId
            && a in s.addressToId && s.addressToId[a] == p.deviceId
  {
    hide UpsertTables, Stored;
    CanonicalRecordKey(p);
    UpsertEntries(NO_DEVICES, p);
    StoredFields(EMPTY, p);
    StoredId(EMPTY, p);
    NormalizeIdempotent(p.address);
  }

  /** A single entry moves to a new address when its id is seen there; the old address stays indexed. */
  lemma MovedToSecond(s: CacheState, a: string, p: DeviceInfo)
    requires CanonicalRecord(p) && p.deviceId != "" && a != NormalizeAddress(p.address)
    requires s.tables.discovered.entries.Keys == {a} && s.tables.discovered.entries[a].deviceId == p.deviceId
    requires a in s.addressToId && s.addressToId[a] == p.deviceId
    ensures var after := Upserted(s, p);
            var b := NormalizeAddress(p.address);
            && after.tables.discovered.entries.Keys == {b}
            && after.tables.discovered.entries[b].deviceId == p.deviceId
            && a in after.addressToId && after.addressToId[a] == p.deviceId
  {
    hide UpsertTables, Stored;
    CanonicalRecordKey(p);
    UpsertEntries(s.tables, p);
    StoredFields(s.tables.discovered, p);
    StoredId(s.tables.discovered, p);
    assert Selects(StaleFor(Prepared(p), KeyOf(p)), a, s.tables.discovered.entries[a]);
    assert a in StaleKeys(s.tables.discovered, p);
  }

  lemma FormerAddressResolves(s: CacheState, address: string, id: string)
    requires NormalizeAddress(address) in s.addressToId && s.addressToId[NormalizeAddress(address)] == id
    ensures ResolvedId(s, address) == id
  {
  }

  lemma ForgetOnly(s: CacheState, m: ManagerState, path: string, address: string, b: string)
    requires InStep(s, m) && path != ""
    requires s.tables.discovered.entries.Keys == {b} && s.tables.discovered.entries[b].deviceId == path
    ensures FoundKey(s, path) == Some(b)
    ensures ApplyLinux(s, Unpaired(path, address)).tables.discovered.entries == map[]
  {
    FindExact(s, path, b);
  }

  lemma NothingForgottenAt(s: CacheState, m: ManagerState, address: string, b: string)
    requires InStep(s, m) && CanonicalAddress(address) && NormalizeAddress(address) != b
    requires b in s.tables.discovered.entries
    ensures b in Handled(m, DeviceRemoved(EventAddress(NormalizeAddress(address)), "")).tables.discovered.entries
  {
    hide Handled, Selects;
    CanonicalNormalForm(address);
    CanonicalSelection(s.tables.discovered, NormalizeAddress(address));
    RemovalTables(m, NormalizeAddress(address), "");
  }
}
