/**
 The backend's device cache: the two device tables, an index from addresses to
 device ids and an index from device ids to table keys. Every method body is one
 locked section of the source.
 */
module DeviceCaches {
  import opened Text
  import opened Addresses
  import opened DeviceRecords
  import opened OrderedTables
  import opened DeviceTables

  datatype CacheState = CacheState(tables: Tables, addressToId: map<string, string>, idToKey: map<string, string>)

  const EMPTY_CACHE: CacheState := CacheState(NO_DEVICES, map[], map[])

  // ----- what the operations do -----

  function IdsOf(t: Table, keys: seq<string>): set<string>
    requires forall k :: k in keys ==> k in t.entries
  {
    (set k | k in keys :: t.entries[k].deviceId) - {""}
  }

  function Upserted(s: CacheState, p: DeviceInfo): CacheState {
    var t := s.tables.discovered;
    var m := Stored(t, p);
    var ids := s.idToKey - IdsOf(t, StaleKeys(t, p));
    CacheState(UpsertTables(s.tables, p),
               if IsValidAddress(m.address) then s.addressToId[m.address := m.deviceId] else s.addressToId,
               if m.deviceId != "" then ids[m.deviceId := KeyOf(p)] else ids)
  }

  function Removed(s: CacheState, key: string, address: string): CacheState {
    CacheState(EraseBoth(s.tables, {key}),
               if IsValidAddress(address) then s.addressToId - {NormalizeAddress(address)} else s.addressToId,
               if key in s.tables.discovered.entries
               then s.idToKey - IdsOf(s.tables.discovered, [key]) else s.idToKey)
  }

  function ConnectionUpdated(s: CacheState, address: string, connected: bool): CacheState {
    var normalized := NormalizeAddress(address);
    s.(tables := UpdateTables(s.tables, AtAddress(normalized), SetEndpoint(connected, normalized)))
  }

  /** The key `find_by_device_id` settles on: the index first, then a scan. */
  function FoundKey(s: CacheState, deviceId: string): Option<string> {
    if deviceId in s.idToKey && s.idToKey[deviceId] in s.tables.discovered.entries
    then Some(s.idToKey[deviceId])
    else First(HasId(deviceId), s.tables.discovered)
  }

  function ResolvedId(s: CacheState, address: string): string {
    var normalized := NormalizeAddress(address);
    if normalized in s.addressToId then s.addressToId[normalized]
    else
      var key := First(Resolves(normalized), s.tables.discovered);
      if key.Some? then s.tables.discovered.entries[key.value].deviceId else ""
  }

  function LookedUp(s: CacheState, address: string): Option<DeviceInfo> {
    var normalized := NormalizeAddress(address);
    var entries := s.tables.discovered.entries;
    if normalized in entries then Some(entries[normalized])
    else
      var key := First(AddressMatches(normalized), s.tables.discovered);
      if key.Some? then Some(entries[key.value]) else None
  }

  // ----- invariants -----

  /** The id index points every id that an entry holds at that entry; it may hold former ids too. */
  ghost predicate IdsIndexed(s: CacheState) {
    && "" !in s.idToKey
    && forall k :: k in s.tables.discovered.entries ==>
         var id := s.tables.discovered.entries[k].deviceId;
         id != "" ==> id in s.idToKey && s.idToKey[id] == k
  }

  /** Holds in every state that upserts, removals and connection updates can reach. */
  ghost predicate Inv(s: CacheState) {
    Consistent(s.tables) && IdsIndexed(s)
  }

  /** Every entry with a valid address has its id in the address index. */
  ghost predicate AddressesIndexed(s: CacheState) {
    forall k :: k in s.tables.discovered.entries ==>
                  var e := s.tables.discovered.entries[k];
                  IsValidAddress(e.address) ==> e.address in s.addressToId && s.addressToId[e.address] == e.deviceId
  }

  ghost predicate IndexedAt(s: CacheState, k: string)
    requires k in s.tables.discovered.entries
  {
    var id := s.tables.discovered.entries[k].deviceId;
    id != "" ==> id in s.idToKey && s.idToKey[id] == k
  }

  lemma SurvivorStaysIndexed(s: CacheState, p: DeviceInfo, k: string)
    requires UniqueIds(s.tables.discovered) && k in s.tables.discovered.entries && IndexedAt(s, k)
    requires k != KeyOf(p) && k !in StaleKeys(s.tables.discovered, p)
    ensures k in Upserted(s, p).tables.discovered.entries && IndexedAt(Upserted(s, p), k)
  {
    var t := s.tables.discovered;
    UpsertEntries(s.tables, p);
    if Stored(t, p).deviceId != "" && t.entries[k].deviceId != "" {
      StoredIdIsFree(t, p, k);
    }
    assert t.entries[k].deviceId != "" ==> t.entries[k].deviceId !in IdsOf(t, StaleKeys(t, p));
  }

  lemma StoredIsIndexed(s: CacheState, p: DeviceInfo)
    ensures KeyOf(p) in Upserted(s, p).tables.discovered.entries && IndexedAt(Upserted(s, p), KeyOf(p))
    ensures "" !in s.idToKey ==> "" !in Upserted(s, p).idToKey
  {
    UpsertEntries(s.tables, p);
  }

  lemma UpsertKeepsIndex(s: CacheState, p: DeviceInfo)
    requires UniqueIds(s.tables.discovered) && IdsIndexed(s)
    ensures IdsIndexed(Upserted(s, p))
  {
    StoredIsIndexed(s, p);
    forall k | k in Upserted(s, p).tables.discovered.entries ensures IndexedAt(Upserted(s, p), k) {
      if k != KeyOf(p) {
        UpsertEntries(s.tables, p);
        SurvivorStaysIndexed(s, p, k);
      }
    }
  }

  lemma UpsertKeepsInv(s: CacheState, p: DeviceInfo)
    requires Inv(s)
    ensures Inv(Upserted(s, p))
  {
    UpsertKeepsConsistent(s.tables, p);
    UpsertKeepsIndex(s, p);
  }

  lemma RemoveKeepsInv(s: CacheState, key: string, address: string)
    requires Inv(s)
    ensures Inv(Removed(s, key, address))
  {
    EraseKeepsConsistent(s.tables, {key});
  }

  lemma ConnectionKeepsInv(s: CacheState, address: string, connected: bool)
    requires Inv(s)
    ensures Inv(ConnectionUpdated(s, address, connected))
  {
    NormalizeIdempotent(address);
    var normalized := NormalizeAddress(address);
    UpdateKeepsConsistent(s.tables, AtAddress(normalized), SetEndpoint(connected, normalized));
    ConnectionKeepsIndex(s, address, connected);
  }

  lemma ConnectionKeepsIndex(s: CacheState, address: string, connected: bool)
    requires IdsIndexed(s)
    ensures IdsIndexed(ConnectionUpdated(s, address, connected))
  {
    hide Selected;
    var after := ConnectionUpdated(s, address, connected);
    forall k | k in after.tables.discovered.entries ensures IndexedAt(after, k) {
      assert IndexedAt(s, k);
    }
  }

  // ----- every run -----

  datatype CacheOp =
    | OpUpsert(info: DeviceInfo)
    | OpRemove(key: string, address: string)
    | OpConnection(of: string, connected: bool)

  function Apply(s: CacheState, op: CacheOp): CacheState {
    match op
    case OpUpsert(info) => Upserted(s, info)
    case OpRemove(key, address) => Removed(s, key, address)
    case OpConnection(address, connected) => ConnectionUpdated(s, address, connected)
  }

  function Run(s: CacheState, ops: seq<CacheOp>): CacheState
    decreases |ops|
  {
    if ops == [] then s else Run(Apply(s, ops[0]), ops[1..])
  }

  lemma ApplyKeepsInv(s: CacheState, op: CacheOp)
    requires Inv(s)
    ensures Inv(Apply(s, op))
  {
    match op
    case OpUpsert(info) => UpsertKeepsInv(s, info);
    case OpRemove(key, address) => RemoveKeepsInv(s, key, address);
    case OpConnection(address, connected) => ConnectionKeepsInv(s, address, connected);
  }

  /** The joint invariant holds after any sequence of operations. */
  lemma {:induction false} RunKeepsInv(s: CacheState, ops: seq<CacheOp>)
    requires Inv(s)
    ensures Inv(Run(s, ops))
    decreases |ops|
  {
    if ops != [] {
      ApplyKeepsInv(s, ops[0]);
      RunKeepsInv(Apply(s, ops[0]), ops[1..]);
    }
  }

  /**
   In every reachable state a held id finds exactly the entry that holds it,
   which is what a full scan finds; an id that no entry holds is found exactly
   if the index still points it at an entry, and never by the scan.
   */
  lemma FindByIdIsExact(ops: seq<CacheOp>, deviceId: string, key: string)
    requires deviceId != ""
    ensures var s := Run(EMPTY_CACHE, ops);
            var entries := s.tables.discovered.entries;
            && (key in entries && entries[key].deviceId == deviceId ==>
                  FoundKey(s, deviceId) == Some(key) == First(HasId(deviceId), s.tables.discovered))
            && ((forall k :: k in entries ==> entries[k].deviceId != deviceId) ==>
                  First(HasId(deviceId), s.tables.discovered) == None
                  && (FoundKey(s, deviceId).Some? <==> deviceId in s.idToKey && s.idToKey[deviceId] in entries))
  {
    var s := Run(EMPTY_CACHE, ops);
    RunKeepsInv(EMPTY_CACHE, ops);
    FindExact(s, deviceId, key);
  }

  lemma FindExact(s: CacheState, deviceId: string, key: string)
    requires Inv(s) && deviceId != ""
    ensures key in s.tables.discovered.entries && s.tables.discovered.entries[key].deviceId == deviceId ==>
              FoundKey(s, deviceId) == Some(key) == First(HasId(deviceId), s.tables.discovered)
    ensures (forall k :: k in s.tables.discovered.entries ==> s.tables.discovered.entries[k].deviceId != deviceId) ==>
              First(HasId(deviceId), s.tables.discovered) == None
              && (FoundKey(s, deviceId).Some?
                  <==> deviceId in s.idToKey && s.idToKey[deviceId] in s.tables.discovered.entries)
  {
    if key in s.tables.discovered.entries && s.tables.discovered.entries[key].deviceId == deviceId {
      assert IndexedAt(s, key);
      FirstIsUnique(HasId(deviceId), s.tables.discovered, key);
    }
  }

  /** The index keeps former ids: a device seen again under another id is still found by the first one. */
  lemma FormerIdStillFinds(first: DeviceInfo, second: DeviceInfo)
    requires IsValidAddress(first.address) && second.address == first.address
    requires first.deviceId != "" && second.deviceId != "" && first.deviceId != second.deviceId
    ensures var s := Upserted(Upserted(EMPTY_CACHE, first), second);
            var key := NormalizeAddress(first.address);
            && key in s.tables.discovered.entries && s.tables.discovered.entries[key].deviceId == second.deviceId
            && FoundKey(s, first.deviceId) == Some(key)
  {
    hide Upserted, FoundKey;
    FirstDevice(first);
    SecondId(Upserted(EMPTY_CACHE, first), first.deviceId, second);
  }

  lemma FirstDevice(p: DeviceInfo)
    requires IsValidAddress(p.address) && p.deviceId != ""
    ensures var s := Upserted(EMPTY_CACHE, p);
            var key := NormalizeAddress(p.address);
            s.tables.discovered.entries.Keys == {key} && p.deviceId in s.idToKey && s.idToKey[p.deviceId] == key
  {
    hide Stored, UpsertTables;
    KeyOfIsDeviceKey(p);
    UpsertEntries(NO_DEVICES, p);
    StoredId(EMPTY, p);
  }

  lemma SecondId(s: CacheState, former: string, p: DeviceInfo)
    requires var key := NormalizeAddress(p.address);
             && s.tables.discovered.entries.Keys == {key}
             && former in s.idToKey && s.idToKey[former] == key
    requires IsValidAddress(p.address) && p.deviceId != "" && p.deviceId != former
    ensures var key := NormalizeAddress(p.address);
            var after := Upserted(s, p);
            && key in after.tables.discovered.entries && after.tables.discovered.entries[key].deviceId == p.deviceId
            && FoundKey(after, former) == Some(key)
  {
    hide Stored, UpsertTables, AddressesMatch;
    var t := s.tables.discovered;
    KeyOfIsDeviceKey(p);
    UpsertEntries(s.tables, p);
    StoredId(t, p);
    NothingSelected(StaleFor(Prepared(p), KeyOf(p)), t, |t.order|);
    assert IdsOf(t, []) == {};
  }

  /** Storing what has just been stored leaves all four tables unchanged, in every reachable state. */
  lemma UpsertStoredAgain(ops: seq<CacheOp>, p: DeviceInfo)
    ensures var s := Run(EMPTY_CACHE, ops);
            Upserted(Upserted(s, p), Stored(s.tables.discovered, p)) == Upserted(s, p)
  {
    RunKeepsInv(EMPTY_CACHE, ops);
    StoredAgain(Run(EMPTY_CACHE, ops), p);
  }

  lemma StoredAgain(s: CacheState, p: DeviceInfo)
    requires Consistent(s.tables)
    ensures Upserted(Upserted(s, p), Stored(s.tables.discovered, p)) == Upserted(s, p)
  {
    var m := Stored(s.tables.discovered, p);
    UpsertAgain(s.tables, p);
    StoredKey(s.tables.discovered, p);
    IndexesAgain(Upserted(s, p), m, KeyOf(p));
  }

  lemma IndexesAgain(s: CacheState, m: DeviceInfo, key: string)
    requires UpsertTables(s.tables, m) == s.tables && KeyOf(m) == key
    requires StaleKeys(s.tables.discovered, m) == [] && Stored(s.tables.discovered, m) == m
    requires m.deviceId != "" ==> m.deviceId in s.idToKey && s.idToKey[m.deviceId] == key
    requires IsValidAddress(m.address) ==> m.address in s.addressToId && s.addressToId[m.address] == m.deviceId
    ensures Upserted(s, m) == s
  {
    hide UpsertTables;
    assert IdsOf(s.tables.discovered, []) == {};
    assert s.idToKey - {} == s.idToKey;
  }

  // ----- conservation over runs -----

  function HeirAfter(s: CacheState, ops: seq<CacheOp>, key: string): string
    decreases |ops|
  {
    if ops == [] then key
    else
      var next := if ops[0].OpUpsert? then Heir(s.tables.discovered, ops[0].info, key) else key;
      HeirAfter(Apply(s, ops[0]), ops[1..], next)
  }

  ghost predicate Kept(info: DeviceInfo, heir: DeviceInfo) {
    && (info.paired ==> heir.paired)
    && (KnownClass(info) ==> KnownClass(heir))
    && (info.deviceId != "" ==> heir.deviceId != "")
  }

  lemma MutationKeeps(t: Table, keys: seq<string>, mutation: Mutation, key: string)
    requires key in t.entries
    ensures key in MutateKeys(t, keys, mutation).entries
    ensures Kept(t.entries[key], MutateKeys(t, keys, mutation).entries[key])
  {
  }

  /** No removal of the run names the entry that has the data of `key` by then. */
  predicate HeirStays(s: CacheState, ops: seq<CacheOp>, key: string)
    decreases |ops|
  {
    ops == []
    || (var next := if ops[0].OpUpsert? then Heir(s.tables.discovered, ops[0].info, key) else key;
        (ops[0].OpRemove? ==> ops[0].key != key) && HeirStays(Apply(s, ops[0]), ops[1..], next))
  }

  /** Over any run, what an entry knew is still known by the entry that took it in, unless that is removed. */
  lemma {:induction false} RunConserves(s: CacheState, ops: seq<CacheOp>, key: string)
    requires key in s.tables.discovered.entries && HeirStays(s, ops, key)
    ensures var after := Run(s, ops).tables.discovered.entries;
            var heir := HeirAfter(s, ops, key);
            heir in after && Kept(s.tables.discovered.entries[key], after[heir])
    decreases |ops|
  {
    hide Apply, Heir;
    if ops != [] {
      var next := if ops[0].OpUpsert? then Heir(s.tables.discovered, ops[0].info, key) else key;
      StepConserves(s, ops[0], key);
      RunConserves(Apply(s, ops[0]), ops[1..], next);
    }
  }

  lemma StepConserves(s: CacheState, op: CacheOp, key: string)
    requires key in s.tables.discovered.entries && (op.OpRemove? ==> op.key != key)
    ensures var after := Apply(s, op).tables.discovered.entries;
            var next := if op.OpUpsert? then Heir(s.tables.discovered, op.info, key) else key;
            next in after && Kept(s.tables.discovered.entries[key], after[next])
  {
    hide UpsertTables, Stored, StaleKeys;
    match op
    case OpUpsert(info) => UpsertConserves(s.tables, info, key);
    case OpRemove(_, _) =>
    case OpConnection(address, connected) =>
      var normalized := NormalizeAddress(address);
      MutationKeeps(s.tables.discovered, Selected(AtAddress(normalized), s.tables.discovered),
                    SetEndpoint(connected, normalized), key);
  }

  // ----- the runs of the Linux backend -----

  /** How the Linux backend drives its cache; removals go through `find_by_device_id`. */
  datatype LinuxOp =
    | DeviceSeen(info: DeviceInfo)
    | InterfacesRemoved(path: string)
    | Unpaired(path: string, address: string)

  function ApplyLinux(s: CacheState, op: LinuxOp): CacheState {
    match op
    case DeviceSeen(info) => Upserted(s, info)
    case InterfacesRemoved(path) =>
      var key := FoundKey(s, path);
      if key.Some? then Removed(s, key.value, s.tables.discovered.entries[key.value].address) else s
    case Unpaired(path, address) =>
      var key := FoundKey(s, path);
      var normalized := NormalizeAddress(address);
      if key.Some? then Removed(s, key.value, s.tables.discovered.entries[key.value].address)
      else Removed(s, normalized, normalized)
  }

  /** On Linux, the spelling of an address that removal and pairing events carry. */
  function EventAddress(address: string): string {
    if IsValidAddress(address) then NormalizeAddress(address) else address
  }

  /** Events name an address in normal form, however it was written, and other text as it is. */
  lemma EventAddressIsNormal(address: string, a: string)
    ensures Canonical(a) && IsNormal(a) && Spells(address, a) ==> EventAddress(address) == a
    ensures !IsValidAddress(address) ==> EventAddress(address) == address
  {
    if Canonical(a) && IsNormal(a) && Spells(address, a) {
      SpellingsAreTheAddress(address, a);
    }
  }

  function RunLinux(s: CacheState, ops: seq<LinuxOp>): CacheState
    decreases |ops|
  {
    if ops == [] then s else RunLinux(ApplyLinux(s, ops[0]), ops[1..])
  }

  /** What also holds as long as no connection update rewrites addresses in place. */
  ghost predicate LinuxInv(s: CacheState) {
    Inv(s) && Coherent(s.tables.discovered) && AddressesIndexed(s)
  }

  lemma SeenKeepsAddresses(s: CacheState, p: DeviceInfo)
    requires NormalAddresses(s.tables.discovered) && Coherent(s.tables.discovered) && AddressesIndexed(s)
    ensures AddressesIndexed(Upserted(s, p))
  {
    hide Stored, UpsertTables, IsValidAddress, NormalizeAddress;
    UpsertEntries(s.tables, p);
    StoredFields(s.tables.discovered, p);
    KeyOfIsDeviceKey(p);
  }

  lemma RemovalKeepsAddresses(s: CacheState, key: string, address: string)
    requires NormalAddresses(s.tables.discovered) && Coherent(s.tables.discovered) && AddressesIndexed(s)
    requires var entries := s.tables.discovered.entries;
             key == address || (key in entries && entries[key].address == address)
    requires key == address ==> NormalizeAddress(address) == address
    ensures AddressesIndexed(Removed(s, key, address))
  {
  }

  lemma LinuxKeepsInv(s: CacheState, op: LinuxOp)
    requires LinuxInv(s)
    ensures LinuxInv(ApplyLinux(s, op))
  {
    match op
    case DeviceSeen(info) =>
      UpsertKeepsInv(s, info);
      UpsertKeepsCoherent(s.tables, info);
      SeenKeepsAddresses(s, info);
    case InterfacesRemoved(path) =>
      var key := FoundKey(s, path);
      if key.Some? {
        FoundRemovalKeepsInv(s, key.value);
      }
    case Unpaired(path, address) =>
      var key := FoundKey(s, path);
      if key.Some? {
        FoundRemovalKeepsInv(s, key.value);
      } else {
        var normalized := NormalizeAddress(address);
        NormalizeIdempotent(address);
        RemoveKeepsInv(s, normalized, normalized);
        EraseKeepsConsistent(s.tables, {normalized});
        RemovalKeepsAddresses(s, normalized, normalized);
      }
  }

  lemma FoundRemovalKeepsInv(s: CacheState, key: string)
    requires LinuxInv(s) && key in s.tables.discovered.entries
    ensures LinuxInv(Removed(s, key, s.tables.discovered.entries[key].address))
  {
    var address := s.tables.discovered.entries[key].address;
    RemoveKeepsInv(s, key, address);
    EraseKeepsConsistent(s.tables, {key});
    if key == address && NormalizeAddress(address) != address {
      NormalizeIdempotent(address);
      InvalidRemovalKeepsAddresses(s, key, address);
    } else {
      RemovalKeepsAddresses(s, key, address);
    }
  }

  lemma InvalidRemovalKeepsAddresses(s: CacheState, key: string, address: string)
    requires !IsValidAddress(address) && AddressesIndexed(s)
    ensures AddressesIndexed(Removed(s, key, address))
  {
  }

  lemma {:induction false} RunLinuxKeepsInv(s: CacheState, ops: seq<LinuxOp>)
    requires LinuxInv(s)
    ensures LinuxInv(RunLinux(s, ops))
    decreases |ops|
  {
    if ops != [] {
      LinuxKeepsInv(s, ops[0]);
      RunLinuxKeepsInv(ApplyLinux(s, ops[0]), ops[1..]);
    }
  }

  /**
   Along every Linux run each entry sits under the key of its merged record,
   and any spelling of an entry's valid address resolves to that entry's id and
   looks that entry up.
   */
  lemma LinuxLookupsAreExact(ops: seq<LinuxOp>, key: string, address: string)
    requires key in RunLinux(EMPTY_CACHE, ops).tables.discovered.entries
    ensures var s := RunLinux(EMPTY_CACHE, ops);
            var entry := s.tables.discovered.entries[key];
            && DeviceKey(entry) == key
            && (IsValidAddress(entry.address) && NormalizeAddress(address) == entry.address ==>
                  ResolvedId(s, address) == entry.deviceId && LookedUp(s, address) == Some(entry))
  {
    RunLinuxKeepsInv(EMPTY_CACHE, ops);
    LookupsAreExact(RunLinux(EMPTY_CACHE, ops), key, address);
  }

  lemma LookupsAreExact(s: CacheState, key: string, address: string)
    requires LinuxInv(s) && key in s.tables.discovered.entries
    ensures var entry := s.tables.discovered.entries[key];
            && DeviceKey(entry) == key
            && (IsValidAddress(entry.address) && NormalizeAddress(address) == entry.address ==>
                  ResolvedId(s, address) == entry.deviceId && LookedUp(s, address) == Some(entry))
  {
    var entry := s.tables.discovered.entries[key];
    assert Prepared(entry) == entry;
  }

  /** Every way to write a canonical address leads to the entry there. */
  lemma SpellingsFindTheEntry(ops: seq<LinuxOp>, key: string, spelling: string)
    requires key in RunLinux(EMPTY_CACHE, ops).tables.discovered.entries
    requires RunLinux(EMPTY_CACHE, ops).tables.discovered.entries[key].address == key
    requires Canonical(key) && IsNormal(key) && Spells(spelling, key)
    ensures var s := RunLinux(EMPTY_CACHE, ops);
            var entry := s.tables.discovered.entries[key];
            ResolvedId(s, spelling) == entry.deviceId && LookedUp(s, spelling) == Some(entry)
  {
    hide ResolvedId, LookedUp, RunLinux, Spells, NormalizeAddress, IsValidAddress;
    CanonicalNormalIsValid(key);
    NormalFormOfSpellings(spelling, key);
    LinuxLookupsAreExact(ops, key, spelling);
  }

  /** An address that is no key is looked up as the first entry in order whose address matches, or not at all. */
  lemma LookedUpByAddress(s: CacheState, address: string, i: nat)
    requires var t := s.tables.discovered;
             var n := NormalizeAddress(address);
             && n !in t.entries && i <= |t.order|
             && (forall j :: 0 <= j < i ==>
                   t.order[j] in t.entries && !AddressesMatch(t.entries[t.order[j]].address, n))
             && (i < |t.order| ==> t.order[i] in t.entries && AddressesMatch(t.entries[t.order[i]].address, n))
    ensures var t := s.tables.discovered;
            LookedUp(s, address) == if i < |t.order| then Some(t.entries[t.order[i]]) else None
  {
    hide NormalizeAddress, AddressesMatch, First;
    FirstOrNone(AddressMatches(NormalizeAddress(address)), s.tables.discovered, i);
  }

  /**
   An address that is not indexed resolves to the id of the first entry in order
   whose key or id it is or whose address matches, or to nothing.
   */
  lemma ResolvedByScan(s: CacheState, address: string, i: nat)
    requires var t := s.tables.discovered;
             var n := NormalizeAddress(address);
             && n !in s.addressToId && i <= |t.order|
             && (forall j :: 0 <= j < i ==>
                   t.order[j] in t.entries && t.order[j] != n && !AddressesMatch(t.entries[t.order[j]].address, n)
                   && t.entries[t.order[j]].deviceId != n)
             && (i < |t.order| ==>
                   t.order[i] in t.entries
                   && (t.order[i] == n || AddressesMatch(t.entries[t.order[i]].address, n)
                       || t.entries[t.order[i]].deviceId == n))
    ensures var t := s.tables.discovered;
            ResolvedId(s, address) == if i < |t.order| then t.entries[t.order[i]].deviceId else ""
  {
    hide NormalizeAddress, AddressesMatch, First;
    FirstOrNone(Resolves(NormalizeAddress(address)), s.tables.discovered, i);
  }

  /**
   What is removed is forgotten: an entry at a valid address, once removed, is
   neither looked up nor found by its id, and its address resolves only if some
   other entry matches or has it as its id. What is asked of other entries is
   answered as before.
   */
  lemma RemovedIsForgotten(s: CacheState, key: string, other: string)
    requires LinuxInv(s) && key in s.tables.discovered.entries && other in s.tables.discovered.entries && other != key
    requires IsValidAddress(s.tables.discovered.entries[key].address)
    ensures var e, f := s.tables.discovered.entries[key], s.tables.discovered.entries[other];
            var after := Removed(s, key, e.address);
            && after.tables.discovered.entries == s.tables.discovered.entries - {key}
            && (e.deviceId != "" ==> FoundKey(after, e.deviceId) == None)
            && (LookedUp(after, e.address).Some? || ResolvedId(after, e.address) != "" ==>
                  exists k :: k in after.tables.discovered.entries
                              && (AddressesMatch(after.tables.discovered.entries[k].address, e.address)
                                  || after.tables.discovered.entries[k].deviceId == e.address))
            && (f.deviceId != "" ==> FoundKey(after, f.deviceId) == Some(other))
            && (IsValidAddress(f.address) ==>
                  ResolvedId(after, f.address) == f.deviceId && LookedUp(after, f.address) == Some(f))
  {
    hide IsValidAddress, AddressesMatch, LinuxInv, First;
    var e, f := s.tables.discovered.entries[key], s.tables.discovered.entries[other];
    var after := Removed(s, key, e.address);
    FoundRemovalKeepsInv(s, key);
    EntryAtItsAddress(s, key);
    EntryAtItsAddress(after, other);
    LookupsAreExact(after, other, f.address);
    HeldIdIsFound(after, other);
    HeldIdIsFound(s, key);
    IdGone(s, key);
  }

  /** An entry with a valid address sits under it, in normal form. */
  lemma EntryAtItsAddress(s: CacheState, key: string)
    requires LinuxInv(s) && key in s.tables.discovered.entries
    ensures var e := s.tables.discovered.entries[key];
            IsValidAddress(e.address) ==> e.address == key == NormalizeAddress(e.address)
  {
    var e := s.tables.discovered.entries[key];
    assert DeviceKey(e) == key;
    assert Prepared(e) == e;
  }

  lemma HeldIdIsFound(s: CacheState, key: string)
    requires LinuxInv(s) && key in s.tables.discovered.entries
    ensures var id := s.tables.discovered.entries[key].deviceId;
            id != "" ==> FoundKey(s, id) == Some(key) && id in s.idToKey
  {
    assert IndexedAt(s, key);
  }

  lemma IdGone(s: CacheState, key: string)
    requires LinuxInv(s) && key in s.tables.discovered.entries
    ensures var e := s.tables.discovered.entries[key];
            e.deviceId != "" ==> FoundKey(Removed(s, key, e.address), e.deviceId) == None
  {
    hide AddressesMatch, IsValidAddress, NormalizeAddress, Coherent, AddressesIndexed, KeysFitIds, NormalAddresses;
    hide PairedIsFilter;
    var e := s.tables.discovered.entries[key];
    var after := Removed(s, key, e.address);
    assert e.deviceId in IdsOf(s.tables.discovered, [key]) <==> e.deviceId != "";
    assert forall k :: k in after.tables.discovered.entries ==>
                         k in s.tables.discovered.entries && k != key
                         && after.tables.discovered.entries[k] == s.tables.discovered.entries[k];
  }

  /** The key of the entry a removal forgets. */
  function Forgets(s: CacheState, op: LinuxOp): Option<string> {
    match op
    case DeviceSeen(_) => None
    case InterfacesRemoved(path) => FoundKey(s, path)
    case Unpaired(path, address) => Some(GetOr(FoundKey(s, path), NormalizeAddress(address)))
  }

  /**
   No step of the run absorbs the entry at `key` into another one or forgets it,
   and a record that is stored there has a valid address.
   */
  predicate StaysPut(s: CacheState, ops: seq<LinuxOp>, key: string)
    decreases |ops|
  {
    ops == []
    || (&& (ops[0].DeviceSeen? ==>
              key !in StaleKeys(s.tables.discovered, ops[0].info)
              && (KeyOf(ops[0].info) == key ==> IsValidAddress(ops[0].info.address)))
        && Forgets(s, ops[0]) != Some(key)
        && StaysPut(ApplyLinux(s, ops[0]), ops[1..], key))
  }

  /** A helpful name at a valid address survives any run that leaves its entry where it is. */
  lemma {:induction false} HelpfulNameSurvives(s: CacheState, ops: seq<LinuxOp>, key: string)
    requires LinuxInv(s) && key in s.tables.discovered.entries && StaysPut(s, ops, key)
    requires var e := s.tables.discovered.entries[key]; IsValidAddress(e.address) && HelpfulName(e)
    ensures var after := RunLinux(s, ops).tables.discovered.entries;
            key in after && after[key].address == s.tables.discovered.entries[key].address && HelpfulName(after[key])
    decreases |ops|
  {
    hide LinuxInv, HelpfulName, Upserted, Removed, IsValidAddress, FoundKey;
    if ops != [] {
      LinuxKeepsInv(s, ops[0]);
      match ops[0] {
        case DeviceSeen(info) => HelpfulNameStep(s, info, key);
        case _ => OtherForgotten(s, ops[0], key);
      }
      HelpfulNameSurvives(ApplyLinux(s, ops[0]), ops[1..], key);
    }
  }

  lemma OtherForgotten(s: CacheState, op: LinuxOp, key: string)
    requires !op.DeviceSeen? && key in s.tables.discovered.entries && Forgets(s, op) != Some(key)
    ensures var after := ApplyLinux(s, op).tables.discovered.entries;
            key in after && after[key] == s.tables.discovered.entries[key]
  {
    hide FoundKey;
  }

  lemma HelpfulNameStep(s: CacheState, p: DeviceInfo, key: string)
    requires LinuxInv(s) && key in s.tables.discovered.entries && key !in StaleKeys(s.tables.discovered, p)
    requires var e := s.tables.discovered.entries[key]; IsValidAddress(e.address) && HelpfulName(e)
    requires KeyOf(p) == key ==> IsValidAddress(p.address)
    ensures var after := Upserted(s, p).tables.discovered.entries;
            key in after && after[key].address == s.tables.discovered.entries[key].address && HelpfulName(after[key])
  {
    hide HelpfulName;
    UpsertEntries(s.tables, p);
    if key == KeyOf(p) {
      StoredAtAddress(s, p, key);
      HelpfulNameStays(s.tables, p);
    }
  }

  lemma StoredAtAddress(s: CacheState, p: DeviceInfo, key: string)
    requires LinuxInv(s) && key in s.tables.discovered.entries && key == KeyOf(p)
    requires IsValidAddress(s.tables.discovered.entries[key].address) && IsValidAddress(p.address)
    ensures Stored(s.tables.discovered, p).address == s.tables.discovered.entries[key].address
  {
    var e := s.tables.discovered.entries[key];
    assert DeviceKey(e) == key;
    assert Prepared(e) == e;
    KeyOfIsDeviceKey(p);
    StoredFields(s.tables.discovered, p);
  }

  /**
   A connection update writes the flag, and the address if it is valid, to every
   entry whose key or address matches, and to no other; the device at that key is
   then looked up with the new flag.
   */
  lemma UpdateReadsBack(s: CacheState, address: string, connected: bool)
    requires Inv(s)
    ensures var n := NormalizeAddress(address);
            var before, after := s.tables.discovered.entries, ConnectionUpdated(s, address, connected);
            && after.tables.discovered.entries.Keys == before.Keys && PairedIsFilter(after.tables)
            && after.addressToId == s.addressToId && after.idToKey == s.idToKey
            && (forall k :: k in before ==>
                  after.tables.discovered.entries[k]
                  == if !AddressesMatch(k, n) && !AddressesMatch(before[k].address, n) then before[k]
                     else if IsValidAddress(address) then before[k].(connected := connected, address := n)
                     else before[k].(connected := connected))
            && (n in before ==> LookedUp(after, address).Some? && LookedUp(after, address).value.connected == connected)
  {
    hide AddressesMatch, IsValidAddress, SyncPaired, Inv;
    var n := NormalizeAddress(address);
    NormalizeIdempotent(address);
    ConnectionKeepsInv(s, address, connected);
    InvPaired(ConnectionUpdated(s, address, connected));
    MatchReflexive(n);
  }

  lemma InvPaired(s: CacheState)
    requires Inv(s)
    ensures PairedIsFilter(s.tables)
  {
  }

  /**
   A connection update for a valid address keeps the tables coherent exactly
   when it selects no entry under a key other than that address.
   */
  lemma ConnectionCoherence(s: CacheState, address: string, connected: bool)
    requires Coherent(s.tables.discovered)
    ensures var normalized := NormalizeAddress(address);
            var t := s.tables.discovered;
            Coherent(ConnectionUpdated(s, address, connected).tables.discovered)
            <==> (IsValidAddress(address) ==>
                    forall k :: k in t.entries && Selects(AtAddress(normalized), k, t.entries[k]) ==> k == normalized)
  {
    hide Selects, IsValidAddress;
    NormalizeIdempotent(address);
    var normalized := NormalizeAddress(address);
    var t := s.tables.discovered;
    var after := ConnectionUpdated(s, address, connected).tables.discovered;
    forall k | k in t.entries
      ensures DeviceKey(after.entries[k]) ==
              if Selects(AtAddress(normalized), k, t.entries[k]) && IsValidAddress(address) then normalized else k
    {
    }
  }

  /**
   It does break: a record with no address, stored under an id that contains an
   address, adopts that address in place on a connection update for it.
   */
  lemma ConnectionBreaksCoherence(p: DeviceInfo, a: string, connected: bool)
    requires Canonical(a) && IsNormal(a)
    requires p.address == "" && Contains(p.deviceId, a) && p.deviceId != a
    ensures var before := Run(EMPTY_CACHE, [OpUpsert(p)]);
            var after := Run(EMPTY_CACHE, [OpUpsert(p), OpConnection(a, connected)]);
            && Coherent(before.tables.discovered) && !Coherent(after.tables.discovered)
            && p.deviceId in after.tables.discovered.entries
            && after.tables.discovered.entries[p.deviceId].address == a
  {
    hide Upserted, ConnectionUpdated, Selects, Canonical, IsNormal, Contains;
    var s := Upserted(EMPTY_CACHE, p);
    RunOfTwo(EMPTY_CACHE, OpUpsert(p), OpConnection(a, connected));
    NamedDevice(p, a);
    ConnectionCoherence(s, a, connected);
    EndpointAdopted(s, p.deviceId, a, connected);
  }

  lemma RunOfTwo(s: CacheState, first: CacheOp, second: CacheOp)
    ensures Run(s, [first]) == Apply(s, first)
    ensures Run(s, [first, second]) == Apply(Apply(s, first), second)
  {
    hide Apply;
    assert [first, second][1..] == [second] && [second][1..] == [] && [first][1..] == [];
    assert Run(Apply(Apply(s, first), second), []) == Apply(Apply(s, first), second);
    assert Run(Apply(s, first), []) == Apply(s, first);
  }

  lemma NamedDevice(p: DeviceInfo, a: string)
    requires Canonical(a) && IsNormal(a) && p.address == "" && Contains(p.deviceId, a)
    ensures var s := Upserted(EMPTY_CACHE, p);
            && Coherent(s.tables.discovered) && p.deviceId in s.tables.discovered.entries
            && IsValidAddress(a) && NormalizeAddress(a) == a
            && Selects(AtAddress(a), p.deviceId, s.tables.discovered.entries[p.deviceId])
  {
    hide Stored, UpsertTables, IsValidAddress, NormalizeAddress, Contains, Coherent;
    CanonicalNormalIsValid(a);
    NormalIsFixed(a);
    EmptyIsNotValid();
    KeyOfIsDeviceKey(p);
    NothingCoherent();
    UpsertKeepsCoherent(NO_DEVICES, p);
    UpsertEntries(NO_DEVICES, p);
  }

  lemma NothingCoherent()
    ensures Coherent(EMPTY)
  {
  }

  lemma EndpointAdopted(s: CacheState, key: string, a: string, connected: bool)
    requires IsValidAddress(a) && NormalizeAddress(a) == a
    requires key in s.tables.discovered.entries && Selects(AtAddress(a), key, s.tables.discovered.entries[key])
    ensures var after := ConnectionUpdated(s, a, connected).tables.discovered.entries;
            key in after && after[key].address == a
  {
    hide Selects, IsValidAddress, NormalizeAddress;
  }

  // ----- the class -----

  lemma IdsStep(t: Table, keys: seq<string>, i: nat, index: map<string, string>)
    requires i < |keys| && forall k :: k in keys ==> k in t.entries
    ensures var id := t.entries[keys[i]].deviceId;
            index - IdsOf(t, keys[..i]) - (if id != "" then {id} else {}) == index - IdsOf(t, keys[..i + 1])
  {
    assert IdsOf(t, keys[..i + 1]) == IdsOf(t, keys[..i]) + IdsOf(t, [keys[i]]);
  }

  class DeviceCache {
    var discovered: Table
    var paired: Table
    var addressToId: map<string, string>
    var idToKey: map<string, string>

    function State(): CacheState
      reads this
    {
      CacheState(Tables(discovered, paired), addressToId, idToKey)
    }

    ghost predicate Valid()
      reads this
    {
      Inv(State())
    }

    constructor ()
      ensures Valid() && State() == EMPTY_CACHE
    {
      discovered, paired, addressToId, idToKey := EMPTY, EMPTY, map[], map[];
    }

    method Upsert(p: DeviceInfo) returns (ok: bool, isNew: bool)
      modifies this
      ensures State() == Upserted(old(State()), p)
      ensures ok && (isNew <==> KeyOf(p) !in old(discovered).entries)
      ensures old(Valid()) ==> Valid()
    {
      var info := if IsValidAddress(p.address) then p.(address := NormalizeAddress(p.address)) else p;
      var key := DeviceKey(info);
      isNew := key !in discovered.entries;
      var staleKeys := CollectKeys(StaleFor(info, key), discovered);
      info := AbsorbStale(info, staleKeys);
      if key in discovered.entries {
        info := MergeDeviceIdentity(info, discovered.entries[key]);
      }
      assert info == Stored(old(discovered), p);
      discovered := Put(discovered, key, info);
      if info.deviceId != "" {
        idToKey := idToKey[info.deviceId := key];
      }
      if IsValidAddress(info.address) {
        addressToId := addressToId[info.address := info.deviceId];
      }
      if info.paired {
        paired := Put(paired, key, info);
      } else {
        paired := Erase(paired, {key});
      }
      ok := true;
      if old(Valid()) {
        UpsertKeepsInv(old(State()), p);
      }
    }

    /** The absorption loop of `upsert`: fold each stale entry into the record and drop it. */
    method AbsorbStale(p: DeviceInfo, staleKeys: seq<string>) returns (info: DeviceInfo)
      requires Distinct(staleKeys) && forall k :: k in staleKeys ==> k in discovered.entries
      modifies this
      ensures info == MergeAll(p, Records(staleKeys, old(discovered).entries))
      ensures Tables(discovered, paired) == EraseBoth(old(State()).tables, Elements(staleKeys))
      ensures idToKey == old(idToKey) - IdsOf(old(discovered), staleKeys)
      ensures addressToId == old(addressToId)
    {
      hide IsValidAddress, NormalizeAddress;
      info := p;
      EraseAbsent(discovered, Elements(staleKeys[..0]));
      EraseAbsent(paired, Elements(staleKeys[..0]));
      for i := 0 to |staleKeys|
        invariant discovered == Erase(old(discovered), Elements(staleKeys[..i]))
        invariant paired == Erase(old(paired), Elements(staleKeys[..i]))
        invariant idToKey == old(idToKey) - IdsOf(old(discovered), staleKeys[..i])
        invariant addressToId == old(addressToId)
        invariant info == MergeAll(p, Records(staleKeys[..i], old(discovered).entries))
      {
        AbsorbStep(old(discovered), staleKeys, i, p);
        ErasePairedStep(old(paired), staleKeys, i);
        IdsStep(old(discovered), staleKeys, i, old(idToKey));
        if staleKeys[i] in discovered.entries {
          info := MergeDeviceEndpoints(info, discovered.entries[staleKeys[i]]);
        }
        RemoveLocked(staleKeys[i], "");
      }
      assert staleKeys[..|staleKeys|] == staleKeys;
    }

    method Remove(key: string, address: string)
      modifies this
      ensures State() == Removed(old(State()), key, address)
      ensures old(Valid()) ==> Valid()
    {
      RemoveLocked(key, address);
      if old(Valid()) {
        RemoveKeepsInv(old(State()), key, address);
      }
    }

    method RemoveLocked(key: string, address: string)
      modifies this
      ensures State() == Removed(old(State()), key, address)
      ensures address == "" ==> addressToId == old(addressToId)
      ensures key in old(discovered).entries ==>
                var id := old(discovered).entries[key].deviceId;
                idToKey == old(idToKey) - (if id != "" then {id} else {})
    {
      EmptyIsNotValid();
      if key in discovered.entries {
        var deviceId := discovered.entries[key].deviceId;
        assert IdsOf(discovered, [key]) == if deviceId != "" then {deviceId} else {};
        if deviceId != "" {
          idToKey := idToKey - {deviceId};
        }
      }
      discovered := Erase(discovered, {key});
      paired := Erase(paired, {key});
      if IsValidAddress(address) {
        addressToId := addressToId - {NormalizeAddress(address)};
      }
    }

    method FindByDeviceId(deviceId: string) returns (found: Option<(string, DeviceInfo)>)
      ensures found == var key := FoundKey(State(), deviceId);
                       if key.Some? then Some((key.value, discovered.entries[key.value])) else None
    {
      if deviceId in idToKey {
        var key := idToKey[deviceId];
        if key in discovered.entries {
          return Some((key, discovered.entries[key]));
        }
      }
      var first := FindFirst(HasId(deviceId), discovered);
      found := if first.Some? then Some((first.value, discovered.entries[first.value])) else None;
    }

    method LookupCachedState(address: string, selector: DeviceInfo -> bool) returns (value: Option<bool>)
      ensures value == var info := LookedUp(State(), address);
                       if info.Some? then Some(selector(info.value)) else None
    {
      var normalized := NormalizeAddress(address);
      if normalized in discovered.entries {
        return Some(selector(discovered.entries[normalized]));
      }
      var first := FindFirst(AddressMatches(normalized), discovered);
      value := if first.Some? then Some(selector(discovered.entries[first.value])) else None;
    }

    method ResolveDeviceId(address: string) returns (deviceId: string)
      ensures deviceId == ResolvedId(State(), address)
    {
      var normalized := NormalizeAddress(address);
      if normalized in addressToId {
        return addressToId[normalized];
      }
      var first := FindFirst(Resolves(normalized), discovered);
      deviceId := if first.Some? then discovered.entries[first.value].deviceId else "";
    }

    /** Visits the entries in place; the keys of the updated ones are returned. */
    method UpdateConnectionForAddress(address: string, connected: bool) returns (updated: seq<string>)
      requires Valid()
      modifies this
      ensures Valid() && State() == ConnectionUpdated(old(State()), address, connected)
      ensures updated == Selected(AtAddress(NormalizeAddress(address)), old(discovered))
    {
      hide Selects, IsValidAddress, NormalizeAddress, MutateKeys, SyncPaired, KeysBefore, Mutated;
      var normalized := NormalizeAddress(address);
      ghost var q := AtAddress(normalized);
      ghost var mutation := SetEndpoint(connected, normalized);
      ghost var ts := State().tables;
      updated := [];
      NothingVisited(ts, q, mutation);
      for i := 0 to |discovered.order|
        invariant discovered.order == ts.discovered.order
        invariant updated == KeysBefore(q, ts.discovered, i)
        invariant discovered == MutateKeys(ts.discovered, updated, mutation)
        invariant paired == SyncPaired(ts.paired, updated, ts.discovered.entries, mutation)
        invariant addressToId == old(addressToId) && idToKey == old(idToKey)
      {
        VisitStep(ts, q, i, mutation);
        CacheVisitStep(ts, q, i, mutation);
        var key := discovered.order[i];
        var item := discovered.entries[key];
        if Selects(AtAddress(normalized), key, item) {
          WriteEndpoint(key, item, normalized, connected);
          updated := updated + [key];
        }
      }
      ConnectionKeepsInv(old(State()), address, connected);
    }

    method WriteEndpoint(key: string, item: DeviceInfo, normalized: string, connected: bool)
      modifies this`discovered, this`paired
      ensures var info := Mutated(SetEndpoint(connected, normalized), item);
              && discovered == Put(old(discovered), key, info)
              && paired == if info.paired then Put(old(paired), key, info) else old(paired)
    {
      var info := item.(connected := connected);
      if IsValidAddress(normalized) {
        info := info.(address := normalized);
      }
      discovered := Put(discovered, key, info);
      if info.paired {
        paired := Put(paired, key, info);
      }
    }

    method GetDevice(key: string) returns (info: Option<DeviceInfo>)
      ensures info == Own(discovered, key)
    {
      info := if key in discovered.entries then Some(discovered.entries[key]) else None;
    }
  }

  /** The cache's visit does not erase unpaired entries: they are not in the paired table. */
  lemma CacheVisitStep(ts: Tables, q: Query, i: nat, mutation: Mutation)
    requires PairedIsFilter(ts) && i < |ts.discovered.order| && !mutation.MarkPaired?
    ensures var t := ts.discovered;
            var keys := KeysBefore(q, t, i);
            var key := t.order[i];
            var synced := SyncPaired(ts.paired, keys, t.entries, mutation);
            key in t.entries && (!Mutated(mutation, t.entries[key]).paired ==> Erase(synced, {key}) == synced)
  {
    NotYetVisited(q, ts.discovered, i);
    UnpairedStaysOut(ts, KeysBefore(q, ts.discovered, i), ts.discovered.order[i], mutation);
  }

  /** An entry that is not paired is not in the paired table, so there is nothing to erase. */
  lemma UnpairedStaysOut(ts: Tables, keys: seq<string>, key: string, mutation: Mutation)
    requires PairedIsFilter(ts) && key in ts.discovered.entries && key !in keys
    requires forall k :: k in keys ==> k in ts.discovered.entries
    ensures var synced := SyncPaired(ts.paired, keys, ts.discovered.entries, mutation);
            !ts.discovered.entries[key].paired ==> Erase(synced, {key}) == synced
  {
    var synced := SyncPaired(ts.paired, keys, ts.discovered.entries, mutation);
    SyncPairedEntries(ts.paired, keys, ts.discovered.entries, mutation);
    if !ts.discovered.entries[key].paired {
      EraseAbsent(synced, {key});
    }
  }
}
