/**
 BlueZ property records on their way into the cache, and the scan filter.
 Reading them off D-Bus messages is not modelled: they are arbitrary inputs.
 */
module Bluez {
  import opened Text
  import opened Addresses
  import opened DeviceRecords
  import opened OrderedTables
  import opened DeviceTables
  import opened DeviceCaches

  datatype BluezProps = BluezProps(
    objectPath: string, address: string, name: string, alias: string, paired: bool, connected: bool,
    trusted: bool, deviceClass: nat, rssi: int, hasRssi: bool)

  /** Bits 8 to 12 of the class of device are its major class. */
  function DeviceClassFromCod(cod: nat): string {
    if (cod / 256) % 32 == 5 then "gamepad" else "unknown"
  }

  function DeviceInfoFromBluez(props: BluezProps): DeviceInfo {
    var name := if props.name == "" then props.alias else props.name;
    var fromCod := DeviceClassFromCod(props.deviceClass);
    var address := NormalizeAddress(props.address);
    ClearUnhelpfulDeviceName(DeviceInfo(
      if address == "" then props.objectPath else address, name, props.paired, props.connected, props.trusted,
      if fromCod != "unknown" then fromCod else InferDeviceClass(name),
      props.objectPath, if props.hasRssi then props.rssi else 0, props.hasRssi))
  }

  const NO_PROPERTIES: BluezProps := BluezProps("", "", "", "", false, false, false, 0, 0, false)

  // ----- what a BlueZ object becomes -----

  /** The name is BlueZ's, or else its alias, unless it is only an address: then there is none. */
  lemma RecordName(props: BluezProps)
    requires CanonicalAddress(props.address)
    ensures var r := DeviceInfoFromBluez(props);
            var name := if props.name == "" then props.alias else props.name;
            var text := StripEdges(name);
            && r.address == NormalizeAddress(props.address) && r.deviceId == props.objectPath
            && r.name == if text != "" && (IsValidAddress(text) || AddressesMatch(text, props.address)) then ""
                         else name
  {
    hide NormalizeAddress, IsValidAddress, AddressesMatch, InferDeviceClass, StripEdges;
    CanonicalNormalForm(props.address);
    MatchesNormalForm(StripEdges(if props.name == "" then props.alias else props.name), props.address);
  }

  const GAMEPAD_WORDS: seq<string> :=
    ["xbox", "controller", "gamepad", "dualsense", "dualshock", "joy-con", "pro controller", "wireless controller"]

  /** The word is written at that place of the name, in small letters or capitals. */
  predicate WrittenAt(name: string, word: string, i: int) {
    && 0 <= i <= |name| - |word|
    && forall j :: 0 <= j < |word| ==>
                     name[i + j] == word[j] || ('A' <= name[i + j] <= 'Z' && name[i + j] as int + 32 == word[j] as int)
  }

  ghost predicate NamesGamepad(name: string) {
    exists w, i :: 0 <= w < |GAMEPAD_WORDS| && WrittenAt(name, GAMEPAD_WORDS[w], i)
  }

  lemma WordInLower(name: string, word: string)
    requires word != "" && forall j :: 0 <= j < |word| ==> !('A' <= word[j] <= 'Z')
    ensures Contains(ToLower(name), word) <==> exists i :: WrittenAt(name, word, i)
  {
    var lower := ToLower(name);
    forall i: int ensures OccursAt(lower, word, i) <==> WrittenAt(name, word, i) {
      if 0 <= i <= |name| - |word| {
        assert |lower[i..i + |word|]| == |word|;
        forall j | 0 <= j < |word|
          ensures lower[i..i + |word|][j] == word[j]
                  <==> name[i + j] == word[j]
                       || ('A' <= name[i + j] <= 'Z' && name[i + j] as int + 32 == word[j] as int)
        {
        }
      }
    }
    if Contains(lower, word) {
      var i :| 0 <= i <= |lower| - |word| && OccursAt(lower, word, i);
      assert WrittenAt(name, word, i);
    }
    if i :| WrittenAt(name, word, i) {
      assert OccursAt(lower, word, i);
    }
  }

  lemma InferredFromWords(name: string)
    ensures InferDeviceClass(name) == if NamesGamepad(name) then "gamepad" else "unknown"
  {
    hide ToLower, Contains, WrittenAt;
    forall w | 0 <= w < |GAMEPAD_WORDS|
      ensures Contains(ToLower(name), GAMEPAD_WORDS[w]) <==> exists i :: WrittenAt(name, GAMEPAD_WORDS[w], i)
    {
      WordInLower(name, GAMEPAD_WORDS[w]);
    }
    var c := (w: nat) requires w < |GAMEPAD_WORDS| => Contains(ToLower(name), GAMEPAD_WORDS[w]);
    assert InferDeviceClass(name) == "gamepad" <==> c(0) || c(1) || c(2) || c(3) || c(4) || c(5) || c(6) || c(7);
  }

  /** A device is a gamepad exactly if its major class is peripheral or its name says so; else its class is unknown. */
  lemma RecordClass(props: BluezProps, services: nat, major: nat, minor: nat)
    requires props.deviceClass == services * 8192 + major * 256 + minor && major < 32 && minor < 256
    ensures var name := if props.name == "" then props.alias else props.name;
            DeviceInfoFromBluez(props).deviceClass == if major == 5 || NamesGamepad(name) then "gamepad" else "unknown"
  {
    hide NormalizeAddress, InferDeviceClass, IsMacAddressName;
    InferredFromWords(if props.name == "" then props.alias else props.name);
    MajorClass(services, major, minor);
  }

  lemma MajorClass(services: nat, major: nat, minor: nat)
    requires major < 32 && minor < 256
    ensures (services * 8192 + major * 256 + minor) / 256 % 32 == major
  {
    assert (services * 8192 + major * 256 + minor) / 256 == services * 32 + major;
  }

  datatype ScanOptions = ScanOptions(namedOnly: bool, gamepadsOnly: bool, minRssi: int, timeoutSeconds: int)

  const DEFAULT_OPTIONS: ScanOptions := ScanOptions(false, false, -127, 0)

  predicate PassesScanFilter(options: ScanOptions, info: DeviceInfo) {
    && !(options.namedOnly && info.name == "")
    && !(options.gamepadsOnly && info.deviceClass != "gamepad")
    && !(options.minRssi > -127 && info.hasRssi && info.rssi < options.minRssi)
  }

  // ----- PropertiesChanged -----

  /** The properties one signal carries; the defaults stand for properties it leaves out. */
  datatype PropertyChange = PropertyChange(
    path: string, address: string, name: string, alias: string, paired: Option<bool>, connected: Option<bool>,
    trusted: bool, deviceClass: nat, rssi: Option<int>)

  /** What the signal leaves out is taken from the cached record. */
  function Patched(change: PropertyChange, existing: Option<DeviceInfo>): BluezProps {
    var props := BluezProps(change.path, change.address, change.name, change.alias, GetOr(change.paired, false),
                            GetOr(change.connected, false), change.trusted, change.deviceClass,
                            GetOr(change.rssi, 0), change.rssi.Some?);
    if existing.None? then props
    else
      var e := existing.value;
      var keepRssi := change.rssi.None? && e.hasRssi;
      props.(
      address := if props.address == "" then e.address else props.address,
      name := if props.name == "" then e.name else props.name,
      paired := if change.paired.None? then e.paired else props.paired,
      connected := if change.connected.None? then e.connected else props.connected,
      rssi := if keepRssi then e.rssi else props.rssi,
      hasRssi := keepRssi || props.hasRssi,
      trusted := e.trusted || props.trusted)
  }

  function ChangeRecord(s: CacheState, change: PropertyChange): DeviceInfo {
    var key := FoundKey(s, change.path);
    DeviceInfoFromBluez(Patched(change,
                                if key.Some? then Some(s.tables.discovered.entries[key.value]) else None))
  }

  /** The cached record the change arrived for says these things unless the change does. */
  lemma PatchRecord(s: CacheState, change: PropertyChange, key: string)
    requires FoundKey(s, change.path) == Some(key) && key in s.tables.discovered.entries
    ensures var e := s.tables.discovered.entries[key];
            var p := ChangeRecord(s, change);
            var address := NormalizeAddress(if change.address == "" then e.address else change.address);
            var name := if change.name != "" then change.name else if e.name != "" then e.name else change.alias;
            && p.address == (if address == "" then change.path else address)
            && p.deviceId == change.path
            && p.paired == GetOr(change.paired, e.paired)
            && p.connected == GetOr(change.connected, e.connected)
            && p.trusted == (e.trusted || change.trusted)
            && p.name == (if IsMacAddressName(name, p.address) then "" else name)
            && (change.rssi.None? && e.hasRssi ==> p.rssi == e.rssi && p.hasRssi)
            && (change.rssi.Some? ==> p.rssi == change.rssi.value && p.hasRssi)
  {
    hide IsMacAddressName, NormalizeAddress, FoundKey;
  }

  /** The class of a patch comes from the class it carries and the name it is left with. */
  lemma PatchClass(s: CacheState, change: PropertyChange, services: nat, major: nat, minor: nat)
    requires change.deviceClass == services * 8192 + major * 256 + minor && major < 32 && minor < 256
    ensures var key := FoundKey(s, change.path);
            var known := if key.Some? && key.value in s.tables.discovered.entries
                         then s.tables.discovered.entries[key.value].name else "";
            var name := if change.name != "" then change.name else if known != "" then known else change.alias;
            ChangeRecord(s, change).deviceClass == if major == 5 || NamesGamepad(name) then "gamepad" else "unknown"
  {
    hide FoundKey, DeviceInfoFromBluez;
    var key := FoundKey(s, change.path);
    FoundIsPresent(s, change.path);
    RecordClass(Patched(change, if key.Some? then Some(s.tables.discovered.entries[key.value]) else None),
                services, major, minor);
  }

  lemma FoundIsPresent(s: CacheState, deviceId: string)
    ensures FoundKey(s, deviceId).Some? ==> FoundKey(s, deviceId).value in s.tables.discovered.entries
  {
  }

  /** A change for an object the cache does not know makes a record of what it carries alone. */
  lemma ChangeOfUnknown(s: CacheState, change: PropertyChange)
    requires FoundKey(s, change.path).None?
    ensures var p := ChangeRecord(s, change);
            var address := NormalizeAddress(change.address);
            && p.address == (if address == "" then change.path else address) && p.deviceId == change.path
            && p.paired == GetOr(change.paired, false) && p.connected == GetOr(change.connected, false)
            && p.trusted == change.trusted && p.hasRssi == change.rssi.Some? && p.rssi == GetOr(change.rssi, 0)
  {
    hide IsMacAddressName, NormalizeAddress, FoundKey, InferDeviceClass;
  }

  /** Besides the entry it arrived for and the one it is stored under, the change matches no entry's address. */
  ghost predicate Alone(s: CacheState, change: PropertyChange, key: string) {
    var entries := s.tables.discovered.entries;
    var p := ChangeRecord(s, change);
    IsValidAddress(p.address) ==>
      forall k :: k in entries && k != key && k != KeyOf(p) ==>
                    !AddressesMatch(entries[k].address, Prepared(p).address)
  }

  /** The change stores its record under another key and takes the entry it arrived for with it. */
  ghost predicate Moves(s: CacheState, change: PropertyChange, key: string) {
    key in StaleKeys(s.tables.discovered, ChangeRecord(s, change))
  }

  /** Nobody else holds the id the change arrived for: it absorbs at most its own entry exactly if it is alone. */
  lemma AloneAbsorbsItself(s: CacheState, change: PropertyChange, key: string)
    requires LinuxInv(s) && FoundKey(s, change.path) == Some(key) && key in s.tables.discovered.entries
    ensures Alone(s, change, key)
            <==> forall k :: k in StaleKeys(s.tables.discovered, ChangeRecord(s, change)) ==> k == key
  {
    hide NormalizeAddress, AddressesMatch, FoundKey, IsMacAddressName;
    var t := s.tables.discovered;
    var p := ChangeRecord(s, change);
    PatchRecord(s, change, key);
    KeyOfIsDeviceKey(p);
    forall k | k in t.entries && k != key && k != KeyOf(p)
      ensures k in StaleKeys(t, p)
              <==> IsValidAddress(p.address) && AddressesMatch(t.entries[k].address, Prepared(p).address)
    {
      IdFindsItsEntry(s, change.path, k);
    }
    StaleIsElsewhere(t, p);
  }

  lemma IdFindsItsEntry(s: CacheState, deviceId: string, k: string)
    requires LinuxInv(s) && k in s.tables.discovered.entries
    ensures deviceId != "" && s.tables.discovered.entries[k].deviceId == deviceId ==> FoundKey(s, deviceId) == Some(k)
  {
    assert IndexedAt(s, k);
  }

  /** The name a patch leaves: a changed name counts only if it is more than an address. */
  function PatchedName(change: PropertyChange, address: string, e: DeviceInfo): string {
    if change.name == "" || IsMacAddressName(change.name, address) then e.name else change.name
  }

  lemma PickFromOne(address: string, name: string, e: DeviceInfo)
    requires HelpfulName(e) && (name == "" || !IsMacAddressName(name, address))
    ensures Pick(NameOf(address), name, [e]) == if name == "" then e.name else name
  {
    hide IsMacAddressName;
    assert [e][..0] == [];
    assert Pick(NameOf(address), name, []) == name;
  }

  /** An entry that alone is absorbed or replaced hands its helpful name on unless the change has a better one. */
  lemma PatchName(s: CacheState, change: PropertyChange, key: string)
    requires FoundKey(s, change.path) == Some(key) && key in s.tables.discovered.entries
    requires var e := s.tables.discovered.entries[key];
             HelpfulName(e) && Sources(s.tables.discovered, ChangeRecord(s, change)) == [e]
    requires Stored(s.tables.discovered, ChangeRecord(s, change)).address == ChangeRecord(s, change).address
    ensures var m := Stored(s.tables.discovered, ChangeRecord(s, change));
            m.name == PatchedName(change, m.address, s.tables.discovered.entries[key])
  {
    hide IsMacAddressName, ChangeRecord, FoundKey, StaleKeys, Stored, Sources;
    var e := s.tables.discovered.entries[key];
    var p := ChangeRecord(s, change);
    PatchRecord(s, change, key);
    StoredName(s.tables.discovered, p);
    PickFromOne(p.address, p.name, e);
  }

  /** A name that is more than the address it comes with is stored as it is. */
  lemma OwnNameStays(t: Table, p: DeviceInfo)
    requires Stored(t, p).address == p.address && HelpfulName(p)
    ensures Stored(t, p).name == p.name
  {
    hide IsMacAddressName, Stored, Sources;
    StoredName(t, p);
    PickSettled(NameOf(p.address), p.name, Sources(t, p));
  }

  /**
   A property change is a patch of the entry it arrived for. What it carries is
   stored and what it does not carry stays as cached, but the flags of every entry
   it absorbs are added: a paired device stays paired whatever the change says. A
   known class is not lost, nor is a helpful name. Besides the key it is stored
   under, only absorbed entries change, and those are at most the one it arrived
   for exactly if it is alone.
   */
  lemma PropertyChangeIsPatch(s: CacheState, change: PropertyChange, key: string)
    requires LinuxInv(s) && FoundKey(s, change.path) == Some(key) && key in s.tables.discovered.entries
    ensures var t := s.tables.discovered;
            var e := t.entries[key];
            var p := ChangeRecord(s, change);
            var m := Stored(t, p);
            var kept := Moves(s, change, key) || KeyOf(p) == key;  // the entry's data reaches the stored record
            && (m.paired <==> GetOr(change.paired, e.paired) || AbsorbsPaired(t, p)
                              || (KeyOf(p) in t.entries && t.entries[KeyOf(p)].paired))
            && (m.connected <==> GetOr(change.connected, e.connected) || AbsorbsConnected(t, p))
            && m.trusted == (e.trusted || change.trusted)
            && (change.rssi.Some? ==> m.rssi == change.rssi.value && m.hasRssi)
            && (change.rssi.None? && e.hasRssi ==> m.rssi == e.rssi && m.hasRssi)
            && (change.path != "" ==> m.deviceId == change.path)
            && (kept && KnownClass(e) ==> KnownClass(m))
            && (kept && HelpfulName(e) ==> m.name != "")
            && (m.address == p.address && HelpfulName(p) ==> m.name == p.name)
            && (m.address == p.address && HelpfulName(e) && Sources(t, p) == [e] ==>
                  m.name == PatchedName(change, m.address, e))
            && Upserted(s, p).tables.discovered.entries == (t.entries - Elements(StaleKeys(t, p)))[KeyOf(p) := m]
            && (Alone(s, change, key) <==> forall k :: k in StaleKeys(t, p) ==> k == key)
  {
    hide IsMacAddressName, LinuxInv, ChangeRecord, FoundKey, Alone, Stored, Upserted, UpsertTables, StaleKeys;
    hide KnownClass, HelpfulName, Sources, AbsorbsPaired, AbsorbsConnected, PatchedName, KeyOf;
    var t := s.tables.discovered;
    var e := t.entries[key];
    var p := ChangeRecord(s, change);
    AloneAbsorbsItself(s, change, key);
    PatchRecord(s, change, key);
    StoredFields(t, p);
    StoredFlags(t, p);
    StoredId(t, p);
    PatchEntries(s, p);
    if Moves(s, change, key) || KeyOf(p) == key {
      SourceConserved(t, p, key);
    }
    if Stored(t, p).address == p.address {
      if HelpfulName(p) {
        OwnNameStays(t, p);
      }
      if HelpfulName(e) && Sources(t, p) == [e] {
        PatchName(s, change, key);
      }
    }
  }

  lemma PatchEntries(s: CacheState, p: DeviceInfo)
    ensures var t := s.tables.discovered;
            Upserted(s, p).tables.discovered.entries
            == (t.entries - Elements(StaleKeys(t, p)))[KeyOf(p) := Stored(t, p)]
  {
    hide Stored, StaleKeys, KeyOf;
  }

  /** The change brings no address or a canonical one. */
  predicate CanonicalChange(change: PropertyChange) {
    change.address == "" || CanonicalAddress(change.address)
  }

  lemma CanonicalChangeRecord(s: CacheState, change: PropertyChange, key: string)
    requires AllCanonical(s.tables.discovered) && CanonicalChange(change)
    requires FoundKey(s, change.path) == Some(key) && key in s.tables.discovered.entries
    ensures var p := ChangeRecord(s, change);
            && CanonicalRecord(p) && Prepared(p) == p
            && KeyOf(p) == p.address == (if change.address == "" then key else NormalizeAddress(change.address))
  {
    hide FoundKey, ChangeRecord, IsMacAddressName, IsValidAddress, NormalizeAddress, IsNormal;
    PatchRecord(s, change, key);
    NormalIsFixed(key);
    if change.address != "" {
      CanonicalNormalForm(change.address);
    }
    CanonicalNormalRecord(ChangeRecord(s, change));
  }

  lemma CanonicalNormalRecord(p: DeviceInfo)
    requires Canonical(p.address) && IsNormal(p.address)
    ensures CanonicalRecord(p) && Prepared(p) == p && KeyOf(p) == p.address
  {
    NormalIsFixed(p.address);
    CanonicalNormalIsValid(p.address);
    assert ' ' !in p.address && '-' !in p.address;
  }

  /** Among canonical addresses a change is always alone. */
  lemma CanonicalIsAlone(s: CacheState, change: PropertyChange, key: string)
    requires AllCanonical(s.tables.discovered) && CanonicalRecord(ChangeRecord(s, change))
    ensures Alone(s, change, key)
  {
    hide AddressesMatch, ChangeRecord, NormalizeAddress, IsValidAddress, Canonical, IsNormal;
    var t := s.tables.discovered;
    var p := ChangeRecord(s, change);
    CanonicalRecordKey(p);
    forall k | k in t.entries && k != KeyOf(p) ensures !AddressesMatch(t.entries[k].address, Prepared(p).address) {
      MatchOnCanonical(k, KeyOf(p));
      NormalIsFixed(k);
      NormalIsFixed(KeyOf(p));
    }
  }

  /**
   So with the addresses BlueZ has, a property change touches its own entry and the
   one at the address it brings: the entry moves there if it holds the path, and is
   then connected if it was.
   */
  lemma CanonicalChangeIsPatch(s: CacheState, change: PropertyChange, key: string)
    requires LinuxInv(s) && AllCanonical(s.tables.discovered) && CanonicalChange(change)
    requires FoundKey(s, change.path) == Some(key) && key in s.tables.discovered.entries
    ensures var t := s.tables.discovered;
            var e := t.entries[key];
            var m := Stored(t, ChangeRecord(s, change));
            var there := if change.address == "" then key else NormalizeAddress(change.address);
            var moves := there != key && e.deviceId == change.path != "";
            && m.address == there
            && (m.connected <==> GetOr(change.connected, e.connected) || (moves && e.connected))
            && (m.paired <==> GetOr(change.paired, e.paired) || (moves && e.paired)
                              || (there in t.entries && t.entries[there].paired))
            && (HelpfulName(e) && (there == key || (moves && there !in t.entries)) ==>
                  m.name == PatchedName(change, there, e))
            && Upserted(s, ChangeRecord(s, change)).tables.discovered.entries
               == (t.entries - if moves then {key} else {})[there := m]
  {
    hide LinuxInv, ChangeRecord, FoundKey, Alone, Stored, Upserted, NormalizeAddress, CanonicalAddress;
    hide IsMacAddressName, KnownClass, HelpfulName, PatchedName, AllCanonical, CanonicalRecord, Sources, StaleKeys;
    var t := s.tables.discovered;
    var p := ChangeRecord(s, change);
    CanonicalChangeRecord(s, change, key);
    CanonicalIsAlone(s, change, key);
    PropertyChangeIsPatch(s, change, key);
    StoredFields(t, p);
    WhenItMoves(s, change, key);
    OnlyItself(t, p, key);
  }

  lemma WhenItMoves(s: CacheState, change: PropertyChange, key: string)
    requires LinuxInv(s) && AllCanonical(s.tables.discovered) && CanonicalRecord(ChangeRecord(s, change))
    requires FoundKey(s, change.path) == Some(key) && key in s.tables.discovered.entries
    ensures var t := s.tables.discovered;
            key in StaleKeys(t, ChangeRecord(s, change))
            <==> KeyOf(ChangeRecord(s, change)) != key && t.entries[key].deviceId == change.path != ""
  {
    hide FoundKey, ChangeRecord, AddressesMatch, IsMacAddressName, IsValidAddress, NormalizeAddress, Canonical;
    hide IsNormal;
    var p := ChangeRecord(s, change);
    PatchRecord(s, change, key);
    CanonicalRecordKey(p);
    MatchOnCanonical(key, KeyOf(p));
    NormalIsFixed(key);
    NormalIsFixed(KeyOf(p));
  }

  /** What it means to absorb at most the entry at `key`. */
  lemma OnlyItself(t: Table, p: DeviceInfo, key: string)
    requires key in t.entries && forall k :: k in StaleKeys(t, p) ==> k == key
    ensures var moves := key in StaleKeys(t, p);
            && StaleKeys(t, p) == (if moves then [key] else [])
            && Elements(StaleKeys(t, p)) == (if moves then {key} else {})
            && (AbsorbsPaired(t, p) <==> moves && t.entries[key].paired)
            && (AbsorbsConnected(t, p) <==> moves && t.entries[key].connected)
            && Sources(t, p) == (if moves then [t.entries[key]] else [])
                                + (if KeyOf(p) in t.entries then [t.entries[KeyOf(p)]] else [])
  {
    hide Selects, KeysBefore, KeyOf;
    StaleIsElsewhere(t, p);
    OneElement(StaleKeys(t, p), key);
  }

  /** A change without an address finds its entry at the valid address it has, and leaves it there. */
  lemma ChangeInPlace(s: CacheState, change: PropertyChange, key: string)
    requires LinuxInv(s) && FoundKey(s, change.path) == Some(key) && key in s.tables.discovered.entries
    requires change.address == "" && IsValidAddress(s.tables.discovered.entries[key].address)
    ensures var p := ChangeRecord(s, change);
            && KeyOf(p) == key && p.address == key == s.tables.discovered.entries[key].address
            && Prepared(p) == p && !Moves(s, change, key)
  {
    hide FoundKey, ChangeRecord, StaleKeys;
    var e := s.tables.discovered.entries[key];
    assert Prepared(e) == e;
    assert DeviceKey(e) == key;
    PatchRecord(s, change, key);
    EmptyIsNotValid();
    NotStaleAtOwnKey(s.tables.discovered, ChangeRecord(s, change), key);
  }

  lemma NotStaleAtOwnKey(t: Table, p: DeviceInfo, key: string)
    requires KeyOf(p) == key
    ensures key !in StaleKeys(t, p)
  {
    hide IsValidAddress, AddressesMatch;
  }

  /** A change that carries another valid address moves the entry that holds the path there. */
  lemma ChangeOfAddressMoves(s: CacheState, change: PropertyChange, key: string)
    requires LinuxInv(s) && FoundKey(s, change.path) == Some(key) && key in s.tables.discovered.entries
    requires s.tables.discovered.entries[key].deviceId == change.path != ""
    requires IsValidAddress(change.address) && NormalizeAddress(change.address) != key
    ensures var p := ChangeRecord(s, change);
            && KeyOf(p) == p.address == NormalizeAddress(change.address)
            && Prepared(p) == p && Moves(s, change, key)
  {
    hide FoundKey, ChangeRecord, AddressesMatch, IsMacAddressName;
    PatchRecord(s, change, key);
    EmptyIsNotValid();
    NormalizeIdempotent(change.address);
    NormalizeIdempotent("");
    KeyOfIsDeviceKey(ChangeRecord(s, change));
  }

  /** A signal that carries only a signal strength. */
  function RssiChange(path: string, rssi: int): PropertyChange {
    PropertyChange(path, "", "", "", None, None, false, 0, Some(rssi))
  }

  /**
   Such a signal stores the strength and leaves address and trust, a helpful name
   and a known class. It leaves the connection exactly if the device is connected
   or absorbs no connected entry, and likewise the pairing.
   */
  lemma RssiChangeIsPatch(s: CacheState, path: string, rssi: int, key: string)
    requires LinuxInv(s) && FoundKey(s, path) == Some(key) && key in s.tables.discovered.entries
    requires IsValidAddress(s.tables.discovered.entries[key].address)
    ensures var t := s.tables.discovered;
            var p := ChangeRecord(s, RssiChange(path, rssi));
            var e := t.entries[key];
            var m := Stored(t, p);
            && m.rssi == rssi && m.hasRssi && m.address == e.address && m.trusted == e.trusted
            && (HelpfulName(e) ==> m.name == e.name) && (KnownClass(e) ==> KnownClass(m))
            && (m.connected == e.connected <==>
                  e.connected || forall k :: k in StaleKeys(t, p) ==> !t.entries[k].connected)
            && (m.paired == e.paired <==>
                  e.paired || forall k :: k in StaleKeys(t, p) ==> !t.entries[k].paired)
            && Upserted(s, p).tables.discovered.entries == (t.entries - Elements(StaleKeys(t, p)))[key := m]
  {
    hide LinuxInv, FoundKey, ChangeRecord, Alone, Stored, Upserted, KnownClass, IsMacAddressName, StaleKeys, Sources;
    hide PatchedName;
    var change := RssiChange(path, rssi);
    var e := s.tables.discovered.entries[key];
    ChangeInPlace(s, change, key);
    PatchRecord(s, change, key);
    StoredFields(s.tables.discovered, ChangeRecord(s, change));
    PropertyChangeIsPatch(s, change, key);
  }

  /**
   It need not leave the connection: a connected record without a valid address,
   whose address text merely contains that of a device seen before, is absorbed by
   the next such signal of that device.
   */
  lemma RssiAbsorbsConnection(here: DeviceInfo, named: DeviceInfo, rssi: int)
    requires Canonical(here.address) && IsNormal(here.address) && !here.connected && here.deviceId != ""
    requires !IsValidAddress(named.address) && Contains(named.address, here.address) && named.connected
    requires named.deviceId != here.deviceId && DeviceKey(named) != here.address
    ensures var s := RunLinux(EMPTY_CACHE, [DeviceSeen(here), DeviceSeen(named)]);
            var t := s.tables.discovered;
            var p := ChangeRecord(s, RssiChange(here.deviceId, rssi));
            && FoundKey(s, here.deviceId) == Some(here.address)
            && here.address in t.entries && !t.entries[here.address].connected
            && Stored(t, p).address == here.address && Stored(t, p).connected
  {
    hide Upserted, LinuxInv, FoundKey, ChangeRecord, Stored, Canonical, IsNormal, Contains, IsMacAddressName;
    hide IsValidAddress, NormalizeAddress, AddressesMatch;
    var first := Upserted(EMPTY_CACHE, here);
    var s := Upserted(first, named);
    var t := s.tables.discovered;
    var p := ChangeRecord(s, RssiChange(here.deviceId, rssi));
    RunOfTwoSeen(here, named);
    HereThenNamed(here, named);
    IdFindsItsEntry(s, here.deviceId, here.address);
    ChangeInPlace(s, RssiChange(here.deviceId, rssi), here.address);
    RssiChangeIsPatch(s, here.deviceId, rssi, here.address);
    ContainingIsStale(t, p, DeviceKey(named));
  }

  lemma ContainingIsStale(t: Table, p: DeviceInfo, k: string)
    requires k in t.entries && k != KeyOf(p) && Prepared(p) == p && IsValidAddress(p.address)
    requires NormalizeAddress(p.address) == p.address && Contains(t.entries[k].address, p.address)
    ensures k in StaleKeys(t, p)
  {
    hide IsValidAddress, NormalizeAddress, Contains;
  }

  lemma RunOfTwoSeen(p: DeviceInfo, r: DeviceInfo)
    ensures var s := Upserted(Upserted(EMPTY_CACHE, p), r);
            RunLinux(EMPTY_CACHE, [DeviceSeen(p), DeviceSeen(r)]) == s && LinuxInv(s)
  {
    hide Upserted;
    var ops := [DeviceSeen(p), DeviceSeen(r)];
    assert ops[1..] == [ops[1]] && [ops[1]][1..] == [];
    assert RunLinux(Upserted(Upserted(EMPTY_CACHE, p), r), []) == Upserted(Upserted(EMPTY_CACHE, p), r);
    assert LinuxInv(EMPTY_CACHE);
    RunLinuxKeepsInv(EMPTY_CACHE, ops);
  }

  lemma HereThenNamed(here: DeviceInfo, named: DeviceInfo)
    requires Canonical(here.address) && IsNormal(here.address)
    requires !IsValidAddress(named.address) && DeviceKey(named) != here.address
    requires named.deviceId != here.deviceId
    ensures var s := Upserted(Upserted(EMPTY_CACHE, here), named);
            && IsValidAddress(here.address) && NormalizeAddress(here.address) == here.address
            && s.tables.discovered.entries == map[here.address := here, DeviceKey(named) := named]
  {
    hide Canonical, IsNormal, IsValidAddress, NormalizeAddress, AddressesMatch, Stored, UpsertTables;
    NormalIsFixed(here.address);
    CanonicalNormalIsValid(here.address);
    LoneUpsert(NO_DEVICES, here);
    LoneUpsert(UpsertTables(NO_DEVICES, here), named);
  }
}
