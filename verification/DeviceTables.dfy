/**
 The discovered and paired tables that the backend's cache and the manager both
 keep, and what storing, removing and updating devices does to them.
 */
module DeviceTables {
  import opened Text
  import opened Addresses
  import opened DeviceRecords
  import opened OrderedTables

  datatype Tables = Tables(discovered: Table, paired: Table)

  const NO_DEVICES: Tables := Tables(EMPTY, EMPTY)

  /** The normalised address if it is valid, else the device id, else the raw address. */
  function DeviceKey(info: DeviceInfo): string {
    if IsValidAddress(info.address) then NormalizeAddress(info.address)
    else if info.deviceId != "" then info.deviceId
    else info.address
  }

  function Prepared(p: DeviceInfo): DeviceInfo {
    if IsValidAddress(p.address) then p.(address := NormalizeAddress(p.address)) else p
  }

  function KeyOf(p: DeviceInfo): string {
    DeviceKey(Prepared(p))
  }

  lemma KeyOfIsDeviceKey(p: DeviceInfo)
    ensures KeyOf(p) == DeviceKey(p)
    ensures IsValidAddress(Prepared(p).address) == IsValidAddress(p.address)
    ensures Prepared(Prepared(p)) == Prepared(p)
  {
    NormalizeIdempotent(p.address);
  }

  // ----- storing a device -----

  function StaleKeys(t: Table, p: DeviceInfo): seq<string> {
    Selected(StaleFor(Prepared(p), KeyOf(p)), t)
  }

  function Own(t: Table, key: string): Option<DeviceInfo> {
    if key in t.entries then Some(t.entries[key]) else None
  }

  /** The record an upsert stores: the new data, then what the stale entries and the old entry add. */
  function Stored(t: Table, p: DeviceInfo): DeviceInfo {
    Absorbed(Prepared(p), Records(StaleKeys(t, p), t.entries), Own(t, KeyOf(p)))
  }

  function EraseBoth(ts: Tables, keys: set<string>): Tables {
    Tables(Erase(ts.discovered, keys), Erase(ts.paired, keys))
  }

  function Store(ts: Tables, key: string, info: DeviceInfo): Tables {
    Tables(Put(ts.discovered, key, info),
           if info.paired then Put(ts.paired, key, info) else Erase(ts.paired, {key}))
  }

  function UpsertTables(ts: Tables, p: DeviceInfo): Tables {
    Store(EraseBoth(ts, Elements(StaleKeys(ts.discovered, p))), KeyOf(p), Stored(ts.discovered, p))
  }

  // ----- one turn of the absorption loops -----

  lemma AbsorbStep(t: Table, keys: seq<string>, i: nat, info: DeviceInfo)
    requires i < |keys| && Distinct(keys) && forall k :: k in keys ==> k in t.entries
    ensures keys[i] in Erase(t, Elements(keys[..i])).entries
    ensures Erase(Erase(t, Elements(keys[..i])), {keys[i]}) == Erase(t, Elements(keys[..i + 1]))
    ensures MergeDeviceEndpoints(MergeAll(info, Records(keys[..i], t.entries)), t.entries[keys[i]])
            == MergeAll(info, Records(keys[..i + 1], t.entries))
  {
    EraseTwice(t, Elements(keys[..i]), {keys[i]});
    assert Elements(keys[..i]) + {keys[i]} == Elements(keys[..i + 1]);
    assert Records(keys[..i + 1], t.entries)[..i] == Records(keys[..i], t.entries);
    assert keys[i] in keys;
  }

  lemma ErasePairedStep(paired: Table, keys: seq<string>, i: nat)
    requires i < |keys|
    ensures Erase(Erase(paired, Elements(keys[..i])), {keys[i]}) == Erase(paired, Elements(keys[..i + 1]))
  {
    EraseTwice(paired, Elements(keys[..i]), {keys[i]});
    assert Elements(keys[..i]) + {keys[i]} == Elements(keys[..i + 1]);
  }

  // ----- what is always true of the tables -----

  ghost predicate PairedIsFilter(ts: Tables) {
    && (forall k :: k in ts.paired.entries <==> k in ts.discovered.entries && ts.discovered.entries[k].paired)
    && (forall k :: k in ts.paired.entries ==> ts.paired.entries[k] == ts.discovered.entries[k])
  }

  ghost predicate UniqueIds(t: Table) {
    forall j, k :: j in t.entries && k in t.entries && j != k && t.entries[j].deviceId != ""
                   ==> t.entries[j].deviceId != t.entries[k].deviceId
  }

  ghost predicate NormalAddresses(t: Table) {
    forall k :: k in t.entries ==> Prepared(t.entries[k]) == t.entries[k]
  }

  /** A key is a normal valid address, or the entry has no id but the key. */
  ghost predicate KeysFitIds(t: Table) {
    forall k :: k in t.entries ==>
                  (IsValidAddress(k) && NormalizeAddress(k) == k)
                  || t.entries[k].deviceId == "" || t.entries[k].deviceId == k
  }

  /** Every entry sits under the key its own data gives. */
  ghost predicate Coherent(t: Table) {
    forall k :: k in t.entries ==> DeviceKey(t.entries[k]) == k
  }

  ghost predicate Consistent(ts: Tables) {
    PairedIsFilter(ts) && UniqueIds(ts.discovered) && NormalAddresses(ts.discovered) && KeysFitIds(ts.discovered)
  }

  lemma CoherentFitsIds(t: Table)
    requires Coherent(t)
    ensures KeysFitIds(t)
  {
    forall k | k in t.entries
      ensures (IsValidAddress(k) && NormalizeAddress(k) == k)
              || t.entries[k].deviceId == "" || t.entries[k].deviceId == k
    {
      RecordFitsItsKey(t.entries[k]);
    }
  }

  // ----- the stored record -----

  lemma StoredFields(t: Table, p: DeviceInfo)
    ensures var m := Stored(t, p);
            var info := Prepared(p);
            && m.address == info.address && m.trusted == info.trusted
            && m.rssi == info.rssi && m.hasRssi == info.hasRssi
            && Prepared(m) == m
  {
    AbsorbedFields(Prepared(p), Records(StaleKeys(t, p), t.entries), Own(t, KeyOf(p)));
    KeyOfIsDeviceKey(p);
  }

  /** The stored id is the record's own, or was held by the old entry or a stale one. */
  lemma StoredId(t: Table, p: DeviceInfo)
    ensures var m := Stored(t, p);
            && (p.deviceId != "" ==> m.deviceId == p.deviceId)
            && (p.deviceId == "" && m.deviceId != "" ==>
                  exists k :: k in t.entries && (k == KeyOf(p) || k in StaleKeys(t, p))
                              && t.entries[k].deviceId == m.deviceId)
  {
    var s := AbsorbedId(Prepared(p), Records(StaleKeys(t, p), t.entries), Own(t, KeyOf(p)));
    if p.deviceId == "" && Stored(t, p).deviceId != "" {
      var k := SourceKey(t, p, s);
    }
  }

  /** Everything a stored record may take data from: the stale entries, then the old entry. */
  function Sources(t: Table, p: DeviceInfo): seq<DeviceInfo> {
    var own := Own(t, KeyOf(p));
    Records(StaleKeys(t, p), t.entries) + if own.Some? then [own.value] else []
  }

  lemma SourceKey(t: Table, p: DeviceInfo, s: DeviceInfo) returns (k: string)
    requires s in Sources(t, p)
    ensures k in t.entries && (k == KeyOf(p) || k in StaleKeys(t, p)) && t.entries[k] == s
  {
    var keys := StaleKeys(t, p);
    var i :| 0 <= i < |Sources(t, p)| && Sources(t, p)[i] == s;
    if i < |keys| {
      k := keys[i];
      assert k in keys;
    } else {
      k := KeyOf(p);
    }
  }

  lemma KeyIsSource(t: Table, p: DeviceInfo, k: string)
    requires k in t.entries && (k == KeyOf(p) || k in StaleKeys(t, p))
    ensures t.entries[k] in Sources(t, p)
  {
    var keys := StaleKeys(t, p);
    if k in keys {
      var i :| 0 <= i < |keys| && keys[i] == k;
      assert Sources(t, p)[i] == t.entries[k];
    } else {
      assert Sources(t, p)[|keys|] == t.entries[k];
    }
  }

  /** Storing does not move the record: its key is still the key it is stored under. */
  lemma StoredKey(t: Table, p: DeviceInfo)
    requires KeysFitIds(t)
    ensures KeyOf(Stored(t, p)) == DeviceKey(Stored(t, p)) == KeyOf(p)
  {
    var m := Stored(t, p);
    StoredFields(t, p);
    StoredId(t, p);
    KeyOfIsDeviceKey(p);
    KeyOfIsDeviceKey(m);
    if !IsValidAddress(p.address) && p.deviceId == "" && m.deviceId != "" {
      NoStaleWithoutIdentity(t, p);
    }
  }

  lemma NoStaleWithoutIdentity(t: Table, p: DeviceInfo)
    requires !IsValidAddress(p.address) && p.deviceId == ""
    ensures StaleKeys(t, p) == []
  {
    NothingSelected(StaleFor(Prepared(p), KeyOf(p)), t, |t.order|);
  }

  /** The id of the stored record is held by no entry that survives. */
  lemma StoredIdIsFree(t: Table, p: DeviceInfo, k: string)
    requires UniqueIds(t)
    requires k in t.entries && k != KeyOf(p) && k !in StaleKeys(t, p)
    requires Stored(t, p).deviceId != ""
    ensures t.entries[k].deviceId != Stored(t, p).deviceId
  {
    StoredId(t, p);
  }

  // ----- the flags and the name of the stored record -----

  lemma StaleIsElsewhere(t: Table, p: DeviceInfo)
    ensures forall k :: k in StaleKeys(t, p) ==> k in t.entries && k != KeyOf(p)
  {
  }

  /** Some absorbed entry is connected. */
  ghost predicate AbsorbsConnected(t: Table, p: DeviceInfo) {
    exists k :: k in StaleKeys(t, p) && t.entries[k].connected
  }

  ghost predicate AbsorbsPaired(t: Table, p: DeviceInfo) {
    exists k :: k in StaleKeys(t, p) && t.entries[k].paired
  }

  lemma StoredFlags(t: Table, p: DeviceInfo)
    ensures Stored(t, p).connected <==> p.connected || AbsorbsConnected(t, p)
    ensures Stored(t, p).paired
            <==> p.paired || AbsorbsPaired(t, p) || (KeyOf(p) in t.entries && t.entries[KeyOf(p)].paired)
  {
    hide StaleKeys, KeyOf, Pick, IsValidAddress, NormalizeAddress;
    var keys := StaleKeys(t, p);
    StaleIsElsewhere(t, p);
    AbsorbedFields(Prepared(p), Records(keys, t.entries), Own(t, KeyOf(p)));
    FlaggedRecords(keys, t.entries);
    AnyPairedConcat(Records(keys, t.entries), Own(t, KeyOf(p)));
  }

  lemma AnyPairedConcat(sources: seq<DeviceInfo>, own: Option<DeviceInfo>)
    ensures AnyPaired(sources + if own.Some? then [own.value] else [])
            <==> AnyPaired(sources) || (own.Some? && own.value.paired)
  {
  }

  lemma FlaggedRecords(keys: seq<string>, entries: map<string, DeviceInfo>)
    requires forall k :: k in keys ==> k in entries
    ensures AnyConnected(Records(keys, entries)) <==> exists k :: k in keys && entries[k].connected
    ensures AnyPaired(Records(keys, entries)) <==> exists k :: k in keys && entries[k].paired
  {
    var records := Records(keys, entries);
    forall k | k in keys ensures entries[k] in records {
      var i :| 0 <= i < |keys| && keys[i] == k;
      assert records[i] in records;
    }
    forall r | r in records ensures exists k :: k in keys && entries[k] == r {
      var i :| 0 <= i < |records| && records[i] == r;
      assert keys[i] in keys;
    }
  }

  lemma StoredName(t: Table, p: DeviceInfo)
    ensures Stored(t, p).address == Prepared(p).address
    ensures Stored(t, p).name == Pick(NameOf(Stored(t, p).address), p.name, Sources(t, p))
  {
    hide StaleKeys, KeyOf, Pick, IsValidAddress, NormalizeAddress;
    StaleIsElsewhere(t, p);
    AbsorbedFields(Prepared(p), Records(StaleKeys(t, p), t.entries), Own(t, KeyOf(p)));
  }

  // ----- freshness, coherence, consistency -----

  ghost predicate Replaced(
    before: map<string, DeviceInfo>, after: map<string, DeviceInfo>, key: string, m: DeviceInfo)
  {
    key in after && after[key] == m && forall k :: k in after && k != key ==> k in before && after[k] == before[k]
  }

  lemma UpsertEntries(ts: Tables, p: DeviceInfo)
    ensures var after := UpsertTables(ts, p);
            && KeyOf(p) in after.discovered.entries
            && after.discovered.entries[KeyOf(p)] == Stored(ts.discovered, p)
            && forall k :: k != KeyOf(p) ==>
                   (k in after.discovered.entries <==> k in ts.discovered.entries && k !in StaleKeys(ts.discovered, p))
                   && (k in after.discovered.entries ==> after.discovered.entries[k] == ts.discovered.entries[k])
  {
  }

  /** After storing, no other entry holds the stored id or matches the stored address. */
  lemma UpsertIsFresh(ts: Tables, p: DeviceInfo)
    requires UniqueIds(ts.discovered)
    ensures var after := UpsertTables(ts, p).discovered.entries;
            var m := Stored(ts.discovered, p);
            forall k :: k in after && k != KeyOf(p) ==>
              (m.deviceId != "" ==> after[k].deviceId != m.deviceId)
              && (IsValidAddress(m.address) ==> !AddressesMatch(after[k].address, m.address))
  {
    var t := ts.discovered;
    UpsertEntries(ts, p);
    StoredFields(t, p);
    forall k | k in t.entries && k != KeyOf(p) && k !in StaleKeys(t, p)
      ensures Stored(t, p).deviceId != "" ==> t.entries[k].deviceId != Stored(t, p).deviceId
    {
      if Stored(t, p).deviceId != "" {
        StoredIdIsFree(t, p, k);
      }
    }
  }

  lemma UpsertKeepsIds(ts: Tables, p: DeviceInfo)
    requires UniqueIds(ts.discovered)
    ensures UniqueIds(UpsertTables(ts, p).discovered)
  {
    UpsertIsFresh(ts, p);
    UpsertEntries(ts, p);
  }

  lemma UpsertKeepsPaired(ts: Tables, p: DeviceInfo)
    requires PairedIsFilter(ts)
    ensures PairedIsFilter(UpsertTables(ts, p))
  {
  }

  lemma UpsertKeepsForm(ts: Tables, p: DeviceInfo)
    requires NormalAddresses(ts.discovered) && KeysFitIds(ts.discovered)
    ensures NormalAddresses(UpsertTables(ts, p).discovered) && KeysFitIds(UpsertTables(ts, p).discovered)
  {
    var m := Stored(ts.discovered, p);
    UpsertEntries(ts, p);
    StoredFields(ts.discovered, p);
    StoredKey(ts.discovered, p);
    FormOfReplaced(ts.discovered, UpsertTables(ts, p).discovered, m);
  }

  lemma FormOfReplaced(before: Table, after: Table, m: DeviceInfo)
    requires NormalAddresses(before) && KeysFitIds(before)
    requires Replaced(before.entries, after.entries, DeviceKey(m), m) && Prepared(m) == m
    ensures NormalAddresses(after) && KeysFitIds(after)
  {
    RecordFitsItsKey(m);
  }

  lemma RecordFitsItsKey(m: DeviceInfo)
    ensures (IsValidAddress(DeviceKey(m)) && NormalizeAddress(DeviceKey(m)) == DeviceKey(m))
            || m.deviceId == "" || m.deviceId == DeviceKey(m)
  {
    NormalizeIdempotent(m.address);
  }

  lemma UpsertKeepsCoherent(ts: Tables, p: DeviceInfo)
    requires Coherent(ts.discovered)
    ensures Coherent(UpsertTables(ts, p).discovered)
  {
    CoherentFitsIds(ts.discovered);
    UpsertEntries(ts, p);
    StoredKey(ts.discovered, p);
  }

  lemma UpsertKeepsConsistent(ts: Tables, p: DeviceInfo)
    requires Consistent(ts)
    ensures Consistent(UpsertTables(ts, p))
  {
    UpsertKeepsIds(ts, p);
    UpsertKeepsPaired(ts, p);
    UpsertKeepsForm(ts, p);
  }

  lemma EraseKeepsConsistent(ts: Tables, keys: set<string>)
    requires Consistent(ts)
    ensures Consistent(EraseBoth(ts, keys))
    ensures Coherent(ts.discovered) ==> Coherent(EraseBoth(ts, keys).discovered)
  {
  }

  /** Erasing a selection of entries and erasing one key are alike exactly if the selection is that entry. */
  lemma ErasedAlike(ts: Tables, selection: set<string>, key: string)
    requires selection <= ts.discovered.entries.Keys && ts.paired.entries.Keys <= ts.discovered.entries.Keys
    ensures EraseBoth(ts, selection) == EraseBoth(ts, {key})
            <==> forall k :: k in ts.discovered.entries ==> (k in selection <==> k == key)
  {
    var t := ts.discovered;
    if forall k :: k in t.entries ==> (k in selection <==> k == key) {
      if key in t.entries {
        assert selection == {key};
      } else {
        assert selection == {};
        EraseAbsent(t, {key});
        EraseAbsent(ts.paired, {key});
        EraseAbsent(t, {});
        EraseAbsent(ts.paired, {});
      }
    } else {
      var k :| k in t.entries && !(k in selection <==> k == key);
      assert k in Erase(t, {key}).entries <==> k !in Erase(t, selection).entries;
    }
  }

  // ----- canonical addresses -----

  /** Every entry has a canonical normal address and sits under it. */
  ghost predicate AllCanonical(t: Table) {
    forall k :: k in t.entries ==> t.entries[k].address == k && Canonical(k) && IsNormal(k)
  }

  /** Canonical up to letter case. */
  predicate CanonicalAddress(address: string) {
    Canonical(address) && ' ' !in address && '-' !in address
  }

  predicate CanonicalRecord(p: DeviceInfo) {
    CanonicalAddress(p.address)
  }

  lemma CanonicalNormalForm(address: string)
    requires CanonicalAddress(address)
    ensures Canonical(NormalizeAddress(address)) && IsNormal(NormalizeAddress(address)) && IsValidAddress(address)
  {
    var up := ToUpper(address);
    assert forall i :: 0 <= i < 17 ==> address[i] in address;
    assert ReplaceChar(up, '-', ':') == up;
    assert ' ' !in up;
    RemoveCharAbsent(up, ' ');
    assert NormalizeAddress(address) == up;
    NormalizeYieldsNormal(address);
    CanonicalNormalIsValid(up);
    NormalizeIdempotent(address);
  }

  lemma CanonicalRecordKey(p: DeviceInfo)
    requires CanonicalRecord(p)
    ensures KeyOf(p) == Prepared(p).address == NormalizeAddress(p.address)
    ensures Canonical(KeyOf(p)) && IsNormal(KeyOf(p)) && IsValidAddress(p.address)
  {
    CanonicalNormalForm(p.address);
    KeyOfIsDeviceKey(p);
  }

  lemma CanonicalUpsert(ts: Tables, p: DeviceInfo)
    requires AllCanonical(ts.discovered) && CanonicalRecord(p)
    ensures AllCanonical(UpsertTables(ts, p).discovered)
  {
    UpsertEntries(ts, p);
    StoredFields(ts.discovered, p);
    CanonicalRecordKey(p);
  }

  // ----- absorption: storing twice -----

  /** The stored record selects the same stale entries as the record it came from. */
  lemma StoredHasSameStale(t: Table, p: DeviceInfo)
    requires UniqueIds(t) && KeysFitIds(t)
    ensures StaleKeys(t, Stored(t, p)) == StaleKeys(t, p)
  {
    var m := Stored(t, p);
    var q, q' := StaleFor(Prepared(p), KeyOf(p)), StaleFor(Prepared(m), KeyOf(m));
    StoredFields(t, p);
    StoredId(t, p);
    StoredKey(t, p);
    forall k | k in t.entries ensures Selects(q, k, t.entries[k]) == Selects(q', k, t.entries[k]) {
      if k != KeyOf(p) && k !in StaleKeys(t, p) && m.deviceId != "" {
        StoredIdIsFree(t, p, k);
      }
    }
    SameSelection(q, q', t, |t.order|);
  }

  lemma {:induction false} SameSelection(q: Query, q': Query, t: Table, n: nat)
    requires n <= |t.order|
    requires forall k :: k in t.entries ==> Selects(q, k, t.entries[k]) == Selects(q', k, t.entries[k])
    ensures KeysBefore(q, t, n) == KeysBefore(q', t, n)
  {
    hide Selects;
    if n > 0 {
      assert t.order[n - 1] in t.order;
      SameSelection(q, q', t, n - 1);
    }
  }

  /** Storing the merged record in place of the raw one, in the same tables, gives the same tables. */
  lemma UpsertEcho(ts: Tables, p: DeviceInfo)
    requires UniqueIds(ts.discovered) && KeysFitIds(ts.discovered)
    ensures UpsertTables(ts, Stored(ts.discovered, p)) == UpsertTables(ts, p)
  {
    var t := ts.discovered;
    StoredHasSameStale(t, p);
    StoredKey(t, p);
    StoredFields(t, p);
    AbsorbedIdempotent(Prepared(p), Records(StaleKeys(t, p), t.entries), Own(t, KeyOf(p)));
  }

  /** Storing again what has just been stored leaves both tables as they are, order included. */
  lemma UpsertAgain(ts: Tables, p: DeviceInfo)
    requires Consistent(ts)
    ensures UpsertTables(UpsertTables(ts, p), Stored(ts.discovered, p)) == UpsertTables(ts, p)
    ensures Stored(UpsertTables(ts, p).discovered, Stored(ts.discovered, p)) == Stored(ts.discovered, p)
    ensures StaleKeys(UpsertTables(ts, p).discovered, Stored(ts.discovered, p)) == []
  {
    var after := UpsertTables(ts, p);
    var m := Stored(ts.discovered, p);
    UpsertEntries(ts, p);
    StoredFields(ts.discovered, p);
    StoredKey(ts.discovered, p);
    NothingStaleAfter(ts, p);
    assert Records(StaleKeys(after.discovered, m), after.discovered.entries) == [];
    MergeWithSelf(m);
    UpsertKeepsPaired(ts, p);
    RestoreStored(after, KeyOf(p));
  }

  lemma NothingStaleAfter(ts: Tables, p: DeviceInfo)
    requires UniqueIds(ts.discovered) && KeysFitIds(ts.discovered)
    ensures StaleKeys(UpsertTables(ts, p).discovered, Stored(ts.discovered, p)) == []
  {
    var m := Stored(ts.discovered, p);
    StoredFields(ts.discovered, p);
    StoredKey(ts.discovered, p);
    UpsertIsFresh(ts, p);
    var after := UpsertTables(ts, p).discovered;
    NothingSelected(StaleFor(Prepared(m), KeyOf(m)), after, |after.order|);
  }

  lemma MergeWithSelf(m: DeviceInfo)
    ensures Absorbed(m, [], Some(m)) == m
  {
  }

  /** Writing an entry's own record back changes neither table. */
  lemma RestoreStored(ts: Tables, key: string)
    requires PairedIsFilter(ts) && key in ts.discovered.entries
    ensures Store(EraseBoth(ts, Elements([])), key, ts.discovered.entries[key]) == ts
  {
    EraseAbsent(ts.discovered, Elements([]));
    EraseAbsent(ts.paired, Elements([]));
    PutSame(ts.discovered, key);
    if key in ts.paired.entries {
      PutSame(ts.paired, key);
    } else {
      EraseAbsent(ts.paired, {key});
    }
  }

  /** Storing a record no entry has to do with adds it and changes nothing else. */
  lemma LoneUpsert(ts: Tables, p: DeviceInfo)
    requires Prepared(p) == p && DeviceKey(p) !in ts.discovered.entries
    requires forall k :: k in ts.discovered.entries ==>
                           !Selects(StaleFor(p, DeviceKey(p)), k, ts.discovered.entries[k])
    ensures UpsertTables(ts, p).discovered == Put(ts.discovered, DeviceKey(p), p)
  {
    hide Selects, DeviceKey, Prepared;
    var t := ts.discovered;
    NothingSelected(StaleFor(p, DeviceKey(p)), t, |t.order|);
    EraseAbsent(t, Elements([]));
    assert Stored(t, p) == Absorbed(p, [], None);
  }

  // ----- conservation -----

  /** Where the data of entry `k` is after storing `p`. */
  function Heir(t: Table, p: DeviceInfo, k: string): string {
    if k in StaleKeys(t, p) then KeyOf(p) else k
  }

  ghost predicate KnownClass(info: DeviceInfo) {
    !Wanting(ClassSlot, info.deviceClass)
  }

  ghost predicate HelpfulName(info: DeviceInfo) {
    !Wanting(NameOf(info.address), info.name)
  }

  /** What `heir` must have kept of `info`. */
  ghost predicate Conserved(info: DeviceInfo, heir: DeviceInfo) {
    && (info.paired ==> heir.paired)
    && (KnownClass(info) ==> KnownClass(heir))
    && (info.deviceId != "" ==> heir.deviceId != "")
    && (HelpfulName(info) ==> heir.name != "")
    && (HelpfulName(info) && info.address == heir.address ==> HelpfulName(heir))
  }

  /**
   Storing loses nothing: a stale entry's data lives on in the stored record,
   the old entry's at its own key, and every other entry is untouched.
   */
  lemma UpsertConserves(ts: Tables, p: DeviceInfo, k: string)
    requires k in ts.discovered.entries
    ensures var after := UpsertTables(ts, p).discovered.entries;
            var heir := Heir(ts.discovered, p, k);
            heir in after && Conserved(ts.discovered.entries[k], after[heir])
  {
    var t := ts.discovered;
    UpsertEntries(ts, p);
    if k in StaleKeys(t, p) || k == KeyOf(p) {
      SourceConserved(t, p, k);
    }
  }

  lemma SourceConserved(t: Table, p: DeviceInfo, k: string)
    requires k in t.entries && (k in StaleKeys(t, p) || k == KeyOf(p))
    ensures Conserved(t.entries[k], Stored(t, p))
  {
    hide Conserved;
    KeyIsSource(t, p, k);
    SourcesConserved(Prepared(p), Records(StaleKeys(t, p), t.entries), Own(t, KeyOf(p)), t.entries[k]);
  }

  lemma SourcesConserved(info: DeviceInfo, sources: seq<DeviceInfo>, own: Option<DeviceInfo>, s: DeviceInfo)
    requires s in sources + if own.Some? then [own.value] else []
    ensures Conserved(s, Absorbed(info, sources, own))
  {
    var all := sources + if own.Some? then [own.value] else [];
    AbsorbedFields(info, sources, own);
    if KnownClass(s) { PickKeeps(ClassSlot, info.deviceClass, all, s); }
    if s.deviceId != "" { PickKeeps(IdSlot, info.deviceId, all, s); }
    if HelpfulName(s) { PickKeeps(NameOf(info.address), info.name, all, s); }
  }

  /** An entry with a valid address sits at that address: a helpful name there stays helpful. */
  lemma HelpfulNameStays(ts: Tables, p: DeviceInfo)
    requires Coherent(ts.discovered) && NormalAddresses(ts.discovered)
    requires KeyOf(p) in ts.discovered.entries && IsValidAddress(p.address)
    requires var entry := ts.discovered.entries[KeyOf(p)];
             IsValidAddress(entry.address) && HelpfulName(entry)
    ensures HelpfulName(Stored(ts.discovered, p))
  {
    StoredFields(ts.discovered, p);
    UpsertConserves(ts, p, KeyOf(p));
    KeyOfIsDeviceKey(p);
    UpsertEntries(ts, p);
  }

  /** Where a record goes: to its valid address in normal form, or else to its id, or else to its address as it is. */
  lemma UpsertPlace(ts: Tables, p: DeviceInfo)
    ensures var after := UpsertTables(ts, p).discovered.entries;
            var n := NormalizeAddress(p.address);
            if IsValidAddress(p.address) then n in after && after[n].address == n
            else if p.deviceId != "" then
              p.deviceId in after && after[p.deviceId].deviceId == p.deviceId && after[p.deviceId].address == p.address
            else p.address in after && after[p.address].address == p.address
  {
    hide Stored, UpsertTables, IsValidAddress, NormalizeAddress;
    KeyOfIsDeviceKey(p);
    UpsertEntries(ts, p);
    StoredFields(ts.discovered, p);
    StoredId(ts.discovered, p);
  }

  // ----- which names count -----

  /**
   A name that is only an address gives way: a record at a canonical address whose
   name, edges stripped, is a valid address in any spelling or matches the record's
   own, or who has none, is stored with the old entry's name if that is free text.
   */
  lemma AddressNameGivesWay(t: Table, p: DeviceInfo)
    requires CanonicalRecord(p) && StaleKeys(t, p) == []
    requires KeyOf(p) in t.entries && t.entries[KeyOf(p)].address == KeyOf(p)
    requires var name := StripEdges(p.name);
             p.name == "" || (name != "" && (IsValidAddress(name) || AddressesMatch(name, p.address)))
    requires var e := t.entries[KeyOf(p)];
             var text := StripEdges(e.name);
             e.name != "" && (text == "" || (!IsValidAddress(text) && !AddressesMatch(text, e.address)))
    ensures Stored(t, p).name == t.entries[KeyOf(p)].name
  {
    hide StripEdges, StaleKeys, KeyOf, AddressesMatch, IsValidAddress, CanonicalRecord;
    var e := t.entries[KeyOf(p)];
    CanonicalRecordKey(p);
    EmptyIsNotValid();
    if p.name != "" {
      MatchesNormalForm(StripEdges(p.name), p.address);
    }
    StoredName(t, p);
    assert Records([], t.entries) == [];
    assert Sources(t, p) == [e];
    assert [e][..0] == [];
    assert Pick(NameOf(KeyOf(p)), p.name, []) == p.name;
  }

  /** A text that is no valid address matches an address as it matches its normal form. */
  lemma MatchesNormalForm(text: string, address: string)
    ensures !IsValidAddress(text) ==> AddressesMatch(text, address) == AddressesMatch(text, NormalizeAddress(address))
  {
    NormalizeIdempotent(text);
    NormalizeIdempotent(address);
  }

  /** A non-empty name too short to be an address is stored as given. */
  lemma ShortNameStays(t: Table, p: DeviceInfo)
    requires IsValidAddress(p.address) && 0 < |p.name| < 12
    ensures Stored(t, p).name == p.name
  {
    hide AddressesMatch, NormalizeAddress;
    var address := NormalizeAddress(p.address);
    NormalizeIdempotent(p.address);
    ShortIsNoAddress(StripEdges(p.name), address);
    StoredName(t, p);
    PickSettled(NameOf(address), p.name, Sources(t, p));
  }

  /**
   Storing takes away exactly the entries, besides the one at its key, that hold
   the record's id or whose address matches its valid one.
   */
  lemma AbsorbedExactly(ts: Tables, p: DeviceInfo, k: string)
    requires k in ts.discovered.entries && k != KeyOf(p)
    ensures var e := ts.discovered.entries[k];
            k !in UpsertTables(ts, p).discovered.entries
            <==> (p.deviceId != "" && e.deviceId == p.deviceId)
                 || (IsValidAddress(p.address) && AddressesMatch(e.address, NormalizeAddress(p.address)))
  {
    hide AddressesMatch, KeyOf, Stored, UpsertTables;
    UpsertEntries(ts, p);
    KeyOfIsDeviceKey(p);
  }

  // ----- updating the entries a query selects -----

  datatype Mutation =
    | MarkPaired
    | SetConnected(connected: bool)
    | SetEndpoint(connected: bool, address: string)  // also adopts the address if it is valid

  function Mutated(mutation: Mutation, info: DeviceInfo): DeviceInfo {
    match mutation
    case MarkPaired => info.(paired := true)
    case SetConnected(c) => info.(connected := c)
    case SetEndpoint(c, a) =>
      var connected := info.(connected := c);
      if IsValidAddress(a) then connected.(address := a) else connected
  }

  function MutateKeys(t: Table, keys: seq<string>, mutation: Mutation): Table {
    RawTable(t.order, map k | k in t.entries ::
                        if k in keys then Mutated(mutation, t.entries[k]) else t.entries[k])
  }

  /** Brings the paired table up to date with the mutated entries, in iteration order. */
  function SyncPaired(paired: Table, keys: seq<string>, entries: map<string, DeviceInfo>, mutation: Mutation): Table
    requires forall k :: k in keys ==> k in entries
  {
    if keys == [] then paired
    else
      var last := keys[|keys| - 1];
      var info := Mutated(mutation, entries[last]);
      var front := SyncPaired(paired, keys[..|keys| - 1], entries, mutation);
      if info.paired then Put(front, last, info) else Erase(front, {last})
  }

  function UpdateTables(ts: Tables, q: Query, mutation: Mutation): Tables {
    var keys := Selected(q, ts.discovered);
    Tables(MutateKeys(ts.discovered, keys, mutation),
           SyncPaired(ts.paired, keys, ts.discovered.entries, mutation))
  }

  lemma {:induction false} SyncPairedEntries(
    paired: Table, keys: seq<string>, entries: map<string, DeviceInfo>, mutation: Mutation)
    requires forall k :: k in keys ==> k in entries
    ensures var after := SyncPaired(paired, keys, entries, mutation).entries;
            forall k ::
              if k in keys then
                (k in after <==> Mutated(mutation, entries[k]).paired)
                && (k in after ==> after[k] == Mutated(mutation, entries[k]))
              else
                (k in after <==> k in paired.entries) && (k in after ==> after[k] == paired.entries[k])
  {
    if keys != [] {
      var front := keys[..|keys| - 1];
      assert keys == front + [keys[|keys| - 1]];
      SyncPairedEntries(paired, front, entries, mutation);
    }
  }

  lemma MutateStep(t: Table, keys: seq<string>, key: string, mutation: Mutation)
    requires key in t.entries
    ensures Put(MutateKeys(t, keys, mutation), key, Mutated(mutation, t.entries[key]))
            == MutateKeys(t, keys + [key], mutation)
  {
    assert Put(MutateKeys(t, keys, mutation), key, Mutated(mutation, t.entries[key])).entries
           == MutateKeys(t, keys + [key], mutation).entries;
  }

  lemma SyncStep(paired: Table, keys: seq<string>, key: string, entries: map<string, DeviceInfo>, mutation: Mutation)
    requires (forall k :: k in keys ==> k in entries) && key in entries
    ensures var front := SyncPaired(paired, keys, entries, mutation);
            var info := Mutated(mutation, entries[key]);
            SyncPaired(paired, keys + [key], entries, mutation)
            == if info.paired then Put(front, key, info) else Erase(front, {key})
  {
    assert (keys + [key])[..|keys|] == keys;
  }

  lemma NothingVisited(ts: Tables, q: Query, mutation: Mutation)
    ensures KeysBefore(q, ts.discovered, 0) == []
    ensures MutateKeys(ts.discovered, [], mutation) == ts.discovered
    ensures SyncPaired(ts.paired, [], ts.discovered.entries, mutation) == ts.paired
  {
    assert MutateKeys(ts.discovered, [], mutation).entries == ts.discovered.entries;
  }

  /** One visit of an in-place update loop: the entry is still as it was; writing it back is one more key. */
  lemma VisitStep(ts: Tables, q: Query, i: nat, mutation: Mutation)
    requires i < |ts.discovered.order|
    ensures var t := ts.discovered;
            var keys := KeysBefore(q, t, i);
            var key := t.order[i];
            var synced := SyncPaired(ts.paired, keys, t.entries, mutation);
            && key in t.entries && key in MutateKeys(t, keys, mutation).entries
            && MutateKeys(t, keys, mutation).entries[key] == t.entries[key]
            && KeysBefore(q, t, i + 1) == keys + (if Selects(q, key, t.entries[key]) then [key] else [])
            && var info := Mutated(mutation, t.entries[key]);
               Put(MutateKeys(t, keys, mutation), key, info) == MutateKeys(t, keys + [key], mutation)
               && SyncPaired(ts.paired, keys + [key], t.entries, mutation)
                  == if info.paired then Put(synced, key, info) else Erase(synced, {key})
  {
    var t := ts.discovered;
    var keys := KeysBefore(q, t, i);
    NotYetVisited(q, t, i);
    MutateStep(t, keys, t.order[i], mutation);
    SyncStep(ts.paired, keys, t.order[i], t.entries, mutation);
  }

  /** An update of connection flags keeps the order of both tables. */
  lemma ConnectingKeepsOrder(ts: Tables, q: Query, connected: bool)
    requires PairedIsFilter(ts)
    ensures var after := UpdateTables(ts, q, SetConnected(connected));
            && after.discovered.order == ts.discovered.order && after.paired.order == ts.paired.order
            && PairedIsFilter(after)
  {
    hide Selects, SyncPaired;
    SyncKeepsOrder(ts, Selected(q, ts.discovered), connected);
    SyncKeepsPaired(ts, Selected(q, ts.discovered), SetConnected(connected));
  }

  lemma {:induction false} SyncKeepsOrder(ts: Tables, keys: seq<string>, connected: bool)
    requires PairedIsFilter(ts) && forall k :: k in keys ==> k in ts.discovered.entries
    ensures SyncPaired(ts.paired, keys, ts.discovered.entries, SetConnected(connected)).order == ts.paired.order
  {
    if keys != [] {
      var front := keys[..|keys| - 1];
      var last := keys[|keys| - 1];
      assert last in keys;
      SyncKeepsOrder(ts, front, connected);
      SyncPairedEntries(ts.paired, front, ts.discovered.entries, SetConnected(connected));
      if !ts.discovered.entries[last].paired {
        EraseAbsent(SyncPaired(ts.paired, front, ts.discovered.entries, SetConnected(connected)), {last});
      }
    }
  }

  /** Storing over an entry, absorbing none and keeping its pairing, keeps the order of both tables. */
  lemma StoringKeepsOrder(ts: Tables, p: DeviceInfo)
    requires PairedIsFilter(ts) && StaleKeys(ts.discovered, p) == [] && KeyOf(p) in ts.discovered.entries
    requires Stored(ts.discovered, p).paired == ts.discovered.entries[KeyOf(p)].paired
    ensures var after := UpsertTables(ts, p);
            after.discovered.order == ts.discovered.order && after.paired.order == ts.paired.order
  {
    hide StaleKeys, KeyOf, Stored;
    EraseAbsent(ts.discovered, Elements([]));
    EraseAbsent(ts.paired, Elements([]));
    if !Stored(ts.discovered, p).paired {
      EraseAbsent(ts.paired, {KeyOf(p)});
    }
  }

  lemma SameTables(ts: Tables, other: Tables)
    requires PairedIsFilter(ts) && PairedIsFilter(other)
    requires ts.discovered.order == other.discovered.order && ts.paired.order == other.paired.order
    ensures ts == other <==> ts.discovered.entries == other.discovered.entries
  {
    if ts.discovered.entries == other.discovered.entries {
      assert forall k :: k in ts.paired.entries <==> k in other.paired.entries;
      assert ts.paired.entries == other.paired.entries;
    }
  }

  /** An update leaves both tables as they are exactly if it changes no entry it selects. */
  lemma UpdateIsIdle(ts: Tables, q: Query, mutation: Mutation)
    requires PairedIsFilter(ts)
    ensures UpdateTables(ts, q, mutation) == ts
            <==> forall k :: k in ts.discovered.entries && Selects(q, k, ts.discovered.entries[k])
                             ==> Mutated(mutation, ts.discovered.entries[k]) == ts.discovered.entries[k]
  {
    hide Selects, Mutated, SyncPaired, MutateKeys;
    var keys := Selected(q, ts.discovered);
    MutationIsIdle(ts.discovered, keys, mutation);
    if forall k :: k in keys ==> Mutated(mutation, ts.discovered.entries[k]) == ts.discovered.entries[k] {
      SyncIsIdle(ts, keys, mutation);
    }
  }

  lemma MutationIsIdle(t: Table, keys: seq<string>, mutation: Mutation)
    requires forall k :: k in keys ==> k in t.entries
    ensures MutateKeys(t, keys, mutation) == t
            <==> forall k :: k in keys ==> Mutated(mutation, t.entries[k]) == t.entries[k]
  {
    hide Mutated;
    var after := MutateKeys(t, keys, mutation);
    if forall k :: k in keys ==> Mutated(mutation, t.entries[k]) == t.entries[k] {
      assert after.entries == t.entries;
    } else {
      var k :| k in keys && Mutated(mutation, t.entries[k]) != t.entries[k];
      assert after.entries[k] != t.entries[k];
    }
  }

  lemma {:induction false} SyncIsIdle(ts: Tables, keys: seq<string>, mutation: Mutation)
    requires PairedIsFilter(ts) && forall k :: k in keys ==> k in ts.discovered.entries
    requires forall k :: k in keys ==> Mutated(mutation, ts.discovered.entries[k]) == ts.discovered.entries[k]
    ensures SyncPaired(ts.paired, keys, ts.discovered.entries, mutation) == ts.paired
  {
    hide Mutated;
    if keys != [] {
      var last := keys[|keys| - 1];
      assert last in keys;
      SyncIsIdle(ts, keys[..|keys| - 1], mutation);
      if last in ts.paired.entries {
        PutSame(ts.paired, last);
      } else {
        EraseAbsent(ts.paired, {last});
      }
    }
  }

  /** An adopted address must be normal; the other mutations do not touch what keys depend on. */
  predicate Safe(mutation: Mutation) {
    mutation.SetEndpoint? ==> NormalizeAddress(mutation.address) == mutation.address
  }

  lemma MutateKeepsNormal(t: Table, keys: seq<string>, mutation: Mutation)
    requires NormalAddresses(t) && Safe(mutation)
    ensures NormalAddresses(MutateKeys(t, keys, mutation))
  {
  }

  lemma MutateKeepsIds(t: Table, keys: seq<string>, mutation: Mutation)
    requires UniqueIds(t)
    ensures UniqueIds(MutateKeys(t, keys, mutation))
  {
  }

  lemma MutateKeepsFit(t: Table, keys: seq<string>, mutation: Mutation)
    requires KeysFitIds(t)
    ensures KeysFitIds(MutateKeys(t, keys, mutation))
  {
  }

  lemma SyncKeepsPaired(ts: Tables, keys: seq<string>, mutation: Mutation)
    requires PairedIsFilter(ts) && forall k :: k in keys ==> k in ts.discovered.entries
    ensures PairedIsFilter(Tables(MutateKeys(ts.discovered, keys, mutation),
                                  SyncPaired(ts.paired, keys, ts.discovered.entries, mutation)))
  {
    SyncPairedEntries(ts.paired, keys, ts.discovered.entries, mutation);
  }

  lemma UpdateKeepsConsistent(ts: Tables, q: Query, mutation: Mutation)
    requires Consistent(ts) && Safe(mutation)
    ensures Consistent(UpdateTables(ts, q, mutation))
  {
    var keys := Selected(q, ts.discovered);
    MutateKeepsNormal(ts.discovered, keys, mutation);
    MutateKeepsIds(ts.discovered, keys, mutation);
    MutateKeepsFit(ts.discovered, keys, mutation);
    SyncKeepsPaired(ts, keys, mutation);
  }

  lemma UpdateKeepsCoherent(t: Table, keys: seq<string>, mutation: Mutation)
    requires Coherent(t) && !mutation.SetEndpoint?
    ensures Coherent(MutateKeys(t, keys, mutation))
  {
  }
}
