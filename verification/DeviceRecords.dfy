/**
 Device records, the merge rules that keep the more helpful of two values, and
 the dictionary form in which records reach scripts.
 */
module DeviceRecords {
  import opened Text
  import opened Addresses

  datatype DeviceInfo = DeviceInfo(
    address: string, name: string, paired: bool, connected: bool, trusted: bool,
    deviceClass: string, deviceId: string, rssi: int, hasRssi: bool)

  function ClearUnhelpfulDeviceName(info: DeviceInfo): DeviceInfo {
    if IsMacAddressName(info.name, info.address) then info.(name := "") else info
  }

  function InferDeviceClass(name: string): string {
    var lower := ToLower(name);
    if Contains(lower, "xbox") || Contains(lower, "controller") || Contains(lower, "gamepad")
       || Contains(lower, "dualsense") || Contains(lower, "dualshock") || Contains(lower, "joy-con")
       || Contains(lower, "pro controller") || Contains(lower, "wireless controller")
    then "gamepad" else "unknown"
  }

  // ----- merging -----

  function MergeDeviceIdentity(target: DeviceInfo, source: DeviceInfo): DeviceInfo {
    var name :=
      if (target.name == "" || IsMacAddressName(target.name, target.address))
         && source.name != "" && !IsMacAddressName(source.name, source.address)
      then source.name else target.name;
    var deviceClass :=
      if (target.deviceClass == "" || target.deviceClass == "unknown")
         && source.deviceClass != "" && source.deviceClass != "unknown"
      then source.deviceClass else target.deviceClass;
    var deviceId := if target.deviceId == "" && source.deviceId != "" then source.deviceId else target.deviceId;
    target.(paired := target.paired || source.paired, name := name, deviceClass := deviceClass, deviceId := deviceId)
  }

  function MergeDeviceEndpoints(target: DeviceInfo, source: DeviceInfo): DeviceInfo {
    MergeDeviceIdentity(target, source).(connected := target.connected || source.connected)
  }

  /** Merges the sources one after the other, as the absorption loops do. */
  function MergeAll(info: DeviceInfo, sources: seq<DeviceInfo>): DeviceInfo {
    if sources == [] then info
    else MergeDeviceEndpoints(MergeAll(info, sources[..|sources| - 1]), sources[|sources| - 1])
  }

  /** A record absorbs the sources and then the identity of the entry it replaces. */
  function Absorbed(info: DeviceInfo, sources: seq<DeviceInfo>, own: Option<DeviceInfo>): DeviceInfo {
    var merged := MergeAll(info, sources);
    if own.Some? then MergeDeviceIdentity(merged, own.value) else merged
  }

  // ----- one rule for the three texts a merge can improve -----

  /** A text a merge may fill in. How helpful a name is depends on the address it goes with. */
  datatype Slot = NameOf(address: string) | ClassSlot | IdSlot

  /** The text says nothing worth keeping. */
  predicate Wanting(slot: Slot, text: string) {
    match slot
    case NameOf(address) => text == "" || IsMacAddressName(text, address)
    case ClassSlot => text == "" || text == "unknown"
    case IdSlot => text == ""
  }

  /** What a source has to give. Its name is judged by the source's own address. */
  function Offer(slot: Slot, source: DeviceInfo): Option<string> {
    match slot
    case NameOf(_) => if Wanting(NameOf(source.address), source.name) then None else Some(source.name)
    case ClassSlot => if Wanting(ClassSlot, source.deviceClass) then None else Some(source.deviceClass)
    case IdSlot => if Wanting(IdSlot, source.deviceId) then None else Some(source.deviceId)
  }

  function Replace(slot: Slot, text: string, source: DeviceInfo): string {
    if Wanting(slot, text) && Offer(slot, source).Some? then Offer(slot, source).value else text
  }

  function Pick(slot: Slot, text: string, sources: seq<DeviceInfo>): string {
    if sources == [] then text
    else Replace(slot, Pick(slot, text, sources[..|sources| - 1]), sources[|sources| - 1])
  }

  ghost predicate Offered(slot: Slot, sources: seq<DeviceInfo>) {
    exists s :: s in sources && Offer(slot, s).Some?
  }

  ghost predicate AnyPaired(sources: seq<DeviceInfo>) {
    exists s :: s in sources && s.paired
  }

  ghost predicate AnyConnected(sources: seq<DeviceInfo>) {
    exists s :: s in sources && s.connected
  }

  lemma SplitLast(sources: seq<DeviceInfo>)
    requires sources != []
    ensures sources == sources[..|sources| - 1] + [sources[|sources| - 1]]
    ensures forall s :: s in sources <==> s in sources[..|sources| - 1] || s == sources[|sources| - 1]
  {
  }

  /** Merging all sources is a disjunction for the flags and a pick for each text; nothing else changes. */
  lemma {:induction false} MergeAllFields(info: DeviceInfo, sources: seq<DeviceInfo>)
    ensures MergeAll(info, sources) == info.(
            paired := info.paired || AnyPaired(sources),
            connected := info.connected || AnyConnected(sources),
            name := Pick(NameOf(info.address), info.name, sources),
            deviceClass := Pick(ClassSlot, info.deviceClass, sources),
            deviceId := Pick(IdSlot, info.deviceId, sources))
  {
    if sources != [] {
      SplitLast(sources);
      MergeAllFields(info, sources[..|sources| - 1]);
    }
  }

  lemma AbsorbedFields(info: DeviceInfo, sources: seq<DeviceInfo>, own: Option<DeviceInfo>)
    ensures var all := sources + if own.Some? then [own.value] else [];
            Absorbed(info, sources, own) == info.(
            paired := info.paired || AnyPaired(all),
            connected := info.connected || AnyConnected(sources),
            name := Pick(NameOf(info.address), info.name, all),
            deviceClass := Pick(ClassSlot, info.deviceClass, all),
            deviceId := Pick(IdSlot, info.deviceId, all))
  {
    MergeAllFields(info, sources);
    var all := sources + if own.Some? then [own.value] else [];
    if own.Some? {
      SplitLast(all);
      assert all[..|all| - 1] == sources && all[|all| - 1] == own.value;
    } else {
      assert all == sources;
    }
  }

  lemma {:induction false} PickSettled(slot: Slot, text: string, sources: seq<DeviceInfo>)
    requires !Wanting(slot, text)
    ensures Pick(slot, text, sources) == text
  {
    if sources != [] {
      PickSettled(slot, text, sources[..|sources| - 1]);
    }
  }

  /** If even the picked text is wanting, any wanting text would have ended the same way. */
  lemma {:induction false} PickWanting(slot: Slot, text: string, other: string, sources: seq<DeviceInfo>)
    requires Wanting(slot, Pick(slot, text, sources)) && Wanting(slot, other)
    ensures if Offered(slot, sources) then Pick(slot, other, sources) == Pick(slot, text, sources)
            else Pick(slot, other, sources) == other && Pick(slot, text, sources) == text
  {
    if sources != [] {
      SplitLast(sources);
      PickWanting(slot, text, other, sources[..|sources| - 1]);
    }
  }

  lemma PickIdempotent(slot: Slot, text: string, sources: seq<DeviceInfo>)
    ensures Pick(slot, Pick(slot, text, sources), sources) == Pick(slot, text, sources)
  {
    var picked := Pick(slot, text, sources);
    if Wanting(slot, picked) {
      PickWanting(slot, text, picked, sources);
    } else {
      PickSettled(slot, picked, sources);
    }
  }

  /** An offer that is good where it goes is never lost, and any offer leaves a non-empty text. */
  lemma {:induction false} PickKeeps(slot: Slot, text: string, sources: seq<DeviceInfo>, s: DeviceInfo)
    requires s in sources && Offer(slot, s).Some?
    ensures Pick(slot, text, sources) != ""
    ensures !Wanting(slot, Offer(slot, s).value) ==> !Wanting(slot, Pick(slot, text, sources))
  {
    SplitLast(sources);
    if s != sources[|sources| - 1] {
      PickKeeps(slot, text, sources[..|sources| - 1], s);
    }
  }

  /** A picked text is the original or was offered by a source. */
  lemma {:induction false} PickOrigin(slot: Slot, text: string, sources: seq<DeviceInfo>)
    ensures Pick(slot, text, sources) == text
            || exists s :: s in sources && Offer(slot, s) == Some(Pick(slot, text, sources))
  {
    if sources != [] {
      SplitLast(sources);
      PickOrigin(slot, text, sources[..|sources| - 1]);
    }
  }

  /** The absorbed id is the record's own, or the returned source holds it. */
  lemma AbsorbedId(info: DeviceInfo, sources: seq<DeviceInfo>, own: Option<DeviceInfo>) returns (s: DeviceInfo)
    ensures var m := Absorbed(info, sources, own);
            if info.deviceId != "" || m.deviceId == "" then m.deviceId == info.deviceId
            else s in sources + (if own.Some? then [own.value] else []) && s.deviceId == m.deviceId
  {
    var all := sources + if own.Some? then [own.value] else [];
    var m := Absorbed(info, sources, own);
    s := info;
    AbsorbedFields(info, sources, own);
    PickOrigin(IdSlot, info.deviceId, all);
    if info.deviceId != "" {
      PickSettled(IdSlot, info.deviceId, all);
    } else if m.deviceId != "" {
      s :| s in all && Offer(IdSlot, s) == Some(m.deviceId);
    }
  }

  /** Absorbing the same sources a second time changes nothing. */
  lemma AbsorbedIdempotent(info: DeviceInfo, sources: seq<DeviceInfo>, own: Option<DeviceInfo>)
    ensures Absorbed(Absorbed(info, sources, own), sources, own) == Absorbed(info, sources, own)
  {
    var m := Absorbed(info, sources, own);
    var all := sources + if own.Some? then [own.value] else [];
    AbsorbedFields(info, sources, own);
    AbsorbedFields(m, sources, own);
    PickIdempotent(NameOf(info.address), info.name, all);
    PickIdempotent(ClassSlot, info.deviceClass, all);
    PickIdempotent(IdSlot, info.deviceId, all);
  }

  // ----- dictionaries -----

  /** The script dictionary: an absent key is None. */
  datatype Dict = Dict(
    address: Option<string>, name: Option<string>, paired: Option<bool>, connected: Option<bool>,
    trusted: Option<bool>, deviceClass: Option<string>, deviceId: Option<string>, rssi: Option<int>)

  function ToDictionary(info: DeviceInfo): Dict {
    Dict(Some(info.address), Some(info.name), Some(info.paired), Some(info.connected), Some(info.trusted),
         Some(info.deviceClass), Some(info.deviceId), if info.hasRssi then Some(info.rssi) else None)
  }

  function GetOr<T>(o: Option<T>, default: T): T {
    if o.Some? then o.value else default
  }

  function FromDictionary(d: Dict): DeviceInfo {
    DeviceInfo(GetOr(d.address, ""), GetOr(d.name, ""), GetOr(d.paired, false), GetOr(d.connected, false),
               GetOr(d.trusted, false), GetOr(d.deviceClass, ""), GetOr(d.deviceId, ""),
               GetOr(d.rssi, 0), d.rssi.Some?)
  }

  /** An absent key reads as an empty text or a flag not set; without a strength there is none. */
  lemma AbsentKeysReadAsNothing(d: Dict)
    ensures var r := FromDictionary(d);
            && (d.address.None? ==> r.address == "") && (d.name.None? ==> r.name == "")
            && (d.deviceClass.None? ==> r.deviceClass == "") && (d.deviceId.None? ==> r.deviceId == "")
            && (d.paired.None? ==> !r.paired) && (d.connected.None? ==> !r.connected)
            && (d.trusted.None? ==> !r.trusted) && (d.rssi.None? ==> !r.hasRssi && r.rssi == 0)
  {
  }

  /** A record survives the dictionary unless it holds a signal strength it does not claim to have. */
  lemma DictionaryRoundTrip(info: DeviceInfo)
    ensures FromDictionary(ToDictionary(info)) == info <==> info.hasRssi || info.rssi == 0
  {
  }
}
