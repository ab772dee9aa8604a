/**
 The engine's HashMap from strings to device records: lookups by key, and
 iteration in the order in which keys were first inserted.
 */
module OrderedTables {
  import opened Text
  import opened Addresses
  import opened DeviceRecords

  datatype RawTable = RawTable(order: seq<string>, entries: map<string, DeviceInfo>)

  predicate Distinct(s: seq<string>) {
    forall i, j :: 0 <= i < j < |s| ==> s[i] != s[j]
  }

  type Table = t: RawTable | Distinct(t.order) && (forall k {:trigger k in t.order} :: k in t.order <==> k in t.entries)
    witness RawTable([], map[])

  const EMPTY: Table := RawTable([], map[])

  function Put(t: Table, key: string, info: DeviceInfo): (r: Table)
    ensures r.entries == t.entries[key := info]
    ensures key in t.entries ==> r.order == t.order
  {
    assert key in t.order <==> key in t.entries;
    if key in t.entries then RawTable(t.order, t.entries[key := info])
    else RawTable(t.order + [key], t.entries[key := info])
  }

  function Without(order: seq<string>, keys: set<string>): seq<string> {
    if order == [] then []
    else Without(order[..|order| - 1], keys) + if order[|order| - 1] in keys then [] else [order[|order| - 1]]
  }

  lemma {:induction false} WithoutMembers(order: seq<string>, keys: set<string>)
    ensures forall k :: k in Without(order, keys) <==> k in order && k !in keys
    ensures Distinct(order) ==> Distinct(Without(order, keys))
  {
    if order != [] {
      assert order == order[..|order| - 1] + [order[|order| - 1]];
      WithoutMembers(order[..|order| - 1], keys);
    }
  }

  function Erase(t: Table, keys: set<string>): (r: Table)
    ensures r.entries == t.entries - keys
  {
    WithoutMembers(t.order, keys);
    RawTable(Without(t.order, keys), t.entries - keys)
  }

  lemma WithoutSnoc(front: seq<string>, last: string, keys: set<string>)
    ensures Without(front + [last], keys) == Without(front, keys) + if last in keys then [] else [last]
  {
    assert (front + [last])[..|front|] == front;
  }

  lemma {:induction false} WithoutTwice(order: seq<string>, a: set<string>, b: set<string>)
    ensures Without(Without(order, a), b) == Without(order, a + b)
  {
    if order != [] {
      var front := order[..|order| - 1];
      var last := order[|order| - 1];
      WithoutTwice(front, a, b);
      WithoutSnoc(Without(front, a), last, b);
      assert Without(front, a) + [] == Without(front, a);
    }
  }

  lemma {:induction false} WithoutAbsent(order: seq<string>, keys: set<string>)
    requires forall k :: k in order ==> k !in keys
    ensures Without(order, keys) == order
  {
    if order != [] {
      var front := order[..|order| - 1];
      assert order == front + [order[|order| - 1]];
      WithoutAbsent(front, keys);
    }
  }

  lemma EraseTwice(t: Table, a: set<string>, b: set<string>)
    ensures Erase(Erase(t, a), b) == Erase(t, a + b)
  {
    WithoutTwice(t.order, a, b);
    assert t.entries - a - b == t.entries - (a + b);
  }

  lemma EraseAbsent(t: Table, keys: set<string>)
    requires keys !! t.entries.Keys
    ensures Erase(t, keys) == t
  {
    WithoutAbsent(t.order, keys);
    assert t.entries - keys == t.entries;
  }

  lemma PutSame(t: Table, key: string)
    requires key in t.entries
    ensures Put(t, key, t.entries[key]) == t
  {
  }

  // ----- selecting entries -----

  /** The conditions under which the tables' loops pick an entry. */
  datatype Query =
    | StaleFor(info: DeviceInfo, key: string)   // another endpoint of the device being stored
    | AtAddress(address: string)                // key or address matches
    | AtAddressOrId(address: string)            // ... or the id is this very string
    | HasId(deviceId: string)
    | AddressMatches(address: string)
    | Resolves(address: string)

  predicate Selects(q: Query, key: string, info: DeviceInfo) {
    match q
    case StaleFor(p, k) =>
      key != k && ((p.deviceId != "" && info.deviceId == p.deviceId)
                   || (IsValidAddress(p.address) && AddressesMatch(info.address, p.address)))
    case AtAddress(a) => AddressesMatch(key, a) || AddressesMatch(info.address, a)
    case AtAddressOrId(a) => AddressesMatch(info.address, a) || AddressesMatch(key, a) || info.deviceId == a
    case HasId(d) => info.deviceId == d
    case AddressMatches(a) => AddressesMatch(info.address, a)
    case Resolves(a) => key == a || AddressesMatch(info.address, a) || info.deviceId == a
  }

  /** The keys selected among the first `n` entries, in iteration order. */
  function KeysBefore(q: Query, t: Table, n: nat): (r: seq<string>)
    requires n <= |t.order|
    ensures forall k :: k in r ==> k in t.order[..n] && k in t.entries && Selects(q, k, t.entries[k])
    ensures forall i :: 0 <= i < n && t.order[i] in t.entries && Selects(q, t.order[i], t.entries[t.order[i]])
              ==> t.order[i] in r
    ensures Distinct(r)
  {
    if n == 0 then []
    else
      var key := t.order[n - 1];
      assert key in t.order;
      assert t.order[..n] == t.order[..n - 1] + [key];
      KeysBefore(q, t, n - 1) + if Selects(q, key, t.entries[key]) then [key] else []
  }

  function Selected(q: Query, t: Table): (r: seq<string>)
    ensures forall k :: k in r <==> k in t.entries && Selects(q, k, t.entries[k])
    ensures Distinct(r)
  {
    var r := KeysBefore(q, t, |t.order|);
    assert forall k :: k in t.entries ==> k in t.order;
    r
  }

  /** The key an iteration that stops at the first selected entry finds. */
  function First(q: Query, t: Table): (r: Option<string>)
    ensures r.Some? ==> r.value in t.entries && Selects(q, r.value, t.entries[r.value])
    ensures r.None? ==> forall k :: k in t.entries ==> !Selects(q, k, t.entries[k])
  {
    var keys := Selected(q, t);
    if keys == [] then None
    else
      assert keys[0] in keys;
      Some(keys[0])
  }

  lemma {:induction false} NothingSelected(q: Query, t: Table, n: nat)
    requires n <= |t.order|
    requires forall k :: k in t.entries ==> !Selects(q, k, t.entries[k])
    ensures KeysBefore(q, t, n) == []
  {
    hide Selects;
    if n > 0 {
      assert t.order[n - 1] in t.order;
      NothingSelected(q, t, n - 1);
    }
  }

  lemma {:induction false} KeysBeforePrefix(q: Query, t: Table, i: nat, n: nat)
    requires i <= n <= |t.order|
    ensures KeysBefore(q, t, i) <= KeysBefore(q, t, n)
    decreases n
  {
    hide Selects;
    if i < n {
      KeysBeforePrefix(q, t, i, n - 1);
    }
  }

  /** An iteration has not selected the key it is about to visit. */
  lemma NotYetVisited(q: Query, t: Table, n: nat)
    requires n < |t.order|
    ensures t.order[n] !in KeysBefore(q, t, n)
    ensures t.order[n] in t.entries
  {
    assert t.order[n] in t.order;
    assert t.order[n] !in t.order[..n];
  }

  lemma TwoElements(keys: seq<string>)
    requires Distinct(keys) && |keys| > 1
    ensures exists j, k :: j in keys && k in keys && j != k
  {
    assert keys[0] in keys && keys[1] in keys;
  }

  lemma OneElement(keys: seq<string>, key: string)
    requires Distinct(keys) && forall k :: k in keys ==> k == key
    ensures keys == if key in keys then [key] else []
  {
    if |keys| > 1 {
      TwoElements(keys);
      assert false;
    }
    if keys != [] {
      assert keys[0] in keys;
      assert keys == [key];
    }
  }

  /** If a query can select one key only, it selects just that key or nothing. */
  lemma OneSelected(q: Query, t: Table, key: string)
    requires key in t.entries
    requires forall k :: k in t.entries && k != key ==> !Selects(q, k, t.entries[k])
    ensures Selected(q, t) == if Selects(q, key, t.entries[key]) then [key] else []
  {
    hide Selects;
    OneElement(Selected(q, t), key);
  }

  /** At most one entry is selected: the first is that one, whatever the order. */
  lemma FirstIsUnique(q: Query, t: Table, key: string)
    requires key in t.entries && Selects(q, key, t.entries[key])
    requires forall k :: k in t.entries && Selects(q, k, t.entries[k]) ==> k == key
    ensures First(q, t) == Some(key)
  {
  }

  /** The first entry in order that is selected is where an iteration stops. */
  lemma FirstInOrder(q: Query, t: Table, i: nat)
    requires i < |t.order| && KeysBefore(q, t, i) == []
    requires t.order[i] in t.entries && Selects(q, t.order[i], t.entries[t.order[i]])
    ensures First(q, t) == Some(t.order[i])
  {
    hide Selects;
    KeysBeforePrefix(q, t, i + 1, |t.order|);
  }

  lemma FirstOrNone(q: Query, t: Table, i: nat)
    requires i <= |t.order|
    requires forall j :: 0 <= j < i ==> t.order[j] in t.entries && !Selects(q, t.order[j], t.entries[t.order[j]])
    requires i < |t.order| ==> t.order[i] in t.entries && Selects(q, t.order[i], t.entries[t.order[i]])
    ensures First(q, t) == if i < |t.order| then Some(t.order[i]) else None
  {
    hide Selects, First, KeysBefore, Selected;
    NothingBefore(q, t);
    for j := 0 to i
      invariant KeysBefore(q, t, j) == []
    {
      NotSelectedStep(q, t, j);
    }
    if i < |t.order| {
      FirstInOrder(q, t, i);
    } else {
      NothingFirst(q, t);
    }
  }

  lemma NotSelectedStep(q: Query, t: Table, i: nat)
    requires i < |t.order| && KeysBefore(q, t, i) == []
    requires t.order[i] in t.entries && !Selects(q, t.order[i], t.entries[t.order[i]])
    ensures KeysBefore(q, t, i + 1) == []
  {
    hide Selects;
  }

  lemma NothingFirst(q: Query, t: Table)
    requires KeysBefore(q, t, |t.order|) == []
    ensures First(q, t) == None
  {
    hide KeysBefore, Selects;
  }

  method FindFirst(q: Query, t: Table) returns (r: Option<string>)
    ensures r == First(q, t)
  {
    hide Selects, First, KeysBefore, Selected;
    NothingBefore(q, t);
    for i := 0 to |t.order|
      invariant KeysBefore(q, t, i) == []
    {
      NotYetVisited(q, t, i);
      if Selects(q, t.order[i], t.entries[t.order[i]]) {
        FirstInOrder(q, t, i);
        return Some(t.order[i]);
      }
      NotSelectedStep(q, t, i);
    }
    NothingFirst(q, t);
    return None;
  }

  lemma NothingBefore(q: Query, t: Table)
    ensures KeysBefore(q, t, 0) == []
  {
    hide Selects;
  }

  method CollectKeys(q: Query, t: Table) returns (keys: seq<string>)
    ensures keys == Selected(q, t)
  {
    hide Selects;
    keys := [];
    for i := 0 to |t.order|
      invariant keys == KeysBefore(q, t, i)
    {
      NotYetVisited(q, t, i);
      if Selects(q, t.order[i], t.entries[t.order[i]]) {
        keys := keys + [t.order[i]];
      }
    }
  }

  function Elements(keys: seq<string>): set<string> {
    set k | k in keys
  }

  function Records(keys: seq<string>, entries: map<string, DeviceInfo>): (r: seq<DeviceInfo>)
    requires forall k :: k in keys ==> k in entries
    ensures |r| == |keys|
    ensures forall i :: 0 <= i < |keys| ==> r[i] == entries[keys[i]]
  {
    seq(|keys|, i requires 0 <= i < |keys| => entries[keys[i]])
  }
}
