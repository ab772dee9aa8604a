# A verified model of BluetoothGD's device tables, addresses and protocols

BluetoothGD lets a game find, pair and connect Bluetooth devices. A platform
backend runs on a worker thread, keeps a cache of devices and reports events
through a queue; a manager on the script thread replays those events on its own
copy of the device tables and turns them into signals. This project models that
path in Dafny and proves what it promises.

| file | models |
|---|---|
| `Text.dfy` | the string operations the address code uses, and their algebra |
| `Addresses.dfy` | normalisation, validity, matching, names that are only an address |
| `WinrtAddress.dfy` | 48-bit parsing and formatting, addresses inside device ids |
| `DeviceRecords.dfy` | device records, the merge rules, dictionaries |
| `OrderedTables.dfy` | the hash map with its insertion-order iteration |
| `DeviceTables.dfy` | storing, removing and updating in the discovered and paired tables |
| `DeviceCache.dfy` | the backend's cache with its two indexes, and runs over it |
| `Events.dfy` | events, and well-bracketed traces of scans and pairings |
| `Manager.dfy` | the manager's tables, queries and signals |
| `Replica.dfy` | the manager's tables as a copy of the cache's |
| `Bluez.dfy` | BlueZ records, the scan filter, property changes as patches |
| `LinuxBackend.dfy` | scan and pairing commands, polling, signal handlers |
| `Pairing.dfy` | the rendezvous of agent, script and cancellation around the worker's one program counter |
| `Worker.dfy` | the queues and the worker thread over one start/stop cycle |
| `BackendRuns.dfy` | the worker thread with the backend commands it runs |
| `EndToEnd.dfy` | the pieces composed: events through the queue to tables and signals |

A class or loop of the source is a class or loop here, and each method is proved
equal to a function of the old state (`Upserted`, `Handled`, `ViewStep`, ...);
the lemmas are about those functions. Tables are a map plus the sequence of keys
in iteration order, so equal tables also iterate alike. Threads are step
systems: every sequence of steps is an interleaving, and a step that is not
enabled does nothing. D-Bus replies, the clock and the user are arbitrary inputs.

What the code turned out to do, where a reader might expect more:

- Matching is an equivalence on canonical addresses only. For any two different
  addresses there is a text that matches both (`Addresses.MatchIsNotTransitive`).
- After an entry is removed from the cache, handling its DEVICE_REMOVED leaves the
  manager's tables equal to the cache's exactly if the event's address matches no
  other entry's key or address (`Replica.GoneKeepsReplica`).
- The event of `unpair_device` carries the caller's address, and the address index
  keeps former addresses: unpairing a device by an address it has since left
  empties the cache while the manager keeps the device
  (`Replica.UnpairByFormerAddress`). Tables stay equal exactly if the path leads
  to the entry at that address or to none (`Replica.ForgottenStep`).
- A property change that moves a connected entry to another address and says "not
  connected" is stored as connected, since absorption ORs the flags, while
  CONNECTION_CHANGED makes the manager answer "not connected"
  (`EndToEnd.ReaddressedWhileConnected`). `EndToEnd.SignalKeepsReplica` gives the
  exact condition for every signal, also for records that are stored without a
  DEVICE_FOUND because they are no news or because a scan filter holds them back.
- Unlike `is_paired`, `is_connected` may depend on the order in which devices were
  first seen; it does not exactly if all matching entries agree
  (`Manager.ConnectedOrderFree`, `Manager.ConnectedDependsOnOrder`).
- The id index keeps former ids: after a device's id has changed, the old one
  still finds it (`DeviceCaches.FormerIdStillFinds`).
- A connection update keeps cache keys coherent exactly if it selects no entry
  under another key (`DeviceCaches.ConnectionCoherence`); storing one record and
  updating once is enough to break it (`DeviceCaches.ConnectionBreaksCoherence`).
- A property change that says "not paired" does not un-pair a cached device: the
  merge keeps the old flag (`Bluez.PropertyChangeIsPatch`).
- Even a signal that carries only a signal strength can change the connection or
  the pairing: it absorbs any other entry whose address text contains the
  device's, flags included (`Bluez.RssiAbsorbsConnection`). It does not exactly if
  the device has the flag already or no absorbed entry has it
  (`Bluez.RssiChangeIsPatch`), and never with addresses as BlueZ writes them
  (`Bluez.CanonicalChangeIsPatch`).
- A cancellation ends a waiting ceremony without its timeout. The rejection comes
  from the script thread, while the queued command, which would submit another one
  and then reset, is not taken until the ceremony is over: the agent's handler and
  the command run on the same worker thread (`Pairing.CancelEndsCeremony`,
  `Pairing.AnswersAreFresh`).
- An adapter that cannot be switched on does not fail initialisation, but its error
  names the operation "initialize", so the manager takes the backend for unavailable
  and never sends `bluetooth_ready` (`EndToEnd.UnpoweredIsNeverReady`).
- The class reference says `bluetooth_ready` waits for the first snapshot; the
  code sends it at the first of initialisation and snapshot
  (`Manager.ReadyIsSentOnce`).
- `tests/test_device_info.cpp` mirrors the address helpers but keeps empty
  groups (lines 31-53) and wants both the grouped and the compact form for a
  match (lines 55-76). The model follows the production code, which drops empty
  groups and accepts either form.

## Model

| member | source | states |
|---|---|---|
| Addresses.NormalizeIdempotent | src/bluetooth_device_info.h:66-71 | normalising twice is normalising once, and does not change validity |
| Addresses.NormalizeFixpoints | src/bluetooth_device_info.h:66-71 | a string is left alone exactly if it has no blank, dash or lower-case letter |
| Addresses.NormalizeConcat | src/bluetooth_device_info.h:66-71 | normalisation distributes over concatenation |
| Addresses.NormalFormOfSpellings | src/bluetooth_device_info.h:66-71 | a string is the normal form of exactly its spellings: blanks anywhere, dashes for colons, small letters for capitals, nothing else |
| Addresses.UsualSpellings | src/bluetooth_device_info.h:66-71 | the dashed form, the small-letter form and the address itself are spellings |
| Addresses.SpellingsAreTheAddress | src/bluetooth_device_info.h:66-99 | every spelling of a canonical address is valid, normalises to it and matches it |
| Addresses.ValidIsSixGroups | src/bluetooth_device_info.h:73-84 | a scan for six groups of two between colons decides validity as splitting does |
| Addresses.ValidShape | src/bluetooth_device_info.h:73-84 | a valid address has exactly twelve characters besides colons and at least seventeen in all |
| Addresses.CanonicalNormalIsValid | src/bluetooth_device_info.h:73-84 | six two-character groups joined by single colons, already normal, are valid |
| Addresses.MatchReflexive | src/bluetooth_device_info.h:86-99 | every string matches itself and its normal form |
| Addresses.MatchSymmetric | src/bluetooth_device_info.h:86-99 | matching is symmetric on all strings |
| Addresses.MatchOnCanonical | src/bluetooth_device_info.h:86-99 | on canonical addresses two match exactly if their normal forms are equal |
| Addresses.NamingMatches | src/bluetooth_device_info.h:86-99 | any text that contains a canonical address, grouped or compact, matches it |
| Addresses.ShortIsNoAddress | src/bluetooth_device_info.h:86-99 | a text of fewer than twelve characters is no address and matches none |
| Addresses.MatchIsNotTransitive | src/bluetooth_device_info.h:92-97 | off them it is not transitive: for any two different addresses a third text matches both |
| WinrtAddress.ParseBluetoothAddress | src/platform/windows/winrt_bluetooth.cpp:8-27 | the loop computes the big-endian value of the six parts, or nothing if a part is no byte; the value is below 2^48 |
| WinrtAddress.NumberIsRead | src/platform/windows/winrt_bluetooth.cpp:17-22 | of a part, blanks, a plus sign and 0x are skipped, the digits are read and the rest is ignored |
| WinrtAddress.NothingToRead | src/platform/windows/winrt_bluetooth.cpp:17-22 | a part without a digit there is no number |
| WinrtAddress.HexValueIsPlace | src/platform/windows/winrt_bluetooth.cpp:17-22 | a digit is worth its place among the sixteen, in either case |
| WinrtAddress.FormatBluetoothAddress | src/platform/windows/winrt_bluetooth.cpp:89-99 | for every uint64 the stream holds the low six bytes in upper-case hex, joined by colons |
| WinrtAddress.ParseOfFormat | src/platform/windows/winrt_bluetooth.cpp:8-27 | parsing a formatted number gives back its low 48 bits |
| WinrtAddress.FormatIsCanonical | src/platform/windows/winrt_bluetooth.cpp:89-99 | formatted text is canonical, valid and a fixed point of normalisation |
| WinrtAddress.FormatOfParse | src/platform/windows/winrt_bluetooth.cpp:8-27 | formatting an accepted text's value gives its normal form exactly if that is six groups of two hex digits |
| WinrtAddress.ReparseOfFormat | src/platform/windows/winrt_bluetooth.cpp:8-27 | lenient parsing is stable: the formatted value of any accepted text parses to the same value below 2^48 |
| WinrtAddress.FirstParsingWindow | src/platform/windows/winrt_bluetooth.cpp:41-56 | finds the leftmost 17-character window that parses, or none parses |
| WinrtAddress.GroupedIsFormatted | src/platform/windows/winrt_bluetooth.cpp:72-79 | pairing hex digits up with colons is formatting the number they spell |
| WinrtAddress.ExtractAddressFromDeviceId | src/platform/windows/winrt_bluetooth.cpp:29-87 | which branch yields what; without the marker the result is empty or normal and parses, and twelve digits yield the format of their value |
| WinrtAddress.DevDigitsAreTheRun | src/platform/windows/winrt_bluetooth.cpp:61-71 | the digits after `Dev_` are the first run of hex digits, in order and in capitals, its first twelve, or none if it is shorter |
| WinrtAddress.MarkedPartIs | src/platform/windows/winrt_bluetooth.cpp:30-39 | the marked part follows the first marker and any dashes and ends at the next dash |
| WinrtAddress.NoMarkedPart | src/platform/windows/winrt_bluetooth.cpp:30-39 | there is none without a marker or with only dashes after the first |
| WinrtAddress.MarkedPartNeedNotParse | src/platform/windows/winrt_bluetooth.cpp:31-39 | with the marker the result need not parse: a family of ids where it does not |
| DeviceRecords.AbsorbedFields | src/bluetooth_device_info.h:121-141 | absorbing entries is a disjunction of flags and a first-good-offer choice of name, class and id; nothing else changes |
| DeviceRecords.AbsorbedIdempotent | src/bluetooth_device_info.h:121-141 | absorbing the same entries a second time changes nothing, even where names are judged by different addresses |
| DeviceRecords.PickKeeps | src/bluetooth_device_info.h:123-135 | a good offer is never lost, and any offer leaves a non-empty text |
| DeviceRecords.AbsentKeysReadAsNothing | src/bluetooth_device_info.h:35-63 | an absent dictionary key reads as an empty text, an unset flag or no strength |
| DeviceRecords.DictionaryRoundTrip | src/bluetooth_device_info.h:20-63 | a record survives its dictionary exactly if it claims its signal strength or has none |
| DeviceTables.StoredKey | src/backend/device_cache.h:15-30 | the merged record still has the key it is stored under, though merging may fill in an id |
| DeviceTables.UpsertPlace | src/backend/device_cache.h:15-30 | a record is stored at its valid address in normal form, else at its id, else at its address as it is |
| DeviceTables.UpsertEntries | src/backend/device_cache.h:36-72 | after storing, the table holds the merged record at its key, no stale entry, and everything else unchanged |
| DeviceTables.UpsertIsFresh | src/backend/device_cache.h:36-72 | no other entry then holds the stored id or matches the stored valid address |
| DeviceTables.UpsertKeepsConsistent | src/backend/device_cache.h:25-73 | storing keeps: paired is discovered filtered by paired, ids unique, addresses normal, keys fitting ids |
| DeviceTables.UpsertKeepsCoherent | src/backend/device_cache.h:15-66 | storing keeps every entry under the key its merged data gives |
| DeviceTables.UpsertEcho | src/bluetooth_manager.cpp:276-315 | in the same tables, storing the merged record and storing the raw one give equal tables |
| DeviceTables.UpsertAgain | src/backend/device_cache.h:25-73 | storing the stored record once more finds nothing stale and changes neither table, order included |
| DeviceTables.UpsertConserves | src/backend/device_cache.h:49-60 | storing loses no pairing, class, id or name: each old entry's data lives on in itself or in its absorber |
| DeviceTables.HelpfulNameStays | src/bluetooth_device_info.h:123-127 | at an entry with a valid address a helpful name stays helpful |
| DeviceTables.AddressNameGivesWay | src/bluetooth_device_info.h:101-127 | a record whose name, edges stripped, is a valid address or matches its own, or who has none, is stored with the old entry's free-text name |
| DeviceTables.ShortNameStays | src/bluetooth_device_info.h:101-127 | a non-empty name of fewer than twelve characters is stored as given |
| DeviceTables.AbsorbedExactly | src/backend/device_cache.h:36-48 | storing takes away exactly the other entries that hold the id or match the valid address |
| DeviceTables.UpdateKeepsConsistent | src/backend/device_cache.h:157-175 | an update of matching entries keeps the same four invariants |
| DeviceCaches.RunKeepsInv | src/backend/device_cache.h:25-199 | after any sequence of upserts, removals and connection updates the table invariants hold and the id index points every held id at its entry |
| DeviceCaches.FindByIdIsExact | src/backend/device_cache.h:80-98 | in every reachable state a held id finds its one entry, as a full scan would; an unheld id is found exactly if the index still points it at an entry, never by the scan |
| DeviceCaches.FormerIdStillFinds | src/backend/device_cache.h:60-63 | a device seen again under another id is still found by its first id |
| DeviceCaches.UpsertStoredAgain | src/backend/device_cache.h:25-73 | in every reachable state re-storing the stored record leaves all four tables unchanged |
| DeviceCaches.RunConserves | src/backend/device_cache.h:49-60 | over any run, removals of other entries included, what an entry knew is known by the entry that took it in |
| DeviceCaches.RunLinuxKeepsInv | src/platform/linux/linux_backend.cpp:430-438 | along Linux runs keys are coherent and the address index holds every entry with a valid address |
| DeviceCaches.LinuxLookupsAreExact | src/backend/device_cache.h:100-130 | along Linux runs any spelling of an entry's valid address resolves to its id and looks it up |
| DeviceCaches.SpellingsFindTheEntry | src/backend/device_cache.h:100-130 | along Linux runs every spelling of a canonical address looks up and resolves the entry there |
| DeviceCaches.LookedUpByAddress | src/backend/device_cache.h:100-115 | an address that is no key is looked up as the first entry in order whose address matches, or not at all |
| DeviceCaches.ResolvedByScan | src/backend/device_cache.h:117-130 | an address that is not indexed resolves to the id of the first entry in order whose key or id it is or whose address matches |
| DeviceCaches.RemovedIsForgotten | src/backend/device_cache.h:187-199 | a removed device is found neither by its id nor, unless another entry matches, by its address; every other device is found as before |
| DeviceCaches.HelpfulNameSurvives | src/bluetooth_device_info.h:123-127 | over any Linux run, removals of other entries included, a helpful name at a valid address survives as long as its entry is neither absorbed nor forgotten and whatever is stored there has a valid address |
| DeviceCaches.ConnectionCoherence | src/backend/device_cache.h:157-175 | a connection update keeps keys coherent exactly if every entry it selects is under that address |
| DeviceCaches.ConnectionBreaksCoherence | src/backend/device_cache.h:157-175 | from the empty cache, a record without an address under an id that contains one, then an update for that address, ends incoherent |
| DeviceCaches.UpdateReadsBack | src/backend/device_cache.h:157-175 | a connection update writes the flag, and a valid address, to every matching entry and to no other, and is then read back |
| DeviceCaches.DeviceCache.Upsert | src/backend/device_cache.h:25-73 | the loops and index writes give exactly the specified next state, and report whether the key was new |
| DeviceCaches.DeviceCache.RemoveLocked | src/backend/device_cache.h:187-199 | erases the entry from both tables, its id from the id index and a valid address from the address index, nothing else |
| DeviceCaches.DeviceCache.UpdateConnectionForAddress | src/backend/device_cache.h:157-175 | the in-place loop rewrites exactly the matching entries of both tables and returns their keys in order |
| DeviceCaches.DeviceCache.FindByDeviceId | src/backend/device_cache.h:80-98 | index first, then the first entry of the scan |
| DeviceCaches.DeviceCache.LookupCachedState | src/backend/device_cache.h:100-115 | the entry at the normal form, else the first whose address matches |
| DeviceCaches.DeviceCache.ResolveDeviceId | src/backend/device_cache.h:117-130 | address index first, then the first entry by key, address or id |
| Manager.HandleAllKeepsTablesInv | src/bluetooth_manager.cpp:117-183 | over every sequence of events the manager's keys stay coherent, ids unique, and paired is discovered filtered by paired |
| Manager.BluetoothManager.UpdateDevicesForAddress | src/bluetooth_manager.cpp:235-264 | updates exactly the matching entries, never re-keys or inserts while iterating, and ends with an empty removal list |
| Manager.BluetoothManager.UpsertDevice | src/bluetooth_manager.cpp:276-315 | the manager's own merge loop computes the same tables as the cache's |
| Manager.BluetoothManager.RemoveDeviceForAddress | src/bluetooth_manager.cpp:195-221 | removes every matching entry and announces the address of the last one that has one |
| Manager.BluetoothManager.SyncDevicesFromSnapshot | src/bluetooth_manager.cpp:223-233 | stores and announces every dictionary of a snapshot in order and skips other values |
| Manager.BluetoothManager.HandleEvent | src/bluetooth_manager.cpp:117-183 | each event gives exactly the specified tables, flags and signals, and keeps the invariants |
| Manager.BluetoothManager.IsPaired | src/bluetooth_manager.cpp:357-369 | the two loops give the answer the query lemmas speak of |
| Manager.BluetoothManager.IsConnected | src/bluetooth_manager.cpp:379-391 | the first matching discovered entry answers, else the first matching paired one |
| Manager.PairedAnswerIsExistence | src/bluetooth_manager.cpp:357-369 | is_paired holds exactly if some matching entry is paired, so its second loop can only answer false |
| Manager.SecondLoopIsIdle | src/bluetooth_manager.cpp:379-391 | the second loop of is_connected never decides |
| Manager.ConnectedOrderFree | src/bluetooth_manager.cpp:379-391 | is_connected gives the same answer in every iteration order exactly if all matching entries agree |
| Manager.ConnectedDependsOnOrder | src/bluetooth_manager.cpp:379-391 | two devices seen in one order and in the other give equal entries and opposite answers |
| Manager.ConnectionReadsBack | src/bluetooth_manager.cpp:156-162 | after CONNECTION_CHANGED is_connected answers its value if any entry matches, and no otherwise |
| Manager.PairingReadsBack | src/bluetooth_manager.cpp:137-143 | after PAIRING_SUCCEEDED is_paired holds exactly if any entry matches |
| Manager.RemovalReadsBack | src/bluetooth_manager.cpp:129-133 | after DEVICE_REMOVED nothing matches its address, or its device's if it has none, and both queries answer false |
| Manager.ConnectionWritesExactly | src/bluetooth_manager.cpp:156-162 | CONNECTION_CHANGED writes its flag to exactly the entries whose key or address matches or whose id it is |
| Manager.PairingWritesExactly | src/bluetooth_manager.cpp:137-143 | PAIRING_SUCCEEDED marks exactly those as paired |
| Manager.RemovalTakesExactly | src/bluetooth_manager.cpp:195-221 | DEVICE_REMOVED takes away exactly the entries whose key or address matches |
| Manager.SignalsFollowEvents | src/bluetooth_manager.cpp:62-183 | scan and pairing signals are the events' marks, in order, one for one |
| Manager.SignalTellsEvent | src/bluetooth_manager.cpp:117-183 | apart from removals, snapshots and initialisation, the whole event can be read off its last signal |
| Manager.UpdateIsAnnounced | src/bluetooth_manager.cpp:266-274 | a connection or pairing event first announces every entry it reaches, with the new data, and no other |
| Manager.RemovalIsTold | src/bluetooth_manager.cpp:195-221 | a removal is told once, with the address of the last entry taken that has one, and not at all if it takes nothing |
| Manager.SnapshotIsTold | src/bluetooth_manager.cpp:168-172 | a snapshot announces its records in order and then the refresh |
| Manager.RadioFollowsLastNews | src/bluetooth_manager.cpp:163-180 | the radio is on unless the last event to speak of it said otherwise |
| Manager.ReadyIsSentOnce | src/bluetooth_manager.cpp:109-115 | bluetooth_ready is sent at most once, and exactly if success was reported before an initialisation error |
| Replica.FoundKeepsReplica | src/platform/linux/linux_backend.cpp:137-154 | from equal tables, an upsert and its handled DEVICE_FOUND give equal tables, for the raw and for the merged record |
| Replica.GoneKeepsReplica | src/bluetooth_manager.cpp:195-221 | after the cache removes an entry, the handled DEVICE_REMOVED gives equal tables exactly if its address matches no other entry's key or address |
| Replica.UnpairKeepsReplica | src/platform/linux/linux_backend.cpp:767-775 | the same for the end of unpair_device with any address: exactly if that address selects just the entry the cache forgets |
| Replica.RemovalReachesItsEntry | src/platform/linux/linux_backend.cpp:79-84 | an entry is always among those its own removal event selects |
| DeviceCaches.EventAddressIsNormal | src/platform/linux/linux_backend.cpp:79-84 | events name an address in normal form however it was written, and other text as it is |
| Replica.CanonicalSelection | src/platform/linux/linux_backend.cpp:79-84 | among canonical addresses a removal event selects the entry under its address and no other |
| Replica.ForgottenStep | src/platform/linux/linux_backend.cpp:767-775 | among canonical addresses unpairing keeps tables equal exactly if the path leads to the entry at the given address or to none |
| Replica.HeldAddressIsSafe | src/platform/linux/linux_backend.cpp:732-742 | an address that an entry with an id holds now resolves to that very entry, so unpairing by it is such a case |
| Replica.UnpairByFormerAddress | src/platform/linux/linux_backend.cpp:767-775 | one path seen at two addresses and unpaired by the first: the cache is empty, the manager keeps the device |
| Replica.ToldStep | src/bluetooth_manager.cpp:156-162 | CONNECTION_CHANGED keeps tables equal exactly if the cache agrees with it at every entry it reaches |
| Replica.StepKeepsReplica | src/platform/linux/linux_backend.cpp:137-154 | for each kind of emitted step on canonical addresses, the exact condition under which equal tables stay equal |
| Replica.EmittedRunKeepsReplica | src/platform/linux/linux_backend.cpp:137-154 | over any run of records, removals, unpairings and connection events that meet that condition the manager's tables stay equal to the cache's |
| Bluez.RecordName | src/platform/linux/linux_backend.cpp:109-135 | a BlueZ object at a canonical address keeps its name, or else its alias, unless that is only an address in any spelling |
| Bluez.RecordClass | src/platform/linux/linux_backend.cpp:118-123 | it is a gamepad exactly if its major class is 5 or its name contains one of the words in any case |
| Bluez.PropertyChangeIsPatch | src/platform/linux/linux_backend.cpp:359-384 | any property change stores what it carries and keeps what it does not, adds the flags of every entry it absorbs, loses no known class or helpful name, changes only absorbed entries and its own key, and absorbs at most its own entry exactly if no third address matches |
| Bluez.CanonicalIsAlone | src/platform/linux/linux_backend.cpp:359-384 | among canonical addresses no third address matches |
| Bluez.CanonicalChangeIsPatch | src/platform/linux/linux_backend.cpp:333-384 | so there the change touches only its own entry and the one at the address it brings; where it is stored and both flags are given exactly |
| Bluez.ChangeInPlace | src/platform/linux/linux_backend.cpp:359-364 | a change without an address leaves an entry at a valid address where it is |
| Bluez.ChangeOfAddressMoves | src/platform/linux/linux_backend.cpp:333-384 | a change with another valid address moves the entry that holds the path there |
| Bluez.ChangeOfUnknown | src/platform/linux/linux_backend.cpp:302-384 | a change for an unknown object is a record of what it carries alone |
| Bluez.PatchClass | src/platform/linux/linux_backend.cpp:118-123 | the class of a patch comes from the class it carries and the name it is left with |
| Bluez.RssiChangeIsPatch | src/platform/linux/linux_backend.cpp:345-384 | a signal with only a signal strength stores it and keeps address, trust, a helpful name and a known class; it keeps connected and paired exactly if the device has the flag or no absorbed entry has it |
| Bluez.RssiAbsorbsConnection | src/platform/linux/linux_backend.cpp:345-384 | two sightings from the empty cache after which such a signal makes an unconnected device connected |
| LinuxBackends.FoundEventsAreCached | src/platform/linux/linux_backend.cpp:137-154 | a DEVICE_FOUND carries exactly the cache's entry and passes the filter while scanning |
| LinuxBackends.FoundEventsExactly | src/platform/linux/linux_backend.cpp:93-154 | a DEVICE_FOUND comes exactly for a new or forced record that has, while scanning, the name, class and strength asked for |
| LinuxBackends.RunIsBracketed | src/platform/linux/linux_backend.cpp:524-730 | over any run with any outcomes each scan is closed by one stop or one start_scan error before the next, each pairing gets one result before the next, and scanning implies initialised and the right deadline |
| LinuxBackends.ScanTimesOut | src/platform/linux/linux_backend.cpp:537-548 | whatever commands come in between, a scan with a positive timeout ends at the first poll past its deadline |
| LinuxBackends.ScanRunsOn | src/platform/linux/linux_backend.cpp:537-584 | a started scan runs, and nothing closes it, until a stop, a shutdown or a poll at or past its deadline |
| LinuxBackends.ScanEndsAtDeadline | src/platform/linux/linux_backend.cpp:543-547 | a poll stops it exactly if it comes at or past the deadline |
| LinuxBackends.StartOutcome | src/platform/linux/linux_backend.cpp:550-584 | a start without a backend does nothing, one during a scan leaves it alone, and one that fails says so and leaves none |
| LinuxBackends.StoppedIsStopped | src/platform/linux/linux_backend.cpp:524-599 | stopping twice is stopping once; after a shutdown nothing runs or polls until the next initialisation |
| LinuxBackends.PairLeavesScan | src/platform/linux/linux_backend.cpp:601-719 | a pairing attempt leaves the scan alone and initialises only by the refresh of a success |
| LinuxBackends.LinuxBackend.UpsertDevice | src/platform/linux/linux_backend.cpp:137-154 | the cache stores the record and exactly the specified event is emitted |
| LinuxBackends.LinuxBackend.StartScanning | src/platform/linux/linux_backend.cpp:550-584 | scan state, deadline and marks for every outcome of its calls |
| LinuxBackends.LinuxBackend.StopScanning | src/platform/linux/linux_backend.cpp:586-599 | closes a running scan once and does nothing otherwise |
| LinuxBackends.LinuxBackend.PollOnce | src/platform/linux/linux_backend.cpp:537-548 | handles all signals in order, emitting exactly their events, then stops the scan exactly if its deadline has passed |
| LinuxBackends.SignalsInTurn | src/platform/linux/linux_backend.cpp:537-548 | signals take effect in turn, each on the cache the ones before it leave |
| LinuxBackends.LinuxBackend.ShutDown | src/platform/linux/linux_backend.cpp:524-535 | stops the scan and leaves the backend uninitialised |
| LinuxBackends.LinuxBackend.RefreshPairedDevices | src/platform/linux/linux_backend.cpp:862-868 | initialises if need be, stores every managed object and emits exactly the snapshot of the paired table after its errors |
| LinuxBackends.PathIsFirstMatch | src/platform/linux/linux_backend.cpp:156-178 | an address the cache does not resolve leads to the first managed object whose address matches, which is cached, or nowhere |
| LinuxBackends.PairingOutcome | src/platform/linux/linux_backend.cpp:656-719 | what each kind of pairing attempt ends in, and what it leaves in the cache |
| LinuxBackends.PairingByIdOutcome | src/platform/linux/linux_backend.cpp:601-730 | which address a pairing by id goes by, and what it ends in |
| LinuxBackends.PairingIsTold | src/platform/linux/linux_backend.cpp:636-645 | a granted pairing announces the device as cached and then the success; a device already paired just succeeds |
| LinuxBackends.PairingIsRun | src/platform/linux/linux_backend.cpp:636-719 | what it leaves in the cache is a run of sightings: the device as BlueZ has it, then all managed objects if it could refresh |
| LinuxBackends.EnumerationIsRun | src/platform/linux/linux_backend.cpp:180-192 | an enumeration is a run of sightings, one for each managed object in order |
| LinuxBackends.FailedEnumeration | src/platform/linux/linux_backend.cpp:180-186 | one that fails caches nothing and says so |
| LinuxBackends.StartMarks | src/platform/linux/linux_backend.cpp:550-584 | the events of a scan start carry exactly the marks by which the trace grows |
| LinuxBackends.PairingMarks | src/platform/linux/linux_backend.cpp:601-719 | the events of a pairing attempt carry its start and its one result and no other mark |
| LinuxBackends.PairingIsCached | src/platform/linux/linux_backend.cpp:636-645 | a device BlueZ reports as paired is then looked up as paired |
| LinuxBackends.LinuxBackend.PairDevice | src/platform/linux/linux_backend.cpp:656-719 | one start, one result, success exactly if the address is valid, a path is found and the device is or becomes paired |
| LinuxBackends.LinuxBackend.PairDeviceAtPath | src/platform/linux/linux_backend.cpp:601-654 | one start, one result for a known path, success exactly if the device is or becomes paired |
| LinuxBackends.LinuxBackend.PairDeviceById | src/platform/linux/linux_backend.cpp:721-730 | the same by device id, reporting the cached address if there is one |
| LinuxBackends.LinuxBackend.HandlePropertiesChanged | src/platform/linux/linux_backend.cpp:359-394 | stores the patched record and emits its events |
| LinuxBackends.LinuxBackend.HandleInterfaceRemoved | src/platform/linux/linux_backend.cpp:430-438 | forgets the entry found by path and announces its address, or does nothing |
| LinuxBackends.LinuxBackend.ForgetUnpaired | src/platform/linux/linux_backend.cpp:767-775 | forgets the entry found by path, or else the one at the address |
| Pairing.AgentHandle | src/platform/linux/bluez_agent.cpp:101-152 | the reply is decided by what the other threads did last while the agent waited; the state is clear afterwards |
| Pairing.AnswersAreFresh | src/backend/pairing_pending.h:19-53 | over all interleavings only submissions of the script fall between begin and wake, no reset and no queued cancel; an answer is the last of them, and without one it timed out |
| Pairing.RepliesAreFresh | src/platform/linux/bluez_agent.cpp:101-139 | a confirmation is accepted and a PIN given exactly on an accepting last submission of that ceremony; the PIN is its non-empty PIN |
| Pairing.NoAnswerIsReused | src/backend/pairing_pending.h:19-53 | the windows of two ceremonies are disjoint, so no submission answers two prompts |
| Pairing.StateShowsCeremony | src/backend/pairing_pending.h:19-68 | over all interleavings the state shows path, kind and PIN of the ceremony that is on, and nothing between ceremonies |
| Pairing.WaitBlocksWorker | src/platform/linux/linux_backend.cpp:883-886 | while a ceremony waits, no queued cancel is taken and nothing but a script submission touches the pairing state |
| Pairing.CancelEndsCeremony | src/bluetooth_manager.cpp:425-430 | a rejection submitted while a ceremony waits ends it without a timeout, whatever happens before the agent wakes short of another submission, cancel commands queued included |
| Pairing.CancelsAreServed | src/platform/linux/linux_backend.cpp:883-886 | in every run each queued cancel is waiting, being served, or has submitted its one rejection |
| Pairing.RejectionIsFinal | src/platform/linux/bluez_agent.cpp:101-139 | in every run a confirmation or PIN request whose last submission is a rejection is rejected |
| Worker.ThreadSafeQueue.FinishWaitPop | src/threading/thread_safe_queue.h:31-46 | takes the first item if there is one, and nothing else |
| Worker.ThreadSafeQueue.Reset | src/threading/thread_safe_queue.h:56-62 | drains the queue and clears the stop flag |
| Worker.WorkerThread.Start | src/threading/worker_thread.cpp:13-23 | drains both queues and begins a cycle in the state all runs start from, or does nothing if running |
| Worker.WorkerThread.StopFirst | src/threading/worker_thread.cpp:25-30 | pushes the shutdown command on the queue object, or does nothing if not running: the step of the system |
| Worker.WorkerThread.FinishWaitPop | src/threading/worker_thread.cpp:96-102 | what the queue's wait returns decides between a command and a poll: the step of the system |
| Worker.WorkerThread.FinishCommand | src/threading/worker_thread.cpp:108-118 | a processed shutdown command clears running: the step of the system |
| Worker.QueuesAreFifo | src/threading/worker_thread.cpp:67-106 | in any interleaving processed commands are a prefix of those enqueued, handled events of those emitted, and nothing is lost |
| Worker.AtMostOneMore | src/threading/worker_thread.cpp:96-103 | once running is false at most one more command is processed |
| Worker.InitialisationIsReported | src/threading/worker_thread.cpp:81-95 | initialisation is reported as it went, and the loop is entered only after a success |
| Worker.StopKeepsProtocol | src/threading/worker_thread.cpp:25-37 | in every interleaving the worker runs exactly until a shutdown command is processed or stop clears the flag, the queue is stopped after that, and stop returns only when the worker has ended |
| Worker.StopPushesOnce | src/threading/worker_thread.cpp:25-30 | one shutdown command is enqueued, from the moment stop begins |
| Worker.EmissionsReachQueue | src/threading/worker_thread.cpp:76-106 | what the backend emits in any of its calls reaches the queue, and between them it emits nothing |
| Worker.ShutdownRunsOnce | src/threading/worker_thread.cpp:81-105 | the backend is shut down exactly once if it was initialised, and never otherwise |
| Worker.WorkerCanMove | src/threading/worker_thread.cpp:96-105 | a worker that has not ended can always move on: every wait in its loop has a time limit |
| Worker.StoppedWorkerEnds | src/threading/worker_thread.cpp:96-105 | after running is cleared the worker makes at most five more moves, whatever the other threads do, and then has ended |
| EndToEnd.SignalsArePrefix | src/bluetooth_manager.cpp:62-72 | the scan and pairing signals sent are always a prefix of what the backend emitted, and well bracketed if that is |
| BackendRuns.EmittedIsBracketed | src/threading/worker_thread.cpp:67-106 | with the backend running its commands inside the worker's calls, what has been emitted is well bracketed in every interleaving, and no scan or pairing is open when the worker has ended |
| EndToEnd.SignalsAreBracketed | src/bluetooth_manager.cpp:62-72 | so the signals sent are well bracketed in every interleaving, and all is closed once the worker has ended and the queue is empty |
| EndToEnd.UpsertKeepsReplica | src/platform/linux/linux_backend.cpp:137-154 | for an upsert with or without its DEVICE_FOUND and with or without a CONNECTION_CHANGED, the exact condition under which equal tables stay equal |
| EndToEnd.SignalKeepsReplica | src/platform/linux/linux_backend.cpp:359-438 | the handled events of any BlueZ signal, while scanning under any filter or not, keep the manager's tables equal to the cache's: always for disappearing objects and prompts; for an appearing one exactly if no filter holds it back or it adds nothing; for a property change exactly if it is announced and its connection agrees with what is stored, or is not and adds nothing but the connection it tells |
| EndToEnd.SignalsKeepReplica | src/platform/linux/linux_backend.cpp:537-548 | the same over exactly the events `LinuxBackend.PollOnce` emits, however late the manager handles them |
| EndToEnd.ReaddressedWhileConnected | src/platform/linux/linux_backend.cpp:333-393 | the failing family, scanning or not: a connected entry re-addressed with Connected=false is connected in the cache and not in the manager's answer |
| EndToEnd.ReaddressedFromStart | src/platform/linux/linux_backend.cpp:333-393 | two sightings from the empty state reach it |
| EndToEnd.CachePairedIsBluez | src/platform/linux/linux_backend.cpp:86-91 | the paired table of a cache with canonical addresses and object paths meets the next row's condition |
| EndToEnd.SnapshotReachesManager | src/bluetooth_manager.cpp:223-233 | after a snapshot of the cache's paired devices the manager answers that each of them is paired |
| EndToEnd.RefreshReachesManager | src/platform/linux/linux_backend.cpp:862-868 | after the events of a refresh the manager answers paired for all the cache then holds as paired |
| EndToEnd.StartReachesManager | src/platform/linux/linux_backend.cpp:550-584 | so it does after the events of a scan start, even if the scan fails |
| EndToEnd.ScriptIsAsked | src/platform/linux/linux_backend.cpp:481-497 | the script is asked with the path, kind and PIN the agent began the ceremony with |
| EndToEnd.InitialisationIsHeard | src/platform/linux/linux_backend.cpp:209-231 | the manager takes the backend for unavailable exactly if initialisation failed or the adapter could not be switched on |
| EndToEnd.UnpoweredIsNeverReady | src/bluetooth_manager.cpp:109-115 | in the latter case bluetooth_ready is never sent |

## Left out

- D-Bus messages, the BlueZ proxy, agent registration and the library loader: their outcomes are arbitrary inputs.
- The Windows backend: WinRT enumeration, watchers and its own pairing are opaque calls; of it only the address helpers are modelled.
- The macOS stub, backend factory, capability tables, platform names, error-code strings and free message texts.
- `connect_device`, `disconnect_device` and the disconnect half of `unpair_device` as methods: a run of commands counts them as `Quiet`, since they emit neither a scan nor a pairing mark; what they store and tell is `Found` and `Told` in `Replica.StepKeepsReplica`.
- Strings are ASCII: other letters are not case-mapped, and a NUL inside an address part is not modelled.
- Mutexes, condition variables and clocks: a locked section is one atomic step and time is a number.
- WorkerThread: a call of `stop` and the thread loop appear as one method per atomic step, each equal to a step of the system the theorems are about; every start begins a fresh cycle.
- Records inside hash maps are written back as values: the C++ aliasing of `item.value` during iteration is not modelled.
- UpsertTables: `Manager.BluetoothManager.UpsertDevice` and `DeviceCaches.DeviceCache.Upsert` share this specification; each has its own loops proved against it.
- DeviceCaches.RunConserves: names are covered by `HelpfulNameSurvives` alone, over Linux runs, since a connection update can change the address a name is judged by.
- Replica.EmittedRunKeepsReplica: upserts without an event make the manager lag on purpose and are no steps of these runs; for signals `EndToEnd.SignalKeepsReplica` says exactly when they do, and after one the equality of tables is not taken up again.
