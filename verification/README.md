# Kylin network manager: list mirroring, locks and file rewriting

This project models the stateful core of the Kylin network manager and proves what that
core is relied on for.

* **Wireless list.** Every wireless device keeps an ordered list of connection records
  (`NetDevices`, `KeeperOrder`, `RankFields`). The interface object that QML reads holds a mirror of the
  current device's list, and the list view holds one row per mirror entry (`ViewModel`,
  `RowColumns`, `Mirror`, `Interfaces`). Backend signals change the keeper (`WlanSpec`, `WlanKeepers`, `WlanEffects`);
  the mirror and the rows are then patched piecemeal or rebuilt. `PassCondition` says
  for any two lists when the incremental pass gives what the rebuild gives;
  `MirrorTheorems`, `WlanRuns` and `DeviceSwitch` carry that over every run of signals,
  pauses, device switches and auto-connect calls; `CoverRuns` proves rows and indices
  right over every run; `UuidRuns` proves that no scan loops.
* **Wired list.** Several devices share connections; an update moves a connection from one
  device's list to another's (`LanSpec`, `LanKeepers`, `LanEffects`, `LanRuns`).
* **Single instance.** A per-process lock object over the system's record-lock table, the
  choice of the primary instance, and the length-prefixed message between instances
  (`FileLocks`, `SingleInstance`, `LocalPeers`).
* **Resolver files.** Line rewriting of resolv.conf and dnsmasq.conf through a reader that
  cuts lines at 1023 bytes, against what a resolver reads in those lines (`LineBuffer`,
  `DnsFiles`, `ResolvLines`, `DnsTheorems`, `DnsRuns`, `DnsEffects`).
* **Hidden USB list and Wi-Fi item list.** Normalising, de-duplicating and storing pairs
  under printed keys (`UsbPairs`, `UsbTheorems`, `UsbForms`), and the in-place reordering of the
  control-center plugin's Wi-Fi items (`WifiResort`).

A class stands for each object whose fields the source updates; its methods run the
source's loops and are proved against a function on values. The theorems are lemmas
about those functions, so they hold of the methods; the effect modules say of each signal
which fields, positions and lines it changes and that nothing else does, without those
functions' names. `SeqOps`, `Text`, `TextFacts`, `Options`, `KeyOrder`,
`Records`, `Names` and `DataKeepers` hold what several of them share. `dafny verify dfyconfig.toml`
checks everything.

## What the source does not do

Where the source departs from its purpose, the model does what the source does, a lemma
shows the departure, and a second one gives the exact condition under which it does not
happen.

| departure | shown by | exact condition |
|---|---|---|
| A loop that advances after `removeAt(i)` skips the next entry (three places). | `MirrorTheorems.AdjacentStaleSurvives` | `SeqOps.SkippingRemovesAllIff`, `MirrorTheorems.DiffPassPermutesIff`, `LanSpec.PathRemovedIff` |
| `updateConnection` never gets past a record without a Uuid. | `UuidRuns.NineFieldsStopTheScan` | `NetDevices.ScanEndsIff` |
| `addConnection` compares whole records, so a name can appear twice. | `Names.DuplicateInsertAt` | `KeeperOrder.InsertNamesIff` |
| Leaving the active state rewrites the record in place, which can break the order. | `KeeperOrder.DeactivationBreaksOrder` | `KeeperOrder.ReplaceOrderIff`, `KeeperOrder.UpdateConnectionOrder` |
| The auto-connect call patches mirror and rows but not the keeper. | `WlanRuns.AutoConnectUnsyncs` | `WlanRuns.AutoConnectSyncIff` |
| Before a device is chosen, two property updates in a row can hand the view model an index past the end. | `CoverRuns.UnchosenRunMisses` (a run; a device goes unchosen while the first entry of the device map is a null pointer, which an unavailable adapter can leave) | `CoverRuns.EveryRunFitsIff`: a device is chosen, or the record's rank in its device's list fits the number of rows |
| After a switch to another device the mirror can hold the new list in another order, or old entries besides. | `DeviceSwitch.SwitchReverses` | `DeviceSwitch.SwitchIff`, `PassCondition.PassIff`; the next rebuild repairs it (`WlanRuns.RebuildRestores`) |
| A path whose uuid the device does not know is added beside the old record. | `LanSpec.UnpairedPathDoubles` | `LanSpec.TakeOverOnceIff` |
| `updateLanInfo` with an empty path drops every other device from the map. | `LanSpec.EmptyPathForgets` | `LanSpec.EmptyPathDropsDevices` |
| `lock()` is documented (src-vpn/singleapplication/qt-locked-file.cpp:168-169) to tell whether the file is locked afterwards; it can say no while the old lock stays. | `FileLocks.RefusedWhileHeld` | `FileLocks.LockReportsTruthIff` |
| `FileLocks.LockTakesWanted` | src-vpn/singleapplication/qt-locked-file-unix.cpp:49-81 | a granted request leaves exactly the wanted lock, recorded and in the table, a refused one the old lock or none; without waiting no other process's lock changes |
| The test for the local resolver is a prefix test, so 127.0.0.11 passes for it: no local resolver is put in front of it, and a deletion loses it. | `DnsTheorems.NeighbourMistaken` | `DnsTheorems.InsertedServesIff`, `DnsTheorems.DeletedExactlyIff` |
| An options text with a line break never ends up as one options line. | `DnsRuns.LineBreakSplitsOptions` | `DnsRuns.UpdateReflectsIff` |
| On a resolv.conf whose last line has no newline the options text is glued to that line, and the next update drops both; a dnsmasq.conf line can be too long for the word to fit behind it. | `DnsRuns.MissingNewlineGlues` | `DnsTheorems.WriteOptionsIff`, `DnsTheorems.AfterDnsmasq` |
| A message whose rest does not arrive in time is still delivered, with whatever the buffer held, and acknowledged. | `LocalPeers.ReceiveConnection` | `LocalPeers.ReceiveConnection`: the message is the one sent when all of the stream arrives |

## Model

| member | source | states |
|---|---|---|
| `DeviceSwitch.EveryRunInSync` | qml-network/plugin/knminterface.cpp:270-882 | over every run of signals and calls, device switches, pauses, resumes and auto-connect calls included, each of which meets its exact condition: nothing runs off a list or scans for ever, every index given to the view model exists; when not paused mirror and rows equal what a full rebuild gives, while paused the mirror is a permutation of the keeper list with its own rows |
| `DeviceSwitch.StepAgreesIff` | qml-network/plugin/knminterface.cpp:270-882 | one signal or call of any kind, paused or not: mirror and keeper agree after it exactly under that condition |
| `DeviceSwitch.OneDeviceAgrees` | qml-network/plugin/knminterface.cpp:270-846 | on one device, without auto-connect calls, no condition is left |
| `PassCondition.PassIff` | qml-network/plugin/knminterface.cpp:309-399 | for any mirror and any list, names shared or not, the pass gives exactly the list if and only if the entries left by the removal loop have their names in the list, in its order, and each record to be taken up ranks behind all records before it in the list and before the first such entry after it |
| `PassCondition.TurnIff` | qml-network/plugin/knminterface.cpp:323-399 | the same from any turn of the second loop on |
| `PassCondition.CondFromIff` | qml-network/plugin/knminterface.cpp:323-399 | the condition read off the two lists is the one that the turns of the loop check one by one |
| `PassCondition.UpsertAllKeepsNames` | qml-network/plugin/knminterface.cpp:323-399 | the second loop never changes the order of two names in the mirror |
| `DeviceSwitch.SwitchIff` | qml-network/plugin/knminterface.cpp:287-402 | a switch from sync to any device stays in sync exactly when nothing was shown or the left entries meet the condition of the pass |
| `WlanRuns.StepMirrors` | qml-network/plugin/knminterface.cpp:270-846 | one signal or call of such a run, paused or not |
| `WlanRuns.PausedAdd` | qml-network/plugin/knmwlandatakeeper.cpp:357-374 | while paused, an added network leaves the mirror a permutation of the new list, rows in lockstep |
| `WlanRuns.PausedRemove` | qml-network/plugin/knmwlandatakeeper.cpp:376-391 | so does a removed one |
| `WlanRuns.StepInSync` | qml-network/plugin/knmwlandatakeeper.cpp:294-442 | one signal of any kind: the incremental code ends in the state of a full rebuild, and asks for no missing index |
| `WlanRuns.RebuildStartsInSync` | qml-network/plugin/knminterface.cpp:270-283 | the full rebuild puts the interface in sync with the chosen device, or with the first one in key order when none was chosen |
| `CoverRuns.EveryRunRowsFollow` | qml-network/plugin/wirelessconnectionmodel.cpp:134-273 | once a device is chosen and its names are covered by the mirror, over every run with device switches, pauses and auto-connect patches every index exists, the rows stay exactly the mirror mapped to rows, and the names stay covered |
| `CoverRuns.EveryRunFitsIff` | qml-network/plugin/knminterface.cpp:771-846 | over every run from a state with rows in lockstep and, if a device is chosen, its names covered: every index exists exactly when each property signal that comes before a device is chosen fits the rows, and then rows and mirror are in lockstep at the end |
| `CoverRuns.UnchosenRunMisses` | qml-network/plugin/knminterface.cpp:771-830 | two property signals before a device is chosen, the second of which asks for an index past the rows |
| `CoverRuns.InSyncCovers` | qml-network/plugin/knminterface.cpp:270-283 | an interface in sync, paused or not, covers its device's names |
| `CoverRuns.SelectCovers` | qml-network/plugin/knminterface.cpp:287-402 | so does any interface after the choice of a device |
| `CoverRuns.CoveredFits` | qml-network/plugin/knminterface.cpp:828-842 | with the names covered the keeper's place for a record always exists in the rows |
| `CoverRuns.CoveredSize` | qml-network/plugin/knminterface.cpp:828-842 | distinct names covered by the mirror are no more than its entries |
| `CoverRuns.StepRowsFollow` | qml-network/plugin/knminterface.cpp:287-882 | one call or signal, whatever the mirror holds: the index exists exactly when a device is chosen or the record's rank fits the rows, and then rows and mirror stay in lockstep |
| `WlanRuns.PausedRun` | qml-network/plugin/knminterface.cpp:751-826 | while reordering is paused any run of property changes keeps the mirror's order of names; resuming makes mirror and keeper list equal |
| `WlanRuns.PausedStep` | qml-network/plugin/knminterface.cpp:814-826 | one property change while paused keeps all that, and asks for no missing index |
| `WlanRuns.PauseEnters` | qml-network/plugin/knminterface.cpp:751-766 | pausing an in-sync interface enters that mode |
| `WlanRuns.AutoConnectSyncIff` | qml-network/plugin/knminterface.cpp:850-882 | the auto-connect call keeps mirror and keeper equal exactly when no record has the uuid or the first such record already stores the value |
| `WlanRuns.AutoConnectUnsyncs` | qml-network/plugin/knminterface.cpp:850-882 | one record whose patch leaves the mirror different from the keeper |
| `WlanRuns.RebuildRestores` | qml-network/plugin/knminterface.cpp:270-283 | whatever the mirror holds, the next activation signal or the end of a pause puts the interface in sync |
| `WlanRuns.ListsStayGood` | qml-network/plugin/knmwlandatakeeper.cpp:294-442 | every admissible signal keeps every device list duplicate-free by name, with a Uuid on every record and Configured in 0 or 1 |
| `WlanRuns.GoodListScans` | qml-network/plugin/netdevice.cpp:138-159 | on such a list the scan by uuid ends after finitely many turns |
| `WlanRuns.ActivateFrame` | qml-network/plugin/knmwlandatakeeper.cpp:312-333 | activation by name moves one record to the front and changes of it only Uuid, State and (when complete) Configured; the other records keep content and order |
| `WlanRuns.BulkLoadSorts` | qml-network/plugin/knmwlandatakeeper.cpp:267-291 | loading pairwise different rows into a cleared wireless device gives a sorted permutation of them with the active row first |
| `UuidRuns.EveryRunScansEnd` | qml-network/plugin/netdevice.cpp:138-159 | if every backend row has ten fields, then over every run, for any names and states, every record carries a Uuid and no scan loops |
| `UuidRuns.StepKeepsUuid` | qml-network/plugin/knmwlandatakeeper.cpp:312-330 | loading, activation, deactivation and property updates keep a Uuid on every record |
| `UuidRuns.NineFieldsStopTheScan` | qml-network/plugin/knmwlandatakeeper.cpp:132-160 | a nine-field row is accepted without a Uuid and makes the next scan loop |
| `MirrorTheorems.DiffPassMembers` | qml-network/plugin/knminterface.cpp:309-399 | for any two duplicate-free lists the pass leaves a duplicate-free mirror holding exactly the keeper records and those surviving entries whose name the keeper no longer has |
| `MirrorTheorems.ExtrasAreSkipped` | qml-network/plugin/knminterface.cpp:312-321 | every extra is a stale entry right after a removed stale entry |
| `MirrorTheorems.DiffPassPermutesIff` | qml-network/plugin/knminterface.cpp:309-399 | the mirror becomes a permutation of the keeper list exactly when every entry the removal loop leaves still has its name in the keeper; no two adjacent stale entries suffices |
| `DeviceSwitch.DiffPassReinserts` | qml-network/plugin/knminterface.cpp:309-399 | with nothing left over the mirror is the list inserted record by record |
| `DeviceSwitch.ReinsertsIff` | qml-network/plugin/netdevice.cpp:53-100 | inserting a list record by record gives it back exactly when no record is at least as good as an earlier one |
| `DeviceSwitch.FallingMeans` | qml-network/plugin/netdevice.cpp:53-100 | that is: ordered, at most one record active, no two others of one rank |
| `DeviceSwitch.SwitchInSyncIff` | qml-network/plugin/knminterface.cpp:287-402 | for a device with other names: exactly when nothing was shown, or one entry and the new list is strictly falling |
| `DeviceSwitch.SwitchToEqual` | qml-network/plugin/knminterface.cpp:287-402 | for a device with the same list: always |
| `DeviceSwitch.SwitchReverses` | qml-network/plugin/knminterface.cpp:287-402 | a switch after which the mirror holds two networks in the opposite order |
| `MirrorTheorems.AdjacentStaleSurvives` | qml-network/plugin/knminterface.cpp:312-321 | two adjacent stale entries: the second one stays |
| `MirrorTheorems.DiffPassLockstep` | qml-network/plugin/knminterface.cpp:309-399 | the pass keeps the rows equal to the mapped mirror although the view model moves active rows to the front |
| `MirrorTheorems.DiffUnchanged` | qml-network/plugin/knminterface.cpp:309-399 | an unchanged keeper list: the pass changes nothing |
| `MirrorTheorems.DiffAfterInsert` | qml-network/plugin/knminterface.cpp:323-399 | one insertion in the keeper: the pass inserts at the same place |
| `MirrorTheorems.DiffAfterRemove` | qml-network/plugin/knminterface.cpp:312-321 | one removal in the keeper: the pass removes the same entry |
| `MirrorTheorems.SlotsAgree` | qml-network/plugin/knminterface.cpp:352-396 | the interface's own copy of the sorting rule picks the keeper's place when Configured is 0 or 1 |
| `MirrorTheorems.MoveInLockstep` | qml-network/plugin/knminterface.cpp:828-842 | an unpaused move puts the record at the keeper's index in mirror and rows alike |
| `MirrorTheorems.PropAfterUpdate` | qml-network/plugin/knminterface.cpp:771-846 | from sync, a property update lands where the keeper put the record, and the index exists |
| `MirrorTheorems.UpdatedPlace` | qml-network/plugin/netdevice.cpp:230-279 | a property update puts the record at its rank, an active one first |
| `MirrorTheorems.PropLockstep` | qml-network/plugin/knminterface.cpp:771-846 | a property update whose index exists keeps rows and mirror in lockstep whatever the mirror held, because an active record just updated is first in the keeper |
| `MirrorTheorems.PropIndexIff` | qml-network/plugin/knminterface.cpp:828-842 | the index exists exactly when the rank the record gets in the keeper fits the number of rows |
| `MirrorTheorems.PausedUpdate` | qml-network/plugin/knminterface.cpp:814-826 | the same replacement in mirror and keeper, names in place |
| `Interfaces.KnmInterface.GetWirelessDevConnListOf` | qml-network/plugin/knminterface.cpp:287-402 | the two loops compute the incremental pass: removal with a skip, then replace by name or insert by rank |
| `Interfaces.KnmInterface.RemoveStaleEntries` | qml-network/plugin/knminterface.cpp:312-321 | the removal loop with its skipped index |
| `Interfaces.KnmInterface.UpdateOrInsertAll` | qml-network/plugin/knminterface.cpp:323-399 | the insert-or-replace loop |
| `Interfaces.KnmInterface.InsertBySortRule` | qml-network/plugin/knminterface.cpp:352-397 | the new record goes before the first entry it is at least as good as |
| `Interfaces.KnmInterface.RebuildCurrentWirelessList` | qml-network/plugin/knminterface.cpp:270-283 | mirror and rows become the keeper list of the current device, chosen as the first one when there is none |
| `Interfaces.KnmInterface.WirelessDevConnListPropUpdate` | qml-network/plugin/knminterface.cpp:771-846 | ignored for another device; else replace in place, move, insert or reload, with the pause mode; tells when the index lies past the rows, where the original is undefined |
| `Interfaces.KnmInterface.SetWirelessListReorderPaused` | qml-network/plugin/knminterface.cpp:751-766 | pausing changes the flag only, resuming rebuilds, and a call during a resume does nothing |
| `Interfaces.KnmInterface.SetNetworkConnectAutoConnectState` | qml-network/plugin/knminterface.cpp:850-882 | patches the first record with the uuid in mirror and rows and leaves the keeper alone |
| `ViewModel.WirelessConnectionModel.AddConnection` | qml-network/plugin/wirelessconnectionmodel.cpp:134-153 | an active row goes to the front whatever index was given; tells when the vector does not have the index |
| `ViewModel.WirelessConnectionModel.RemoveConnection` | qml-network/plugin/wirelessconnectionmodel.cpp:155-164 | the first row with the id goes, if any |
| `ViewModel.WirelessConnectionModel.FindIndexById` | qml-network/plugin/wirelessconnectionmodel.cpp:222-230 | the first row with the id, or -1 |
| `ViewModel.WirelessConnectionModel.RefreshConnections` | qml-network/plugin/wirelessconnectionmodel.cpp:208-220 | the rows become the list mapped to rows |
| `ViewModel.WirelessConnectionModel.ReplaceConnection` | qml-network/plugin/wirelessconnectionmodel.cpp:248-273 | the first row with the same id is replaced in place |
| `ViewModel.LockstepInsert` | qml-network/plugin/wirelessconnectionmodel.cpp:134-153 | inserting row and record at the same place keeps rows equal to the mapped list, if an active record goes to place 0 |
| `ViewModel.LockstepRemove` | qml-network/plugin/wirelessconnectionmodel.cpp:155-164 | with distinct names removing by name removes the row of the removed record |
| `ViewModel.LockstepReplace` | qml-network/plugin/wirelessconnectionmodel.cpp:248-273 | with distinct names replacing by name replaces the row of the replaced record |
| `RowColumns.TextColumns` | qml-network/plugin/wirelessconnectionmodel.cpp:186-206 | storing a text under Name, Signal or Security changes just the column of that name, to that text |
| `RowColumns.MoreTextColumns` | qml-network/plugin/wirelessconnectionmodel.cpp:186-206 | the same for Uuid, isApConn and category |
| `RowColumns.NumberColumns` | qml-network/plugin/wirelessconnectionmodel.cpp:186-206 | a stored state or Configured number is the column's number; a category is shown in decimal |
| `RowColumns.FrequencyColumn` | qml-network/plugin/wirelessconnectionmodel.cpp:186-206 | the frequency is read as an unsigned number of 32 bits |
| `RowColumns.YesNoColumns` | qml-network/plugin/wirelessconnectionmodel.cpp:186-206 | Loading, isMix and autoConnect are yes exactly for a number other than 0 |
| `RowColumns.ParsedColumns` | qml-network/plugin/wirelessconnectionmodel.cpp:186-206 | a number stored as text, with any blanks around it, is shown as that number |
| `RowColumns.BoolColumns` | qml-network/plugin/wirelessconnectionmodel.cpp:186-206 | the texts that mean no |
| `RowColumns.TrueColumns` | qml-network/plugin/wirelessconnectionmodel.cpp:186-206 | other texts mean yes |
| `RowColumns.EmptyRow` | qml-network/plugin/wirelessconnectionmodel.cpp:186-206 | the row of a record without fields |
| `RowColumns.HiddenFields` | qml-network/plugin/wirelessconnectionmodel.cpp:186-206 | the fields of wired connections do not show |
| `KeeperOrder.EveryRunIsOrdered` | qml-network/plugin/netdevice.cpp:53-279 | from an empty device, over every run of the mutators (state updates to ACTIVATED), the list is ordered |
| `KeeperOrder.OrderedMeans` | qml-network/plugin/netdevice.cpp:53-100 | ordered means: an active prefix, then configured before unconfigured, then falling signal |
| `KeeperOrder.InsertPlace` | qml-network/plugin/netdevice.cpp:66-98 | in an ordered list a new record lands behind exactly the records that beat it, so before its equals |
| `KeeperOrder.ReplaceOrderIff` | qml-network/plugin/netdevice.cpp:138-159 | a rewrite in place keeps the order exactly when the record fits between its neighbours |
| `KeeperOrder.UpdateConnectionOrder` | qml-network/plugin/netdevice.cpp:138-159 | a state update keeps the order when it is to ACTIVATED, otherwise exactly under that condition |
| `KeeperOrder.DeactivationBreaksOrder` | qml-network/plugin/netdevice.cpp:150-155 | a two-record list whose order a deactivation breaks |
| `KeeperOrder.InsertNamesIff` | qml-network/plugin/netdevice.cpp:53-57 | names stay distinct exactly when the very record is there already or its name is new |
| `KeeperOrder.RestateFrame` | qml-network/plugin/netdevice.cpp:138-228 | a state or connectivity update touches one record and only the given fields; the others keep content and order, the length stays |
| `KeeperOrder.UpdatePropFrame` | qml-network/plugin/netdevice.cpp:230-279 | a property update touches the named record and only the eight fields it carries |
| `KeeperOrder.UpdatePropNames` | qml-network/plugin/netdevice.cpp:230-279 | it keeps names distinct and tells where the record ends up |
| `KeeperOrder.InsertAllSorts` | qml-network/plugin/netdevice.cpp:53-100 | adding records one by one to an ordered list leaves it ordered |
| `KeeperOrder.InsertAllPermutes` | qml-network/plugin/netdevice.cpp:53-100 | adding pairwise different new records loses and doubles none |
| `KeeperOrder.EqualRanksReverse` | qml-network/plugin/netdevice.cpp:53-100 | inactive records of one rank end up behind the active prefix in reverse order of insertion |
| `RankFields.RankMeans` | qml-network/plugin/netdevice.cpp:53-100 | the rank in numbers: activating or activated first, then Configured equal to 1, then the signal read from its text, blanks allowed |
| `RankFields.MirrorRankMeans` | qml-network/plugin/knminterface.cpp:352-396 | the interface's own rule in numbers, on the Configured numbers themselves |
| `RankFields.NoFieldsRank` | qml-network/plugin/netdevice.cpp:66-85 | a record without these fields is inactive, not configured and of strength 0 |
| `NetDevices.ScanEndsIff` | qml-network/plugin/netdevice.cpp:138-159 | the loop of `updateConnection` ends exactly when no record without a Uuid stands at or before the first match |
| `NetDevices.NetDevice.AddConnection` | qml-network/plugin/netdevice.cpp:53-100 | a record already stored is ignored; an active one goes first; any other before the first it is at least as good as |
| `NetDevices.NetDevice.RemoveConnection` | qml-network/plugin/netdevice.cpp:102-107 | the first equal record goes |
| `NetDevices.NetDevice.RemoveConnectionByPath` | qml-network/plugin/netdevice.cpp:109-117 | the skipping removal by path |
| `NetDevices.NetDevice.RemoveConnectionByName` | qml-network/plugin/netdevice.cpp:119-127 | the skipping removal by name |
| `NetDevices.NetDevice.UpdateConnection` | qml-network/plugin/netdevice.cpp:138-159 | the first record with the uuid gets the state, moves to the front for ACTIVATED, and is returned |
| `NetDevices.NetDevice.UpdateConnectivity` | qml-network/plugin/netdevice.cpp:205-228 | the same with the connectivity field |
| `NetDevices.NetDevice.UpdateConnectionProp` | qml-network/plugin/netdevice.cpp:230-279 | the first record of that name is taken out, patched in eight fields and added again by rank |
| `NetDevices.NetDevice.ContainsConnection` | qml-network/plugin/netdevice.cpp:161-175 | some record has the uuid, or on a wired device the path |
| `NetDevices.NetDevice.ContainsConnectionName` | qml-network/plugin/netdevice.cpp:177-186 | some record has the name |
| `NetDevices.NetDevice.GetConnectionByName` | qml-network/plugin/netdevice.cpp:193-203 | the first record of the name, or an empty one |
| `SeqOps.SkippingRemovesAllIff` | qml-network/plugin/netdevice.cpp:109-127 | the loop removes every bad element exactly when no two are adjacent, and then is a filter |
| `SeqOps.SkippingSurvivors` | qml-network/plugin/knminterface.cpp:312-321 | an element survives exactly when some position holding it is not removed: good, or right behind a removed one |
| `DataKeepers.DataKeeper.AddDevice` | qml-network/plugin/knmdatakeeper.cpp:36-43 | an available device gets a fresh empty entry, replacing an old one; an unavailable one changes nothing |
| `DataKeepers.DataKeeper.ClearDevice` | qml-network/plugin/knmdatakeeper.cpp:45-48 | no device is left |
| `DataKeepers.DataKeeper.ClearConnectionList` | qml-network/plugin/knmdatakeeper.cpp:93-100 | one list is emptied, all other devices and lists stay |
| `DataKeepers.DataKeeper.GetDevConnections` | qml-network/plugin/knmdatakeeper.cpp:77-91 | the device's list, empty for an unknown device |
| `WlanKeepers.KnmWlanDataKeeper.AddDevConnection` | qml-network/plugin/knmwlandatakeeper.cpp:267-291 | the rows are added one by one, the first as the active one unless it holds "--"; tells when the device is not listed, where the original goes on with a null pointer |
| `WlanKeepers.KnmWlanDataKeeper.UpdateWirelessConListSync` | qml-network/plugin/knmdbuscaller.cpp:704-726 | one device is reloaded from the backend's rows, the others stay; tells when the device is not listed |
| `WlanKeepers.KnmWlanDataKeeper.OnNetworkAdd` | qml-network/plugin/knmwlandatakeeper.cpp:357-374 | keeper, mirror and rows after the signal, with its guards and field counts |
| `WlanKeepers.KnmWlanDataKeeper.OnNetworkRemove` | qml-network/plugin/knmwlandatakeeper.cpp:376-391 | keeper, mirror and rows after the signal |
| `WlanKeepers.KnmWlanDataKeeper.OnNetworkPropChanged` | qml-network/plugin/knmwlandatakeeper.cpp:430-442 | keeper, mirror and rows after the signal, and whether the index existed |
| `WlanKeepers.KnmWlanDataKeeper.OnActiveConnectionChanged` | qml-network/plugin/knmwlandatakeeper.cpp:294-355 | keeper, mirror and rows after the signal: by name for the two active states, else by uuid on every device with a reload after DEACTIVATED |
| `WlanKeepers.KnmWlanDataKeeper.OnSwitchBtnChanged` | qml-network/plugin/knmwlandatakeeper.cpp:407-411 | only the switch flag changes |
| `WlanSpec.DeactivateCases` | qml-network/plugin/knmwlandatakeeper.cpp:335-350 | one device in the loop: untouched when the uuid is unknown, reloaded after DEACTIVATED, rewritten in place otherwise |
| `WlanEffects.ActivationEffect` | qml-network/plugin/knmwlandatakeeper.cpp:312-333 | ACTIVATED or ACTIVATING: on the device of the signal the record of that name comes first with the uuid and status of the signal, and Configured 1 once ACTIVATED; its other fields, the order of the others and the other devices stay |
| `WlanEffects.ActivationUnknown` | qml-network/plugin/knmwlandatakeeper.cpp:312-333 | without a record of that name no list changes |
| `WlanEffects.LeavingEffect` | qml-network/plugin/knmwlandatakeeper.cpp:335-350 | any other status, on every device: the first record of that uuid keeps its place and gets the status, all else stays, unless it is DEACTIVATED and the backend answers |
| `WlanEffects.LeavingUnknown` | qml-network/plugin/knmwlandatakeeper.cpp:335-341 | a device without that uuid keeps its list |
| `WlanEffects.ReloadEffect` | qml-network/plugin/knmwlandatakeeper.cpp:346-350 | DEACTIVATED with an answer: the device's list is the answered records, sorted, none lost or doubled |
| `WlanEffects.ActiveIgnoredEffect` | qml-network/plugin/knmwlandatakeeper.cpp:302-311 | with the switch off, without a uuid or for an unknown device neither lists nor interface change |
| `WlanEffects.AddEffect` | qml-network/plugin/knmwlandatakeeper.cpp:357-374 | with the switch on a row of ten or eleven fields with a new name enters the device's list at its rank, inactive, each field from its column; nothing else changes |
| `WlanEffects.AddIgnored` | qml-network/plugin/knmwlandatakeeper.cpp:357-374 | switch off, empty or unknown device, any other number of fields: no list changes |
| `WlanEffects.RemoveEffect` | qml-network/plugin/knmwlandatakeeper.cpp:376-391 | the record of that name goes from the named device, switch or no switch; nothing else changes |
| `WlanEffects.RemoveIgnored` | qml-network/plugin/knmwlandatakeeper.cpp:376-391 | empty or unknown device, unknown name: no list changes |
| `WlanEffects.PropEffect` | qml-network/plugin/knmwlandatakeeper.cpp:430-442 | the record of that name takes from the signal those of eight fields that it carries, keeps all others and moves to its new rank; nothing else changes |
| `WlanEffects.PropIgnored` | qml-network/plugin/knmwlandatakeeper.cpp:430-442 | unknown device or name: no list changes |
| `WlanEffects.CallEffects` | qml-network/plugin/knminterface.cpp:287-302 | the calls from the list view and the switch change no list and set just their own part |
| `WlanEffects.AutoConnectEffect` | qml-network/plugin/knminterface.cpp:850-882 | the first entry of the uuid has the one field set, the other entries and fields stay |
| `WlanEffects.AutoConnectUnknown` | qml-network/plugin/knminterface.cpp:850-882 | for an unknown uuid nothing changes |
| `WlanEffects.RowFields` | qml-network/plugin/knmwlandatakeeper.cpp:132-160 | every field of a row of ten or more, by its column, and no field besides |
| `WlanEffects.ShortRowFields` | qml-network/plugin/knmwlandatakeeper.cpp:132-160 | a row of nine: no uuid, the fields behind it one column earlier |
| `WlanEffects.FirstRow` | qml-network/plugin/knmwlandatakeeper.cpp:276-283 | the first row of an answer is the ACTIVATED connection, or none when a field is "--" |
| `WlanEffects.InactiveAt` | qml-network/plugin/knmwlandatakeeper.cpp:285-288 | each other row is a DEACTIVATED connection, in order |
| `WlanEffects.OtherRows` | qml-network/plugin/knmwlandatakeeper.cpp:276-288 | the others stand behind the first |
| `LanRuns.EveryUpdateOwns` | qml-network/plugin/knmlandatakeeper.cpp:236-304 | after any run of loads, additions of new connections, removals, state changes and updates, an update that names a device and a path leaves the connection on that device exactly once, on no other, and loses no device |
| `LanRuns.EveryRunUnique` | qml-network/plugin/knmlandatakeeper.cpp:106-304 | over every such run no device ever has a path or a uuid twice |
| `LanRuns.StepUnique` | qml-network/plugin/knmlandatakeeper.cpp:106-304 | one signal of any kind keeps that |
| `LanRuns.SkippingIsRemoveAt` | qml-network/plugin/netdevice.cpp:109-117 | on such a list the removal loop takes out the one record with the path |
| `LanSpec.TakesOnceSimply` | qml-network/plugin/knmlandatakeeper.cpp:277-299 | with the path at most once on the device the condition is: the uuid was known or the path absent |
| `LanSpec.ExclusiveOwnership` | qml-network/plugin/knmlandatakeeper.cpp:265-299 | after an update for a known device and a non-empty path, whatever the lists hold: the device set is unchanged, the path is gone from another device exactly when no two neighbours had it, and is on the named device exactly once under the condition of a take-over |
| `LanSpec.SharedOwnership` | qml-network/plugin/knmlandatakeeper.cpp:240-263 | for an empty device name the same condition decides on every device, and none is lost |
| `LanSpec.PairedMeansOnce` | qml-network/plugin/knmlandatakeeper.cpp:236-304 | when path and uuid name the same record the connection is there exactly once |
| `LanSpec.TakeOverOnceIff` | qml-network/plugin/knmlandatakeeper.cpp:277-299 | the path ends up exactly once on the receiving device if and only if the uuid was unknown and the path absent, or the uuid known and no two neighbours had the path (or the loop leaves just the record to be added) |
| `LanSpec.UnpairedPathDoubles` | qml-network/plugin/knmlandatakeeper.cpp:277-282 | a list on which an unknown uuid doubles the path |
| `LanSpec.PathRemovedIff` | qml-network/plugin/netdevice.cpp:109-117 | the path is gone after the loop exactly when no two neighbours had it |
| `LanSpec.EmptyPathDropsDevices` | qml-network/plugin/knmlandatakeeper.cpp:268-275 | with a device name the device set is kept exactly when the path is non-empty or there is no other device |
| `LanSpec.EmptyPathForgets` | qml-network/plugin/knmlandatakeeper.cpp:268-275 | a signal after which the second of two devices is gone |
| `LanSpec.WiredLoadReverses` | qml-network/plugin/knmlandatakeeper.cpp:106-139 | a cleared wired device ends up with the active row followed by the other rows reversed |
| `LanSpec.AddThenRemove` | qml-network/plugin/knmlandatakeeper.cpp:189-233 | removing the path of a connection just added gives back every list |
| `LanEffects.StateEffect` | qml-network/plugin/knmlandatakeeper.cpp:142-186 | the named device, or for DEACTIVATED and no name every device: the first record of that uuid gets the status and, when ACTIVATED with an answer, the answered connectivity, else 4; it comes first when ACTIVATED and keeps its place otherwise; its other fields and the other records stay |
| `LanEffects.StateElsewhere` | qml-network/plugin/knmlandatakeeper.cpp:157-183 | another device and one without the uuid keep their lists |
| `LanEffects.StateIgnored` | qml-network/plugin/knmlandatakeeper.cpp:144-147 | no uuid, an unknown device, no name for any other status: no list changes |
| `LanEffects.AddEffect` | qml-network/plugin/knmlandatakeeper.cpp:189-216 | a new connection enters the named device's list, without a name every list, at its rank, DEACTIVATED, with the signal's fields; all else stays |
| `LanEffects.AddIgnored` | qml-network/plugin/knmlandatakeeper.cpp:189-192 | a signal for an unknown device changes no list |
| `LanEffects.RemoveEffect` | qml-network/plugin/knmlandatakeeper.cpp:218-233 | on lists with unique paths every device loses the one record of the path and nothing else |
| `LanEffects.UpdateEffect` | qml-network/plugin/knmlandatakeeper.cpp:277-299 | the device of an updated connection has one record of it, with the signal's fields, at its rank; the fifth field is its status exactly when the first record has the uuid and a state |
| `LanEffects.UpdateSpreads` | qml-network/plugin/knmlandatakeeper.cpp:236-304 | the named device, or every device, takes the connection over; every other loses the record of its path |
| `LanEffects.InfoFields` | qml-network/plugin/knmlandatakeeper.cpp:79-104 | every field of the record of a signal, by its column, and no field besides |
| `LanEffects.ShortInfo` | qml-network/plugin/knmlandatakeeper.cpp:84-86 | fewer than three fields give an empty record |
| `LanEffects.LoadFields` | qml-network/plugin/knmlandatakeeper.cpp:116-127 | the first row of a load is the ACTIVATED connection with the answered connectivity, or none when a field is "--" |
| `LanEffects.OtherFields` | qml-network/plugin/knmlandatakeeper.cpp:133-136 | the other rows are DEACTIVATED connections, in order |
| `LanEffects.ContainsMeans` | qml-network/plugin/netdevice.cpp:161-175 | a wireless device knows a connection by its uuid, a wired one also by its path |
| `LanEffects.DropMeans` | qml-network/plugin/netdevice.cpp:102-107 | removing a stored record takes out one copy of it |
| `LanKeepers.KnmLanDataKeeper.UpdateLanInfo` | qml-network/plugin/knmlandatakeeper.cpp:236-304 | the loop over the device map computes, for each device, take-over or removal, and drops a device exactly on an empty path |
| `LanKeepers.KnmLanDataKeeper.AddDevConnection` | qml-network/plugin/knmlandatakeeper.cpp:106-139 | the rows are added to a known device, the first as the active one with the reported connectivity |
| `LanKeepers.KnmLanDataKeeper.OnLanAdd` | qml-network/plugin/knmlandatakeeper.cpp:189-216 | the connection is added to the named device, or to all for an empty name |
| `LanKeepers.KnmLanDataKeeper.OnLanRemove` | qml-network/plugin/knmlandatakeeper.cpp:218-233 | the skipping removal by path on every device |
| `LanKeepers.KnmLanDataKeeper.OnActiveConnectionChanged` | qml-network/plugin/knmlandatakeeper.cpp:142-186 | state and connectivity change on the named device if it knows the connection, or on all devices for an empty name and DEACTIVATED |
| `SingleInstance.AtMostOnePrimary` | src-vpn/singleapplication/qt-local-peer.cpp:105-125 | in every reachable state of any number of processes, with failing calls, exits and crashes between any two system calls, each recorded mode is the table's entry and there is at most one primary |
| `SingleInstance.RunKeepsInv` | src-vpn/singleapplication/qt-locked-file-unix.cpp:49-112 | recorded modes, table and writer exclusion stay consistent over every run, failed unlocks and failed upgrades included |
| `SingleInstance.PrimaryStays` | src-vpn/singleapplication/qt-local-peer.cpp:105-107 | a primary stays primary until it exits or crashes, whatever the others do and however often it asks again |
| `SingleInstance.IsClientDecides` | src-vpn/singleapplication/qt-local-peer.cpp:105-125 | an unlocked peer becomes primary exactly when its call does not fail and no other process holds a lock when the request is served |
| `SingleInstance.NextPeerBecomesPrimary` | src-vpn/singleapplication/qt-local-peer.cpp:105-125 | from any reachable state without a holder the next open peer to ask becomes primary |
| `SingleInstance.StepsAreLockCall` | src-vpn/singleapplication/qt-locked-file-unix.cpp:49-81 | the two steps of the interleaved machine, undisturbed, are one call of `lock()`, blocking or not, if it returns |
| `SingleInstance.BlockingCallWaits` | src-vpn/singleapplication/qt-locked-file-unix.cpp:61-80 | a blocking request returns exactly when it is interrupted or nothing stands in the way, and unless interrupted with the lock |
| `SingleInstance.QtLocalPeer.IsClient` | src-vpn/singleapplication/qt-local-peer.cpp:105-125 | not a client exactly when holding the lock; only the call that obtains it starts listening |
| `FileLocks.Fcntl` | src-vpn/singleapplication/qt-locked-file-unix.cpp:61-74 | fcntl() of IEEE Std 1003.1-2017: granted exactly when no other process's lock conflicts, changes only the caller's entry, and nothing when it fails |
| `FileLocks.FcntlKeepsExclusive` | src-vpn/singleapplication/qt-locked-file-unix.cpp:61-74 | no call creates a writer beside another holder |
| `FileLocks.QtLockedFile.Lock` | src-vpn/singleapplication/qt-locked-file-unix.cpp:49-81 | recorded mode, table and result after each branch, a blocking call waiting through what the other processes do to the table until it is granted or interrupted; the recorded mode stays the table's entry |
| `FileLocks.BlockingIsServed` | src-vpn/singleapplication/qt-locked-file-unix.cpp:61-74 | a waiting request is granted when the others ever leave a table in which it can be |
| `FileLocks.QtLockedFile.Unlock` | src-vpn/singleapplication/qt-locked-file-unix.cpp:84-107 | the same for the release |
| `FileLocks.LockReportsTruthIff` | src-vpn/singleapplication/qt-locked-file-unix.cpp:49-81 | the documented result is met unless a lock of the other kind could be neither released nor converted |
| `FileLocks.RefusedWhileHeld` | src-vpn/singleapplication/qt-locked-file-unix.cpp:49-81 | two readers, one of which is refused the write lock and still holds its read lock |
| `FileLocks.UnlockReportsTruth` | src-vpn/singleapplication/qt-locked-file-unix.cpp:84-107 | the documented result of `unlock()` is always met on an open file |
| `FileLocks.FailedUpgradeLosesLock` | src-vpn/singleapplication/qt-locked-file-unix.cpp:61-77 | a failed upgrade after a successful release leaves no lock, recorded as such |
| `LocalPeers.RoundTrip` | src-vpn/singleapplication/qt-local-peer.cpp:151-198 | however the sent bytes are fragmented, once all arrive the receiver has exactly the message, has acknowledged it and left what follows unread |
| `LocalPeers.FrameParses` | src-vpn/singleapplication/qt-local-peer.cpp:151-153 | a framed message followed by anything parses to itself |
| `LocalPeers.Be32RoundTrip` | src-vpn/singleapplication/qt-local-peer.cpp:151-153 | the four length bytes read back as the length |
| `LocalPeers.BigEndian` | src-vpn/singleapplication/qt-local-peer.cpp:151-153 | the most significant byte comes first |
| `LocalPeers.ReceiveLength` | src-vpn/singleapplication/qt-local-peer.cpp:171-186 | the length is read off the socket exactly when four bytes ever arrive |
| `LocalPeers.ReceiveBody` | src-vpn/singleapplication/qt-local-peer.cpp:187-197 | bytes read plus `remaining` is the announced length at every turn, the write position stays in the buffer, and the bytes are the stream's; a length beyond `int` fails at the first read |
| `LocalPeers.ReceiveConnection` | src-vpn/singleapplication/qt-local-peer.cpp:166-205 | a complete frame yields its message, an incomplete one a message of the announced length that starts with what came, both acknowledged; no message and no acknowledgement exactly when the length never arrives or is 2^31 or more |
| `LocalPeers.SendMessage` | src-vpn/singleapplication/qt-local-peer.cpp:151-153 | length in network order, then the bytes |
| `DnsRuns.LastModeWins` | kylin-network-manager-enhance-daemon/dbus-server.c:695-889 | over every run of updates on any files, whatever the earlier ones were: resolv.conf ends with exactly the last options line, 127.0.0.1 is the first server a resolver reads or is gone, "all-servers" is in dnsmasq.conf exactly when the last type is neither rotate nor order; this holds if and only if the last options text is one line, the last line kept is complete, the prefix tests do not err on the file the last update meets, and the word fits |
| `DnsRuns.UpdateReflectsIff` | kylin-network-manager-enhance-daemon/dbus-server.c:827-889 | one update on any files has that effect under exactly that condition |
| `DnsRuns.TerminatedRunFits` | kylin-network-manager-enhance-daemon/dbus-server.c:695-889 | on newline-terminated files, which stay so, only the one-line text and the prefix tests are left of the condition |
| `DnsRuns.ReflectingNeedsOwnLine` | kylin-network-manager-enhance-daemon/dbus-server.c:724-735 | no update on a file whose last kept line is incomplete has the effect |
| `DnsRuns.MissingNewlineGlues` | kylin-network-manager-enhance-daemon/dbus-server.c:724-735 | a resolv.conf of one line without a newline, on which every update with a one-line text fails |
| `DnsRuns.PlainFilesReflect` | kylin-network-manager-enhance-daemon/dbus-server.c:695-889 | a newline-terminated file whose server lines have one space after the keyword and no address that merely begins like 127.0.0.1 stays so under one-line texts, and the last mode always wins |
| `DnsRuns.OptionsRead` | kylin-network-manager-enhance-daemon/dbus-server.c:851-875 | split into words the options line reads as the timeout, 5 when empty, the attempts, 2 when empty, and "rotate" exactly for that type, for settings without blanks that fit the buffer |
| `DnsRuns.LastUpdateReads` | kylin-network-manager-enhance-daemon/dbus-server.c:827-889 | over every run whose last update fits: the last line of resolv.conf is its one options line and reads as the last settings; local resolver and "all-servers" are there exactly for the types that want them |
| `DnsEffects.ForeignLinesStay` | kylin-network-manager-enhance-daemon/dbus-server.c:541-736 | whatever the mode, all lines that neither hold "options" nor begin with the local resolver stay, in order, and none of their kind is added |
| `DnsEffects.DnsmasqLinesStay` | kylin-network-manager-enhance-daemon/dbus-server.c:771-825 | so do the lines of dnsmasq.conf without "all-servers" |
| `DnsEffects.CopiedLines` | kylin-network-manager-enhance-daemon/dbus-server.c:649-693 | the copy has every server line, only lines with "nameserver" and the local resolver's, and the latter whenever a line with the word does not mention it |
| `DnsEffects.LineTests` | kylin-network-manager-enhance-daemon/dbus-server.c:564-800 | which text each of the line tests looks for, and where |
| `DnsRuns.TerminatedFiles` | kylin-network-manager-enhance-daemon/dbus-server.c:695-889 | files that are empty or end in a newline are newline-terminated in the sense of the run theorems |
| `DnsTheorems.UpdateCopies` | kylin-network-manager-enhance-daemon/dbus-server.c:649-693 | after any update on any files the copy for dnsmasq has the same lines about other servers as resolv.conf, in order, with the local resolver directly in front of the first |
| `DnsTheorems.InsertedServesIff` | kylin-network-manager-enhance-daemon/dbus-server.c:589-648 | after the insertion 127.0.0.1 is the first server read exactly when the first server line named it before, or starts with keyword and one space and fails the prefix test |
| `DnsTheorems.DeletedExactlyIff` | kylin-network-manager-enhance-daemon/dbus-server.c:541-588 | the deletion drops exactly the lines naming 127.0.0.1 exactly when the prefix test tells them from all other lines |
| `DnsTheorems.NeighbourMistaken` | kylin-network-manager-enhance-daemon/dbus-server.c:564-617 | a file with the one server 127.0.0.11: an insertion leaves it alone, a deletion empties it |
| `DnsRuns.LineBreakSplitsOptions` | kylin-network-manager-enhance-daemon/dbus-server.c:695-736 | a timeout with a line break, for which no file ends up with the one options line |
| `DnsRuns.ReflectingNeedsOneLine` | kylin-network-manager-enhance-daemon/dbus-server.c:695-736 | the effect needs an options text of one line |
| `DnsTheorems.WriteServerIdempotent` | kylin-network-manager-enhance-daemon/dbus-server.c:589-648 | inserting the local resolver twice is inserting it once, byte for byte, on any file |
| `DnsTheorems.DeleteServerIdempotent` | kylin-network-manager-enhance-daemon/dbus-server.c:541-588 | deleting it twice is deleting it once, byte for byte, on any file |
| `DnsTheorems.DeleteAfterWrite` | kylin-network-manager-enhance-daemon/dbus-server.c:541-648 | deleting after inserting is deleting alone, byte for byte, on any file |
| `DnsTheorems.ChunksWithout` | kylin-network-manager-enhance-daemon/dbus-server.c:564-588 | re-reading the rewritten file yields exactly the kept chunks |
| `DnsTheorems.WriteOptionsIff` | kylin-network-manager-enhance-daemon/dbus-server.c:695-736 | on any file the result is the other lines and the options line, and that line stands for itself, exactly when the last of the others is complete |
| `DnsTheorems.AfterDnsmasq` | kylin-network-manager-enhance-daemon/dbus-server.c:771-825 | on any file some line of dnsmasq.conf has "all-servers" exactly when it was asked for and was there before, or fits the buffer behind the last line |
| `LineBuffer.JoinChunks` | kylin-network-manager-enhance-daemon/dbus-server.c:564-570 | cutting at newlines or 1023 bytes loses nothing |
| `LineBuffer.ChunkShape` | kylin-network-manager-enhance-daemon/dbus-server.c:564-570 | a chunk ends at its first newline, has at most 1023 characters, and is shorter without a newline only at the end of the file |
| `LineBuffer.ChunksJoin` | kylin-network-manager-enhance-daemon/dbus-server.c:581-585 | chunks written out are read back as the same chunks |
| `LineBuffer.FilterIsCut` | kylin-network-manager-enhance-daemon/dbus-server.c:564-570 | dropping chunks lets no kept chunk merge with its new neighbour |
| `LineBuffer.AppendChunks` | kylin-network-manager-enhance-daemon/dbus-server.c:733-735 | behind complete chunks a text is cut as if it stood alone |
| `LineBuffer.GluedChunks` | kylin-network-manager-enhance-daemon/dbus-server.c:733-735 | behind an incomplete chunk a short line is glued to it and cut where the buffer is full |
| `DnsFiles.ConfFiles.DeleteServerToResolv` | kylin-network-manager-enhance-daemon/dbus-server.c:541-588 | the chunks that do not start with the local resolver, in order |
| `DnsFiles.ConfFiles.WriteServerToResolv` | kylin-network-manager-enhance-daemon/dbus-server.c:589-648 | the local resolver in front of the first nameserver chunk unless that is it |
| `DnsFiles.ConfFiles.WriteNameserverToResolv` | kylin-network-manager-enhance-daemon/dbus-server.c:649-693 | the chunks with the word nameserver, and the local resolver in front of the first that does not mention it |
| `DnsFiles.ConfFiles.WriteOptionsToResolv` | kylin-network-manager-enhance-daemon/dbus-server.c:695-736 | the chunks without "options", then the options line, for either value of the uninitialised flag |
| `DnsFiles.ConfFiles.WriteOptionsToDnsmasq` | kylin-network-manager-enhance-daemon/dbus-server.c:771-825 | "all-servers" is added once or every line with it is dropped |
| `DnsFiles.ConfFiles.UpdateExtraConfToResolv` | kylin-network-manager-enhance-daemon/dbus-server.c:827-889 | all three files after one update, with the defaults for empty settings |
| `UsbTheorems.AppendHomomorphism` | pub/appsettings.cpp:147-204 | appending P then Q gives the same keys and values as appending P followed by Q |
| `UsbTheorems.AppendTwice` | pub/appsettings.cpp:147-204 | appending the same list again changes nothing |
| `UsbTheorems.AddedExactly` | pub/appsettings.cpp:174-202 | the added values are exactly the normalised valid pairs not yet known, each once |
| `UsbTheorems.AppendExtends` | pub/appsettings.cpp:159-200 | no stored key is overwritten, the new values sit in order under the numbers after the highest one, nothing else is added |
| `UsbTheorems.NormaliseIdempotent` | pub/appsettings.cpp:174-190 | a normal form normalises to itself and reads back unchanged |
| `UsbForms.NormalForm` | pub/appsettings.cpp:173-188 | vendor, colon, product with any blanks around each: the vendor comes first, both filled up with zeros in front to four characters |
| `UsbForms.PlainPairStays` | pub/appsettings.cpp:173-188 | halves of four characters or more, without capitals, stay as they are |
| `UsbForms.NormaliseIgnoresCase` | pub/appsettings.cpp:173-188 | requests that differ only in letter case or outer blanks have one normal form |
| `UsbForms.NormalFormIsSmall` | pub/appsettings.cpp:173-188 | no normal form has a capital letter |
| `UsbForms.ColonsMatter` | pub/appsettings.cpp:177-179 | no colon, or more than one, and the request is skipped |
| `UsbForms.BlankHalf` | pub/appsettings.cpp:181-184 | a blank half, and the request is skipped |
| `UsbForms.OneRequest` | pub/appsettings.cpp:147-204 | one request changes nothing when it is no pair or some key stores it in whatever letter case and blanks, else it adds its normal form under the number behind the highest one |
| `UsbForms.KeyIndexMeans` | pub/appsettings.cpp:159-172 | a key counts exactly when it is "pair" and decimal digits of a 32-bit number, perhaps with one line break behind |
| `UsbForms.KeyPrinted` | pub/appsettings.cpp:195-198 | a printed key is "pair" and the number in decimal |
| `TextFacts.TrimOf` | pub/appsettings.cpp:173 | trimming takes off the blanks at both ends and nothing else |
| `TextFacts.ParsePrinted` | qml-network/plugin/netdevice.cpp:68 | a printed number with any blanks around it reads as itself when it fits, as 0 otherwise |
| `TextFacts.ParseRefuses` | qml-network/plugin/netdevice.cpp:68 | a text with something else in it reads as 0 |
| `TextFacts.PrintMeans` | pub/appsettings.cpp:195-198 | decimal notation, digit by digit |
| `UsbPairs.PairKeyNumber` | pub/appsettings.cpp:159-172 | the number parsed off a printed key is the printed number |
| `UsbPairs.AppSettings.ProbeKey` | pub/appsettings.cpp:195-198 | the do-while ends at the first unused key |
| `UsbPairs.AppSettings.AddUnderNextKey` | pub/appsettings.cpp:195-201 | above the highest index the first probe succeeds, so the loop runs once |
| `UsbPairs.AppSettings.HighestIndex` | pub/appsettings.cpp:159-171 | the largest number of a matching key that fits 32 bits, or 0 |
| `UsbPairs.AppSettings.AppendHiddenUsbPairs` | pub/appsettings.cpp:147-204 | the whole call computes the append |
| `UsbPairs.AppSettings.ClearHiddenUsbPairs` | pub/appsettings.cpp:224-228 | no stored key is left |
| `WifiResort.ResortGathers` | plugins/wlanconnect/wlanconnect.cpp:384-447 | a resort yields the known names in list order, then the unlisted items in their old order; items of inactive rows end inactive, the active row's item active; all others are untouched but for the one that loses the frame's uuid when no row is active |
| `WifiResort.PlaceFromGathers` | plugins/wlanconnect/wlanconnect.cpp:422-445 | the loop from any point on, early return included |
| `WifiResort.NothingLeft` | plugins/wlanconnect/wlanconnect.cpp:423-425 | when the early return is taken no further listed name is known |
| `WifiResort.ListedOrder` | plugins/wlanconnect/wlanconnect.cpp:384-447 | after a resort the known listed items stand in the order of the list |
| `WifiResort.ListedFirst` | plugins/wlanconnect/wlanconnect.cpp:384-447 | they stand in front of all others |
| `WifiResort.UnlistedOrder` | plugins/wlanconnect/wlanconnect.cpp:384-447 | the others keep their order |
| `WifiResort.ClearedEffect` | plugins/wlanconnect/wlanconnect.cpp:407-422 | without an active row just the first item in key order that carries the frame's uuid is switched off |
| `WifiResort.ClearedNobody` | plugins/wlanconnect/wlanconnect.cpp:407-422 | no item when the frame has no uuid or nobody carries it |
| `WifiResort.FrameUuid` | plugins/wlanconnect/wlanconnect.cpp:394-422 | the frame's uuid is empty without an active row, that of the active item with a known one, and stays for an unknown one |
| `WifiResort.RowOfMeans` | plugins/wlanconnect/wlanconnect.cpp:978-998 | the first row with the name, 0 when there is none |
| `WifiResort.InsertPlaces` | plugins/wlanconnect/wlanconnect.cpp:425-439 | an item is inserted at its index, last when that is past the end |
| `WifiResort.ItemFrame.ResortWifiList` | plugins/wlanconnect/wlanconnect.cpp:384-447 | layout, items and frame uuid after the call, the item switched off being the first in key order; every known item stays in the layout exactly once |
| `WifiResort.ItemFrame.AddItem` | plugins/wlanconnect/wlanconnect.cpp:1103-1171 | a known name changes nothing; a new item enters layout and map once, first when active, else at its name's place in the backend's rows |
| `WifiResort.ItemFrame.SortWlanNet` | plugins/wlanconnect/wlanconnect.cpp:978-998 | the first row with the name, 0 when there is none |
| `WifiResort.ItemFrame.RemoveItem` | plugins/wlanconnect/wlanconnect.cpp:1174-1187 | the item leaves layout and map |
| `WifiResort.ItemFrame.MoveToFront` | plugins/wlanconnect/wlanconnect.cpp:625-630 | the item comes first, the others keep their order |

## Left out

- D-Bus calls, watchers and their error replies: what the backend answers is a parameter (rows, connectivity, the set of DSL uuids).
- Qt signals towards QML, saved default devices, icons, widgets, timers and logging.
- `QVariant`: integers and booleans are one case; a text that compares equal to a number after conversion is not modelled, nor is the wrap of an unsigned value beyond 31 bits in `toInt`.
- `QString` beyond ASCII: `toLower` and `trimmed` act on ASCII letters and blanks only, and key order is by character code.
- Null device pointers in the device map: an unavailable adapter answered with one "--" row leaves one, which keeps the rebuild from choosing a device when it comes first.
- `WlanKeepers.KnmWlanDataKeeper.AddDevConnection`: reports a device that is not listed, and does not follow the null pointer that the source then works on.
- `WlanKeepers.KnmWlanDataKeeper.UpdateWirelessConListSync`: the same.
- `Interfaces.KnmInterface.WirelessDevConnListPropUpdate`: an index past the rows is reported, and nothing is said of the rows from then on, because `QVector::insert` is undefined there; `QList::insert` on the mirror appends and is modelled so.
- `NetDevices.NetDevice.UpdateConnection`: requires `ScanHalts`, the exact condition under which the source's loop ends (`NetDevices.ScanEndsIff`).
- `LanKeepers.KnmLanDataKeeper.UpdateLanInfo`: requires, for each device, the fields that the code reads for it; with fewer the source runs off the list.
- The wired list of the interface: a plain copy of the keeper's list after every signal.
- `updateConnectionStrength`, `updateConnectionStatus`, `setData` of the view model, which only change fields of one row.
- Device renames, network speed and switch settings of the keepers.
- Socket naming, the retry of `connectToServer`, the stale-socket cleanup and read errors in the message exchange; UTF-8 conversion of the message.
- Files are free of NUL characters and every open, temporary file and write succeeds; the dnsmasq restart is not modelled.
- `DnsFiles.ConfFiles.WriteOptionsToDnsmasq`: the source's one loop tells its two scans apart in every turn by an argument that does not change; the model splits them.
- `UsbPairs.AppSettings.AppendHiddenUsbPairs`: requires the printed numbers to stay inside 32 bits, as the source's counter would overflow beyond; `sync` and `getHiddenUsbPairs` are left out.
- `WifiResort.ItemFrame.ResortWifiList`: widgets are identities with a map of fields.
- Proxy, VPN and hotspot plugins, /proc/net/dev scanning, caller checks.
