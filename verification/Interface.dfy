/** The interface object that QML reads: it mirrors the current wireless device. */
module Interfaces {
  import opened Records
  import opened KeyOrder
  import opened SeqOps
  import opened Names
  import opened DataKeepers
  import opened ViewModel
  import opened Mirror

  class KnmInterface {
    const keeper: DataKeeper
    const model: WirelessConnectionModel
    var wirelessDevConnList: seq<Record>
    var currentWirelessDevice: string
    var reorderPaused: bool
    var resumingList: bool

    ghost predicate Valid()
      reads this`wirelessDevConnList, keeper`devices, model
    {
      keeper.Valid() && NamesAgree(wirelessDevConnList, model.rows)
    }

    ghost function View(): Ui
      reads this, model
    {
      Ui(currentWirelessDevice, Panel(wirelessDevConnList, model.rows), reorderPaused)
    }

    constructor (dataKeeper: DataKeeper)
      requires dataKeeper.Valid()
      ensures keeper == dataKeeper && fresh(model) && Valid() && !resumingList
      ensures View() == Ui("", Panel([], []), false)
    {
      keeper := dataKeeper;
      model := new WirelessConnectionModel();
      wirelessDevConnList := [];
      currentWirelessDevice := "";
      reorderPaused := false;
      resumingList := false;
    }

    // One change of the mirror together with the matching change of the model.

    method LoadEntries(list: seq<Record>)
      modifies this`wirelessDevConnList, model
      ensures View().panel == Loaded(list)
      ensures NamesAgree(wirelessDevConnList, model.rows)
    {
      wirelessDevConnList := list;
      model.RefreshConnections(wirelessDevConnList);
      NamesAgreeRefresh(wirelessDevConnList);
    }

    method InsertEntry(at: nat, index: nat, newConn: Record) returns (defined: bool)
      requires NamesAgree(wirelessDevConnList, model.rows) && at <= |wirelessDevConnList|
      modifies this`wirelessDevConnList, model
      ensures View().panel ==
              Panel(InsertAt(old(wirelessDevConnList), at, newConn), RowAdd(old(model.rows), index, ToRow(newConn)))
      ensures defined <==> Active(newConn) || index <= |old(wirelessDevConnList)|
      ensures defined ==> NamesAgree(wirelessDevConnList, model.rows)
    {
      if Active(newConn) || index <= |wirelessDevConnList| {
        NamesAgreeAdd(wirelessDevConnList, model.rows, at, index, newConn);
      }
      wirelessDevConnList := wirelessDevConnList[..at] + [newConn] + wirelessDevConnList[at..];
      defined := model.AddConnection(index, ToRow(newConn));
    }

    method ReplaceEntry(index: nat, newConn: Record)
      requires NamesAgree(wirelessDevConnList, model.rows)
      requires index < |wirelessDevConnList| && NameOf(newConn) == NameOf(wirelessDevConnList[index])
      modifies this`wirelessDevConnList, model
      ensures View().panel == PanelReplace(old(View()).panel, index, newConn)
      ensures NamesAgree(wirelessDevConnList, model.rows)
    {
      NamesAgreeReplace(wirelessDevConnList, model.rows, index, newConn);
      wirelessDevConnList := wirelessDevConnList[index := newConn];
      model.ReplaceConnection(ToRow(newConn));
    }

    method RemoveEntry(index: nat)
      requires NamesAgree(wirelessDevConnList, model.rows)
      requires index < |wirelessDevConnList|
      modifies this`wirelessDevConnList, model
      ensures View().panel == PanelDrop(old(View()).panel, index)
      ensures NamesAgree(wirelessDevConnList, model.rows)
    {
      NamesAgreeDrop(wirelessDevConnList, model.rows, index);
      model.RemoveConnection(NameOf(wirelessDevConnList[index]));
      wirelessDevConnList := wirelessDevConnList[..index] + wirelessDevConnList[index + 1..];
    }

    /** Without a chosen device the first one is taken. */
    method ChooseDevice()
      requires keeper.Valid()
      modifies this`currentWirelessDevice
      ensures currentWirelessDevice == CurrentOrFirst(old(currentWirelessDevice), old(keeper.Lists()))
    {
      assert keeper.Lists().Keys == keeper.devices.Keys;
      if currentWirelessDevice == "" {
        if keeper.devices.Keys != {} {
          currentWirelessDevice := FirstOf(keeper.devices.Keys);
        }
      }
    }

    method RebuildCurrentWirelessList()
      requires Valid()
      modifies this`wirelessDevConnList, this`currentWirelessDevice, model, keeper`currentDev
      ensures Valid()
      ensures View() == Rebuild(old(View()), old(keeper.Lists()))
    {
      ChooseDevice();
      var list := keeper.GetDevConnections(currentWirelessDevice);
      LoadEntries(list);
    }

    /** The removal loop of the incremental pass. */
    method RemoveStaleEntries(conList: seq<Record>)
      requires Valid()
      modifies this`wirelessDevConnList, model
      ensures Valid() && View().panel == DropStale(old(View()).panel, 0, conList)
    {
      var i := 0;
      while i < |wirelessDevConnList|
        invariant Valid()
        invariant DropStale(View().panel, i, conList) == DropStale(old(View()).panel, 0, conList)
        decreases |wirelessDevConnList| - i
      {
        if wirelessDevConnList[i] in conList {
          i := i + 1;
          continue;
        }
        RemoveEntry(i);
        i := i + 1;
      }
    }

    /** One turn of the second loop of the incremental pass. */
    method UpdateOrInsert(newConn: Record)
      requires Valid()
      modifies this`wirelessDevConnList, model
      ensures Valid() && View().panel == Upsert(old(View()).panel, newConn)
    {
      var found := false;
      var existingIndex := -1;
      for j := 0 to |wirelessDevConnList|
        invariant forall k :: 0 <= k < j ==> NameOf(wirelessDevConnList[k]) != NameOf(newConn)
        invariant !found && existingIndex == -1
      {
        if NameOf(wirelessDevConnList[j]) == NameOf(newConn) {
          found := true;
          existingIndex := j;
          FirstIndexUnique(wirelessDevConnList, HasName(NameOf(newConn)), j);
          break;
        }
      }
      if found {
        ReplaceEntry(existingIndex, newConn);
      } else {
        FirstIndexUnique(wirelessDevConnList, HasName(NameOf(newConn)), |wirelessDevConnList|);
        InsertBySortRule(newConn);
      }
    }

    /** The second loop of the incremental pass. */
    method UpdateOrInsertAll(conList: seq<Record>)
      requires Valid()
      modifies this`wirelessDevConnList, model
      ensures Valid() && View().panel == UpsertAll(old(View()).panel, conList)
    {
      for i := 0 to |conList|
        invariant Valid()
        invariant UpsertAll(View().panel, conList[i..]) == UpsertAll(old(View()).panel, conList)
      {
        assert conList[i..][0] == conList[i] && conList[i..][1..] == conList[i + 1..];
        UpdateOrInsert(conList[i]);
      }
      assert conList[|conList|..] == [];
    }

    method InsertBySortRule(newConn: Record)
      requires Valid()
      modifies this`wirelessDevConnList, model
      ensures Valid()
      ensures View().panel ==
              PanelAdd(old(View()).panel, MirrorSlot(old(wirelessDevConnList), newConn), newConn)
    {
      if StateOf(newConn) == ACTIVATED || StateOf(newConn) == ACTIVATING {
        var atFront := InsertEntry(0, 0, newConn);
        return;
      }
      var j := 0;
      while j < |wirelessDevConnList|
        invariant j <= |wirelessDevConnList|
        invariant forall k :: 0 <= k < j ==> !MirrorGeq(newConn, wirelessDevConnList[k])
      {
        var existing := wirelessDevConnList[j];
        if StateOf(existing) == ACTIVATED || StateOf(existing) == ACTIVATING {
          j := j + 1;
          continue;
        }
        if ConfiguredOf(newConn) > ConfiguredOf(existing) {
          break;
        } else if ConfiguredOf(newConn) == ConfiguredOf(existing) {
          if SignalOf(newConn) >= SignalOf(existing) {
            break;
          }
        }
        j := j + 1;
      }
      FirstIndexUnique(wirelessDevConnList, MirrorReaches(newConn), j);
      var defined := InsertEntry(j, j, newConn);
    }

    method GetWirelessDevConnListOf(devName: string)
      requires Valid()
      modifies this`wirelessDevConnList, this`currentWirelessDevice, model, keeper`currentDev
      ensures Valid()
      ensures View() == Show(old(View()), old(keeper.Lists()), devName)
    {
      if devName == "" {
        return;
      }
      currentWirelessDevice := devName;
      if wirelessDevConnList == [] {
        var list := keeper.GetDevConnections(devName);
        LoadEntries(list);
        return;
      }
      var conList := keeper.GetDevConnections(devName);
      RemoveStaleEntries(conList);
      UpdateOrInsertAll(conList);
    }

    method GetWirelessDevConnList()
      requires Valid()
      modifies this`wirelessDevConnList, this`currentWirelessDevice, model, keeper`currentDev
      ensures Valid()
      ensures View() == Show(old(View()), old(keeper.Lists()), old(currentWirelessDevice))
    {
      GetWirelessDevConnListOf(currentWirelessDevice);
    }

    /** `defined` tells whether the index that the rows are asked for exists. */
    method WirelessDevConnListPropUpdate(devName: string, ssid: string) returns (defined: bool)
      requires Valid()
      modifies this`wirelessDevConnList, model, keeper`currentDev
      ensures defined <==> PropFits(old(View()), old(keeper.Lists()), devName, ssid)
      ensures defined ==> Valid()
      ensures View() == PropShow(old(View()), old(keeper.Lists()), devName, ssid)
    {
      if devName != currentWirelessDevice && currentWirelessDevice != "" {
        return true;
      }
      ghost var lists, ui := keeper.Lists(), View();
      var conList := keeper.GetDevConnections(devName);
      assert conList == ListOf(lists, devName) && View() == ui;
      defined := PatchEntry(conList, ssid);
      assert View() == ui.(panel := PropPanel(ui.panel, ui.paused, ListOf(lists, devName), ssid));
    }

    method PatchEntry(conList: seq<Record>, ssid: string) returns (defined: bool)
      requires NamesAgree(wirelessDevConnList, model.rows)
      modifies this`wirelessDevConnList, model
      ensures defined <==> PanelFits(old(View()).panel, reorderPaused, conList, ssid)
      ensures defined ==> NamesAgree(wirelessDevConnList, model.rows)
      ensures View().panel == PropPanel(old(View()).panel, reorderPaused, conList, ssid)
    {
      if wirelessDevConnList == [] {
        LoadEntries(conList);
        return true;
      }
      var keeperIdx := FindNameIndex(conList, ssid);
      if keeperIdx < 0 {
        return true;
      }
      var newConn := conList[keeperIdx];
      var oldIdx := FindNameIndex(wirelessDevConnList, ssid);
      if reorderPaused {
        if oldIdx >= 0 {
          ReplaceEntry(oldIdx, newConn);
        }
        return true;
      }
      defined := MoveEntry(oldIdx, keeperIdx, newConn);
    }

    /** The unpaused half of the property update. */
    method MoveEntry(oldIdx: int, keeperIdx: nat, newConn: Record) returns (defined: bool)
      requires NamesAgree(wirelessDevConnList, model.rows)
      requires -1 <= oldIdx < |wirelessDevConnList|
      requires oldIdx >= 0 ==> NameOf(wirelessDevConnList[oldIdx]) == NameOf(newConn)
      modifies this`wirelessDevConnList, model
      ensures defined <==> oldIdx == keeperIdx || Active(newConn) ||
                           keeperIdx <= |old(wirelessDevConnList)| - (if oldIdx < 0 then 0 else 1)
      ensures defined ==> NamesAgree(wirelessDevConnList, model.rows)
      ensures var p := old(View()).panel;
              View().panel == MoveTo(p, if oldIdx < 0 then |p.mirror| else oldIdx, keeperIdx, newConn)
    {
      if oldIdx < 0 {
        defined := InsertEntry(Clamped(keeperIdx, |wirelessDevConnList|), keeperIdx, newConn);
      } else if oldIdx == keeperIdx {
        ReplaceEntry(oldIdx, newConn);
        defined := true;
      } else {
        RemoveEntry(oldIdx);
        defined := InsertEntry(Clamped(keeperIdx, |wirelessDevConnList|), keeperIdx, newConn);
      }
    }

    method SetWirelessListReorderPaused(paused: bool)
      requires Valid()
      modifies this, model, keeper`currentDev
      ensures Valid() && resumingList == old(resumingList)
      ensures View() == if old(resumingList) then old(View()) else SetPaused(old(View()), old(keeper.Lists()), paused)
    {
      if resumingList {
        return;
      }
      if reorderPaused == paused {
        return;
      }
      reorderPaused := paused;
      if !paused {
        resumingList := true;
        RebuildCurrentWirelessList();
        resumingList := false;
      }
    }

    /** Patches the mirror and the rows, but not the keeper. */
    method SetNetworkConnectAutoConnectState(uuid: string, state: bool)
      requires Valid()
      modifies this`wirelessDevConnList, model
      ensures Valid()
      ensures View() == SetAutoConnect(old(View()), uuid, state)
    {
      for j := 0 to |wirelessDevConnList|
        invariant forall k :: 0 <= k < j ==> StrOf(wirelessDevConnList[k], Uuid) != uuid
        invariant wirelessDevConnList == old(wirelessDevConnList) && model.rows == old(model.rows)
      {
        var connMap := wirelessDevConnList[j];
        if StrOf(connMap, Uuid) == uuid {
          FirstIndexUnique(wirelessDevConnList, HasUuid(uuid), j);
          var newConnMap := connMap[AutoConnect := Num(if state then 1 else 0)];
          ReplaceEntry(j, newConnMap);
          return;
        }
      }
      FirstIndexUnique(wirelessDevConnList, HasUuid(uuid), |wirelessDevConnList|);
    }
  }

  method FindNameIndex(list: seq<Record>, ssid: string) returns (index: int)
    ensures var i := FindName(list, ssid);
            index == if i < |list| then i else -1
  {
    for i := 0 to |list|
      invariant forall k :: 0 <= k < i ==> NameOf(list[k]) != ssid
    {
      if NameOf(list[i]) == ssid {
        FirstIndexUnique(list, HasName(ssid), i);
        return i;
      }
    }
    FirstIndexUnique(list, HasName(ssid), |list|);
    return -1;
  }
}
