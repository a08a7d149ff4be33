/** The wireless keeper: one method per backend signal. */
module WlanKeepers {
  import opened Records
  import opened NetDevices
  import opened KeeperOrder
  import opened DataKeepers
  import opened Mirror
  import opened Interfaces
  import opened WlanSpec

  lemma SetTwice(lists: Lists, d: string, a: seq<Record>, b: seq<Record>)
    ensures lists[d := a][d := b] == lists[d := b]
  {
  }

  class KnmWlanDataKeeper {
    const base: DataKeeper
    const ui: KnmInterface

    ghost predicate Valid()
      reads ui`wirelessDevConnList, ui.keeper`devices, ui.model
    {
      ui.keeper == base && ui.Valid()
    }

    ghost function View(): Wlan
      reads base, base.devices.Values, ui, ui.model
    {
      Wlan(base.switchState, base.Lists(), ui.View())
    }

    constructor (keeper: DataKeeper, interface: KnmInterface)
      requires interface.keeper == keeper && interface.Valid()
      ensures base == keeper && ui == interface && Valid()
    {
      base := keeper;
      ui := interface;
    }

    /** `known` tells whether there are no rows or the device is listed. Otherwise the
        original goes on with a null device: it is undefined from the first row it adds. */
    method AddDevConnection(devName: string, conPath: seq<BackendRow>) returns (known: bool)
      requires base.Valid() && RowsWide(conPath)
      modifies base`devices, base`connected, base.devices.Values
      ensures base.Valid() && base.devices == old(base.devices)
      ensures known <==> conPath == [] || devName in base.devices
      ensures base.Lists() ==
              if conPath == [] || !known then old(base.Lists())
              else old(base.Lists())[devName := InsertAll(old(base.Lists())[devName], RowRecords(conPath))]
      ensures base.connected <==> old(base.connected) || (conPath != [] && known && !NoActiveRow(conPath[0]))
    {
      if conPath == [] {
        return true;
      }
      if devName !in base.devices {
        return false;
      }
      var dev := base.devices[devName];
      PutBack(base.devices, devName);
      base.devices := base.devices - {devName};
      AddRows(dev, conPath);
      base.devices := base.devices[devName := dev];
      base.OneListChanged(devName);
      known := true;
    }

    method AddRows(dev: NetDevice, conPath: seq<BackendRow>)
      requires conPath != [] && RowsWide(conPath)
      modifies dev`conns, base`connected
      ensures dev.conns == InsertAll(old(dev.conns), RowRecords(conPath))
      ensures base.connected <==> old(base.connected) || !NoActiveRow(conPath[0])
    {
      ghost var start := dev.conns;
      AddActiveRow(dev, conPath[0]);
      InsertAllAppend(start, FirstRecords(conPath[0]), InactiveRecords(conPath[1..]));
      AddInactiveRows(dev, conPath[1..]);
    }

    method AddActiveRow(dev: NetDevice, row: BackendRow)
      requires !NoActiveRow(row) ==> RowWide(ACTIVATED, row)
      modifies dev`conns, base`connected
      ensures dev.conns == InsertAll(old(dev.conns), FirstRecords(row))
      ensures base.connected <==> old(base.connected) || !NoActiveRow(row)
    {
      if !NoActiveRow(row) {
        var connection := MakeConnectionMap(ACTIVATED, row);
        dev.AddConnection(connection);
        assert [connection][1..] == [];
        base.connected := true;
      }
    }

    method AddInactiveRows(dev: NetDevice, rows: seq<BackendRow>)
      requires forall i :: 0 <= i < |rows| ==> RowWide(DEACTIVATED, rows[i])
      modifies dev`conns
      ensures dev.conns == InsertAll(old(dev.conns), InactiveRecords(rows))
    {
      ghost var records := InactiveRecords(rows);
      for i := 0 to |rows|
        invariant InsertAll(dev.conns, records[i..]) == InsertAll(old(dev.conns), records)
      {
        assert records[i..][0] == records[i] && records[i..][1..] == records[i + 1..];
        dev.AddConnection(MakeConnectionMap(DEACTIVATED, rows[i]));
      }
      assert records[|rows|..] == [];
    }

    /** Reload of one device from the backend's answer. */
    method UpdateWirelessConListSync(dev: string, rows: seq<BackendRow>) returns (known: bool)
      requires base.Valid() && RowsWide(rows)
      modifies base`devices, base`connected, base.devices.Values
      ensures base.Valid() && base.devices == old(base.devices)
      ensures known <==> rows == [] || dev in base.devices
      ensures base.Lists() ==
              if dev in old(base.Lists()) then old(base.Lists())[dev := InsertAll([], RowRecords(rows))]
              else old(base.Lists())
    {
      ghost var before := base.Lists();
      base.ClearConnectionList(dev);
      known := AddDevConnection(dev, rows);
      if dev in before {
        SetTwice(before, dev, [], InsertAll([], RowRecords(rows)));
      }
    }

    method OnSwitchBtnChanged(status: bool)
      requires Valid()
      modifies base`switchState
      ensures Valid() && View() == Step(old(View()), SwitchChanged(status))
    {
      base.switchState := status;
    }

    method AddWlanInfo(dev: NetDevice, wlanInfo: BackendRow)
      modifies dev`conns
      ensures dev.conns == AddRow(old(dev.conns), wlanInfo)
    {
      if |wlanInfo| == 10 {
        dev.AddConnection(MakeConnectionMap(DEACTIVATED, wlanInfo));
      }
      if |wlanInfo| == 11 {
        dev.AddConnection(MakeConnectionMap(DEACTIVATED, wlanInfo));
      }
    }

    /** Has the interface show the current device's list. */
    method ShowCurrent()
      requires Valid()
      modifies base`currentDev, ui, ui.model
      ensures Valid() && base.Lists() == old(base.Lists())
      ensures ui.View() == Show(old(ui.View()), old(base.Lists()), old(ui.View()).current)
    {
      ui.GetWirelessDevConnList();
    }

    method OnNetworkAdd(deviceName: string, wlanInfo: BackendRow)
      requires Valid()
      modifies base`currentDev, base.devices.Values, ui, ui.model
      ensures Valid()
      ensures View() == Step(old(View()), NetworkAdd(deviceName, wlanInfo))
    {
      if !base.switchState || deviceName == "" {
        return;
      }
      if deviceName !in base.devices {
        return;
      }
      AddWlanInfo(base.devices[deviceName], wlanInfo);
      base.OneListChanged(deviceName);
      assert base.Lists() == ListsAfter(old(View()), NetworkAdd(deviceName, wlanInfo));
      ShowCurrent();
    }

    method OnNetworkRemove(deviceName: string, wlanName: string)
      requires Valid()
      modifies base`currentDev, base.devices.Values, ui, ui.model
      ensures Valid()
      ensures View() == Step(old(View()), NetworkRemove(deviceName, wlanName))
    {
      if deviceName == "" {
        return;
      }
      if deviceName !in base.devices {
        return;
      }
      base.devices[deviceName].RemoveConnectionByName(wlanName);
      base.OneListChanged(deviceName);
      assert base.Lists() == ListsAfter(old(View()), NetworkRemove(deviceName, wlanName));
      ShowCurrent();
    }

    /** Has the interface take over one record of a device. */
    method ShowProp(deviceName: string, ssid: string) returns (defined: bool)
      requires Valid()
      modifies base`currentDev, ui, ui.model
      ensures defined <==> PropFits(old(ui.View()), old(base.Lists()), deviceName, ssid)
      ensures defined ==> Valid()
      ensures base.Lists() == old(base.Lists())
      ensures ui.View() == PropShow(old(ui.View()), old(base.Lists()), deviceName, ssid)
    {
      defined := ui.WirelessDevConnListPropUpdate(deviceName, ssid);
    }

    /** `defined` tells whether the index that the view model is asked for exists. */
    method OnNetworkPropChanged(parm: Record) returns (defined: bool)
      requires Valid()
      modifies base`currentDev, base.devices.Values, ui, ui.model
      ensures defined <==> Fits(old(View()), NetworkProp(parm))
      ensures defined ==> Valid()
      ensures View() == Step(old(View()), NetworkProp(parm))
    {
      var deviceName := StrOf(parm, DeviceName);
      if deviceName !in base.devices {
        return true;
      }
      base.devices[deviceName].UpdateConnectionProp(parm);
      base.OneListChanged(deviceName);
      assert base.Lists() == ListsAfter(old(View()), NetworkProp(parm));
      defined := ShowProp(deviceName, NameOf(parm));
    }

    /** The connection found by name is taken out, marked and added again. */
    method ActivateByName(dev: NetDevice, ssid: string, uuid: string, status: int)
      modifies dev`conns
      ensures dev.conns == WlanSpec.Activate(old(dev.conns), ssid, uuid, status)
    {
      var known := dev.ContainsConnectionName(ssid);
      if known {
        var conn := dev.GetConnectionByName(ssid);
        ghost var found := conn;
        dev.RemoveConnection(conn);
        conn := conn - {Uuid};
        conn := conn[Uuid := Str(uuid)];
        conn := conn - {State};
        conn := conn[State := Num(status)];
        if status == ACTIVATED {
          conn := conn[Configured := Num(1)];
        }
        assert conn == found + ActivationPatch(uuid, status);
        dev.AddConnection(conn);
      }
    }

    /** One device in the loop over all devices after a state change. */
    method DeactivateOn(d: string, uuid: string, status: int, reply: map<string, seq<BackendRow>>)
      requires base.Valid() && d in base.devices && ScanHalts(base.Lists()[d], uuid)
      requires forall k :: k in reply ==> RowsWide(reply[k])
      modifies base`devices, base`connected, base.devices.Values
      ensures base.Valid() && base.devices == old(base.devices)
      ensures base.Lists() == old(base.Lists())[d := Deactivate(old(base.Lists())[d], d, uuid, status, reply)]
    {
      ghost var before := base.Lists();
      var dev := base.devices[d];
      DeactivateCases(dev.conns, d, uuid, status, reply);
      var conn := dev.UpdateConnection(uuid, status);
      base.OneListChanged(d);
      if conn == map[] {
        return;
      }
      if status == DEACTIVATED && d in reply {
        ghost var l := base.Lists()[d];
        var known := UpdateWirelessConListSync(d, reply[d]);
        SetTwice(before, d, l, InsertAll([], RowRecords(reply[d])));
      }
    }

    method DeactivateOnAll(uuid: string, status: int, reply: map<string, seq<BackendRow>>, ghost e: Event)
      requires base.Valid()
      requires forall d :: d in base.Lists() ==> ScanHalts(base.Lists()[d], uuid)
      requires forall k :: k in reply ==> RowsWide(reply[k])
      requires e.ActiveChanged? && e.dev in base.Lists() && !Activates(e.status)
      requires e.uuid == uuid && e.status == status && e.reply == reply
      modifies base`devices, base`connected, base.devices.Values
      ensures base.Valid() && base.devices == old(base.devices)
      ensures base.Lists() == ListsAfterActive(old(base.Lists()), e)
    {
      ghost var before, f := base.Lists(), Deactivating(uuid, status, reply);
      HalfVisitedEnds(before, All(), f);
      var todo := base.devices.Keys;
      while todo != {}
        invariant base.Valid() && base.devices == old(base.devices) && todo <= base.devices.Keys
        invariant base.Lists() == HalfVisited(before, todo, All(), f)
        decreases |todo|
      {
        var d :| d in todo;
        HalfVisitedStep(before, todo, d, All(), f);
        DeactivateOn(d, uuid, status, reply);
        todo := todo - {d};
      }
    }

    method OnActiveConnectionChanged(deviceName: string, ssid: string, uuid: string, status: int,
                                     reply: map<string, seq<BackendRow>>)
      requires Valid() && Accepts(View(), ActiveChanged(deviceName, ssid, uuid, status, reply))
      modifies base`devices, base`connected, base`currentDev, base.devices.Values, ui, ui.model
      ensures Valid()
      ensures View() == Step(old(View()), ActiveChanged(deviceName, ssid, uuid, status, reply))
    {
      if !base.switchState {
        return;
      }
      if uuid == "" {
        return;
      }
      if deviceName !in base.devices {
        return;
      }
      HandleStateChange(deviceName, ssid, uuid, status, reply);
    }

    /** Has the interface load the current device's list anew. */
    method ShowRebuilt()
      requires Valid()
      modifies base`currentDev, ui, ui.model
      ensures Valid() && base.Lists() == old(base.Lists())
      ensures ui.View() == Rebuild(old(ui.View()), old(base.Lists()))
    {
      ui.RebuildCurrentWirelessList();
    }

    method HandleStateChange(deviceName: string, ssid: string, uuid: string, status: int,
                             reply: map<string, seq<BackendRow>>)
      requires Valid() && deviceName in base.Lists()
      requires forall k :: k in reply ==> RowsWide(reply[k])
      requires !Activates(status) ==> forall d :: d in base.Lists() ==> ScanHalts(base.Lists()[d], uuid)
      modifies base`devices, base`connected, base`currentDev, base.devices.Values, ui, ui.model
      ensures Valid()
      ensures base.Lists() == ListsAfterActive(old(base.Lists()), ActiveChanged(deviceName, ssid, uuid, status, reply))
      ensures ui.View() == Rebuild(old(ui.View()), base.Lists())
    {
      ChangeState(deviceName, ssid, uuid, status, reply);
      ShowRebuilt();
    }

    method ChangeState(deviceName: string, ssid: string, uuid: string, status: int,
                       reply: map<string, seq<BackendRow>>)
      requires base.Valid() && deviceName in base.devices
      requires forall k :: k in reply ==> RowsWide(reply[k])
      requires !Activates(status) ==> forall d :: d in base.Lists() ==> ScanHalts(base.Lists()[d], uuid)
      modifies base`devices, base`connected, base.devices.Values
      ensures base.Valid() && base.devices == old(base.devices)
      ensures base.Lists() == ListsAfterActive(old(base.Lists()), ActiveChanged(deviceName, ssid, uuid, status, reply))
    {
      if status == ACTIVATED || status == ACTIVATING {
        ActivateByName(base.devices[deviceName], ssid, uuid, status);
        base.OneListChanged(deviceName);
      } else {
        DeactivateOnAll(uuid, status, reply, ActiveChanged(deviceName, ssid, uuid, status, reply));
      }
    }
  }
}
