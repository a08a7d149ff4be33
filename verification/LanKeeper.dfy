/** The wired keeper: one method per backend signal. */
module LanKeepers {
  import opened Text
  import opened Records
  import opened SeqOps
  import opened NetDevices
  import opened DataKeepers
  import opened LanSpec

  lemma UnknownPath(l: seq<Record>, path: string)
    requires !Contains(l, WiredDevice, path)
    ensures RemoveSkipping(l, HasPath(path)) == l
  {
  }

  class KnmLanDataKeeper {
    const base: DataKeeper

    ghost predicate Valid()
      reads base`devices
    {
      base.Valid() && forall d :: d in base.devices ==> base.devices[d].devType == WiredDevice
    }

    constructor (keeper: DataKeeper)
      requires keeper.Valid() && forall d :: d in keeper.devices ==> keeper.devices[d].devType == WiredDevice
      ensures base == keeper && Valid()
    {
      base := keeper;
    }

    method AddDevConnection(devName: string, conPath: seq<LanInfo>, pppoe: set<string>, connectivity: seq<int>)
      requires Valid()
      modifies base`devices, base`connected, base.devices.Values
      ensures Valid() && base.devices == old(base.devices)
      ensures base.Lists() ==
              if devName in old(base.Lists())
              then old(base.Lists())[devName := LoadedLan(old(base.Lists())[devName], conPath, pppoe, connectivity)]
              else old(base.Lists())
      ensures base.connected <==>
              old(base.connected) || (conPath != [] && devName in base.devices && "--" !in conPath[0])
    {
      if conPath == [] {
        assert devName in base.Lists() ==> base.Lists()[devName := base.Lists()[devName]] == base.Lists();
        return;
      }
      if devName !in base.devices {
        return;
      }
      var dev := base.devices[devName];
      PutBack(base.devices, devName);
      base.devices := base.devices - {devName};
      AddActiveRow(dev, conPath[0], pppoe, connectivity);
      AddInactiveRows(dev, conPath[1..], pppoe);
      base.devices := base.devices[devName := dev];
      base.OneListChanged(devName);
    }

    method AddActiveRow(dev: NetDevice, row: LanInfo, pppoe: set<string>, connectivity: seq<int>)
      modifies dev`conns, base`connected
      ensures dev.conns == InsertAll(old(dev.conns), FirstLanRecords(row, pppoe, connectivity))
      ensures base.connected <==> old(base.connected) || "--" !in row
    {
      if "--" !in row {
        var connMap := MakeLanMap(ACTIVATED, row, pppoe);
        if connectivity != [] {
          connMap := connMap[Connectivity := Num(connectivity[0])];
        }
        dev.AddConnection(connMap);
        assert [connMap][1..] == [];
        base.connected := true;
      }
    }

    method AddInactiveRows(dev: NetDevice, rows: seq<LanInfo>, pppoe: set<string>)
      modifies dev`conns
      ensures dev.conns == InsertAll(old(dev.conns), LanRecords(rows, pppoe))
    {
      ghost var records := LanRecords(rows, pppoe);
      for i := 0 to |rows|
        invariant InsertAll(dev.conns, records[i..]) == InsertAll(old(dev.conns), records)
      {
        assert records[i..][0] == records[i] && records[i..][1..] == records[i + 1..];
        dev.AddConnection(MakeLanMap(DEACTIVATED, rows[i], pppoe));
      }
      assert records[|rows|..] == [];
    }

    /** Takes one device out of the map, adds the connection, puts the device back. */
    method AddTo(d: string, r: Record)
      requires Valid() && d in base.devices
      modifies base`devices, base.devices[d]
      ensures Valid() && base.devices == old(base.devices)
      ensures base.Lists() == old(base.Lists())[d := Insert(old(base.Lists())[d], r)]
    {
      var dev := base.devices[d];
      PutBack(base.devices, d);
      base.devices := base.devices - {d};
      dev.AddConnection(r);
      base.devices := base.devices[d := dev];
      base.OneListChanged(d);
    }

    method RemoveFrom(d: string, path: string)
      requires Valid() && d in base.devices
      modifies base`devices, base.devices[d]
      ensures Valid() && base.devices == old(base.devices)
      ensures base.Lists() == old(base.Lists())[d := RemoveSkipping(old(base.Lists())[d], HasPath(path))]
    {
      var dev := base.devices[d];
      var known := dev.ContainsConnection(path);
      if known {
        PutBack(base.devices, d);
        base.devices := base.devices - {d};
        dev.RemoveConnectionByPath(path);
        base.devices := base.devices[d := dev];
      } else {
        UnknownPath(dev.conns, path);
      }
      base.OneListChanged(d);
    }

    method UpdateOn(d: string, uuid: string, status: int, connectivity: int, ghost f: ListChange)
      requires Valid() && d in base.devices
      requires f == Restating(uuid, ConnectivityPatch(status, connectivity), status == ACTIVATED)
      modifies base.devices[d]
      ensures Valid()
      ensures base.Lists() == old(base.Lists())[d := f(d, old(base.Lists())[d])]
    {
      ghost var l := base.Lists()[d];
      var conn := base.devices[d].UpdateConnectivity(uuid, status, connectivity);
      assert base.devices[d].conns == f(d, l);
      base.OneListChanged(d);
    }

    method OnLanAdd(deviceName: string, lanInfo: LanInfo, pppoe: set<string>)
      requires Valid()
      modifies base`devices, base.devices.Values
      ensures Valid() && base.devices == old(base.devices)
      ensures base.Lists() == ListsAfterAdd(old(base.Lists()), deviceName, lanInfo, pppoe)
    {
      if deviceName != "" && deviceName !in base.devices {
        return;
      }
      var r := MakeLanMap(DEACTIVATED, lanInfo, pppoe);
      if deviceName == "" {
        AddToAll(r);
        return;
      }
      AddTo(deviceName, r);
    }

    method AddToAll(r: Record)
      requires Valid()
      modifies base`devices, base.devices.Values
      ensures Valid() && base.devices == old(base.devices)
      ensures base.Lists() == Visited(old(base.Lists()), All(), Inserting(r))
    {
      ghost var before, f := base.Lists(), Inserting(r);
      HalfVisitedEnds(before, All(), f);
      var todo := base.devices.Keys;
      while todo != {}
        invariant Valid() && base.devices == old(base.devices) && todo <= base.devices.Keys
        invariant base.Lists() == HalfVisited(before, todo, All(), f)
        decreases |todo|
      {
        var d :| d in todo;
        HalfVisitedStep(before, todo, d, All(), f);
        AddTo(d, r);
        todo := todo - {d};
      }
    }

    method OnLanRemove(path: string)
      requires Valid()
      modifies base`devices, base.devices.Values
      ensures Valid() && base.devices == old(base.devices)
      ensures base.Lists() == ListsAfterRemove(old(base.Lists()), path)
    {
      ghost var before, f := base.Lists(), DroppingPath(path);
      HalfVisitedEnds(before, All(), f);
      var todo := base.devices.Keys;
      while todo != {}
        invariant Valid() && base.devices == old(base.devices) && todo <= base.devices.Keys
        invariant base.Lists() == HalfVisited(before, todo, All(), f)
        decreases |todo|
      {
        var d :| d in todo;
        HalfVisitedStep(before, todo, d, All(), f);
        RemoveFrom(d, path);
        todo := todo - {d};
      }
    }

    method OnActiveConnectionChanged(deviceName: string, uuid: string, status: int, answer: seq<int>)
      requires Valid()
      modifies base.devices.Values
      ensures Valid()
      ensures base.Lists() == ListsAfterActive(old(base.Lists()), deviceName, uuid, status, answer)
    {
      if uuid == "" {
        return;
      }
      if deviceName == "" && status != DEACTIVATED {
        return;
      }
      var connectivity := 4;
      if status == ACTIVATED && answer != [] {
        connectivity := answer[0];
      }
      if deviceName == "" {
        UpdateAll(uuid, status, connectivity);
      } else if deviceName in base.devices {
        UpdateNamed(deviceName, uuid, status, connectivity);
      }
    }

    /** The branch of a named device, which may not know the connection. */
    method UpdateNamed(deviceName: string, uuid: string, status: int, connectivity: int)
      requires Valid() && deviceName in base.devices
      modifies base.devices.Values
      ensures Valid()
      ensures base.Lists() ==
              if !Contains(old(base.Lists())[deviceName], WiredDevice, uuid) then old(base.Lists())
              else old(base.Lists())[deviceName :=
                     Restate(old(base.Lists())[deviceName], uuid, ConnectivityPatch(status, connectivity),
                             status == ACTIVATED)]
    {
      var dev := base.devices[deviceName];
      var known := dev.ContainsConnection(uuid);
      if !known {
        return;
      }
      UpdateOn(deviceName, uuid, status, connectivity,
               Restating(uuid, ConnectivityPatch(status, connectivity), status == ACTIVATED));
    }

    method UpdateAll(uuid: string, status: int, connectivity: int)
      requires Valid()
      modifies base.devices.Values
      ensures Valid()
      ensures base.Lists() ==
              Visited(old(base.Lists()), All(),
                      Restating(uuid, ConnectivityPatch(status, connectivity), status == ACTIVATED))
    {
      ghost var before := base.Lists();
      ghost var f := Restating(uuid, ConnectivityPatch(status, connectivity), status == ACTIVATED);
      HalfVisitedEnds(before, All(), f);
      var todo := base.devices.Keys;
      while todo != {}
        invariant Valid() && todo <= base.devices.Keys
        invariant base.Lists() == HalfVisited(before, todo, All(), f)
        decreases |todo|
      {
        var d :| d in todo;
        HalfVisitedStep(before, todo, d, All(), f);
        UpdateOn(d, uuid, status, connectivity, f);
        todo := todo - {d};
      }
    }

    /** The device the updated connection belongs to. */
    method TakeOver(dev: NetDevice, lanInfo: LanInfo, pppoe: set<string>)
      requires dev.devType == WiredDevice && InfoFits(dev.conns, lanInfo)
      modifies dev`conns
      ensures dev.conns == TakesOver(old(dev.conns), lanInfo, pppoe)
    {
      var known := dev.ContainsConnection(lanInfo[1]);
      if !known {
        dev.AddConnection(MakeLanMap(DEACTIVATED, lanInfo, pppoe));
        return;
      }
      var status := DEACTIVATED;
      var first := dev.conns[0];
      if StateOf(first) != 0 && StrOf(first, Uuid) == lanInfo[1] {
        status := ParseInt(lanInfo[4]);
      }
      dev.RemoveConnectionByPath(lanInfo[2]);
      dev.AddConnection(MakeLanMap(status, lanInfo, pppoe));
    }

    /** Takes devices out of the map and puts them back, except that it does not put
        back another device when the connection path is empty. */
    method UpdateLanInfo(deviceName: string, lanInfo: LanInfo, pppoe: set<string>)
      requires Valid() && SignalFits(base.Lists(), deviceName, lanInfo)
      modifies base`devices, base.devices.Values
      ensures Valid()
      ensures base.Lists() == ListsAfterUpdate(old(base.Lists()), deviceName, lanInfo, pppoe)
    {
      ghost var before, devs := base.Lists(), base.devices;
      ghost var keep, f := StaysListed(deviceName, lanInfo), LanUpdated(deviceName, lanInfo, pppoe);
      HalfVisitedEnds(before, keep, f);
      var todo := base.devices.Keys;
      while todo != {}
        invariant Valid() && todo <= base.devices.Keys
        invariant forall d :: d in base.devices ==> d in devs && base.devices[d] == devs[d]
        invariant base.Lists() == HalfVisited(before, todo, keep, f)
        decreases |todo|
      {
        var d :| d in todo;
        HalfVisitedStep(before, todo, d, keep, f);
        UpdateOne(d, deviceName, lanInfo, pppoe, keep, f);
        todo := todo - {d};
      }
    }

    /** One turn of the loop over the devices. */
    method UpdateOne(d: string, deviceName: string, lanInfo: LanInfo, pppoe: set<string>,
                     ghost keep: string -> bool, ghost f: ListChange)
      requires Valid() && d in base.devices
      requires if Receives(deviceName, d) then InfoFits(base.Lists()[d], lanInfo) else |lanInfo| >= 3
      requires keep == StaysListed(deviceName, lanInfo) && f == LanUpdated(deviceName, lanInfo, pppoe)
      modifies base`devices, base.devices[d]
      ensures Valid()
      ensures base.devices == if keep(d) then old(base.devices) else old(base.devices) - {d}
      ensures base.Lists() ==
              if keep(d) then old(base.Lists())[d := f(d, old(base.Lists())[d])] else old(base.Lists()) - {d}
    {
      var dev := base.devices[d];
      PutBack(base.devices, d);
      base.devices := base.devices - {d};
      if deviceName != "" && d != deviceName {
        if lanInfo[2] == "" {
          return;
        }
        dev.RemoveConnectionByPath(lanInfo[2]);
      } else {
        TakeOver(dev, lanInfo, pppoe);
      }
      base.devices := base.devices[d := dev];
      base.OneListChanged(d);
    }
  }
}
