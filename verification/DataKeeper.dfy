/** The device map under both keepers. */
module DataKeepers {
  import opened Records
  import opened NetDevices

  type Lists = map<string, seq<Record>>

  /** A change of one device's list, which may depend on the device. */
  type ListChange = (string, seq<Record>) -> seq<Record>

  /** The list of `dev`, empty for an unknown device. */
  function ListOf(lists: Lists, dev: string): seq<Record> {
    if dev in lists then lists[dev] else []
  }

  /** Taking an entry out and putting it back. */
  lemma PutBack<V>(m: map<string, V>, k: string)
    requires k in m
    ensures (m - {k})[k := m[k]] == m
  {
  }

  /** The lists in the middle of a loop over the devices: those in `todo` are still to be
      visited, a visited one stays if `keep` says so and has its list changed by `f`. */
  function HalfVisited(lists: Lists, todo: set<string>, keep: string -> bool, f: ListChange): Lists {
    map d | d in lists && (d in todo || keep(d)) :: if d in todo then lists[d] else f(d, lists[d])
  }

  function Visited(lists: Lists, keep: string -> bool, f: ListChange): Lists {
    map d | d in lists && keep(d) :: f(d, lists[d])
  }

  function All(): string -> bool {
    d => true
  }

  lemma HalfVisitedStep(lists: Lists, todo: set<string>, d: string, keep: string -> bool, f: ListChange)
    requires d in todo && d in lists
    ensures HalfVisited(lists, todo, keep, f)[d] == lists[d]
    ensures HalfVisited(lists, todo - {d}, keep, f) ==
            if keep(d) then HalfVisited(lists, todo, keep, f)[d := f(d, lists[d])]
            else HalfVisited(lists, todo, keep, f) - {d}
  {
  }

  lemma HalfVisitedEnds(lists: Lists, keep: string -> bool, f: ListChange)
    ensures HalfVisited(lists, lists.Keys, keep, f) == lists
    ensures HalfVisited(lists, {}, keep, f) == Visited(lists, keep, f)
  {
  }

  class DataKeeper {
    var devices: map<string, NetDevice>
    var currentDev: string
    var switchState: bool
    var connected: bool

    /** Every device knows its key, hence no two entries share an object. */
    ghost predicate Valid()
      reads this`devices
    {
      forall d :: d in devices ==> devices[d].name == d
    }

    ghost function Lists(): Lists
      reads this`devices, devices.Values
    {
      map d | d in devices :: devices[d].conns
    }

    constructor ()
      ensures Valid() && devices == map[] && Lists() == map[]
    {
      devices := map[];
      currentDev := "";
      switchState := false;
      connected := false;
    }

    method AddDevice(devName: string, isAvailable: bool, kind: DeviceType)
      requires Valid()
      modifies this
      ensures Valid()
      ensures !isAvailable ==> devices == old(devices)
      ensures isAvailable ==>
                devices.Keys == old(devices.Keys) + {devName} &&
                devices == old(devices)[devName := devices[devName]] && fresh(devices[devName]) &&
                devices[devName].devType == kind && devices[devName].available
      ensures Lists() == if isAvailable then old(Lists())[devName := []] else old(Lists())
      ensures switchState == old(switchState)
    {
      if !isAvailable {
        return;
      }
      var dev := new NetDevice(devName, kind);
      dev.SetAvailable(isAvailable);
      devices := devices[devName := dev];
    }

    method ClearDevice()
      modifies this`devices
      ensures devices == map[]
    {
      devices := map[];
    }

    method GetDevConnections(devName: string) returns (ret: seq<Record>)
      modifies this`currentDev
      ensures ret == ListOf(Lists(), devName)
      ensures currentDev == if devName in devices then devName else old(currentDev)
    {
      if devName !in devices {
        return [];
      }
      currentDev := devName;
      ret := devices[devName].conns;
    }

    method ClearConnectionList(devName: string)
      requires Valid()
      modifies this`devices, devices.Values
      ensures Valid() && devices == old(devices)
      ensures Lists() == if devName in old(Lists()) then old(Lists())[devName := []] else old(Lists())
    {
      if devName !in devices {
        return;
      }
      var dev := devices[devName];
      PutBack(devices, devName);
      devices := devices - {devName};
      dev.ClearConnections();
      devices := devices[devName := dev];
      OneListChanged(devName);
    }

    /** A change of one device object changes one list. */
    twostate lemma OneListChanged(dev: string)
      requires old(Valid()) && devices == old(devices) && dev in devices
      requires forall d :: d in devices && d != dev ==> devices[d].conns == old(devices[d].conns)
      ensures Lists() == old(Lists())[dev := devices[dev].conns]
    {
    }
  }
}
