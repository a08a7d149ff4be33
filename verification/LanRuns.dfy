/** Whole runs of the wired keeper. */
module LanRuns {
  import opened Records
  import opened SeqOps
  import opened NetDevices
  import opened KeeperOrder
  import opened DataKeepers
  import opened LanSpec

  /** The backend's signals, with what it answers while they are handled. */
  datatype LanEvent =
    | LanLoad(dev: string, rows: seq<LanInfo>, pppoe: set<string>, connectivity: seq<int>)
    | LanAdd(dev: string, info: LanInfo, pppoe: set<string>)
    | LanRemove(path: string)
    | LanState(dev: string, uuid: string, status: int, answer: seq<int>)
    | LanUpdate(dev: string, info: LanInfo, pppoe: set<string>)

  function Step(lists: Lists, e: LanEvent): Lists {
    match e
    case LanLoad(dev, rows, pppoe, connectivity) =>
      if dev in lists then lists[dev := LoadedLan(lists[dev], rows, pppoe, connectivity)] else lists
    case LanAdd(dev, info, pppoe) => ListsAfterAdd(lists, dev, info, pppoe)
    case LanRemove(path) => ListsAfterRemove(lists, path)
    case LanState(dev, uuid, status, answer) => ListsAfterActive(lists, dev, uuid, status, answer)
    case LanUpdate(dev, info, pppoe) => ListsAfterUpdate(lists, dev, info, pppoe)
  }

  // ----- what the lists keep ---------------------------------------------------------

  function PathOf(r: Record): string {
    StrOf(r, Path)
  }

  function UuidOf(r: Record): string {
    StrOf(r, Uuid)
  }

  ghost predicate Apart(a: Record, b: Record) {
    PathOf(a) != PathOf(b) && UuidOf(a) != UuidOf(b)
  }

  ghost predicate ApartFrom(l: seq<Record>, r: Record) {
    forall i :: 0 <= i < |l| ==> Apart(l[i], r)
  }

  /** No two records of a device share a path or a uuid. */
  ghost predicate Unique(l: seq<Record>) {
    forall i, j :: 0 <= i < j < |l| ==> Apart(l[i], l[j])
  }

  ghost predicate UniqueLists(lists: Lists) {
    forall d :: d in lists ==> Unique(lists[d])
  }

  lemma InsertAtUnique(l: seq<Record>, k: nat, r: Record)
    requires Unique(l) && ApartFrom(l, r) && k <= |l|
    ensures Unique(InsertAt(l, k, r))
  {
    var s := InsertAt(l, k, r);
    forall i, j | 0 <= i < j < |s|
      ensures Apart(s[i], s[j])
    {
      assert i != k ==> s[i] == l[if i < k then i else i - 1];
      assert j != k ==> s[j] == l[if j < k then j else j - 1];
    }
  }

  lemma InsertUnique(l: seq<Record>, r: Record)
    requires Unique(l) && ApartFrom(l, r)
    ensures Unique(Insert(l, r)) && forall x :: x in Insert(l, r) <==> x in l || x == r
  {
    assert r !in l;
    InsertMembers(l, r);
    InsertAtUnique(l, Slot(l, r), r);
  }

  lemma RemoveAtUnique(l: seq<Record>, i: nat)
    requires Unique(l) && i < |l|
    ensures Unique(RemoveAt(l, i)) && ApartFrom(RemoveAt(l, i), l[i])
  {
    var s := RemoveAt(l, i);
    forall k | 0 <= k < |s|
      ensures s[k] == l[if k < i then k else k + 1]
    {
    }
  }

  /** The removal loop takes out the one record with the path, if there is one. */
  lemma SkippingIsRemoveAt(l: seq<Record>, path: string)
    requires Unique(l)
    ensures var i := FirstIndex(l, HasPath(path));
            RemoveSkipping(l, HasPath(path)) == if i < |l| then RemoveAt(l, i) else l
  {
    var i := FirstIndex(l, HasPath(path));
    if i < |l| {
      forall k | 0 <= k < |l| && k != i
        ensures !HasPath(path)(l[k])
      {
        assert k < i ==> Apart(l[k], l[i]);
        assert k > i ==> Apart(l[i], l[k]);
      }
      SkippingSingle(l, HasPath(path), i);
    } else {
      SkippingNone(l, HasPath(path));
    }
  }

  lemma SkippingUnique(l: seq<Record>, path: string)
    requires Unique(l)
    ensures Unique(RemoveSkipping(l, HasPath(path)))
  {
    SkippingIsRemoveAt(l, path);
    var i := FirstIndex(l, HasPath(path));
    if i < |l| {
      RemoveAtUnique(l, i);
    }
  }

  /** A state change leaves path and uuid of every record alone. */
  lemma RestateUnique(l: seq<Record>, uuid: string, status: int, connectivity: int, toFront: bool)
    requires Unique(l)
    ensures Unique(Restate(l, uuid, ConnectivityPatch(status, connectivity), toFront))
  {
    var i := FirstIndex(l, HasUuid(uuid));
    if i < |l| {
      var c := l[i] + ConnectivityPatch(status, connectivity);
      assert PathOf(c) == PathOf(l[i]) && UuidOf(c) == UuidOf(l[i]);
      if toFront {
        RemoveAtUnique(l, i);
        FrontUnique(c, RemoveAt(l, i));
      } else {
        InPlaceUnique(l, i, c);
      }
    }
  }

  lemma FrontUnique(c: Record, rest: seq<Record>)
    requires Unique(rest) && ApartFrom(rest, c)
    ensures Unique([c] + rest)
  {
    var s := [c] + rest;
    assert forall k :: 0 < k < |s| ==> s[k] == rest[k - 1];
  }

  lemma InPlaceUnique(l: seq<Record>, i: nat, c: Record)
    requires Unique(l) && i < |l| && PathOf(c) == PathOf(l[i]) && UuidOf(c) == UuidOf(l[i])
    ensures Unique(l[i := c])
  {
  }

  lemma InsertStaysApart(l: seq<Record>, r: Record, x: Record)
    requires ApartFrom(l, x) && Apart(r, x) && r !in l
    ensures ApartFrom(Insert(l, r), x)
  {
    var l' := Insert(l, r);
    InsertMembers(l, r);
    forall i | 0 <= i < |l'|
      ensures Apart(l'[i], x)
    {
      assert l'[i] in l';
    }
  }

  lemma {:induction false} InsertAllUnique(l: seq<Record>, rs: seq<Record>)
    requires Unique(l) && Unique(rs) && forall i :: 0 <= i < |rs| ==> ApartFrom(l, rs[i])
    ensures Unique(InsertAll(l, rs))
    decreases |rs|
  {
    if rs != [] {
      var r, rest := rs[0], rs[1..];
      InsertUnique(l, r);
      forall i | 0 <= i < |rest|
        ensures ApartFrom(Insert(l, r), rest[i])
      {
        if r !in l {
          InsertStaysApart(l, r, rest[i]);
        }
      }
      InsertAllUnique(Insert(l, r), rest);
    }
  }

  // ----- admissible signals -------------------------------------------------------------

  function LoadRecords(rows: seq<LanInfo>, pppoe: set<string>, connectivity: seq<int>): seq<Record> {
    if rows == [] then [] else FirstLanRecords(rows[0], pppoe, connectivity) + LanRecords(rows[1..], pppoe)
  }

  /** Path and uuid of the signal are new to the list. */
  ghost predicate NewTo(l: seq<Record>, info: LanInfo)
    requires |info| >= 3
  {
    forall i :: 0 <= i < |l| ==> PathOf(l[i]) != info[2] && UuidOf(l[i]) != info[1]
  }

  /** What the backend is relied on for: loaded rows differ from each other and from what
      the device holds; an added connection is new; the path and the uuid of an updated one
      name the same record, if any, on every device. */
  ghost predicate FromBackend(lists: Lists, e: LanEvent) {
    match e
    case LanLoad(dev, rows, pppoe, connectivity) =>
      var rs := LoadRecords(rows, pppoe, connectivity);
      dev in lists ==> Unique(rs) && forall i :: 0 <= i < |rs| ==> ApartFrom(lists[dev], rs[i])
    case LanAdd(dev, info, _) => |info| >= 3 && forall d :: d in lists && Receives(dev, d) ==> NewTo(lists[d], info)
    case LanRemove(_) => true
    case LanState(_, _, _, _) => true
    case LanUpdate(dev, info, _) =>
      |info| >= 3 && SignalFits(lists, dev, info) && forall d :: d in lists ==> Paired(lists[d], info)
  }

  lemma TakesOverUnique(l: seq<Record>, info: LanInfo, pppoe: set<string>)
    requires Unique(l) && |info| >= 3 && InfoFits(l, info) && Paired(l, info)
    ensures Unique(TakesOver(l, info, pppoe))
  {
    var r := TakenOver(l, info, pppoe);
    assert PathOf(r) == info[2] && UuidOf(r) == info[1];
    SkippingIsRemoveAt(l, info[2]);
    var i := FirstIndex(l, HasPath(info[2]));
    if i < |l| {
      RemoveAtUnique(l, i);
      assert Identifies(WiredDevice, info[1])(l[i]);
      InsertUnique(RemoveAt(l, i), r);
    } else {
      InsertUnique(l, r);
    }
  }

  lemma LoadIsInsertAll(l: seq<Record>, rows: seq<LanInfo>, pppoe: set<string>, connectivity: seq<int>)
    ensures LoadedLan(l, rows, pppoe, connectivity) == InsertAll(l, LoadRecords(rows, pppoe, connectivity))
  {
    if rows != [] {
      InsertAllAppend(l, FirstLanRecords(rows[0], pppoe, connectivity), LanRecords(rows[1..], pppoe));
    }
  }

  lemma AddUnique(l: seq<Record>, info: LanInfo, pppoe: set<string>)
    requires Unique(l) && |info| >= 3 && NewTo(l, info)
    ensures Unique(Insert(l, MakeLanMap(DEACTIVATED, info, pppoe)))
  {
    var r := MakeLanMap(DEACTIVATED, info, pppoe);
    assert PathOf(r) == info[2] && UuidOf(r) == info[1];
    InsertUnique(l, r);
  }

  lemma StepUnique(lists: Lists, e: LanEvent)
    requires UniqueLists(lists) && FromBackend(lists, e)
    ensures UniqueLists(Step(lists, e))
  {
    forall d | d in Step(lists, e)
      ensures Unique(Step(lists, e)[d])
    {
      match e
      case LanLoad(dev, rows, pppoe, connectivity) =>
        if dev in lists {
          LoadIsInsertAll(lists[dev], rows, pppoe, connectivity);
          InsertAllUnique(lists[dev], LoadRecords(rows, pppoe, connectivity));
        }
      case LanAdd(dev, info, pppoe) =>
        if Receives(dev, d) {
          AddUnique(lists[d], info, pppoe);
        }
      case LanRemove(path) => SkippingUnique(lists[d], path);
      case LanState(dev, uuid, status, answer) => StateUnique(lists, dev, uuid, status, answer, d);
      case LanUpdate(dev, info, pppoe) =>
        if Receives(dev, d) {
          TakesOverUnique(lists[d], info, pppoe);
        } else {
          SkippingUnique(lists[d], info[2]);
        }
    }
  }

  lemma StateUnique(lists: Lists, dev: string, uuid: string, status: int, answer: seq<int>, d: string)
    requires UniqueLists(lists) && d in lists
    ensures d in ListsAfterActive(lists, dev, uuid, status, answer)
    ensures Unique(ListsAfterActive(lists, dev, uuid, status, answer)[d])
  {
    var connectivity := if status == ACTIVATED && answer != [] then answer[0] else 4;
    RestateUnique(lists[d], uuid, status, connectivity, status == ACTIVATED);
  }

  // ----- every run -----------------------------------------------------------------------

  function Run(lists: Lists, es: seq<LanEvent>): Lists
    decreases |es|
  {
    if es == [] then lists else Run(Step(lists, es[0]), es[1..])
  }

  ghost predicate BackendRun(lists: Lists, es: seq<LanEvent>)
    decreases |es|
  {
    es == [] || (FromBackend(lists, es[0]) && BackendRun(Step(lists, es[0]), es[1..]))
  }

  /** Over every run of loads, additions, removals, state changes and updates, named or
      not, no device ever has a path or a uuid twice. */
  lemma {:induction false} EveryRunUnique(lists: Lists, es: seq<LanEvent>)
    requires UniqueLists(lists) && BackendRun(lists, es)
    ensures UniqueLists(Run(lists, es))
    decreases |es|
  {
    if es != [] {
      StepUnique(lists, es[0]);
      EveryRunUnique(Step(lists, es[0]), es[1..]);
    }
  }

  ghost predicate OwnedBy(lists: Lists, dev: string, path: string) {
    dev in lists && PathOnce(lists[dev], path) &&
    forall d :: d in lists && d != dev ==> PathAbsent(lists[d], path)
  }

  lemma UniqueAtMostOnce(l: seq<Record>, path: string)
    requires Unique(l)
    ensures PathAtMostOnce(l, path)
  {
    forall i, j | 0 <= i < j < |l|
      ensures !(StrOf(l[i], Path) == path && StrOf(l[j], Path) == path)
    {
      assert Apart(l[i], l[j]);
    }
  }

  /** So every update that names a device and a path leaves the connection on that device
      exactly once and on no other, and loses no device, after any run. */
  lemma EveryUpdateOwns(lists: Lists, es: seq<LanEvent>, dev: string, info: LanInfo, pppoe: set<string>)
    requires UniqueLists(lists) && BackendRun(lists, es)
    requires FromBackend(Run(lists, es), LanUpdate(dev, info, pppoe))
    requires dev != "" && dev in Run(lists, es) && info[2] != ""
    ensures var after := Step(Run(lists, es), LanUpdate(dev, info, pppoe));
            OwnedBy(after, dev, info[2]) && after.Keys == Run(lists, es).Keys
  {
    var now := Run(lists, es);
    EveryRunUnique(lists, es);
    forall d | d in now
      ensures PathAtMostOnce(now[d], info[2]) && NoTwoAdjacent(now[d], HasPath(info[2]))
    {
      UniqueAtMostOnce(now[d], info[2]);
      TakesOnceSimply(now[d], info, pppoe);
    }
    ExclusiveOwnership(now, dev, info, pppoe);
    PairedMeansOnce(now[dev], info, pppoe);
  }
}
