/** The wired keeper on values: what each handler does to the device lists. */
module LanSpec {
  import opened Text
  import opened Records
  import opened SeqOps
  import opened NetDevices
  import opened KeeperOrder
  import opened DataKeepers

  type LanInfo = seq<string>

  /** `makeConnectionMap`: an empty record for fewer than three fields. `pppoe` holds
      the uuids that `nmcli` reports as DSL connections. */
  function MakeLanMap(status: int, info: LanInfo, pppoe: set<string>): Record {
    if |info| < 3 then map[]
    else map[Name := Str(info[0]), Uuid := Str(info[1]), Path := Str(info[2]), State := Num(status),
             Loading := Num(0), IsDsl := Num(if info[1] in pppoe then 1 else 0), Connectivity := Num(0)]
  }

  // ----- bulk load -----------------------------------------------------------

  function LanRecords(rows: seq<LanInfo>, pppoe: set<string>): (l: seq<Record>)
    ensures |l| == |rows|
    ensures forall i :: 0 <= i < |l| ==> l[i] == MakeLanMap(DEACTIVATED, rows[i], pppoe)
  {
    seq(|rows|, i requires 0 <= i < |rows| => MakeLanMap(DEACTIVATED, rows[i], pppoe))
  }

  /** The first row is the active connection, or holds "--". `connectivity` is the
      backend's answer, empty when it gave none. */
  function FirstLanRecords(row: LanInfo, pppoe: set<string>, connectivity: seq<int>): seq<Record> {
    if "--" in row then []
    else
      var r := MakeLanMap(ACTIVATED, row, pppoe);
      [if connectivity == [] then r else r[Connectivity := Num(connectivity[0])]]
  }

  function LoadedLan(l: seq<Record>, rows: seq<LanInfo>, pppoe: set<string>, connectivity: seq<int>): seq<Record> {
    if rows == [] then l
    else InsertAll(InsertAll(l, FirstLanRecords(rows[0], pppoe, connectivity)), LanRecords(rows[1..], pppoe))
  }

  lemma LanRecordsRank(rows: seq<LanInfo>, pppoe: set<string>)
    ensures OneRank(LanRecords(rows, pppoe), false, ParseInt("0"))
  {
  }

  /** Loading a cleared wired device: the active row, then the others reversed. */
  lemma WiredLoadReverses(rows: seq<LanInfo>, pppoe: set<string>, connectivity: seq<int>)
    requires rows != [] && ("--" !in rows[0] ==> |rows[0]| >= 3)
    requires AllDistinct(FirstLanRecords(rows[0], pppoe, connectivity), LanRecords(rows[1..], pppoe))
    ensures LoadedLan([], rows, pppoe, connectivity) ==
            FirstLanRecords(rows[0], pppoe, connectivity) + Reversed(LanRecords(rows[1..], pppoe))
  {
    var active := FirstLanRecords(rows[0], pppoe, connectivity);
    var rest := LanRecords(rows[1..], pppoe);
    LanRecordsRank(rows[1..], pppoe);
    LoadOne(active);
    FirstLanActive(rows[0], pppoe, connectivity);
    assert active + [] == active;
    EqualRanksReverse(active, [], rest, false, ParseInt("0"));
    assert active + Reversed(rest) + [] == active + Reversed(rest);
  }

  lemma LoadOne(l: seq<Record>)
    requires |l| <= 1
    ensures InsertAll([], l) == l
  {
  }

  lemma FirstLanActive(row: LanInfo, pppoe: set<string>, connectivity: seq<int>)
    requires "--" !in row ==> |row| >= 3
    ensures var active := FirstLanRecords(row, pppoe, connectivity);
            forall j :: 0 <= j < |active| ==> Active(active[j])
  {
  }

  // ----- lanUpdate --------------------------------------------------------------

  /** A field of the signal; an absent one is never read when `InfoFits` holds. */
  function FieldAt(info: LanInfo, k: nat): string {
    if k < |info| then info[k] else ""
  }

  predicate StatusIsRead(l: seq<Record>, info: LanInfo) {
    l != [] && StateOf(l[0]) != 0 && StrOf(l[0], Uuid) == FieldAt(info, 1)
  }

  predicate Known(l: seq<Record>, info: LanInfo) {
    Contains(l, WiredDevice, FieldAt(info, 1))
  }

  /** The fields that are read for a device the connection goes to. */
  predicate InfoFits(l: seq<Record>, info: LanInfo) {
    |info| >= 2 && (Known(l, info) ==> |info| >= 3 && (StatusIsRead(l, info) ==> |info| >= 5))
  }

  /** The connection goes to this device: to every one for an empty name. */
  predicate Receives(deviceName: string, d: string) {
    deviceName == "" || d == deviceName
  }

  /** What the fields of the signal must cover for the handler not to run off the list. */
  ghost predicate SignalFits(lists: Lists, deviceName: string, info: LanInfo) {
    forall d :: d in lists ==> if Receives(deviceName, d) then InfoFits(lists[d], info) else |info| >= 3
  }

  /** The device the connection belongs to (every device, for an empty name). */
  function TakesOver(l: seq<Record>, info: LanInfo, pppoe: set<string>): seq<Record> {
    if !Known(l, info) then Insert(l, MakeLanMap(DEACTIVATED, info, pppoe))
    else
      var status := if StatusIsRead(l, info) then ParseInt(FieldAt(info, 4)) else DEACTIVATED;
      Insert(RemoveSkipping(l, HasPath(FieldAt(info, 2))), MakeLanMap(status, info, pppoe))
  }

  /** The device stays in the map. */
  function StaysListed(deviceName: string, info: LanInfo): string -> bool {
    d => Receives(deviceName, d) || FieldAt(info, 2) != ""
  }

  function LanUpdated(deviceName: string, info: LanInfo, pppoe: set<string>): ListChange {
    (d, l) => if Receives(deviceName, d) then TakesOver(l, info, pppoe)
              else RemoveSkipping(l, HasPath(FieldAt(info, 2)))
  }

  function ListsAfterUpdate(lists: Lists, deviceName: string, info: LanInfo, pppoe: set<string>): Lists {
    Visited(lists, StaysListed(deviceName, info), LanUpdated(deviceName, info, pppoe))
  }

  /** No two records of the device share the path. */
  ghost predicate PathAtMostOnce(l: seq<Record>, path: string) {
    forall i, j :: 0 <= i < j < |l| ==> !(StrOf(l[i], Path) == path && StrOf(l[j], Path) == path)
  }

  ghost predicate PathAbsent(l: seq<Record>, path: string) {
    forall i :: 0 <= i < |l| ==> StrOf(l[i], Path) != path
  }

  ghost predicate PathOnceAt(l: seq<Record>, path: string, k: nat) {
    k < |l| && forall i :: 0 <= i < |l| ==> (StrOf(l[i], Path) == path <==> i == k)
  }

  ghost predicate PathOnce(l: seq<Record>, path: string) {
    exists k: nat :: PathOnceAt(l, path, k)
  }

  /** After the removal loop the path is gone exactly when no two neighbours had it. */
  lemma PathRemovedIff(l: seq<Record>, path: string)
    ensures PathAbsent(RemoveSkipping(l, HasPath(path)), path) <==> NoTwoAdjacent(l, HasPath(path))
  {
    SkippingRemovesAllIff(l, HasPath(path));
    var s := RemoveSkipping(l, HasPath(path));
    assert PathAbsent(s, path) <==> NoneOf(s, HasPath(path));
  }

  lemma InsertedOnce(l: seq<Record>, k: nat, r: Record, path: string)
    requires k <= |l| && StrOf(r, Path) == path
    ensures PathOnce(InsertAt(l, k, r), path) <==> PathAbsent(l, path)
  {
    var s := InsertAt(l, k, r);
    assert s[k] == r;
    assert forall i :: 0 <= i < |l| ==> s[if i < k then i else i + 1] == l[i];
    if PathAbsent(l, path) {
      assert PathOnceAt(s, path, k) by {
        forall i | 0 <= i < |s|
          ensures StrOf(s[i], Path) == path <==> i == k
        {
          assert i != k ==> s[i] == l[if i < k then i else i - 1];
        }
      }
    }
    if PathOnce(s, path) {
      var j: nat :| PathOnceAt(s, path, j);
      assert j == k;
    }
  }

  /** The record that the update puts on a device it takes the connection to. */
  function TakenOver(l: seq<Record>, info: LanInfo, pppoe: set<string>): Record {
    var read := Known(l, info) && StatusIsRead(l, info);
    MakeLanMap(if read then ParseInt(FieldAt(info, 4)) else DEACTIVATED, info, pppoe)
  }

  /** The device does not know the uuid and has no record with the path; or it knows the
      uuid, and of the records with the path no two are neighbours, or the removal loop
      happens to leave just the record that is to be added. */
  ghost predicate TakesOnce(l: seq<Record>, info: LanInfo, pppoe: set<string>)
    requires |info| >= 3
  {
    var rest := RemoveSkipping(l, HasPath(info[2]));
    if Known(l, info) then
      NoTwoAdjacent(l, HasPath(info[2])) || (TakenOver(l, info, pppoe) in rest && PathOnce(rest, info[2]))
    else PathAbsent(l, info[2])
  }

  /** The device that takes a connection over has its path exactly once under exactly
      this condition, whatever its list holds. */
  lemma TakeOverOnceIff(l: seq<Record>, info: LanInfo, pppoe: set<string>)
    requires |info| >= 3 && InfoFits(l, info)
    ensures PathOnce(TakesOver(l, info, pppoe), info[2]) <==> TakesOnce(l, info, pppoe)
  {
    var r := TakenOver(l, info, pppoe);
    assert StrOf(r, Path) == info[2] && StrOf(r, Uuid) == info[1];
    if Known(l, info) {
      var rest := RemoveSkipping(l, HasPath(info[2]));
      PathRemovedIff(l, info[2]);
      if r !in rest {
        InsertedOnce(rest, Slot(rest, r), r, info[2]);
      } else {
        var k :| 0 <= k < |rest| && rest[k] == r;
        assert !PathAbsent(rest, info[2]);
      }
    } else {
      assert r !in l;
      InsertedOnce(l, Slot(l, r), r, info[2]);
    }
  }

  /** With the path at most once: exactly when the uuid was known or the path absent. */
  lemma TakesOnceSimply(l: seq<Record>, info: LanInfo, pppoe: set<string>)
    requires |info| >= 3 && PathAtMostOnce(l, info[2])
    ensures TakesOnce(l, info, pppoe) <==> Known(l, info) || PathAbsent(l, info[2])
    ensures NoTwoAdjacent(l, HasPath(info[2]))
  {
  }

  /** Moving a connection to a known device, whatever the lists hold: the device set is
      unchanged; the path is gone from another device exactly when no two neighbours there
      had it; it is on the named device exactly once under the condition. */
  lemma ExclusiveOwnership(lists: Lists, deviceName: string, info: LanInfo, pppoe: set<string>)
    requires |info| >= 3 && SignalFits(lists, deviceName, info)
    requires deviceName != "" && deviceName in lists && info[2] != ""
    ensures var after := ListsAfterUpdate(lists, deviceName, info, pppoe);
            after.Keys == lists.Keys &&
            (forall d :: d in lists && d != deviceName ==>
               (PathAbsent(after[d], info[2]) <==> NoTwoAdjacent(lists[d], HasPath(info[2])))) &&
            (PathOnce(after[deviceName], info[2]) <==> TakesOnce(lists[deviceName], info, pppoe))
  {
    var after := ListsAfterUpdate(lists, deviceName, info, pppoe);
    forall d | d in lists && d != deviceName
      ensures PathAbsent(after[d], info[2]) <==> NoTwoAdjacent(lists[d], HasPath(info[2]))
    {
      PathRemovedIff(lists[d], info[2]);
    }
    TakeOverOnceIff(lists[deviceName], info, pppoe);
  }

  /** For an empty device name the same condition decides on each device, and none is
      lost. */
  lemma SharedOwnership(lists: Lists, info: LanInfo, pppoe: set<string>)
    requires |info| >= 3 && SignalFits(lists, "", info)
    ensures var after := ListsAfterUpdate(lists, "", info, pppoe);
            after.Keys == lists.Keys &&
            forall d :: d in lists ==> (PathOnce(after[d], info[2]) <==> TakesOnce(lists[d], info, pppoe))
  {
    forall d | d in lists
      ensures PathOnce(ListsAfterUpdate(lists, "", info, pppoe)[d], info[2]) <==> TakesOnce(lists[d], info, pppoe)
    {
      TakeOverOnceIff(lists[d], info, pppoe);
    }
  }

  /** The path and the uuid of the signal name the same record, if any. */
  ghost predicate Paired(l: seq<Record>, info: LanInfo)
    requires |info| >= 3
  {
    forall i :: 0 <= i < |l| ==>
      (StrOf(l[i], Path) == info[2] <==> StrOf(l[i], Uuid) == info[1]) && StrOf(l[i], Path) != info[1]
  }

  /** With path and uuid paired the condition always holds. */
  lemma PairedMeansOnce(l: seq<Record>, info: LanInfo, pppoe: set<string>)
    requires |info| >= 3 && InfoFits(l, info) && PathAtMostOnce(l, info[2]) && Paired(l, info)
    ensures PathOnce(TakesOver(l, info, pppoe), info[2])
  {
    TakeOverOnceIff(l, info, pppoe);
    TakesOnceSimply(l, info, pppoe);
  }

  /** A path without a known uuid is added beside the old record. */
  lemma UnpairedPathDoubles()
    ensures var l: seq<Record> := [map[Path := Str("p"), Uuid := Str("u")]];
            var info := ["n", "v", "p"];
            InfoFits(l, info) && PathAtMostOnce(l, "p") && !PathOnce(TakesOver(l, info, {}), "p")
  {
    var l: seq<Record> := [map[Path := Str("p"), Uuid := Str("u")]];
    var info := ["n", "v", "p"];
    assert StrOf(l[0], Path) == "p" && StrOf(l[0], Uuid) == "u";
    assert !Known(l, info);
    TakeOverOnceIff(l, info, {});
  }

  /** With an empty path and a device name every other device is dropped from the
      keeper: the device set is unchanged exactly when there is no other device. */
  lemma EmptyPathDropsDevices(lists: Lists, deviceName: string, info: LanInfo, pppoe: set<string>)
    requires |info| >= 3 && SignalFits(lists, deviceName, info) && deviceName != ""
    ensures ListsAfterUpdate(lists, deviceName, info, pppoe).Keys == lists.Keys <==>
            info[2] != "" || lists.Keys <= {deviceName}
  {
  }

  /** A signal without a path for one of two devices makes the keeper forget the other. */
  lemma EmptyPathForgets()
    ensures var lists: Lists := map["eth0" := [], "eth1" := [map[Path := Str("p")]]];
            var info := ["n", "u", ""];
            SignalFits(lists, "eth0", info) && "eth1" !in ListsAfterUpdate(lists, "eth0", info, {})
  {
  }

  // ----- lanAdd, lanRemove, activation --------------------------------------------

  function Inserting(r: Record): ListChange {
    (d, l) => Insert(l, r)
  }

  function DroppingPath(path: string): ListChange {
    (d, l) => RemoveSkipping(l, HasPath(path))
  }

  function Restating(uuid: string, patch: Record, toFront: bool): ListChange {
    (d, l) => Restate(l, uuid, patch, toFront)
  }

  function ListsAfterAdd(lists: Lists, deviceName: string, info: LanInfo, pppoe: set<string>): Lists {
    var r := MakeLanMap(DEACTIVATED, info, pppoe);
    if deviceName == "" then Visited(lists, All(), Inserting(r))
    else if deviceName in lists then lists[deviceName := Insert(lists[deviceName], r)]
    else lists
  }

  function ListsAfterRemove(lists: Lists, path: string): Lists {
    Visited(lists, All(), DroppingPath(path))
  }

  function ConnectivityPatch(status: int, connectivity: int): Record {
    map[State := Num(status), Connectivity := Num(connectivity)]
  }

  function ListsAfterActive(lists: Lists, deviceName: string, uuid: string, status: int, answer: seq<int>): Lists {
    var connectivity := if status == ACTIVATED && answer != [] then answer[0] else 4;
    var patch := ConnectivityPatch(status, connectivity);
    if uuid == "" || (deviceName == "" && status != DEACTIVATED) then lists
    else if deviceName == "" then Visited(lists, All(), Restating(uuid, patch, status == ACTIVATED))
    else if deviceName in lists && Contains(lists[deviceName], WiredDevice, uuid) then
      lists[deviceName := Restate(lists[deviceName], uuid, patch, status == ACTIVATED)]
    else lists
  }

  lemma EveryUndone(lists: Lists, f: ListChange, g: ListChange)
    requires forall d :: d in lists ==> g(d, f(d, lists[d])) == lists[d]
    ensures Visited(Visited(lists, All(), f), All(), g) == lists
  {
  }

  lemma OneUndone(lists: Lists, dev: string, l: seq<Record>, g: ListChange)
    requires dev in lists && g(dev, l) == lists[dev] && forall d :: d in lists ==> g(d, lists[d]) == lists[d]
    ensures Visited(lists[dev := l], All(), g) == lists
  {
  }

  /** Removing the path of a connection just added gives back every list. */
  lemma AddThenRemove(lists: Lists, deviceName: string, info: LanInfo, pppoe: set<string>)
    requires |info| >= 3 && (deviceName == "" || deviceName in lists)
    requires forall d :: d in lists ==> PathAbsent(lists[d], info[2])
    ensures ListsAfterRemove(ListsAfterAdd(lists, deviceName, info, pppoe), info[2]) == lists
  {
    var r := MakeLanMap(DEACTIVATED, info, pppoe);
    var f, g := Inserting(r), DroppingPath(info[2]);
    assert StrOf(r, Path) == info[2];
    forall d | d in lists
      ensures g(d, f(d, lists[d])) == lists[d] && g(d, lists[d]) == lists[d]
    {
      SkippingNone(lists[d], HasPath(info[2]));
      InsertThenSkip(lists[d], r, info[2]);
    }
    if deviceName == "" {
      EveryUndone(lists, f, g);
    } else {
      OneUndone(lists, deviceName, f(deviceName, lists[deviceName]), g);
    }
  }

  lemma InsertThenSkip(l: seq<Record>, r: Record, path: string)
    requires PathAbsent(l, path) && StrOf(r, Path) == path
    ensures RemoveSkipping(Insert(l, r), HasPath(path)) == l
  {
    assert r !in l;
    InsertAtThenSkip(l, Slot(l, r), r, path);
  }

  lemma InsertAtThenSkip(l: seq<Record>, k: nat, r: Record, path: string)
    requires PathAbsent(l, path) && StrOf(r, Path) == path && k <= |l|
    ensures RemoveSkipping(InsertAt(l, k, r), HasPath(path)) == l
  {
    var s := InsertAt(l, k, r);
    assert s[k] == r;
    assert forall i :: 0 <= i < |s| && i != k ==> s[i] == l[if i < k then i else i - 1];
    SkippingSingle(s, HasPath(path), k);
    assert RemoveAt(s, k) == l;
  }
}
