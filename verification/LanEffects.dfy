/** What each wired signal does to the lists, told by fields and positions. */
module LanEffects {
  import opened Text
  import opened Records
  import opened SeqOps
  import opened NetDevices
  import opened KeeperOrder
  import opened DataKeepers
  import opened LanSpec
  import opened LanRuns

  /** The place by rank: behind what the record does not reach, before the first it does. */
  ghost predicate Placed(l: seq<Record>, l': seq<Record>, r: Record, k: nat) {
    k <= |l| && |l'| == |l| + 1 && RemoveAt(l', k) == l && l'[k] == r &&
    (forall j :: 0 <= j < k ==> !Geq(r, l[j])) && (k < |l| ==> Geq(r, l[k]))
  }

  // ----- backend rows ------------------------------------------------------------------

  predicate LanField(f: Field) {
    f == Name || f == Uuid || f == Path || f == State || f == Loading || f == IsDsl || f == Connectivity
  }

  /** The record of a signal or row of three fields or more. */
  ghost predicate ShowsInfo(r: Record, info: LanInfo, status: int, dsl: bool, connectivity: int)
    requires |info| >= 3
  {
    (forall f: Field :: f in r <==> LanField(f)) &&
    r[Name] == Str(info[0]) && r[Uuid] == Str(info[1]) && r[Path] == Str(info[2]) && r[State] == Num(status) &&
    r[Loading] == Num(0) && r[IsDsl] == Num(if dsl then 1 else 0) && r[Connectivity] == Num(connectivity)
  }

  lemma InfoFields(status: int, info: LanInfo, pppoe: set<string>)
    requires |info| >= 3
    ensures ShowsInfo(MakeLanMap(status, info, pppoe), info, status, info[1] in pppoe, 0)
  {
  }

  /** Fewer fields give a record without any. */
  lemma ShortInfo(status: int, info: LanInfo, pppoe: set<string>)
    requires |info| < 3
    ensures MakeLanMap(status, info, pppoe) == map[]
  {
  }

  /** The first row of a load is the active connection, with the connectivity the backend
      answers, unless one of its fields is "--"; the others are inactive. */
  lemma LoadFields(row: LanInfo, pppoe: set<string>, answer: seq<int>)
    requires |row| >= 3
    ensures var rs := FirstLanRecords(row, pppoe, answer);
            if exists i :: 0 <= i < |row| && row[i] == "--" then rs == []
            else |rs| == 1 &&
                 ShowsInfo(rs[0], row, ACTIVATED, row[1] in pppoe, if answer == [] then 0 else answer[0])
  {
    InfoFields(ACTIVATED, row, pppoe);
  }

  lemma OtherFields(rows: seq<LanInfo>, pppoe: set<string>, i: nat)
    requires i < |rows| && |rows[i]| >= 3
    ensures ShowsInfo(LanRecords(rows, pppoe)[i], rows[i], DEACTIVATED, rows[i][1] in pppoe, 0)
  {
    InfoFields(DEACTIVATED, rows[i], pppoe);
  }

  // ----- lanAdd and lanRemove --------------------------------------------------------------

  lemma InsertPlaces(l: seq<Record>, r: Record)
    requires r !in l
    ensures Placed(l, Insert(l, r), r, Slot(l, r))
  {
    InsertThenRemove(l, Slot(l, r), r);
  }

  /** One record with the fields of the signal stands at its rank, all else is
      as before. */
  ghost predicate Joined(l: seq<Record>, l': seq<Record>, info: LanInfo, status: int, dsl: bool)
    requires |info| >= 3
  {
    exists r: Record, k: nat :: ShowsInfo(r, info, status, dsl, 0) && Placed(l, l', r, k)
  }

  lemma InsertJoins(l: seq<Record>, info: LanInfo, pppoe: set<string>, status: int)
    requires |info| >= 3 && MakeLanMap(status, info, pppoe) !in l
    ensures Joined(l, Insert(l, MakeLanMap(status, info, pppoe)), info, status, info[1] in pppoe)
  {
    var r := MakeLanMap(status, info, pppoe);
    InfoFields(status, info, pppoe);
    InsertPlaces(l, r);
  }

  lemma NewIsNotIn(l: seq<Record>, info: LanInfo, pppoe: set<string>)
    requires |info| >= 3 && NewTo(l, info)
    ensures MakeLanMap(DEACTIVATED, info, pppoe) !in l
  {
    assert StrOf(MakeLanMap(DEACTIVATED, info, pppoe), Uuid) == info[1];
  }

  /** A new connection enters the list of the named device, for an empty name of every
      device, at its rank; all other lists stay. */
  lemma AddEffect(lists: Lists, dev: string, info: LanInfo, pppoe: set<string>, d: string)
    requires |info| >= 3 && d in lists && (dev == "" || dev in lists)
    requires (dev == "" || d == dev) ==> NewTo(lists[d], info)
    ensures var after := ListsAfterAdd(lists, dev, info, pppoe);
            after.Keys == lists.Keys &&
            if dev == "" || d == dev then Joined(lists[d], after[d], info, 4, info[1] in pppoe)
            else after[d] == lists[d]
  {
    if dev == "" || d == dev {
      NewIsNotIn(lists[d], info, pppoe);
      InsertJoins(lists[d], info, pppoe, DEACTIVATED);
      assert ListsAfterAdd(lists, dev, info, pppoe)[d] == Insert(lists[d], MakeLanMap(DEACTIVATED, info, pppoe));
    }
  }

  lemma AddIgnored(lists: Lists, dev: string, info: LanInfo, pppoe: set<string>)
    requires dev != "" && dev !in lists
    ensures ListsAfterAdd(lists, dev, info, pppoe) == lists
  {
  }

  /** The one record with the path goes from every device; nothing else changes. */
  lemma RemoveEffect(lists: Lists, path: string, d: string)
    requires UniqueLists(lists) && d in lists
    ensures var l, after := lists[d], ListsAfterRemove(lists, path);
            after.Keys == lists.Keys &&
            (PathAbsent(l, path) ==> after[d] == l) &&
            forall i :: 0 <= i < |l| && StrOf(l[i], Path) == path ==> after[d] == RemoveAt(l, i)
  {
    var l := lists[d];
    SkippingIsRemoveAt(l, path);
    UniqueAtMostOnce(l, path);
    var k := FirstIndex(l, HasPath(path));
    forall i | 0 <= i < |l| && StrOf(l[i], Path) == path
      ensures i == k
    {
      assert HasPath(path)(l[i]);
    }
  }

  // ----- active connection changes ------------------------------------------------------------

  /** The record at `i` gets status and connectivity, and moves to the front when it is
      ACTIVATED; its other fields and the other records stay. */
  ghost predicate StateChanged(l: seq<Record>, l': seq<Record>, i: nat, status: int, connectivity: int)
    requires i < |l|
  {
    var k := if status == ACTIVATED then 0 else i;
    |l'| == |l| && RemoveAt(l', k) == RemoveAt(l, i) &&
    StateOf(l'[k]) == status && IntOf(l'[k], Connectivity) == connectivity &&
    SameBut(l[i], l'[k], {State, Connectivity})
  }

  ghost predicate NoUuid(l: seq<Record>, uuid: string) {
    forall i :: 0 <= i < |l| ==> StrOf(l[i], Uuid) != uuid
  }

  ghost predicate FirstUuidAt(l: seq<Record>, uuid: string, i: nat) {
    i < |l| && StrOf(l[i], Uuid) == uuid && forall k :: 0 <= k < i ==> StrOf(l[k], Uuid) != uuid
  }

  function AnsweredConnectivity(status: int, answer: seq<int>): int {
    if status == ACTIVATED && answer != [] then answer[0] else 4
  }

  lemma StateList(lists: Lists, dev: string, uuid: string, status: int, answer: seq<int>, d: string)
    requires uuid != "" && d in lists && Contains(lists[d], WiredDevice, uuid)
    requires (dev != "" && dev == d) || (dev == "" && status == DEACTIVATED)
    ensures var after := ListsAfterActive(lists, dev, uuid, status, answer);
            after.Keys == lists.Keys &&
            after[d] == Restate(lists[d], uuid, ConnectivityPatch(status, AnsweredConnectivity(status, answer)),
                                status == ACTIVATED)
  {
    if dev == "" {
      var f := Restating(uuid, ConnectivityPatch(status, 4), status == ACTIVATED);
      assert ListsAfterActive(lists, dev, uuid, status, answer) == Visited(lists, All(), f);
    }
  }

  /** The named device, or for an empty name and DEACTIVATED every device, changes the
      first record of that uuid. The connectivity is the backend's answer when it is
      ACTIVATED and gets one, else 4. */
  lemma StateEffect(lists: Lists, dev: string, uuid: string, status: int, answer: seq<int>, d: string, i: nat)
    requires uuid != "" && d in lists && FirstUuidAt(lists[d], uuid, i)
    requires (dev != "" && dev == d) || (dev == "" && status == DEACTIVATED)
    ensures var after := ListsAfterActive(lists, dev, uuid, status, answer);
            after.Keys == lists.Keys &&
            StateChanged(lists[d], after[d], i, status, AnsweredConnectivity(status, answer))
  {
    KnownByUuid(lists[d], uuid, i);
    StateList(lists, dev, uuid, status, answer, d);
    RestatedState(lists[d], uuid, status, AnsweredConnectivity(status, answer), i);
  }

  lemma PatchRead(before: Record, after: Record, status: int, connectivity: int)
    requires var patch := ConnectivityPatch(status, connectivity); ChangedOnly(before, after, patch.Keys, patch)
    ensures StateOf(after) == status && IntOf(after, Connectivity) == connectivity
    ensures SameBut(before, after, {State, Connectivity})
  {
    var patch := ConnectivityPatch(status, connectivity);
    assert State in patch.Keys && Connectivity in patch.Keys;
    assert after[State] == patch[State] && after[Connectivity] == patch[Connectivity];
    forall f: Field | f !in {State, Connectivity}
      ensures (f in after <==> f in before) && (f in before ==> after[f] == before[f])
    {
      assert f !in patch.Keys;
    }
  }

  lemma RestatedState(l: seq<Record>, uuid: string, status: int, connectivity: int, i: nat)
    requires FirstUuidAt(l, uuid, i)
    ensures StateChanged(l, Restate(l, uuid, ConnectivityPatch(status, connectivity), status == ACTIVATED),
                         i, status, connectivity)
  {
    var patch := ConnectivityPatch(status, connectivity);
    FirstIndexUnique(l, HasUuid(uuid), i);
    RestateFrame(l, uuid, patch, status == ACTIVATED);
    var l' := Restate(l, uuid, patch, status == ACTIVATED);
    PatchRead(l[i], l'[if status == ACTIVATED then 0 else i], status, connectivity);
  }

  lemma KnownByUuid(l: seq<Record>, uuid: string, i: nat)
    requires i < |l| && StrOf(l[i], Uuid) == uuid
    ensures Contains(l, WiredDevice, uuid)
  {
    assert Identifies(WiredDevice, uuid)(l[i]);
  }

  /** Every other device stays as it is, and so does one without the uuid. */
  lemma StateElsewhere(lists: Lists, dev: string, uuid: string, status: int, answer: seq<int>, d: string)
    requires d in lists && ((dev != "" && d != dev) || NoUuid(lists[d], uuid))
    ensures var after := ListsAfterActive(lists, dev, uuid, status, answer);
            after.Keys == lists.Keys && after[d] == lists[d]
  {
    if NoUuid(lists[d], uuid) {
      FirstIndexUnique(lists[d], HasUuid(uuid), |lists[d]|);
    }
  }

  /** Ignored: an empty uuid, an unknown device, and an empty name for any other status. */
  lemma StateIgnored(lists: Lists, dev: string, uuid: string, status: int, answer: seq<int>)
    requires uuid == "" || (dev == "" && status != DEACTIVATED) || (dev != "" && dev !in lists)
    ensures ListsAfterActive(lists, dev, uuid, status, answer) == lists
  {
  }

  // ----- lanUpdate ---------------------------------------------------------------------------

  /** The status for an updated connection: the fifth field of the signal when the device's
      first record has the uuid and any state, else DEACTIVATED. */
  function UpdatedStatus(l: seq<Record>, info: LanInfo): int {
    if |info| >= 5 && l != [] && StateOf(l[0]) != 0 && StrOf(l[0], Uuid) == info[1] then ParseInt(info[4])
    else DEACTIVATED
  }

  /** The list without the record of the path, if there is one. */
  function WithoutPath(l: seq<Record>, path: string): seq<Record> {
    var i := FirstIndex(l, HasPath(path));
    if i < |l| then RemoveAt(l, i) else l
  }

  lemma TakesOverIs(l: seq<Record>, info: LanInfo, pppoe: set<string>)
    requires Unique(l) && |info| >= 3 && InfoFits(l, info) && Paired(l, info)
    ensures var r := MakeLanMap(UpdatedStatus(l, info), info, pppoe);
            r !in WithoutPath(l, info[2]) && TakesOver(l, info, pppoe) == Insert(WithoutPath(l, info[2]), r)
  {
    var i := FirstIndex(l, HasPath(info[2]));
    var r := MakeLanMap(UpdatedStatus(l, info), info, pppoe);
    UpdatedKnown(l, info);
    SkippingIsRemoveAt(l, info[2]);
    assert StrOf(r, Path) == info[2];
    if i < |l| {
      RemoveAtUnique(l, i);
    }
  }

  /** A device that the connection goes to: the old record, if there is one, makes room for
      the new one, which has the fields of the signal and stands at its rank. */
  lemma UpdateEffect(l: seq<Record>, info: LanInfo, pppoe: set<string>)
    requires Unique(l) && |info| >= 3 && InfoFits(l, info) && Paired(l, info)
    ensures Joined(WithoutPath(l, info[2]), TakesOver(l, info, pppoe), info, UpdatedStatus(l, info), info[1] in pppoe)
  {
    TakesOverIs(l, info, pppoe);
    InsertJoins(WithoutPath(l, info[2]), info, pppoe, UpdatedStatus(l, info));
  }

  lemma UpdatedKnown(l: seq<Record>, info: LanInfo)
    requires |info| >= 3 && InfoFits(l, info) && Paired(l, info)
    ensures Known(l, info) <==> FirstIndex(l, HasPath(info[2])) < |l|
    ensures StatusIsRead(l, info) ==> Known(l, info)
    ensures UpdatedStatus(l, info) ==
            if Known(l, info) && StatusIsRead(l, info) then ParseInt(FieldAt(info, 4)) else DEACTIVATED
  {
    var i, k := FirstIndex(l, HasPath(info[2])), FirstIndex(l, Identifies(WiredDevice, info[1]));
    if i < |l| {
      assert Identifies(WiredDevice, info[1])(l[i]);
    }
    if k < |l| {
      assert HasPath(info[2])(l[k]);
    }
    if StatusIsRead(l, info) {
      assert Identifies(WiredDevice, info[1])(l[0]);
    }
  }

  /** The named device takes the connection over, every other one loses the record of its
      path; for an empty name every device takes it over. */
  lemma UpdateSpreads(lists: Lists, dev: string, info: LanInfo, pppoe: set<string>, d: string)
    requires |info| >= 3 && info[2] != "" && UniqueLists(lists) && d in lists
    ensures var after := ListsAfterUpdate(lists, dev, info, pppoe);
            after.Keys == lists.Keys &&
            if dev == "" || d == dev then after[d] == TakesOver(lists[d], info, pppoe)
            else after[d] == WithoutPath(lists[d], info[2])
  {
    SkippingIsRemoveAt(lists[d], info[2]);
  }

  // ----- the uuid or path a device knows ----------------------------------------------------

  /** A wireless device knows a connection by its uuid, a wired one also by its path. */
  lemma ContainsMeans(l: seq<Record>, kind: DeviceType, x: string)
    ensures Contains(l, kind, x) <==>
            exists i :: 0 <= i < |l| && (StrOf(l[i], Uuid) == x || (kind == WiredDevice && StrOf(l[i], Path) == x))
  {
    if i :| 0 <= i < |l| && (StrOf(l[i], Uuid) == x || (kind == WiredDevice && StrOf(l[i], Path) == x)) {
      assert Identifies(kind, x)(l[i]);
    }
    var k := FirstIndex(l, Identifies(kind, x));
    if k < |l| {
      assert Identifies(kind, x)(l[k]);
    }
  }

  /** Removing a stored record takes out one copy of it. */
  lemma DropMeans(l: seq<Record>, r: Record)
    ensures if r in l then multiset(DropRecord(l, r)) + multiset{r} == multiset(l) else DropRecord(l, r) == l
  {
    var i := FirstIndex(l, Is(r));
    if i < |l| {
      MultisetRemoveAt(l, i);
    } else {
      assert forall k :: 0 <= k < |l| ==> !Is(r)(l[k]);
    }
  }
}
