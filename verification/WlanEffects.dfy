/** What each wireless signal does to the lists, told by fields and positions. */
module WlanEffects {
  import opened Text
  import opened Records
  import opened SeqOps
  import opened Names
  import opened NetDevices
  import opened KeeperOrder
  import opened DataKeepers
  import opened Mirror
  import opened WlanSpec
  import opened WlanRuns

  /** Only the list of one device differs, and it is `l'` afterwards. */
  ghost predicate OnlyList(before: Lists, after: Lists, dev: string, l': seq<Record>) {
    after.Keys == before.Keys && dev in after && after[dev] == l' &&
    forall d :: d in before && d != dev ==> after[d] == before[d]
  }

  /** The place by rank: behind what the record does not reach, before the first it does. */
  ghost predicate RanksAt(rest: seq<Record>, r: Record, k: nat) {
    k <= |rest| && (forall j :: 0 <= j < k ==> !Geq(r, rest[j])) && (k < |rest| ==> Geq(r, rest[k]))
  }

  // ----- backend rows ------------------------------------------------------------

  /** The fields of every backend row. */
  predicate RowField(f: Field) {
    f == Name || f == Signal || f == Security || f == IsApConn || f == Category || f == State || f == Loading ||
    f == Configured || f == Frequency || f == IsMix || f == AutoConnect
  }

  ghost predicate HasJust(r: Record, uuid: bool) {
    forall f: Field :: f in r <==> RowField(f) || (uuid && f == Uuid)
  }

  /** The fields behind the uuid, which the source reads from place `at` on. */
  ghost predicate ShowsRest(r: Record, row: BackendRow, at: nat)
    requires |row| >= at + 6
  {
    RestThere(r) &&
    r[IsApConn] == Str(row[at]) && r[Category] == Num(ParseInt(row[at + 1])) &&
    r[Configured] == Num(ParseInt(row[at + 2])) && r[Frequency] == Num(ParseUInt(row[at + 3])) &&
    r[IsMix] == Num(ParseInt(row[at + 4])) && r[AutoConnect] == Num(ParseInt(row[at + 5]))
  }

  predicate RestThere(r: Record) {
    IsApConn in r && Category in r && Configured in r && Frequency in r && IsMix in r && AutoConnect in r
  }

  ghost predicate ShowsStart(r: Record, row: BackendRow, status: int)
    requires |row| >= 3
  {
    Name in r && Signal in r && Security in r && State in r && Loading in r &&
    r[Name] == Str(row[0]) && r[Signal] == Str(row[1]) && r[Security] == Str(row[2]) &&
    r[State] == Num(status) && r[Loading] == Num(0)
  }

  /** A row of ten fields or more, field by field; it is the form with a uuid. */
  ghost predicate ShowsRow(r: Record, row: BackendRow, status: int)
    requires |row| >= 10
  {
    HasJust(r, true) && ShowsStart(r, row, status) && r[Uuid] == Str(row[3]) && ShowsRest(r, row, 4)
  }

  lemma RowStart(status: int, row: BackendRow)
    requires RowWide(status, row)
    ensures ShowsStart(MakeConnectionMap(status, row), row, status)
  {
  }

  lemma RowRest(status: int, row: BackendRow)
    requires RowWide(status, row) && (|row| >= 10 || status != ACTIVATED)
    ensures ShowsRest(MakeConnectionMap(status, row), row, if |row| >= 10 then 4 else 3)
  {
  }

  const ROW_FIELDS: set<Field> := {Name, Signal, Security, IsApConn, Category, State, Loading, Configured, Frequency,
                                   IsMix, AutoConnect}

  lemma RowFieldsIff(f: Field)
    ensures f in ROW_FIELDS <==> RowField(f)
  {
  }

  lemma RowKeySet(status: int, row: BackendRow)
    requires RowWide(status, row) && (|row| >= 10 || status != ACTIVATED)
    ensures MakeConnectionMap(status, row).Keys == ROW_FIELDS + (if |row| >= 10 then {Uuid} else {})
    ensures |row| >= 10 ==> MakeConnectionMap(status, row)[Uuid] == Str(row[3])
  {
  }

  lemma RowKeys(status: int, row: BackendRow)
    requires RowWide(status, row) && (|row| >= 10 || status != ACTIVATED)
    ensures HasJust(MakeConnectionMap(status, row), |row| >= 10)
    ensures |row| >= 10 ==> MakeConnectionMap(status, row)[Uuid] == Str(row[3])
  {
    RowKeySet(status, row);
    KeysAreJust(MakeConnectionMap(status, row), |row| >= 10);
  }

  lemma KeysAreJust(r: Record, uuid: bool)
    requires r.Keys == ROW_FIELDS + (if uuid then {Uuid} else {})
    ensures HasJust(r, uuid)
  {
    forall f: Field
      ensures f in r <==> RowField(f) || (uuid && f == Uuid)
    {
      RowFieldsIff(f);
      assert f in r <==> f in r.Keys;
    }
  }

  lemma RowFields(status: int, row: BackendRow)
    requires |row| >= 10
    ensures ShowsRow(MakeConnectionMap(status, row), row, status)
  {
    RowStart(status, row);
    RowRest(status, row);
    RowKeys(status, row);
  }

  /** A row of nine fields has everything but the uuid, one place earlier. */
  lemma ShortRowFields(status: int, row: BackendRow)
    requires |row| == 9 && status != ACTIVATED
    ensures var r := MakeConnectionMap(status, row);
            HasJust(r, false) && ShowsStart(r, row, status) && ShowsRest(r, row, 3)
  {
    RowStart(status, row);
    RowRest(status, row);
    RowKeys(status, row);
  }

  ghost predicate HoldsDashes(row: BackendRow) {
    exists i :: 0 <= i < |row| && row[i] == "--"
  }

  /** The first row of an answer is the active connection unless one of its fields is "--". */
  lemma FirstRow(row: BackendRow)
    requires HoldsDashes(row) || |row| >= 10
    ensures var rs := FirstRecords(row);
            if HoldsDashes(row) then rs == [] else |rs| == 1 && ShowsRow(rs[0], row, ACTIVATED)
  {
    if !HoldsDashes(row) {
      RowFields(ACTIVATED, row);
    }
  }

  /** All other rows are inactive connections, in order. */
  lemma InactiveAt(rows: seq<BackendRow>, k: nat)
    requires (forall i :: 0 <= i < |rows| ==> RowWide(DEACTIVATED, rows[i])) && k < |rows| && |rows[k]| >= 10
    ensures |InactiveRecords(rows)| == |rows| && ShowsRow(InactiveRecords(rows)[k], rows[k], DEACTIVATED)
  {
    RowFields(DEACTIVATED, rows[k]);
  }

  /** They stand behind the first. */
  lemma OtherRows(rows: seq<BackendRow>)
    requires RowsWide(rows) && rows != []
    ensures RowRecords(rows)[..|FirstRecords(rows[0])|] == FirstRecords(rows[0])
    ensures RowRecords(rows)[|FirstRecords(rows[0])|..] == InactiveRecords(rows[1..])
  {
  }

  // ----- wlanAdd -------------------------------------------------------------------

  /** With the switch on, a row of ten or eleven fields with a new name enters the named
      device's list at its rank, as an inactive connection with the row's fields. */
  lemma AddEffect(w: Wlan, dev: string, info: BackendRow)
    requires w.switchOn && dev != "" && dev in w.lists && (|info| == 10 || |info| == 11)
    requires Fresh(w.lists[dev], info[0])
    ensures var l, after := w.lists[dev], ListsAfter(w, NetworkAdd(dev, info));
            OnlyList(w.lists, after, dev, after[dev]) && |after[dev]| == |l| + 1 &&
            exists k: nat :: k <= |l| && RemoveAt(after[dev], k) == l && RanksAt(l, after[dev][k], k) &&
                             ShowsRow(after[dev][k], info, DEACTIVATED)
  {
    var l, r := w.lists[dev], MakeConnectionMap(DEACTIVATED, info);
    RowFields(DEACTIVATED, info);
    FreshNotIn(l, r);
    var k := Slot(l, r);
    InsertThenRemove(l, k, r);
    var l' := ListsAfter(w, NetworkAdd(dev, info))[dev];
    assert l' == InsertAt(l, k, r) && RanksAt(l, l'[k], k);
  }

  /** The signal changes no list with the switch off, for an empty or unknown device, and
      for any other number of fields; the first three leave the interface alone as well. */
  lemma AddIgnored(w: Wlan, dev: string, info: BackendRow)
    requires !w.switchOn || dev == "" || dev !in w.lists || (|info| != 10 && |info| != 11)
    ensures ListsAfter(w, NetworkAdd(dev, info)) == w.lists
    ensures !w.switchOn || dev == "" || dev !in w.lists ==> UiAfter(w, NetworkAdd(dev, info)) == w.ui
  {
  }

  // ----- wlanRemove ------------------------------------------------------------------

  /** The record of that name goes from the named device's list, even with the switch off. */
  lemma RemoveEffect(w: Wlan, dev: string, name: string, i: nat)
    requires dev != "" && dev in w.lists && NamesDistinct(w.lists[dev])
    requires i < |w.lists[dev]| && NameOf(w.lists[dev][i]) == name
    ensures OnlyList(w.lists, ListsAfter(w, NetworkRemove(dev, name)), dev, RemoveAt(w.lists[dev], i))
  {
    SkippingSingle(w.lists[dev], HasName(name), i);
  }

  lemma RemoveIgnored(w: Wlan, dev: string, name: string)
    requires dev == "" || dev !in w.lists || Fresh(w.lists[dev], name)
    ensures ListsAfter(w, NetworkRemove(dev, name)) == w.lists
    ensures dev == "" || dev !in w.lists ==> UiAfter(w, NetworkRemove(dev, name)) == w.ui
  {
    if dev != "" && dev in w.lists {
      SkippingNone(w.lists[dev], HasName(name));
    }
  }

  // ----- property changes ---------------------------------------------------------------

  /** Of eight fields those that the signal carries are taken from it; everything else of
      the record stays. */
  ghost predicate TakesField(before: Record, after: Record, parm: Record, f: Field) {
    if Carried(f) && f in parm then f in after && after[f] == parm[f]
    else (f in after <==> f in before) && (f in before ==> after[f] == before[f])
  }

  ghost predicate TakesFields(before: Record, after: Record, parm: Record) {
    forall f: Field :: TakesField(before, after, parm, f)
  }

  /** The record of that name, on the device named in the signal, takes the fields and
      moves to its new rank. */
  lemma PropEffect(w: Wlan, parm: Record, i: nat)
    requires var dev := StrOf(parm, DeviceName);
             dev in w.lists && NamesDistinct(w.lists[dev]) &&
             i < |w.lists[dev]| && NameOf(w.lists[dev][i]) == NameOf(parm)
    ensures var dev := StrOf(parm, DeviceName);
            var l, after := w.lists[dev], ListsAfter(w, NetworkProp(parm));
            OnlyList(w.lists, after, dev, after[dev]) && |after[dev]| == |l| &&
            exists k: nat :: k < |l| && RemoveAt(after[dev], k) == RemoveAt(l, i) &&
                             RanksAt(RemoveAt(l, i), after[dev][k], k) && TakesFields(l[i], after[dev][k], parm)
  {
    var dev := StrOf(parm, DeviceName);
    var l := w.lists[dev];
    FindNameAt(l, i);
    UpdatePropNames(l, parm);
    var rest, c := RemoveAt(l, i), Patched(l[i], parm);
    var k := Slot(rest, c);
    InsertThenRemove(rest, k, c);
    PatchedTakes(l[i], parm);
    var l' := ListsAfter(w, NetworkProp(parm))[dev];
    assert l' == InsertAt(rest, k, c) && RanksAt(rest, l'[k], k);
  }

  lemma PatchedTakes(r: Record, parm: Record)
    ensures TakesFields(r, Patched(r, parm), parm)
  {
    PatchedChangesOnly(r, parm);
    ChangedTakes(r, Patched(r, parm), parm);
  }

  predicate Carried(f: Field) {
    f == Signal || f == Security || f == Uuid || f == Frequency || f == Configured || f == IsMix ||
    f == State || f == AutoConnect
  }

  lemma CarriedFields(f: Field)
    ensures f in PROP_FIELDS <==> Carried(f)
  {
  }

  lemma ChangedTakes(r: Record, c: Record, parm: Record)
    requires ChangedOnly(r, c, PROP_FIELDS, parm)
    ensures TakesFields(r, c, parm)
  {
    forall f: Field
      ensures TakesField(r, c, parm, f)
    {
      CarriedFields(f);
    }
  }

  lemma PropIgnored(w: Wlan, parm: Record)
    requires var dev := StrOf(parm, DeviceName); dev !in w.lists || Fresh(w.lists[dev], NameOf(parm))
    ensures ListsAfter(w, NetworkProp(parm)) == w.lists
    ensures StrOf(parm, DeviceName) !in w.lists ==> UiAfter(w, NetworkProp(parm)) == w.ui
  {
    var dev := StrOf(parm, DeviceName);
    if dev in w.lists {
      FreshIff(w.lists[dev], NameOf(parm));
    }
  }

  // ----- active connection changes --------------------------------------------------------

  ghost predicate Heeded(w: Wlan, dev: string, uuid: string) {
    w.switchOn && uuid != "" && dev in w.lists
  }

  lemma ActiveIgnoredEffect(w: Wlan, e: Event)
    requires e.ActiveChanged? && Accepts(w, e) && !Heeded(w, e.dev, e.uuid)
    ensures ListsAfter(w, e) == w.lists && UiAfter(w, e) == w.ui
  {
  }

  lemma ActivationRead(before: Record, after: Record, uuid: string, status: int)
    requires var patch := ActivationPatch(uuid, status); ChangedOnly(before, after, patch.Keys, patch)
    ensures NameOf(after) == NameOf(before) && StrOf(after, Uuid) == uuid && StateOf(after) == status
    ensures status == ACTIVATED ==> ConfiguredOf(after) == 1
    ensures SameBut(before, after, if status == ACTIVATED then {Uuid, State, Configured} else {Uuid, State})
  {
    var patch := ActivationPatch(uuid, status);
    assert Uuid in patch.Keys && State in patch.Keys;
    assert after[Uuid] == patch[Uuid] && after[State] == patch[State];
  }

  /** ACTIVATED or ACTIVATING: on the device of the signal the record of that name comes
      first, with the uuid and the status of the signal, and is configured once ACTIVATED;
      all its other fields, the order of the other records and the other devices stay. */
  lemma ActivationEffect(w: Wlan, e: Event, i: nat)
    requires e.ActiveChanged? && Accepts(w, e) && Heeded(w, e.dev, e.uuid)
    requires (e.status == ACTIVATED || e.status == ACTIVATING) && NamesDistinct(w.lists[e.dev])
    requires i < |w.lists[e.dev]| && NameOf(w.lists[e.dev][i]) == e.ssid
    ensures var l, after := w.lists[e.dev], ListsAfter(w, e);
            OnlyList(w.lists, after, e.dev, after[e.dev]) && |after[e.dev]| == |l| &&
            RemoveAt(after[e.dev], 0) == RemoveAt(l, i) &&
            var r := after[e.dev][0];
            NameOf(r) == e.ssid && StrOf(r, Uuid) == e.uuid && StateOf(r) == e.status &&
            (e.status == ACTIVATED ==> ConfiguredOf(r) == 1) &&
            SameBut(l[i], r, if e.status == ACTIVATED then {Uuid, State, Configured} else {Uuid, State})
  {
    var l := w.lists[e.dev];
    FindNameAt(l, i);
    ActivateFrame(l, e.ssid, e.uuid, e.status);
    ActivationRead(l[i], ListsAfter(w, e)[e.dev][0], e.uuid, e.status);
  }

  lemma ActivationUnknown(w: Wlan, e: Event)
    requires e.ActiveChanged? && Accepts(w, e) && Heeded(w, e.dev, e.uuid)
    requires (e.status == ACTIVATED || e.status == ACTIVATING) && Fresh(w.lists[e.dev], e.ssid)
    ensures ListsAfter(w, e) == w.lists
  {
    FreshIff(w.lists[e.dev], e.ssid);
  }

  ghost predicate NoUuid(l: seq<Record>, uuid: string) {
    forall i :: 0 <= i < |l| ==> StrOf(l[i], Uuid) != uuid
  }

  ghost predicate FirstUuidAt(l: seq<Record>, uuid: string, i: nat) {
    i < |l| && StrOf(l[i], Uuid) == uuid && forall k :: 0 <= k < i ==> StrOf(l[k], Uuid) != uuid
  }

  ghost predicate Leaves(w: Wlan, e: Event) {
    e.ActiveChanged? && Accepts(w, e) && Heeded(w, e.dev, e.uuid) && e.status != ACTIVATED && e.status != ACTIVATING
  }

  /** Any other status, on every device: without a record of that uuid nothing changes. */
  lemma LeavingUnknown(w: Wlan, e: Event, d: string)
    requires Leaves(w, e) && d in w.lists && NoUuid(w.lists[d], e.uuid)
    ensures ListsAfter(w, e).Keys == w.lists.Keys && ListsAfter(w, e)[d] == w.lists[d]
  {
    FirstIndexUnique(w.lists[d], HasUuid(e.uuid), |w.lists[d]|);
  }

  /** The first record of that uuid keeps its place and gets the status, unless the status
      is DEACTIVATED and the backend answers. */
  lemma LeavingEffect(w: Wlan, e: Event, d: string, i: nat)
    requires Leaves(w, e) && d in w.lists && FirstUuidAt(w.lists[d], e.uuid, i)
    requires e.status != DEACTIVATED || d !in e.reply
    ensures var l, l' := w.lists[d], ListsAfter(w, e)[d];
            ListsAfter(w, e).Keys == w.lists.Keys && |l'| == |l| && RemoveAt(l', i) == RemoveAt(l, i) &&
            StateOf(l'[i]) == e.status && SameBut(l[i], l'[i], {State})
  {
    var l := w.lists[d];
    FirstIndexUnique(l, HasUuid(e.uuid), i);
    RestateFrame(l, e.uuid, map[State := Num(e.status)], false);
  }

  /** Sorted, each of the records and nothing else, none lost or doubled. */
  ghost predicate SortedFrom(l: seq<Record>, rs: seq<Record>) {
    Ordered(l) && (forall x :: x in l <==> x in rs) &&
    ((forall a, b :: 0 <= a < b < |rs| ==> rs[a] != rs[b]) ==> multiset(l) == multiset(rs))
  }

  lemma LoadedSorted(rs: seq<Record>)
    ensures SortedFrom(InsertAll([], rs), rs)
  {
    InsertAllSorts([], rs);
    forall x
      ensures x in InsertAll([], rs) <==> x in rs
    {
      InsertAllMembers([], rs, x);
    }
    if forall a, b :: 0 <= a < b < |rs| ==> rs[a] != rs[b] {
      InsertAllPermutes([], rs);
    }
  }

  lemma LeavingList(w: Wlan, e: Event, d: string)
    requires Leaves(w, e) && d in w.lists
    ensures d in ListsAfter(w, e) && ListsAfter(w, e)[d] == Deactivate(w.lists[d], d, e.uuid, e.status, e.reply)
  {
  }

  /** After DEACTIVATED with an answer the list is what was answered. */
  lemma ReloadEffect(w: Wlan, e: Event, d: string, i: nat)
    requires Leaves(w, e) && d in w.lists && FirstUuidAt(w.lists[d], e.uuid, i)
    requires e.status == DEACTIVATED && d in e.reply
    ensures SortedFrom(ListsAfter(w, e)[d], RowRecords(e.reply[d]))
  {
    FirstIndexUnique(w.lists[d], HasUuid(e.uuid), i);
    LoadedSorted(RowRecords(e.reply[d]));
    LeavingList(w, e, d);
  }

  // ----- calls --------------------------------------------------------------------------

  /** The calls from the list view change no list; a non-empty device name becomes the
      current device; a pause and the switch set their flags. */
  lemma CallEffects(w: Wlan, dev: string, paused: bool, on: bool, uuid: string, state: bool)
    ensures ListsAfter(w, SelectDevice(dev)) == w.lists && ListsAfter(w, PauseReorder(paused)) == w.lists
    ensures ListsAfter(w, AutoConnectSet(uuid, state)) == w.lists && ListsAfter(w, SwitchChanged(on)) == w.lists
    ensures Step(w, SelectDevice(dev)).ui.current == if dev == "" then w.ui.current else dev
    ensures Step(w, PauseReorder(paused)).ui.paused == paused && Step(w, SwitchChanged(on)).switchOn == on
    ensures Step(w, SelectDevice(dev)).ui.paused == w.ui.paused
    ensures Step(w, SwitchChanged(on)).ui == w.ui
  {
  }

  /** The auto-connect call sets one field of the first entry of that uuid. */
  lemma AutoConnectEffect(w: Wlan, uuid: string, state: bool, i: nat)
    requires FirstUuidAt(w.ui.panel.mirror, uuid, i)
    ensures var m, m' := w.ui.panel.mirror, Step(w, AutoConnectSet(uuid, state)).ui.panel.mirror;
            |m'| == |m| && RemoveAt(m', i) == RemoveAt(m, i) && SameBut(m[i], m'[i], {AutoConnect}) &&
            (BoolOf(m'[i], AutoConnect) <==> state)
  {
    FirstIndexUnique(w.ui.panel.mirror, HasUuid(uuid), i);
  }

  lemma AutoConnectUnknown(w: Wlan, uuid: string, state: bool)
    requires NoUuid(w.ui.panel.mirror, uuid)
    ensures Step(w, AutoConnectSet(uuid, state)) == w
  {
    FirstIndexUnique(w.ui.panel.mirror, HasUuid(uuid), |w.ui.panel.mirror|);
  }
}
