/** What each backend signal and each call from QML does to the wireless keeper
    and to the interface that mirrors it. */
module WlanSpec {
  import opened Text
  import opened Records
  import opened SeqOps
  import opened NetDevices
  import opened DataKeepers
  import opened Mirror

  // ----- backend rows ------------------------------------------------------

  type BackendRow = seq<string>

  /** `makeConnectionMap` reads nine fields, ten when a Uuid is among them. */
  predicate RowWide(status: int, row: BackendRow) {
    |row| >= 10 || (status != ACTIVATED && |row| == 9)
  }

  function MakeConnectionMap(status: int, row: BackendRow): Record
    requires RowWide(status, row)
  {
    var hasUuid := status == ACTIVATED || |row| >= 10;
    var index := if hasUuid then 1 else 0;
    map[Name := Str(row[0]), Signal := Str(row[1]), Security := Str(row[2]),
        IsApConn := Str(row[3 + index]), Category := Num(ParseInt(row[4 + index])),
        State := Num(status), Loading := Num(0),
        Configured := Num(ParseInt(row[5 + index])), Frequency := Num(ParseUInt(row[6 + index])),
        IsMix := Num(ParseInt(row[7 + index])), AutoConnect := Num(ParseInt(row[8 + index]))]
    + (if hasUuid then map[Uuid := Str(row[3])] else map[])
  }

  /** The first row is the active connection, or holds "--" when there is none. */
  predicate NoActiveRow(row: BackendRow) {
    "--" in row
  }

  predicate RowsWide(rows: seq<BackendRow>) {
    (rows != [] && !NoActiveRow(rows[0]) ==> RowWide(ACTIVATED, rows[0])) &&
    forall i :: 1 <= i < |rows| ==> RowWide(DEACTIVATED, rows[i])
  }

  function InactiveRecords(rows: seq<BackendRow>): (l: seq<Record>)
    requires forall i :: 0 <= i < |rows| ==> RowWide(DEACTIVATED, rows[i])
    ensures |l| == |rows|
    ensures forall i :: 0 <= i < |l| ==> l[i] == MakeConnectionMap(DEACTIVATED, rows[i])
  {
    seq(|rows|, i requires 0 <= i < |rows| => MakeConnectionMap(DEACTIVATED, rows[i]))
  }

  function FirstRecords(row: BackendRow): seq<Record>
    requires !NoActiveRow(row) ==> RowWide(ACTIVATED, row)
  {
    if NoActiveRow(row) then [] else [MakeConnectionMap(ACTIVATED, row)]
  }

  function RowRecords(rows: seq<BackendRow>): seq<Record>
    requires RowsWide(rows)
  {
    if rows == [] then [] else FirstRecords(rows[0]) + InactiveRecords(rows[1..])
  }

  // ----- states and events ---------------------------------------------------

  datatype Wlan = Wlan(switchOn: bool, lists: Lists, ui: Ui)

  datatype Event =
    | NetworkAdd(dev: string, info: BackendRow)
    | NetworkRemove(dev: string, name: string)
    | NetworkProp(parm: Record)
    | ActiveChanged(dev: string, ssid: string, uuid: string, status: int, reply: map<string, seq<BackendRow>>)
    | SelectDevice(dev: string)
    | PauseReorder(paused: bool)
    | AutoConnectSet(uuid: string, state: bool)
    | SwitchChanged(on: bool)

  function ActivationPatch(uuid: string, status: int): Record {
    if status == ACTIVATED then map[Uuid := Str(uuid), State := Num(status), Configured := Num(1)]
    else map[Uuid := Str(uuid), State := Num(status)]
  }

  function Activate(l: seq<Record>, ssid: string, uuid: string, status: int): seq<Record> {
    var i := FirstIndex(l, HasName(ssid));
    if i == |l| then l else Insert(DropRecord(l, l[i]), l[i] + ActivationPatch(uuid, status))
  }

  /** A state change to neither ACTIVATED nor ACTIVATING, on one device: the record
      is rewritten in place, and after DEACTIVATED the list is loaded anew from
      the backend when it answers. */
  function Deactivate(l: seq<Record>, dev: string, uuid: string, status: int,
                      reply: map<string, seq<BackendRow>>): seq<Record>
    requires forall d :: d in reply ==> RowsWide(reply[d])
  {
    if FirstIndex(l, HasUuid(uuid)) == |l| then l
    else if status == DEACTIVATED && dev in reply then InsertAll([], RowRecords(reply[dev]))
    else Restate(l, uuid, map[State := Num(status)], status == ACTIVATED)
  }

  /** Only rows of ten or eleven fields are taken. */
  function AddRow(l: seq<Record>, info: BackendRow): seq<Record> {
    if |info| == 10 || |info| == 11 then Insert(l, MakeConnectionMap(DEACTIVATED, info)) else l
  }

  function Deactivating(uuid: string, status: int, reply: map<string, seq<BackendRow>>): ListChange
    requires forall d :: d in reply ==> RowsWide(reply[d])
  {
    (d, l) => Deactivate(l, d, uuid, status, reply)
  }

  predicate Activates(status: int) {
    status == ACTIVATED || status == ACTIVATING
  }

  predicate ActiveIgnored(w: Wlan, e: Event)
    requires e.ActiveChanged?
  {
    !w.switchOn || e.uuid == "" || e.dev !in w.lists
  }

  function ListsAfterActive(lists: Lists, e: Event): Lists
    requires e.ActiveChanged? && e.dev in lists
    requires forall d :: d in e.reply ==> RowsWide(e.reply[d])
  {
    if Activates(e.status) then lists[e.dev := Activate(lists[e.dev], e.ssid, e.uuid, e.status)]
    else Visited(lists, All(), Deactivating(e.uuid, e.status, e.reply))
  }

  /** The three outcomes on one device, told apart as the code does. */
  lemma DeactivateCases(l: seq<Record>, dev: string, uuid: string, status: int, reply: map<string, seq<BackendRow>>)
    requires forall d :: d in reply ==> RowsWide(reply[d])
    ensures var patch: Record := map[State := Num(status)];
            var conn, restated := Restated(l, uuid, patch), Restate(l, uuid, patch, status == ACTIVATED);
            if conn == map[] then restated == l && Deactivate(l, dev, uuid, status, reply) == l
            else if status == DEACTIVATED && dev in reply then
              Deactivate(l, dev, uuid, status, reply) == InsertAll([], RowRecords(reply[dev]))
            else Deactivate(l, dev, uuid, status, reply) == restated
  {
    var i := FirstIndex(l, HasUuid(uuid));
    if i < |l| {
      assert State in l[i] + map[State := Num(status)];
    }
  }

  function ListsAfter(w: Wlan, e: Event): Lists
    requires Accepts(w, e)
  {
    var lists := w.lists;
    match e
    case NetworkAdd(dev, info) =>
      if !w.switchOn || dev == "" || dev !in lists then lists
      else lists[dev := AddRow(lists[dev], info)]
    case NetworkRemove(dev, name) =>
      if dev == "" || dev !in lists then lists
      else lists[dev := RemoveSkipping(lists[dev], HasName(name))]
    case NetworkProp(parm) =>
      var dev := StrOf(parm, DeviceName);
      if dev !in lists then lists else lists[dev := UpdateProp(lists[dev], parm)]
    case ActiveChanged(_, _, _, _, _) =>
      if ActiveIgnored(w, e) then lists else ListsAfterActive(lists, e)
    case _ => lists
  }

  /** What the code needs of a signal not to run off a list: enough fields in the
      rows, a Uuid on every record that the scan passes. */
  ghost predicate Accepts(w: Wlan, e: Event) {
    e.ActiveChanged? ==>
      (forall d :: d in e.reply ==> RowsWide(e.reply[d])) &&
      (!ActiveIgnored(w, e) && !Activates(e.status) ==>
         forall d :: d in w.lists ==> ScanHalts(w.lists[d], e.uuid))
  }

  /** In addition, the index passed to the view model must exist. */
  ghost predicate Fits(w: Wlan, e: Event)
    requires Accepts(w, e)
  {
    e.NetworkProp? && StrOf(e.parm, DeviceName) in w.lists ==>
      PropFits(w.ui, ListsAfter(w, e), StrOf(e.parm, DeviceName), NameOf(e.parm))
  }

  ghost function UiAfter(w: Wlan, e: Event): Ui
    requires Accepts(w, e)
  {
    var lists := ListsAfter(w, e);
    match e
    case NetworkAdd(dev, _) =>
      if !w.switchOn || dev == "" || dev !in w.lists then w.ui else Show(w.ui, lists, w.ui.current)
    case NetworkRemove(dev, _) =>
      if dev == "" || dev !in w.lists then w.ui else Show(w.ui, lists, w.ui.current)
    case NetworkProp(parm) =>
      var dev := StrOf(parm, DeviceName);
      if dev !in w.lists then w.ui else PropShow(w.ui, lists, dev, NameOf(parm))
    case ActiveChanged(_, _, _, _, _) =>
      if ActiveIgnored(w, e) then w.ui else Rebuild(w.ui, lists)
    case SelectDevice(dev) => Show(w.ui, lists, dev)
    case PauseReorder(paused) => SetPaused(w.ui, lists, paused)
    case AutoConnectSet(uuid, state) => SetAutoConnect(w.ui, uuid, state)
    case SwitchChanged(_) => w.ui
  }

  ghost function Step(w: Wlan, e: Event): Wlan
    requires Accepts(w, e)
  {
    Wlan(if e.SwitchChanged? then e.on else w.switchOn, ListsAfter(w, e), UiAfter(w, e))
  }
}
