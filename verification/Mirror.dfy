/** What each interface operation does to the mirror of the current device's list
    and to the rows of the view model. */
module Mirror {
  import opened Records
  import opened KeyOrder
  import opened SeqOps
  import opened Names
  import opened ViewModel
  import opened DataKeepers

  datatype Panel = Panel(mirror: seq<Record>, rows: seq<Row>)

  datatype Ui = Ui(current: string, panel: Panel, paused: bool)

  function Loaded(l: seq<Record>): Panel {
    Panel(l, ToRows(l))
  }

  // ----- full rebuild ------------------------------------------------------

  ghost function CurrentOrFirst(current: string, lists: Lists): string {
    if current == "" && lists.Keys != {} then FirstKey(lists.Keys) else current
  }

  ghost function Rebuild(ui: Ui, lists: Lists): Ui {
    var current := CurrentOrFirst(ui.current, lists);
    Ui(current, Loaded(ListOf(lists, current)), ui.paused)
  }

  // ----- incremental pass ----------------------------------------------------

  function PanelDrop(p: Panel, i: nat): Panel
    requires i < |p.mirror|
  {
    Panel(RemoveAt(p.mirror, i), RowDrop(p.rows, NameOf(p.mirror[i])))
  }

  /** The removal loop from index `i`: it advances also after a removal. */
  function DropStale(p: Panel, i: nat, list: seq<Record>): Panel
    decreases |p.mirror| - i
  {
    if i >= |p.mirror| then p
    else if p.mirror[i] in list then DropStale(p, i + 1, list)
    else DropStale(PanelDrop(p, i), i + 1, list)
  }

  /** The sorting rule as the interface re-implements it, on the raw Configured number. */
  predicate MirrorGeq(a: Record, b: Record) {
    Active(a) ||
    (!Active(b) &&
     (ConfiguredOf(a) > ConfiguredOf(b) ||
      (ConfiguredOf(a) == ConfiguredOf(b) && SignalOf(a) >= SignalOf(b))))
  }

  function MirrorReaches(r: Record): Record -> bool {
    b => MirrorGeq(r, b)
  }

  function MirrorSlot(l: seq<Record>, r: Record): (k: nat)
    ensures k <= |l|
    ensures forall j :: 0 <= j < k ==> !MirrorGeq(r, l[j])
    ensures k < |l| ==> MirrorGeq(r, l[k])
    ensures Active(r) ==> k == 0
  {
    FirstIndex(l, MirrorReaches(r))
  }

  function PanelAdd(p: Panel, k: nat, r: Record): Panel
    requires k <= |p.mirror|
  {
    Panel(InsertAt(p.mirror, k, r), RowAdd(p.rows, k, ToRow(r)))
  }

  function PanelReplace(p: Panel, i: nat, r: Record): Panel
    requires i < |p.mirror|
  {
    Panel(p.mirror[i := r], RowReplace(p.rows, ToRow(r)))
  }

  function Upsert(p: Panel, r: Record): Panel {
    var i := FindName(p.mirror, NameOf(r));
    if i < |p.mirror| then PanelReplace(p, i, r) else PanelAdd(p, MirrorSlot(p.mirror, r), r)
  }

  function UpsertAll(p: Panel, list: seq<Record>): Panel
    decreases |list|
  {
    if list == [] then p else UpsertAll(Upsert(p, list[0]), list[1..])
  }

  function DiffPass(p: Panel, list: seq<Record>): Panel {
    UpsertAll(DropStale(p, 0, list), list)
  }

  /** `getWirelessDevConnList(devName)`. */
  function Show(ui: Ui, lists: Lists, dev: string): Ui {
    if dev == "" then ui
    else
      var list := ListOf(lists, dev);
      Ui(dev, if ui.panel.mirror == [] then Loaded(list) else DiffPass(ui.panel, list), ui.paused)
  }

  // ----- property update -------------------------------------------------------

  /** `QList::insert` appends when the index is past the end. */
  function Clamped(k: nat, n: nat): nat {
    if k <= n then k else n
  }

  function MoveTo(p: Panel, oldIdx: nat, k: nat, r: Record): Panel {
    if oldIdx == |p.mirror| then
      Panel(InsertAt(p.mirror, Clamped(k, |p.mirror|), r), RowAdd(p.rows, k, ToRow(r)))
    else if oldIdx > |p.mirror| then p
    else if oldIdx == k then PanelReplace(p, oldIdx, r)
    else
      var rest := RemoveAt(p.mirror, oldIdx);
      Panel(InsertAt(rest, Clamped(k, |rest|), r), RowAdd(RowDrop(p.rows, NameOf(r)), k, ToRow(r)))
  }

  function PropPanel(p: Panel, paused: bool, list: seq<Record>, name: string): Panel {
    var k := FindName(list, name);
    if p.mirror == [] then Loaded(list)
    else if k == |list| then p
    else
      var oldIdx := FindName(p.mirror, name);
      if !paused then MoveTo(p, oldIdx, k, list[k])
      else if oldIdx < |p.mirror| then PanelReplace(p, oldIdx, list[k])
      else p
  }

  /** `wirelessDevConnListPropUpdate(devName, ssid)`. */
  function PropShow(ui: Ui, lists: Lists, dev: string, name: string): Ui {
    if dev != ui.current && ui.current != "" then ui
    else ui.(panel := PropPanel(ui.panel, ui.paused, ListOf(lists, dev), name))
  }

  /** The index that the view model is asked to insert at exists. */
  predicate PanelFits(p: Panel, paused: bool, list: seq<Record>, name: string) {
    var k, oldIdx := FindName(list, name), FindName(p.mirror, name);
    p.mirror == [] || k == |list| || paused || oldIdx == k || Active(list[k]) ||
    k <= (if oldIdx < |p.mirror| then |p.mirror| - 1 else |p.mirror|)
  }

  predicate PropFits(ui: Ui, lists: Lists, dev: string, name: string) {
    (dev != ui.current && ui.current != "") || PanelFits(ui.panel, ui.paused, ListOf(lists, dev), name)
  }

  // ----- pause, auto-connect ------------------------------------------------------

  ghost function SetPaused(ui: Ui, lists: Lists, paused: bool): Ui {
    if ui.paused == paused then ui
    else if paused then ui.(paused := true)
    else Rebuild(ui.(paused := false), lists)
  }

  function SetAutoConnect(ui: Ui, uuid: string, state: bool): Ui {
    var l := ui.panel.mirror;
    var i := FirstIndex(l, HasUuid(uuid));
    if i == |l| then ui
    else ui.(panel := PanelReplace(ui.panel, i, l[i][AutoConnect := Num(if state then 1 else 0)]))
  }
}
