/** Whole runs of the wireless keeper and its interface. */
module WlanRuns {
  import opened Text
  import opened Records
  import opened SeqOps
  import opened Names
  import opened NetDevices
  import opened KeeperOrder
  import opened DataKeepers
  import opened ViewModel
  import opened Mirror
  import opened MirrorTheorems
  import opened WlanSpec

  // ----- what every device list keeps ---------------------------------------

  ghost predicate Bit(n: int) {
    n == 0 || n == 1
  }

  ghost predicate GoodRecord(r: Record) {
    ConfiguredBit(r) && Uuid in r
  }

  ghost predicate AllGood(l: seq<Record>) {
    forall i :: 0 <= i < |l| ==> GoodRecord(l[i])
  }

  ghost predicate GoodList(l: seq<Record>) {
    NamesDistinct(l) && AllGood(l)
  }

  ghost predicate GoodLists(lists: Lists) {
    forall d :: d in lists ==> GoodList(lists[d])
  }

  /** Rows with ten fields, a Configured field of 0 or 1 and different names. */
  ghost predicate GoodRow(row: BackendRow) {
    |row| >= 10 && Bit(ParseInt(row[6]))
  }

  ghost predicate GoodReply(rows: seq<BackendRow>) {
    (rows != [] && !NoActiveRow(rows[0]) ==> GoodRow(rows[0])) &&
    (forall i :: 1 <= i < |rows| ==> GoodRow(rows[i])) &&
    RowsWide(rows) && NamesDistinct(RowRecords(rows))
  }

  lemma GoodRecordOf(status: int, row: BackendRow)
    requires GoodRow(row)
    ensures RowWide(status, row) && GoodRecord(MakeConnectionMap(status, row))
    ensures NameOf(MakeConnectionMap(status, row)) == row[0]
  {
  }

  lemma InsertGood(l: seq<Record>, r: Record)
    requires GoodList(l) && GoodRecord(r) && (r in l || Fresh(l, NameOf(r)))
    ensures GoodList(Insert(l, r))
  {
    InsertNamesIff(l, r);
    if r !in l {
      var k := Slot(l, r);
      forall i | 0 <= i < |l| + 1
        ensures GoodRecord(InsertAt(l, k, r)[i])
      {
        assert InsertAt(l, k, r)[i] == if i < k then l[i] else if i == k then r else l[i - 1];
      }
    }
  }

  lemma RemoveGood(l: seq<Record>, i: nat)
    requires GoodList(l) && i < |l|
    ensures GoodList(RemoveAt(l, i))
  {
  }

  lemma SkippingGood(l: seq<Record>, bad: Record -> bool)
    requires GoodList(l)
    ensures GoodList(RemoveSkipping(l, bad))
  {
    DistinctSkipping(l, bad);
    SkippingKeepsElements(l, bad);
    var s := RemoveSkipping(l, bad);
    forall i | 0 <= i < |s|
      ensures GoodRecord(s[i])
    {
      assert s[i] in l;
    }
  }

  ghost predicate GoodParm(parm: Record) {
    Configured in parm ==> Bit(ToInt(parm[Configured]))
  }

  lemma PatchedGood(r: Record, parm: Record)
    requires GoodRecord(r) && GoodParm(parm)
    ensures GoodRecord(Patched(r, parm))
  {
  }

  lemma UpdatePropGood(l: seq<Record>, parm: Record)
    requires GoodList(l) && GoodParm(parm)
    ensures GoodList(UpdateProp(l, parm))
  {
    var i := FindName(l, NameOf(parm));
    if i < |l| {
      UpdatePropNames(l, parm);
      RemoveGood(l, i);
      PatchedGood(l[i], parm);
      InsertGood(RemoveAt(l, i), Patched(l[i], parm));
    }
  }

  lemma MarkedGood(r: Record, uuid: string, status: int)
    requires GoodRecord(r)
    ensures var c := r + ActivationPatch(uuid, status);
            NameOf(c) == NameOf(r) && GoodRecord(c)
  {
  }

  lemma ActivateGood(l: seq<Record>, ssid: string, uuid: string, status: int)
    requires GoodList(l)
    ensures GoodList(Activate(l, ssid, uuid, status))
  {
    var i := FindName(l, ssid);
    if i < |l| {
      FirstIndexUnique(l, Is(l[i]), i);
      assert DropRecord(l, l[i]) == RemoveAt(l, i);
      DistinctRemoveAt(l, i);
      RemoveGood(l, i);
      MarkedGood(l[i], uuid, status);
      InsertGood(RemoveAt(l, i), l[i] + ActivationPatch(uuid, status));
    }
  }

  /** Activation by name touches one record, and of it the Uuid, the State and, when it
      completes, Configured; the record comes first, the others keep their order. */
  lemma ActivateFrame(l: seq<Record>, ssid: string, uuid: string, status: int)
    requires NamesDistinct(l) && Activates(status)
    ensures var i := FindName(l, ssid);
            var l' := Activate(l, ssid, uuid, status);
            |l'| == |l| && (i == |l| ==> l' == l) &&
            (i < |l| ==>
               RemoveAt(l', 0) == RemoveAt(l, i) &&
               ChangedOnly(l[i], l'[0], ActivationPatch(uuid, status).Keys, ActivationPatch(uuid, status)))
  {
    var i := FindName(l, ssid);
    if i < |l| {
      FirstIndexUnique(l, Is(l[i]), i);
      var rest, patch := RemoveAt(l, i), ActivationPatch(uuid, status);
      var c := l[i] + patch;
      DistinctRemoveAt(l, i);
      assert NameOf(c) == NameOf(l[i]) && Active(c);
      FreshNotIn(rest, c);
      assert Slot(rest, c) == 0;
      InsertThenRemove(rest, 0, c);
      PatchChangesOnly(l[i], patch);
    }
  }

  lemma PatchChangesOnly(r: Record, patch: Record)
    ensures ChangedOnly(r, r + patch, patch.Keys, patch)
  {
  }

  lemma {:induction false} InsertAllGood(l: seq<Record>, rs: seq<Record>)
    requires GoodList(l) && GoodList(rs)
    requires forall i :: 0 <= i < |rs| ==> Fresh(l, NameOf(rs[i]))
    ensures GoodList(InsertAll(l, rs))
    decreases |rs|
  {
    if rs != [] {
      var r, rest := rs[0], rs[1..];
      InsertGood(l, r);
      FreshNotIn(l, r);
      forall i | 0 <= i < |rest|
        ensures Fresh(Insert(l, r), NameOf(rest[i]))
      {
        assert rest[i] == rs[i + 1];
      }
      InsertAllGood(Insert(l, r), rest);
    }
  }

  lemma AllGoodAppend(a: seq<Record>, b: seq<Record>)
    requires AllGood(a) && AllGood(b)
    ensures AllGood(a + b)
  {
  }

  lemma RowRecordsGood(rows: seq<BackendRow>)
    requires GoodReply(rows)
    ensures AllGood(RowRecords(rows))
  {
    if rows != [] {
      var first, rest := FirstRecords(rows[0]), InactiveRecords(rows[1..]);
      if !NoActiveRow(rows[0]) {
        GoodRecordOf(ACTIVATED, rows[0]);
      }
      forall i | 0 <= i < |rest|
        ensures GoodRecord(rest[i])
      {
        GoodRecordOf(DEACTIVATED, rows[1 + i]);
      }
      AllGoodAppend(first, rest);
    }
  }

  lemma LoadGood(rows: seq<BackendRow>)
    requires GoodReply(rows)
    ensures GoodList(InsertAll([], RowRecords(rows)))
  {
    RowRecordsGood(rows);
    InsertAllGood([], RowRecords(rows));
  }

  lemma DeactivateGood(l: seq<Record>, dev: string, uuid: string, status: int, reply: map<string, seq<BackendRow>>)
    requires GoodList(l) && !Activates(status)
    requires forall d :: d in reply ==> GoodReply(reply[d]) && RowsWide(reply[d])
    ensures GoodList(Deactivate(l, dev, uuid, status, reply))
  {
    if dev in reply {
      LoadGood(reply[dev]);
    }
    var i := FirstIndex(l, HasUuid(uuid));
    if i < |l| {
      StateGood(l, i, status);
    }
  }

  lemma StateGood(l: seq<Record>, i: nat, status: int)
    requires GoodList(l) && i < |l|
    ensures GoodList(l[i := l[i] + map[State := Num(status)]])
  {
    var c := l[i] + map[State := Num(status)];
    assert NameOf(c) == NameOf(l[i]) && GoodRecord(c);
    DistinctReplace(l, i, c);
  }

  /** Every record carries a Uuid, so the scan of `updateConnection` always ends. */
  lemma GoodListScans(l: seq<Record>, uuid: string)
    requires GoodList(l)
    ensures ScanHalts(l, uuid)
    ensures exists steps: nat :: ScanAfter(l, uuid, At(0), steps) == Done
  {
    assert forall k :: 0 <= k < |l| ==> GoodRecord(l[k]);
    ScanEndsIff(l, uuid);
  }

  // ----- admissible signals ------------------------------------------------------

  /** What the backend is relied on for: names new to the device (or the very same
      record), Configured 0 or 1, rows of at least ten fields. */
  ghost predicate FromBackend(w: Wlan, e: Event) {
    match e
    case NetworkAdd(dev, info) =>
      dev in w.lists && (|info| == 10 || |info| == 11) ==>
        GoodRow(info) &&
        (Fresh(w.lists[dev], info[0]) || MakeConnectionMap(DEACTIVATED, info) in w.lists[dev])
    case NetworkProp(parm) => GoodParm(parm)
    case ActiveChanged(_, _, _, _, reply) => forall d :: d in reply ==> GoodReply(reply[d])
    case _ => true
  }

  lemma BackendAccepted(w: Wlan, e: Event)
    requires GoodLists(w.lists) && FromBackend(w, e)
    ensures Accepts(w, e)
  {
  }

  lemma ListsStayGood(w: Wlan, e: Event)
    requires GoodLists(w.lists) && FromBackend(w, e) && Accepts(w, e)
    ensures GoodLists(ListsAfter(w, e)) && ListsAfter(w, e).Keys == w.lists.Keys
  {
    var lists := w.lists;
    match e
    case NetworkAdd(dev, info) =>
      if dev in lists && (|info| == 10 || |info| == 11) {
        GoodRecordOf(DEACTIVATED, info);
        InsertGood(lists[dev], MakeConnectionMap(DEACTIVATED, info));
      }
    case NetworkRemove(dev, name) =>
      if dev in lists {
        SkippingGood(lists[dev], HasName(name));
      }
    case NetworkProp(parm) =>
      var dev := StrOf(parm, DeviceName);
      if dev in lists {
        UpdatePropGood(lists[dev], parm);
      }
    case ActiveChanged(dev, ssid, uuid, status, reply) =>
      if !ActiveIgnored(w, e) {
        if Activates(status) {
          ActivateGood(lists[dev], ssid, uuid, status);
        } else {
          forall d | d in lists
            ensures GoodList(ListsAfterActive(lists, e)[d])
          {
            DeactivateGood(lists[d], d, uuid, status, reply);
          }
        }
      }
    case _ =>
  }

  // ----- incremental update refines full rebuild -----------------------------------

  /** The mirror is the current device's list, the rows are that list's rows. */
  ghost predicate InSync(w: Wlan) {
    w.ui.current != "" && w.ui.current in w.lists && GoodLists(w.lists) &&
    w.ui.panel == Loaded(w.lists[w.ui.current])
  }

  /** Signals of an unpaused run on the current device set: no device switch and no
      local auto-connect patch. */
  ghost predicate Unpaused(w: Wlan, e: Event) {
    FromBackend(w, e) && !w.ui.paused && !e.AutoConnectSet? && !e.PauseReorder? &&
    (e.SelectDevice? ==> e.dev == w.ui.current)
  }

  lemma ShowInSync(ui: Ui, before: Lists, after: Lists)
    requires ui.current != "" && ui.current in before && ui.current in after
    requires ui.panel == Loaded(before[ui.current])
    requires before[ui.current] != [] ==>
               DiffPass(Loaded(before[ui.current]), after[ui.current]) == Loaded(after[ui.current])
    ensures Show(ui, after, ui.current) == ui.(panel := Loaded(after[ui.current]))
  {
  }

  lemma AddInSync(l: seq<Record>, r: Record)
    requires GoodList(l) && GoodRecord(r) && (r in l || Fresh(l, NameOf(r)))
    ensures DiffPass(Loaded(l), Insert(l, r)) == Loaded(Insert(l, r))
  {
    if r in l {
      DiffUnchanged(l);
    } else {
      SlotsAgree(l, r);
      DiffAfterInsert(l, r);
    }
  }

  lemma RemoveInSync(l: seq<Record>, name: string)
    requires NamesDistinct(l)
    ensures DiffPass(Loaded(l), RemoveSkipping(l, HasName(name))) == Loaded(RemoveSkipping(l, HasName(name)))
  {
    var i := FindName(l, name);
    if i < |l| {
      SkippingSingle(l, HasName(name), i);
      DiffAfterRemove(l, i);
    } else {
      SkippingNone(l, HasName(name));
      DiffUnchanged(l);
    }
  }

  /** The interface shows the current device's new list, on the same device. */
  ghost predicate ShowsCurrent(w: Wlan, e: Event)
    requires Accepts(w, e)
  {
    w.ui.current in ListsAfter(w, e) &&
    UiAfter(w, e) == w.ui.(panel := Loaded(ListsAfter(w, e)[w.ui.current]))
  }

  lemma AddShows(w: Wlan, dev: string, info: BackendRow)
    requires InSync(w) && FromBackend(w, NetworkAdd(dev, info))
    ensures ShowsCurrent(w, NetworkAdd(dev, info))
  {
    var l := w.lists[w.ui.current];
    var lists := ListsAfter(w, NetworkAdd(dev, info));
    DiffUnchanged(l);
    if dev in w.lists && dev == w.ui.current && (|info| == 10 || |info| == 11) {
      GoodRecordOf(DEACTIVATED, info);
      AddInSync(l, MakeConnectionMap(DEACTIVATED, info));
    }
    ShowInSync(w.ui, w.lists, lists);
    assert lists == w.lists ==> w.ui == w.ui.(panel := Loaded(lists[w.ui.current]));
  }

  lemma RemoveShows(w: Wlan, dev: string, name: string)
    requires InSync(w)
    ensures ShowsCurrent(w, NetworkRemove(dev, name))
  {
    var l := w.lists[w.ui.current];
    DiffUnchanged(l);
    RemoveInSync(l, name);
    ShowInSync(w.ui, w.lists, ListsAfter(w, NetworkRemove(dev, name)));
  }

  lemma PropShows(w: Wlan, parm: Record)
    requires InSync(w) && !w.ui.paused
    ensures ShowsCurrent(w, NetworkProp(parm)) && Fits(w, NetworkProp(parm))
  {
    var dev := StrOf(parm, DeviceName);
    if dev == w.ui.current {
      var l := w.lists[dev];
      PropAfterUpdate(l, parm);
      assert ListOf(ListsAfter(w, NetworkProp(parm)), dev) == UpdateProp(l, parm);
    }
  }

  lemma SelectShows(w: Wlan)
    requires InSync(w)
    ensures ShowsCurrent(w, SelectDevice(w.ui.current))
  {
    DiffUnchanged(w.lists[w.ui.current]);
    ShowInSync(w.ui, w.lists, w.lists);
  }

  lemma ActiveShows(w: Wlan, e: Event)
    requires InSync(w) && e.ActiveChanged? && Accepts(w, e)
    ensures ShowsCurrent(w, e)
  {
  }

  /** One signal: after it the incremental code has produced what a full rebuild of
      the current device gives, and it never asks the view model for a missing index. */
  lemma StepInSync(w: Wlan, e: Event)
    requires InSync(w) && Unpaused(w, e)
    ensures Accepts(w, e) && Fits(w, e)
    ensures InSync(Step(w, e)) && !Step(w, e).ui.paused
    ensures Step(w, e).ui == Rebuild(Step(w, e).ui, Step(w, e).lists)
  {
    BackendAccepted(w, e);
    ListsStayGood(w, e);
    assert ShowsCurrent(w, e) && Fits(w, e) by {
      match e
      case NetworkAdd(dev, info) => AddShows(w, dev, info);
      case NetworkRemove(dev, name) => RemoveShows(w, dev, name);
      case NetworkProp(parm) => PropShows(w, parm);
      case ActiveChanged(_, _, _, _, _) => ActiveShows(w, e);
      case SelectDevice(dev) => SelectShows(w);
      case SwitchChanged(_) =>
    }
  }

  // ----- pause and resume ---------------------------------------------------------------

  ghost predicate PausedSync(w: Wlan) {
    w.ui.paused && w.ui.current != "" && w.ui.current in w.lists && GoodLists(w.lists) &&
    Lockstep(w.ui.panel) && multiset(w.ui.panel.mirror) == multiset(w.lists[w.ui.current])
  }

  lemma PausedStep(w: Wlan, parm: Record)
    requires PausedSync(w) && GoodParm(parm)
    ensures var e := NetworkProp(parm);
            Fits(w, e) && PausedSync(Step(w, e)) && Step(w, e).ui.current == w.ui.current &&
            NameSeq(Step(w, e).ui.panel.mirror) == NameSeq(w.ui.panel.mirror)
  {
    ListsStayGood(w, NetworkProp(parm));
    PausedUpdate(w.ui.panel, w.lists[w.ui.current], parm);
  }

  /** A pass over a list of which at most one record of the mirror is missing. */
  lemma PassPermutes(p: Panel, l: seq<Record>, gone: Record -> bool)
    requires Lockstep(p) && NamesDistinct(l)
    requires forall i, j :: 0 <= i < j < |p.mirror| ==> !(gone(p.mirror[i]) && gone(p.mirror[j]))
    requires forall i :: 0 <= i < |p.mirror| && !gone(p.mirror[i]) ==> p.mirror[i] in l
    requires p.mirror == [] ==> l == []
    ensures Lockstep(DiffPass(p, l)) && multiset(DiffPass(p, l).mirror) == multiset(l)
  {
    DiffPassLockstep(p, l);
    DiffPassPermutesIff(p, l);
  }

  /** The same, for the current device in the interface. */
  lemma PausedShow(w: Wlan, l: seq<Record>, gone: Record -> bool)
    requires PausedSync(w) && NamesDistinct(l)
    requires forall i, j :: 0 <= i < j < |w.ui.panel.mirror| ==>
               !(gone(w.ui.panel.mirror[i]) && gone(w.ui.panel.mirror[j]))
    requires forall i :: 0 <= i < |w.ui.panel.mirror| && !gone(w.ui.panel.mirror[i]) ==> w.ui.panel.mirror[i] in l
    ensures var ui := Show(w.ui, w.lists[w.ui.current := l], w.ui.current);
            Lockstep(ui.panel) && multiset(ui.panel.mirror) == multiset(l) && ui.current == w.ui.current && ui.paused
  {
    var lists := w.lists[w.ui.current := l];
    assert ListOf(lists, w.ui.current) == l;
    if w.ui.panel.mirror != [] {
      PassPermutes(w.ui.panel, l, gone);
    }
  }

  lemma SameBag(a: seq<Record>, b: seq<Record>, x: Record)
    requires multiset(a) == multiset(b)
    ensures x in a <==> x in b
  {
    assert x in a <==> x in multiset(a);
  }

  /** A permutation has no two gone records either, and its others are in `l` too. */
  lemma GoneInPermutation(m: seq<Record>, before: seq<Record>, l: seq<Record>, gone: Record -> bool)
    requires NamesDistinct(m) && multiset(m) == multiset(before)
    requires forall i, j :: 0 <= i < j < |before| ==> !(gone(before[i]) && gone(before[j]))
    requires forall x :: x in before && !gone(x) ==> x in l
    ensures forall i, j :: 0 <= i < j < |m| ==> !(gone(m[i]) && gone(m[j]))
    ensures forall i :: 0 <= i < |m| && !gone(m[i]) ==> m[i] in l
  {
    forall x
      ensures x in m <==> x in before
    {
      SameBag(m, before, x);
    }
    forall i, j | 0 <= i < j < |m|
      ensures !(gone(m[i]) && gone(m[j]))
    {
      assert m[i] in before && m[j] in before && NameOf(m[i]) != NameOf(m[j]);
      var a :| 0 <= a < |before| && before[a] == m[i];
      var b :| 0 <= b < |before| && before[b] == m[j];
      assert a != b;
    }
    forall i | 0 <= i < |m| && !gone(m[i])
      ensures m[i] in l
    {
      assert m[i] in before;
    }
  }

  /** While paused, a change of the current device's list that keeps all its records, or
      all but those of one name. */
  lemma PausedChange(w: Wlan, e: Event, l: seq<Record>, gone: Record -> bool)
    requires PausedSync(w) && FromBackend(w, e) && Accepts(w, e)
    requires ListsAfter(w, e)[w.ui.current := l] == ListsAfter(w, e) && w.ui.current in ListsAfter(w, e)
    requires UiAfter(w, e) == Show(w.ui, w.lists[w.ui.current := l], w.ui.current)
    requires forall i, j :: 0 <= i < j < |w.lists[w.ui.current]| ==>
               !(gone(w.lists[w.ui.current][i]) && gone(w.lists[w.ui.current][j]))
    requires forall x :: x in w.lists[w.ui.current] && !gone(x) ==> x in l
    ensures PausedSync(Step(w, e))
  {
    ListsStayGood(w, e);
    assert ListsAfter(w, e)[w.ui.current] == l;
    GoneInPermutation(w.ui.panel.mirror, w.lists[w.ui.current], l, gone);
    PausedShow(w, l, gone);
  }

  function Nothing(): Record -> bool {
    r => false
  }

  lemma PausedAdd(w: Wlan, dev: string, info: BackendRow)
    requires PausedSync(w) && FromBackend(w, NetworkAdd(dev, info))
    ensures PausedSync(Step(w, NetworkAdd(dev, info)))
  {
    var e := NetworkAdd(dev, info);
    var lists := ListsAfter(w, e);
    if lists != w.lists || UiAfter(w, e) != w.ui {
      var l, before := lists[w.ui.current], w.lists[w.ui.current];
      assert forall x :: x in before ==> x in l by {
        if dev == w.ui.current && (|info| == 10 || |info| == 11) && MakeConnectionMap(DEACTIVATED, info) !in before {
          InsertMembers(before, MakeConnectionMap(DEACTIVATED, info));
        }
      }
      assert ListOf(lists, w.ui.current) == l == ListOf(w.lists[w.ui.current := l], w.ui.current);
      PausedChange(w, e, l, Nothing());
    }
  }

  lemma PausedRemove(w: Wlan, dev: string, name: string)
    requires PausedSync(w)
    ensures PausedSync(Step(w, NetworkRemove(dev, name)))
  {
    var e := NetworkRemove(dev, name);
    var lists := ListsAfter(w, e);
    if dev != "" && dev in w.lists {
      var l, before := lists[w.ui.current], w.lists[w.ui.current];
      var gone := if dev == w.ui.current then HasName(name) else Nothing();
      if dev == w.ui.current {
        SkippingKeepsElements(before, HasName(name));
      }
      assert ListOf(lists, w.ui.current) == l == ListOf(w.lists[w.ui.current := l], w.ui.current);
      PausedChange(w, e, l, gone);
    }
  }

  lemma PausedSelect(w: Wlan)
    requires PausedSync(w)
    ensures PausedSync(Step(w, SelectDevice(w.ui.current)))
  {
    PausedChange(w, SelectDevice(w.ui.current), w.lists[w.ui.current], Nothing());
  }

  // ----- every run on one device ----------------------------------------------------------

  /** In sync, or while paused a permutation of the keeper list in lockstep rows. */
  ghost predicate Mirrors(w: Wlan) {
    if w.ui.paused then PausedSync(w) else InSync(w)
  }

  /** Any signal and any call but a switch to another device and the auto-connect patch. */
  ghost predicate SameDevice(w: Wlan, e: Event) {
    FromBackend(w, e) && !e.AutoConnectSet? && (e.SelectDevice? ==> e.dev == w.ui.current)
  }

  lemma StepMirrors(w: Wlan, e: Event)
    requires Mirrors(w) && SameDevice(w, e)
    ensures Accepts(w, e) && Fits(w, e) && Mirrors(Step(w, e))
  {
    BackendAccepted(w, e);
    ListsStayGood(w, e);
    if Unpaused(w, e) {
      StepInSync(w, e);
    } else if w.ui.paused {
      match e
      case NetworkAdd(dev, info) => PausedAdd(w, dev, info);
      case NetworkRemove(dev, name) => PausedRemove(w, dev, name);
      case NetworkProp(parm) => PausedStep(w, parm);
      case ActiveChanged(_, _, _, _, _) =>
      case SelectDevice(_) => PausedSelect(w);
      case PauseReorder(_) =>
      case SwitchChanged(_) =>
    }
  }

  ghost predicate SameDeviceRun(w: Wlan, es: seq<Event>)
    decreases |es|
  {
    es == [] ||
    (SameDevice(w, es[0]) && (Accepts(w, es[0]) ==> SameDeviceRun(Step(w, es[0]), es[1..])))
  }

  /** The state after a run of signals; it stops at a signal that `Accepts` rules out. */
  ghost function Run(w: Wlan, es: seq<Event>): Wlan
    decreases |es|
  {
    if es == [] || !Accepts(w, es[0]) then w else Run(Step(w, es[0]), es[1..])
  }

  /** No signal of the run is one on which the code would run off a list or scan for ever. */
  ghost predicate RunsThrough(w: Wlan, es: seq<Event>)
    decreases |es|
  {
    es == [] || (Accepts(w, es[0]) && RunsThrough(Step(w, es[0]), es[1..]))
  }

  /** In addition every index passed to the view model exists. */
  ghost predicate FittingRun(w: Wlan, es: seq<Event>)
    decreases |es|
  {
    es == [] || (Accepts(w, es[0]) && Fits(w, es[0]) && FittingRun(Step(w, es[0]), es[1..]))
  }

  /** Runs start in sync: after the devices are loaded the full rebuild shows the first
      of them, or the one already chosen. */
  lemma RebuildStartsInSync(switchOn: bool, lists: Lists, ui: Ui)
    requires GoodLists(lists) && lists.Keys != {} && "" !in lists
    requires ui.current == "" || ui.current in lists
    ensures InSync(Wlan(switchOn, lists, Rebuild(ui, lists)))
  {
  }

  // ----- the local auto-connect patch -------------------------------------------------

  /** The auto-connect call patches mirror and rows but not the keeper: it keeps them
      in sync exactly when no record has the uuid or the first that has it already
      stores that value. */
  lemma AutoConnectSyncIff(w: Wlan, uuid: string, state: bool)
    requires InSync(w)
    ensures InSync(Step(w, AutoConnectSet(uuid, state))) <==>
            var l := w.ui.panel.mirror;
            var i := FirstIndex(l, HasUuid(uuid));
            i == |l| || (AutoConnect in l[i] && l[i][AutoConnect] == Num(if state then 1 else 0))
  {
    var l := w.ui.panel.mirror;
    var i := FirstIndex(l, HasUuid(uuid));
    var w' := Step(w, AutoConnectSet(uuid, state));
    if i < |l| {
      var v := Num(if state then 1 else 0);
      var c := l[i][AutoConnect := v];
      assert w'.ui.panel.mirror == l[i := c];
      LockstepReplace(l, i, c);
      if AutoConnect in l[i] && l[i][AutoConnect] == v {
        assert c == l[i] && l[i := c] == l;
      } else {
        assert l[i := c][i] != l[i];
      }
    }
  }

  // ----- the order while paused ----------------------------------------------------------

  function PropEvents(parms: seq<Record>): seq<Event> {
    seq(|parms|, i requires 0 <= i < |parms| => NetworkProp(parms[i]))
  }

  /** While reordering is paused, over any run of property changes the mirror keeps
      its order of names and stays a permutation of the keeper list, the rows stay in
      lockstep, and resuming makes mirror and keeper list equal. */
  lemma {:induction false} PausedRun(w: Wlan, parms: seq<Record>)
    requires PausedSync(w)
    requires forall i :: 0 <= i < |parms| ==> GoodParm(parms[i])
    ensures var w' := Run(w, PropEvents(parms));
            FittingRun(w, PropEvents(parms)) &&
            PausedSync(w') && NameSeq(w'.ui.panel.mirror) == NameSeq(w.ui.panel.mirror) &&
            InSync(Step(w', PauseReorder(false))) && !Step(w', PauseReorder(false)).ui.paused
    decreases |parms|
  {
    if parms != [] {
      PausedStep(w, parms[0]);
      assert PropEvents(parms)[0] == NetworkProp(parms[0]);
      assert PropEvents(parms)[1..] == PropEvents(parms[1..]);
      PausedRun(Step(w, NetworkProp(parms[0])), parms[1..]);
    }
  }

  /** Pausing an in-sync interface enters that mode. */
  lemma PauseEnters(w: Wlan)
    requires InSync(w) && !w.ui.paused
    ensures PausedSync(Step(w, PauseReorder(true)))
  {
  }

  /** The auto-connect call on the one record of an in-sync interface: the mirror now
      differs from the keeper. */
  lemma AutoConnectUnsyncs()
    ensures var r: Record := map[Name := Str("n"), Uuid := Str("u"), AutoConnect := Num(0)];
            var w := Wlan(true, map["d" := [r]], Ui("d", Loaded([r]), false));
            InSync(w) && !InSync(Step(w, AutoConnectSet("u", true)))
  {
    var r: Record := map[Name := Str("n"), Uuid := Str("u"), AutoConnect := Num(0)];
    var w := Wlan(true, map["d" := [r]], Ui("d", Loaded([r]), false));
    assert ConfiguredOf(r) == 0;
    FirstIndexUnique([r], HasUuid("u"), 0);
    AutoConnectSyncIff(w, "u", true);
  }

  /** Whatever the mirror holds, a rebuild puts the interface in sync: the next
      activation signal that is not ignored, or the end of a pause. */
  lemma RebuildRestores(w: Wlan, e: Event)
    requires GoodLists(w.lists) && FromBackend(w, e) && w.ui.current != "" && w.ui.current in w.lists
    requires (e.ActiveChanged? && !ActiveIgnored(w, e)) || (e == PauseReorder(false) && w.ui.paused)
    ensures Accepts(w, e) && InSync(Step(w, e))
  {
    BackendAccepted(w, e);
    ListsStayGood(w, e);
  }

  // ----- bulk load -------------------------------------------------------------------------

  /** Loading a cleared wireless device is insertion sort: pairwise different
      records come out as a sorted permutation, the active one first. */
  lemma BulkLoadSorts(rows: seq<BackendRow>)
    requires RowsWide(rows)
    ensures Ordered(InsertAll([], RowRecords(rows)))
    ensures (forall i, j :: 0 <= i < j < |RowRecords(rows)| ==> RowRecords(rows)[i] != RowRecords(rows)[j]) ==>
              multiset(InsertAll([], RowRecords(rows))) == multiset(RowRecords(rows)) &&
              (rows != [] && !NoActiveRow(rows[0]) ==>
                 |InsertAll([], RowRecords(rows))| > 0 &&
                 InsertAll([], RowRecords(rows))[0] == MakeConnectionMap(ACTIVATED, rows[0]))
  {
    var rs := RowRecords(rows);
    InsertAllSorts([], rs);
    if forall i, j :: 0 <= i < j < |rs| ==> rs[i] != rs[j] {
      InsertAllPermutes([], rs);
      if rows != [] && !NoActiveRow(rows[0]) {
        ActiveComesFirst(rows);
      }
    }
  }

  lemma SoleActiveFirst(rs: seq<Record>, l: seq<Record>)
    requires rs != [] && Active(rs[0]) && forall j :: 1 <= j < |rs| ==> !Active(rs[j])
    requires multiset(l) == multiset(rs) && Ordered(l)
    ensures l != [] && l[0] == rs[0]
  {
    assert rs[0] in multiset(l);
    var k :| 0 <= k < |l| && l[k] == rs[0];
    assert k > 0 ==> Geq(l[0], l[k]);
    assert l[0] in multiset(rs);
  }

  lemma ActiveComesFirst(rows: seq<BackendRow>)
    requires RowsWide(rows) && rows != [] && !NoActiveRow(rows[0])
    requires multiset(InsertAll([], RowRecords(rows))) == multiset(RowRecords(rows))
    requires Ordered(InsertAll([], RowRecords(rows)))
    ensures InsertAll([], RowRecords(rows)) != [] &&
            InsertAll([], RowRecords(rows))[0] == MakeConnectionMap(ACTIVATED, rows[0])
  {
    var rs := RowRecords(rows);
    RowState(ACTIVATED, rows[0]);
    forall j | 1 <= j < |rs|
      ensures !Active(rs[j])
    {
      assert rs[j] == InactiveRecords(rows[1..])[j - 1];
      RowState(DEACTIVATED, rows[j]);
    }
    SoleActiveFirst(rs, InsertAll([], rs));
  }

  lemma RowState(status: int, row: BackendRow)
    requires RowWide(status, row)
    ensures StateOf(MakeConnectionMap(status, row)) == status
  {
  }
}
