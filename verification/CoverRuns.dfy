/** Rows and indices over runs of any calls and signals, device switches included. */
module CoverRuns {
  import opened Records
  import opened SeqOps
  import opened Names
  import opened NetDevices
  import opened KeeperOrder
  import opened DataKeepers
  import opened ViewModel
  import opened Mirror
  import opened MirrorTheorems
  import opened WlanSpec
  import opened WlanRuns

  // ----- covered names -------------------------------------------------------------

  /** Every name of `l` is a name of `m`. */
  ghost predicate NamesCovered(l: seq<Record>, m: seq<Record>) {
    forall i :: 0 <= i < |l| ==> !Fresh(m, NameOf(l[i]))
  }

  lemma NameStays(m: seq<Record>, j: nat, name: string)
    requires j < |m| && name != NameOf(m[j]) && !Fresh(m, name)
    ensures !Fresh(RemoveAt(m, j), name)
  {
    var i :| 0 <= i < |m| && NameOf(m[i]) == name;
    assert RemoveAt(m, j)[if i < j then i else i - 1] == m[i];
  }

  lemma NameInserted(m: seq<Record>, k: nat, r: Record, name: string)
    requires k <= |m| && (!Fresh(m, name) || name == NameOf(r))
    ensures !Fresh(InsertAt(m, k, r), name)
  {
    assert InsertAt(m, k, r)[k] == r;
    if !Fresh(m, name) {
      var i :| 0 <= i < |m| && NameOf(m[i]) == name;
      assert InsertAt(m, k, r)[if i < k then i else i + 1] == m[i];
    }
  }

  lemma NameReplaced(m: seq<Record>, j: nat, r: Record, name: string)
    requires j < |m| && NameOf(r) == NameOf(m[j]) && !Fresh(m, name)
    ensures !Fresh(m[j := r], name)
  {
    var i :| 0 <= i < |m| && NameOf(m[i]) == name;
    assert NameOf(m[j := r][i]) == name;
  }

  /** Distinct names that are covered are no more than the names that cover them. */
  lemma {:induction false} CoveredSize(l: seq<Record>, m: seq<Record>)
    requires NamesDistinct(l) && NamesCovered(l, m)
    ensures |l| <= |m|
  {
    if l != [] {
      var j := FindName(m, NameOf(l[0]));
      FreshIff(m, NameOf(l[0]));
      var rest := l[1..];
      forall i | 0 <= i < |rest|
        ensures !Fresh(RemoveAt(m, j), NameOf(rest[i]))
      {
        assert rest[i] == l[i + 1];
        NameStays(m, j, NameOf(rest[i]));
      }
      CoveredSize(rest, RemoveAt(m, j));
    }
  }

  lemma MembersCover(l: seq<Record>, m: seq<Record>)
    requires forall x :: x in l ==> x in m
    ensures NamesCovered(l, m)
  {
    forall i | 0 <= i < |l|
      ensures !Fresh(m, NameOf(l[i]))
    {
      assert l[i] in m;
    }
  }

  // ----- what covers the current device's names --------------------------------------

  lemma ShowCovers(ui: Ui, lists: Lists, dev: string)
    requires GoodLists(lists) && Lockstep(ui.panel) && dev != ""
    ensures Show(ui, lists, dev).current == dev
    ensures NamesCovered(ListOf(lists, dev), Show(ui, lists, dev).panel.mirror)
  {
    var list := ListOf(lists, dev);
    if ui.panel.mirror != [] {
      DiffPassMembers(ui.panel, list);
    }
    MembersCover(list, Show(ui, lists, dev).panel.mirror);
  }

  lemma CoveredWithout(l: seq<Record>, m: seq<Record>, i: nat)
    requires NamesCovered(l, m) && i < |l|
    ensures NamesCovered(RemoveAt(l, i), m)
  {
    var rest := RemoveAt(l, i);
    forall j | 0 <= j < |rest|
      ensures !Fresh(m, NameOf(rest[j]))
    {
      assert rest[j] == l[if j < i then j else j + 1];
    }
  }

  lemma CoveredWith(l: seq<Record>, m: seq<Record>, k: nat, r: Record)
    requires NamesCovered(l, m) && !Fresh(m, NameOf(r)) && k <= |l|
    ensures NamesCovered(InsertAt(l, k, r), m)
  {
    var l' := InsertAt(l, k, r);
    forall j | 0 <= j < |l'|
      ensures !Fresh(m, NameOf(l'[j]))
    {
      assert l'[j] == if j == k then r else l[if j < k then j else j - 1];
    }
  }

  lemma UpdatedNames(l: seq<Record>, parm: Record, m: seq<Record>)
    requires NamesDistinct(l) && NamesCovered(l, m)
    ensures NamesCovered(UpdateProp(l, parm), m)
  {
    var i := FindName(l, NameOf(parm));
    if i < |l| {
      UpdatePropNames(l, parm);
      var rest, c := RemoveAt(l, i), Patched(l[i], parm);
      CoveredWithout(l, m, i);
      assert NameOf(c) == NameOf(l[i]);
      CoveredWith(rest, m, Slot(rest, c), c);
    }
  }

  lemma MovedNames(p: Panel, oldIdx: nat, k: nat, c: Record, name: string)
    requires oldIdx < |p.mirror| && NameOf(c) == NameOf(p.mirror[oldIdx]) && !Fresh(p.mirror, name)
    ensures !Fresh(MoveTo(p, oldIdx, k, c).mirror, name)
  {
    if oldIdx == k {
      NameReplaced(p.mirror, oldIdx, c, name);
    } else {
      if name != NameOf(c) {
        NameStays(p.mirror, oldIdx, name);
      }
      var rest := RemoveAt(p.mirror, oldIdx);
      NameInserted(rest, Clamped(k, |rest|), c, name);
    }
  }

  lemma PatchKeepsNames(p: Panel, paused: bool, l: seq<Record>, at: string, name: string)
    requires p.mirror != [] && !Fresh(p.mirror, name)
    ensures !Fresh(PropPanel(p, paused, l, at).mirror, name)
  {
    var k, oldIdx := FindName(l, at), FindName(p.mirror, at);
    if k < |l| {
      if oldIdx < |p.mirror| {
        if paused {
          NameReplaced(p.mirror, oldIdx, l[k], name);
        } else {
          MovedNames(p, oldIdx, k, l[k], name);
        }
      } else if !paused {
        NameInserted(p.mirror, Clamped(k, |p.mirror|), l[k], name);
      }
    }
  }

  lemma PropCovers(p: Panel, paused: bool, l: seq<Record>, parm: Record)
    requires NamesDistinct(l) && NamesCovered(l, p.mirror)
    ensures NamesCovered(UpdateProp(l, parm), PropPanel(p, paused, UpdateProp(l, parm), NameOf(parm)).mirror)
  {
    var l' := UpdateProp(l, parm);
    UpdatedNames(l, parm, p.mirror);
    if p.mirror == [] {
      MembersCover(l', l');
    } else {
      forall i | 0 <= i < |l'|
        ensures !Fresh(PropPanel(p, paused, l', NameOf(parm)).mirror, NameOf(l'[i]))
      {
        PatchKeepsNames(p, paused, l', NameOf(parm), NameOf(l'[i]));
      }
    }
  }

  lemma AutoConnectCovers(ui: Ui, l: seq<Record>, uuid: string, state: bool)
    requires NamesCovered(l, ui.panel.mirror)
    ensures NamesCovered(l, SetAutoConnect(ui, uuid, state).panel.mirror)
  {
    var m := ui.panel.mirror;
    var i := FirstIndex(m, HasUuid(uuid));
    if i < |m| {
      var c := m[i][AutoConnect := Num(if state then 1 else 0)];
      assert NameOf(c) == NameOf(m[i]);
      forall k | 0 <= k < |l|
        ensures !Fresh(m[i := c], NameOf(l[k]))
      {
        NameReplaced(m, i, c, NameOf(l[k]));
      }
    }
  }

  /** With the names covered the keeper's place for the record always exists in the rows. */
  lemma CoveredFits(p: Panel, paused: bool, l: seq<Record>, parm: Record)
    requires Lockstep(p) && NamesDistinct(l) && NamesCovered(l, p.mirror)
    ensures RankFits(p, paused, l, parm)
  {
    CoveredSize(l, p.mirror);
    var i := FindName(l, NameOf(parm));
    if i < |l| {
      assert !Fresh(p.mirror, NameOf(l[i]));
      FreshIff(p.mirror, NameOf(parm));
    }
  }

  // ----- rows in lockstep -------------------------------------------------------------

  ghost predicate RowsFollow(w: Wlan) {
    GoodLists(w.lists) && Lockstep(w.ui.panel)
  }

  lemma LoadedLockstep(lists: Lists, dev: string)
    requires GoodLists(lists)
    ensures Lockstep(Loaded(ListOf(lists, dev)))
  {
  }

  lemma ShowLockstep(ui: Ui, lists: Lists, dev: string)
    requires GoodLists(lists) && Lockstep(ui.panel)
    ensures Lockstep(Show(ui, lists, dev).panel)
  {
    LoadedLockstep(lists, dev);
    DiffPassLockstep(ui.panel, ListOf(lists, dev));
  }

  lemma RebuildLockstep(ui: Ui, lists: Lists)
    requires GoodLists(lists)
    ensures Lockstep(Rebuild(ui, lists).panel)
  {
  }

  lemma AutoConnectLockstep(ui: Ui, uuid: string, state: bool)
    requires Lockstep(ui.panel)
    ensures Lockstep(SetAutoConnect(ui, uuid, state).panel)
  {
    var l := ui.panel.mirror;
    var i := FirstIndex(l, HasUuid(uuid));
    if i < |l| {
      var c := l[i][AutoConnect := Num(if state then 1 else 0)];
      assert NameOf(c) == NameOf(l[i]);
      LockstepReplace(l, i, c);
      DistinctReplace(l, i, c);
    }
  }

  // ----- one step ---------------------------------------------------------------------

  ghost predicate Covers(w: Wlan) {
    w.ui.current != "" && NamesCovered(ListOf(w.lists, w.ui.current), w.ui.panel.mirror)
  }

  /** Rows in lockstep and, once a device is chosen, its names covered. */
  ghost predicate Sound(w: Wlan) {
    RowsFollow(w) && (w.ui.current != "" ==> Covers(w))
  }

  /** What can be checked before a signal: a device is chosen, or the record's rank in
      its device's list fits the rows. */
  predicate PlaceFits(w: Wlan, e: Event) {
    w.ui.current != "" || !e.NetworkProp? || StrOf(e.parm, DeviceName) !in w.lists ||
    RankFits(w.ui.panel, w.ui.paused, w.lists[StrOf(e.parm, DeviceName)], e.parm)
  }

  lemma PropFitsIff(w: Wlan, parm: Record)
    requires Sound(w)
    ensures Fits(w, NetworkProp(parm)) <==> PlaceFits(w, NetworkProp(parm))
  {
    var dev := StrOf(parm, DeviceName);
    if dev in w.lists && (dev == w.ui.current || w.ui.current == "") {
      var l := w.lists[dev];
      assert ListOf(ListsAfter(w, NetworkProp(parm)), dev) == UpdateProp(l, parm);
      PropIndexIff(w.ui.panel, w.ui.paused, l, parm);
      if w.ui.current != "" {
        CoveredFits(w.ui.panel, w.ui.paused, l, parm);
      }
    }
  }

  /** The mirror of the current device after a property update. */
  lemma PropSound(w: Wlan, parm: Record)
    requires Sound(w) && GoodParm(parm) && PlaceFits(w, NetworkProp(parm))
    ensures Sound(Step(w, NetworkProp(parm)))
  {
    var dev := StrOf(parm, DeviceName);
    ListsStayGood(w, NetworkProp(parm));
    if dev in w.lists && (dev == w.ui.current || w.ui.current == "") {
      var p, l := w.ui.panel, w.lists[dev];
      assert ListOf(ListsAfter(w, NetworkProp(parm)), dev) == UpdateProp(l, parm);
      if w.ui.current != "" {
        CoveredFits(p, w.ui.paused, l, parm);
        PropCovers(p, w.ui.paused, l, parm);
      }
      PropLockstep(p, w.ui.paused, l, parm);
    }
  }

  lemma ShowSound(w: Wlan, lists: Lists, dev: string)
    requires Sound(w) && GoodLists(lists)
    requires dev == "" ==> lists == w.lists || w.ui.current == ""
    ensures Sound(Wlan(w.switchOn, lists, Show(w.ui, lists, dev)))
  {
    ShowLockstep(w.ui, lists, dev);
    if dev != "" {
      ShowCovers(w.ui, lists, dev);
    }
  }

  lemma RebuildSound(switchOn: bool, lists: Lists, ui: Ui)
    requires GoodLists(lists)
    ensures Sound(Wlan(switchOn, lists, Rebuild(ui, lists)))
  {
    RebuildLockstep(ui, lists);
    MembersCover(ListOf(lists, CurrentOrFirst(ui.current, lists)), ListOf(lists, CurrentOrFirst(ui.current, lists)));
  }

  lemma SwitchIrrelevant(w: Wlan, switchOn: bool)
    ensures Sound(w) <==> Sound(w.(switchOn := switchOn))
  {
  }

  /** Any call and any signal, paused or not, in sync or not, a device switch and the
      auto-connect patch included: the rows stay the mirror mapped to rows and the
      current device's names stay covered, unless the one thing happens that the
      condition rules out. */
  lemma StepRowsFollow(w: Wlan, e: Event)
    requires Sound(w) && FromBackend(w, e)
    ensures Accepts(w, e) && (Fits(w, e) <==> PlaceFits(w, e))
    ensures PlaceFits(w, e) ==> Sound(Step(w, e))
    ensures w.ui.current != "" ==> PlaceFits(w, e) && Step(w, e).ui.current != ""
  {
    BackendAccepted(w, e);
    ListsStayGood(w, e);
    var lists := ListsAfter(w, e);
    match e
    case NetworkAdd(dev, _) => ShowSound(w, lists, w.ui.current);
    case NetworkRemove(dev, _) => ShowSound(w, lists, w.ui.current);
    case NetworkProp(parm) =>
      PropFitsIff(w, parm);
      if PlaceFits(w, e) {
        PropSound(w, parm);
      }
    case ActiveChanged(_, _, _, _, _) => RebuildSound(w.switchOn, lists, w.ui);
    case SelectDevice(dev) => ShowSound(w, lists, dev);
    case PauseReorder(_) => RebuildSound(w.switchOn, lists, w.ui.(paused := false));
    case AutoConnectSet(uuid, state) =>
      AutoConnectLockstep(w.ui, uuid, state);
      if w.ui.current != "" {
        AutoConnectCovers(w.ui, ListOf(lists, w.ui.current), uuid, state);
      }
    case SwitchChanged(on) => SwitchIrrelevant(w, on);
  }

  // ----- every run ---------------------------------------------------------------------

  ghost predicate BackendRun(w: Wlan, es: seq<Event>)
    decreases |es|
  {
    es == [] || (FromBackend(w, es[0]) && (Accepts(w, es[0]) ==> BackendRun(Step(w, es[0]), es[1..])))
  }

  /** Each signal that comes before a device is chosen fits the rows. */
  ghost predicate PlacesFit(w: Wlan, es: seq<Event>)
    decreases |es|
  {
    es == [] || (PlaceFits(w, es[0]) && (Accepts(w, es[0]) ==> PlacesFit(Step(w, es[0]), es[1..])))
  }

  lemma {:induction false} EveryRunAccepted(w: Wlan, es: seq<Event>)
    requires GoodLists(w.lists) && BackendRun(w, es)
    ensures RunsThrough(w, es) && GoodLists(Run(w, es).lists)
    decreases |es|
  {
    if es != [] {
      BackendAccepted(w, es[0]);
      ListsStayGood(w, es[0]);
      EveryRunAccepted(Step(w, es[0]), es[1..]);
    }
  }

  /** Over every run of backend signals and calls: every index that the view model is
      asked for exists exactly when each property signal that comes before a device is
      chosen fits the rows, and then the rows are the mirror mapped to rows. */
  lemma {:induction false} EveryRunFitsIff(w: Wlan, es: seq<Event>)
    requires Sound(w) && BackendRun(w, es)
    ensures RunsThrough(w, es)
    ensures FittingRun(w, es) <==> PlacesFit(w, es)
    ensures PlacesFit(w, es) ==> Sound(Run(w, es))
    decreases |es|
  {
    EveryRunAccepted(w, es);
    if es != [] {
      StepRowsFollow(w, es[0]);
      if PlaceFits(w, es[0]) {
        EveryRunFitsIff(Step(w, es[0]), es[1..]);
      }
    }
  }

  /** Once a device is chosen and its names are covered, nothing is left to ask for:
      over every run, device switches, pauses and auto-connect patches included, every
      index exists, the rows are the mirror mapped to rows, the names stay covered. */
  lemma {:induction false} EveryRunRowsFollow(w: Wlan, es: seq<Event>)
    requires RowsFollow(w) && Covers(w) && BackendRun(w, es)
    ensures RunsThrough(w, es) && FittingRun(w, es)
    ensures RowsFollow(Run(w, es)) && Covers(Run(w, es))
    decreases |es|
  {
    if es != [] {
      StepRowsFollow(w, es[0]);
      EveryRunRowsFollow(Step(w, es[0]), es[1..]);
    }
  }

  /** Such runs start in sync, and after the first choice of a device. */
  lemma InSyncCovers(w: Wlan)
    requires Mirrors(w)
    ensures RowsFollow(w) && Covers(w)
  {
    var m, l := w.ui.panel.mirror, w.lists[w.ui.current];
    assert multiset(m) == multiset(l);
    forall x | x in l
      ensures x in m
    {
      SameBag(m, l, x);
    }
    MembersCover(l, m);
  }

  lemma SelectCovers(w: Wlan, dev: string)
    requires RowsFollow(w) && dev != ""
    ensures var e := SelectDevice(dev);
            Accepts(w, e) && Fits(w, e) && RowsFollow(Step(w, e)) && Covers(Step(w, e))
  {
    ShowLockstep(w.ui, w.lists, dev);
    ShowCovers(w.ui, w.lists, dev);
  }

  // ----- the index can miss ------------------------------------------------------------

  function Plain(name: string, configured: int): Record {
    map[Name := Str(name), Uuid := Str(name), Configured := Num(configured)]
  }

  function PropOf(dev: string, name: string): Record {
    map[Name := Str(name), DeviceName := Str(dev)]
  }

  lemma PlainFields(name: string, configured: int)
    ensures var r := Plain(name, configured);
            NameOf(r) == name && ConfiguredOf(r) == configured && StateOf(r) == 0 && !Active(r)
  {
  }

  lemma NothingPatched(r: Record, dev: string, name: string)
    ensures Patched(r, PropOf(dev, name)) == r
    ensures NameOf(PropOf(dev, name)) == name && StrOf(PropOf(dev, name), DeviceName) == dev
  {
  }

  /** Two devices, none chosen, nothing shown yet. The handlers that load the devices end in
      a rebuild, which chooses the first entry of the device map unless that is a null
      pointer: the state is met when an unavailable adapter has left such an entry. */
  function Started(): Wlan {
    Wlan(true,
         map["d1" := [Plain("a", 0)], "d2" := [Plain("p", 1), Plain("q", 1), Plain("r", 0)]],
         Ui("", Panel([], []), false))
  }

  lemma StartedSound()
    ensures Sound(Started())
  {
    PlainFields("a", 0);
    PlainFields("p", 1);
    PlainFields("q", 1);
    PlainFields("r", 0);
  }

  lemma FirstSignal()
    ensures var w, e := Started(), NetworkProp(PropOf("d1", "a"));
            FromBackend(w, e) && PlaceFits(w, e) && Accepts(w, e) &&
            Step(w, e) == w.(ui := Ui("", Loaded([Plain("a", 0)]), false))
  {
    var w, a, parm := Started(), Plain("a", 0), PropOf("d1", "a");
    PlainFields("a", 0);
    NothingPatched(a, "d1", "a");
    FirstIndexUnique([a], HasName("a"), 0);
    assert RemoveAt([a], 0) == [];
    assert UpdateProp([a], parm) == [a];
    assert ListsAfter(w, NetworkProp(parm)) == w.lists;
  }

  lemma SecondSignal()
    ensures var w := Started().(ui := Ui("", Loaded([Plain("a", 0)]), false));
            var e := NetworkProp(PropOf("d2", "r"));
            FromBackend(w, e) && !PlaceFits(w, e)
  {
    var l := [Plain("p", 1), Plain("q", 1), Plain("r", 0)];
    PlainFields("a", 0);
    PlainFields("p", 1);
    PlainFields("q", 1);
    PlainFields("r", 0);
    NothingPatched(l[2], "d2", "r");
    FirstIndexUnique(l, HasName("r"), 2);
    FirstIndexUnique([Plain("a", 0)], HasName("r"), 1);
    assert RemoveAt(l, 2) == [l[0], l[1]];
    FirstIndexUnique(RemoveAt(l, 2), Reaches(l[2]), 2);
  }

  lemma SecondMisses(w: Wlan, e1: Event, e2: Event)
    requires Sound(w) && FromBackend(w, e1) && PlaceFits(w, e1) && Accepts(w, e1)
    requires FromBackend(Step(w, e1), e2) && !PlaceFits(Step(w, e1), e2)
    ensures BackendRun(w, [e1, e2]) && !FittingRun(w, [e1, e2])
  {
    var w1 := Step(w, e1);
    assert [e1, e2][1..] == [e2] && [e2][1..] == [];
    assert Accepts(w1, e2) ==> BackendRun(Step(w1, e2), []);
    assert BackendRun(w1, [e2]);
    assert BackendRun(w, [e1, e2]);
    StepRowsFollow(w, e1);
    StepRowsFollow(w1, e2);
    assert !FittingRun(w1, [e2]);
  }

  /** Two property signals before a device is chosen: the first one fills the mirror from
      its device, the second one, for another device, asks for a place past the rows. */
  lemma UnchosenRunMisses()
    ensures var es := [NetworkProp(PropOf("d1", "a")), NetworkProp(PropOf("d2", "r"))];
            Sound(Started()) && BackendRun(Started(), es) && !FittingRun(Started(), es)
  {
    StartedSound();
    FirstSignal();
    SecondSignal();
    SecondMisses(Started(), NetworkProp(PropOf("d1", "a")), NetworkProp(PropOf("d2", "r")));
  }
}
