/** What the incremental pass makes of the mirror when the two lists are not one change
    apart, as after a switch to another device. */
module DeviceSwitch {
  import opened Text
  import opened Records
  import opened SeqOps
  import opened Names
  import opened NetDevices
  import opened KeeperOrder
  import opened DataKeepers
  import opened ViewModel
  import opened Mirror
  import opened MirrorTheorems
  import opened PassCondition
  import opened WlanSpec
  import opened WlanRuns

  // ----- the order the pass produces ---------------------------------------------

  function Lacking(m: seq<Record>): Record -> bool {
    r => r !in m
  }

  /** The records of the list that the mirror does not hold yet. */
  function New(l: seq<Record>, m: seq<Record>): seq<Record> {
    Filter(l, Lacking(m))
  }

  /** Every record is in the mirror as it is, or its name is new there. */
  ghost predicate KnownOrNew(l: seq<Record>, m: seq<Record>) {
    forall i :: 0 <= i < |l| ==> l[i] in m || Fresh(m, NameOf(l[i]))
  }

  lemma {:induction false} NewAfterInsert(l: seq<Record>, m: seq<Record>, m': seq<Record>, r: Record)
    requires Fresh(l, NameOf(r)) && forall x :: x in m' <==> x in m || x == r
    ensures New(l, m') == New(l, m)
  {
    if l != [] {
      assert forall i :: 0 <= i < |l| - 1 ==> l[1..][i] == l[i + 1];
      NewAfterInsert(l[1..], m, m', r);
    }
  }

  lemma BitsAfterInsert(m: seq<Record>, r: Record)
    requires ConfiguredBits(m) && ConfiguredBit(r) && Fresh(m, NameOf(r))
    ensures ConfiguredBits(Insert(m, r)) && forall x :: x in Insert(m, r) <==> x in m || x == r
  {
    FreshNotIn(m, r);
    InsertMembers(m, r);
    forall i | 0 <= i < |Insert(m, r)|
      ensures ConfiguredBit(Insert(m, r)[i])
    {
      assert Insert(m, r)[i] in Insert(m, r);
    }
  }

  lemma KnownOrNewAfterInsert(l: seq<Record>, m: seq<Record>, r: Record)
    requires KnownOrNew(l, m) && Fresh(l, NameOf(r)) && Fresh(m, NameOf(r))
    ensures KnownOrNew(l, Insert(m, r))
  {
    FreshNotIn(m, r);
    InsertMembers(m, r);
    var m' := Insert(m, r);
    forall i | 0 <= i < |l|
      ensures l[i] in m' || Fresh(m', NameOf(l[i]))
    {
      if l[i] !in m {
        forall k | 0 <= k < |m'|
          ensures NameOf(m'[k]) != NameOf(l[i])
        {
          assert m'[k] in m';
        }
      }
    }
  }

  lemma UpsertIsInsert(p: Panel, r: Record)
    requires Lockstep(p) && ConfiguredBits(p.mirror) && ConfiguredBit(r) && Fresh(p.mirror, NameOf(r))
    ensures Upsert(p, r).mirror == Insert(p.mirror, r)
  {
    FreshIff(p.mirror, NameOf(r));
    FreshNotIn(p.mirror, r);
    SlotsAgree(p.mirror, r);
  }

  lemma UpsertKnown(p: Panel, r: Record)
    requires Lockstep(p) && r in p.mirror
    ensures Upsert(p, r) == p
  {
    UpsertAllSame(p, [r]);
    assert [r][1..] == [];
  }

  /** The second loop inserts the records that are new, in list order, by rank. */
  lemma {:induction false} UpsertAllOrder(p: Panel, l: seq<Record>)
    requires Lockstep(p) && NamesDistinct(l) && ConfiguredBits(p.mirror) && ConfiguredBits(l)
    requires KnownOrNew(l, p.mirror)
    ensures UpsertAll(p, l).mirror == InsertAll(p.mirror, New(l, p.mirror))
    decreases |l|
  {
    if l != [] {
      var r, rest, m := l[0], l[1..], p.mirror;
      DistinctTail(l);
      if r in m {
        UpsertKnown(p, r);
        UpsertAllOrder(p, rest);
      } else {
        UpsertLockstep(p, r);
        UpsertIsInsert(p, r);
        BitsAfterInsert(m, r);
        KnownOrNewAfterInsert(rest, m, r);
        NewAfterInsert(rest, m, Insert(m, r), r);
        UpsertAllOrder(Upsert(p, r), rest);
        assert New(l, m) == [r] + New(rest, m);
      }
    }
  }

  lemma BitsOfSome(m: seq<Record>, s: seq<Record>)
    requires ConfiguredBits(m) && forall x :: x in s ==> x in m
    ensures ConfiguredBits(s)
  {
    forall i | 0 <= i < |s|
      ensures ConfiguredBit(s[i])
    {
      assert s[i] in m;
    }
  }

  /** The pass as a whole: the entries the removal loop leaves, then each record that is
      new to them inserted by rank in list order. */
  lemma DiffPassOrder(p: Panel, l: seq<Record>)
    requires Lockstep(p) && NamesDistinct(l) && ConfiguredBits(p.mirror) && ConfiguredBits(l)
    requires KnownOrNew(l, Survivors(p.mirror, l))
    ensures DiffPass(p, l).mirror == InsertAll(Survivors(p.mirror, l), New(l, Survivors(p.mirror, l)))
  {
    var d := DropStale(p, 0, l);
    DropStaleLockstep(p, 0, l);
    DropStaleIsSurvivors(p, l);
    SkippingKeepsElements(p.mirror, Stale(l));
    BitsOfSome(p.mirror, d.mirror);
    UpsertAllOrder(d, l);
  }

  lemma {:induction false} AllNew(l: seq<Record>)
    ensures New(l, []) == l
  {
    if l != [] {
      AllNew(l[1..]);
    }
  }

  /** Nothing left from before: the mirror is the list inserted record by record. */
  lemma DiffPassReinserts(p: Panel, l: seq<Record>)
    requires Lockstep(p) && NamesDistinct(l) && ConfiguredBits(p.mirror) && ConfiguredBits(l)
    requires Survivors(p.mirror, l) == []
    ensures DiffPass(p, l).mirror == InsertAll([], l)
  {
    DiffPassOrder(p, l);
    AllNew(l);
  }

  // ----- when inserting record by record gives the list back -------------------------

  /** No record reaches an earlier one. */
  ghost predicate Falling(l: seq<Record>) {
    forall i, j :: 0 <= i < j < |l| ==> !Geq(l[j], l[i])
  }

  ghost predicate SameRank(a: Record, b: Record) {
    !Active(a) && !Active(b) && IsConfigured(a) == IsConfigured(b) && SignalOf(a) == SignalOf(b)
  }

  /** That is: ordered, at most one record active, no two others of one rank. */
  lemma FallingMeans(l: seq<Record>)
    ensures Falling(l) <==>
            Ordered(l) && forall i, j :: 0 <= i < j < |l| ==> !(Active(l[i]) && Active(l[j])) && !SameRank(l[i], l[j])
  {
    if Falling(l) {
      forall i, j | 0 <= i < j < |l|
        ensures Geq(l[i], l[j]) && !(Active(l[i]) && Active(l[j])) && !SameRank(l[i], l[j])
      {
        assert !Geq(l[j], l[i]);
      }
    } else {
      var i, j :| 0 <= i < j < |l| && Geq(l[j], l[i]);
      assert Ordered(l) ==> Geq(l[i], l[j]);
    }
  }

  lemma LandsLast(front: seq<Record>, last: Record)
    requires last !in front && forall i :: 0 <= i < |front| ==> !Geq(last, front[i])
    ensures Insert(front, last) == front + [last]
  {
    FirstIndexUnique(front, Reaches(last), |front|);
    assert InsertAt(front, |front|, last) == front + [last];
  }

  lemma {:induction false} FallingReinserts(l: seq<Record>)
    requires Falling(l)
    ensures InsertAll([], l) == l
  {
    if l != [] {
      var n := |l| - 1;
      var front, last := l[..n], l[n];
      FallingReinserts(front);
      assert l == front + [last];
      assert forall i :: 0 <= i < n ==> front[i] == l[i] && !Geq(last, l[i]);
      assert last !in front;
      LandsLast(front, last);
      InsertAllAppend([], front, [last]);
      assert [last][1..] == [];
    }
  }

  ghost predicate Precedes(s: seq<Record>, x: Record, y: Record) {
    exists i, j :: 0 <= i < j < |s| && s[i] == x && s[j] == y
  }

  lemma InsertKeepsPrecedence(s: seq<Record>, r: Record, x: Record, y: Record)
    requires Precedes(s, x, y)
    ensures Precedes(Insert(s, r), x, y)
  {
    if r !in s {
      var i, j :| 0 <= i < j < |s| && s[i] == x && s[j] == y;
      var k := Slot(s, r);
      var t := InsertAt(s, k, r);
      assert t[if i < k then i else i + 1] == x && t[if j < k then j else j + 1] == y;
    }
  }

  lemma {:induction false} InsertAllKeepsPrecedence(s: seq<Record>, rs: seq<Record>, x: Record, y: Record)
    requires Precedes(s, x, y)
    ensures Precedes(InsertAll(s, rs), x, y)
    decreases |rs|
  {
    if rs != [] {
      InsertKeepsPrecedence(s, rs[0], x, y);
      InsertAllKeepsPrecedence(Insert(s, rs[0]), rs[1..], x, y);
    }
  }

  /** A record that reaches one already there lands in front of it. */
  lemma LandsInFront(s: seq<Record>, r: Record, y: Record)
    requires y in s && r !in s && Geq(r, y)
    ensures Precedes(Insert(s, r), r, y)
  {
    var j :| 0 <= j < |s| && s[j] == y;
    var k := Slot(s, r);
    assert k <= j;
    assert InsertAt(s, k, r)[k] == r && InsertAt(s, k, r)[j + 1] == y;
  }

  lemma NoTwoWays(l: seq<Record>, i: nat, j: nat)
    requires NamesDistinct(l) && i < j < |l|
    ensures !Precedes(l, l[j], l[i])
  {
  }

  lemma LandsAndStays(front: seq<Record>, rs: seq<Record>, y: Record)
    requires rs != [] && y in front && rs[0] !in front && Geq(rs[0], y)
    ensures Precedes(InsertAll(front, rs), rs[0], y)
  {
    LandsInFront(front, rs[0], y);
    InsertAllKeepsPrecedence(Insert(front, rs[0]), rs[1..], rs[0], y);
  }

  lemma TurnedAround(done: seq<Record>, rest: seq<Record>, y: Record)
    requires rest != [] && y in done && rest[0] !in done && Geq(rest[0], y)
    ensures Precedes(InsertAll([], done + rest), rest[0], y)
  {
    InsertAllMembers([], done, y);
    InsertAllMembers([], done, rest[0]);
    LandsAndStays(InsertAll([], done), rest, y);
    InsertAllAppend([], done, rest);
  }

  lemma NewAtItsPlace(l: seq<Record>, i: nat, j: nat)
    requires NamesDistinct(l) && i < j < |l|
    ensures l[i] in l[..j] && l[j] !in l[..j] && l[..j] + l[j..] == l && l[j..] != [] && l[j..][0] == l[j]
  {
    assert l[..j][i] == l[i];
  }

  /** Inserting record by record gives the list back exactly when no record reaches an
      earlier one. */
  lemma ReinsertsIff(l: seq<Record>)
    requires NamesDistinct(l)
    ensures InsertAll([], l) == l <==> Falling(l)
  {
    if Falling(l) {
      FallingReinserts(l);
    } else {
      var i, j :| 0 <= i < j < |l| && Geq(l[j], l[i]);
      NewAtItsPlace(l, i, j);
      TurnedAround(l[..j], l[j..], l[i]);
      NoTwoWays(l, i, j);
    }
  }

  // ----- a switch to another device ----------------------------------------------------

  ghost predicate NamesDisjoint(a: seq<Record>, b: seq<Record>) {
    forall i :: 0 <= i < |a| ==> Fresh(b, NameOf(a[i]))
  }

  lemma DisjointStale(m: seq<Record>, l: seq<Record>)
    requires NamesDisjoint(m, l)
    ensures forall i :: 0 <= i < |m| ==> Stale(l)(m[i])
  {
    forall i | 0 <= i < |m|
      ensures m[i] !in l
    {
      FreshNotIn(l, m[i]);
    }
  }

  lemma GoodBits(l: seq<Record>)
    requires GoodList(l)
    ensures ConfiguredBits(l)
  {
    assert forall i :: 0 <= i < |l| ==> GoodRecord(l[i]);
  }

  /** A switch from sync to any device, whatever names the two lists share, stays in sync
      exactly when nothing was shown before or the entries that the removal loop leaves
      meet the condition of the pass. */
  lemma SwitchIff(w: Wlan, dev: string)
    requires InSync(w) && dev != "" && dev in w.lists
    ensures InSync(Step(w, SelectDevice(dev))) <==>
            w.ui.panel.mirror == [] || Cond(Survivors(w.ui.panel.mirror, w.lists[dev]), w.lists[dev])
  {
    assert ListOf(w.lists, dev) == w.lists[dev];
    PassIff(w.ui.panel, w.lists[dev]);
  }

  lemma NothingLeftIff(l: seq<Record>)
    requires GoodList(l)
    ensures Cond([], l) <==> Falling(l)
  {
    GoodBits(l);
    assert forall i, j :: 0 <= i < |l| && 0 <= j < |l| ==> MirrorGeq(l[j], l[i]) == Geq(l[j], l[i]);
    if Falling(l) {
      assert forall k :: 0 <= k < |l| ==> LandsRight([], l, k);
    }
    if Cond([], l) {
      forall i, j | 0 <= i < j < |l|
        ensures !Geq(l[j], l[i])
      {
        assert Fresh([], NameOf(l[j]));
        assert LandsRight([], l, j);
      }
    }
  }

  /** For a device with other names: exactly when nothing was shown before, or one entry
      and the new list is strictly falling. */
  lemma SwitchInSyncIff(w: Wlan, dev: string)
    requires InSync(w) && dev != "" && dev in w.lists
    requires NamesDisjoint(w.lists[w.ui.current], w.lists[dev])
    ensures InSync(Step(w, SelectDevice(dev))) <==>
            w.ui.panel.mirror == [] || (|w.ui.panel.mirror| == 1 && Falling(w.lists[dev]))
  {
    var m, l := w.ui.panel.mirror, w.lists[dev];
    SwitchIff(w, dev);
    DisjointStale(m, l);
    if |m| >= 2 {
      assert Survivors(m, l)[0] == m[1];
      FreshIff(l, NameOf(m[1]));
      assert !KeepsPlaces(Survivors(m, l), l, 0);
    } else if |m| == 1 {
      assert Survivors(m, l) == [];
      NothingLeftIff(l);
    }
  }

  /** Two devices with the same list: always. */
  lemma SwitchToEqual(w: Wlan, dev: string)
    requires InSync(w) && dev != "" && dev in w.lists && w.lists[dev] == w.lists[w.ui.current]
    ensures InSync(Step(w, SelectDevice(dev)))
  {
    DiffUnchanged(w.lists[dev]);
    assert ListOf(w.lists, dev) == w.lists[dev];
  }

  // ----- every run -----------------------------------------------------------------------

  /** What can be checked before a call for mirror and keeper to agree after it: of a
      device switch, that the entries the removal loop leaves fit the new list (while
      paused, that their names are in it); of the auto-connect call, that it changes
      nothing. All else agrees anyway. */
  ghost predicate Agrees(w: Wlan, e: Event) {
    var m := w.ui.panel.mirror;
    match e
    case SelectDevice(dev) =>
      dev == "" ||
      (dev in w.lists && (m == [] || SurvivorsFit(Survivors(m, w.lists[dev]), w.lists[dev], w.ui.paused)))
    case AutoConnectSet(uuid, state) => AlreadyStored(m, uuid, state)
    case _ => true
  }

  ghost predicate SurvivorsFit(s: seq<Record>, l: seq<Record>, paused: bool) {
    if paused then forall x :: x in s ==> !Fresh(l, NameOf(x)) else Cond(s, l)
  }

  predicate AlreadyStored(m: seq<Record>, uuid: string, state: bool) {
    var i := FirstIndex(m, HasUuid(uuid));
    i == |m| || (AutoConnect in m[i] && m[i][AutoConnect] == Num(if state then 1 else 0))
  }

  lemma PausedSwitchIff(w: Wlan, dev: string)
    requires PausedSync(w)
    ensures Mirrors(Step(w, SelectDevice(dev))) <==> Agrees(w, SelectDevice(dev))
  {
    if dev in w.lists && dev != "" && w.ui.panel.mirror != [] {
      assert ListOf(w.lists, dev) == w.lists[dev];
      DiffPassLockstep(w.ui.panel, w.lists[dev]);
      DiffPassPermutesIff(w.ui.panel, w.lists[dev]);
    }
  }

  lemma ReplacedBagIff(m: seq<Record>, i: nat, c: Record)
    requires i < |m|
    ensures multiset(m[i := c]) == multiset(m) <==> c == m[i]
  {
    BagReplace(m, i, c);
    MultisetRemoveAt(m, i);
    var rest := multiset(RemoveAt(m, i));
    if c != m[i] {
      assert (rest + multiset{c})[c] != (rest + multiset{m[i]})[c];
    } else {
      assert m[i := c] == m;
    }
  }

  lemma StoredIff(r: Record, v: Variant)
    ensures r[AutoConnect := v] == r <==> AutoConnect in r && r[AutoConnect] == v
    ensures NameOf(r[AutoConnect := v]) == NameOf(r)
  {
    assert AutoConnect in r && r[AutoConnect] == v ==> r[AutoConnect := v] == r;
  }

  lemma AutoConnectPanel(ui: Ui, uuid: string, state: bool)
    requires Lockstep(ui.panel)
    ensures var p := SetAutoConnect(ui, uuid, state).panel;
            Lockstep(p) &&
            (multiset(p.mirror) == multiset(ui.panel.mirror) <==> AlreadyStored(ui.panel.mirror, uuid, state))
  {
    var m := ui.panel.mirror;
    var i := FirstIndex(m, HasUuid(uuid));
    if i < |m| {
      var v := Num(if state then 1 else 0);
      var c := m[i][AutoConnect := v];
      StoredIff(m[i], v);
      LockstepReplace(m, i, c);
      DistinctReplace(m, i, c);
      ReplacedBagIff(m, i, c);
    }
  }

  lemma PausedAutoConnectIff(w: Wlan, uuid: string, state: bool)
    requires PausedSync(w)
    ensures Mirrors(Step(w, AutoConnectSet(uuid, state))) <==> AlreadyStored(w.ui.panel.mirror, uuid, state)
  {
    AutoConnectPanel(w.ui, uuid, state);
  }

  /** One call or signal of any kind, from agreement: it reaches no missing index, and
      mirror and keeper agree after it exactly under the condition. */
  lemma StepAgreesIff(w: Wlan, e: Event)
    requires Mirrors(w) && FromBackend(w, e)
    ensures Accepts(w, e) && Fits(w, e)
    ensures Mirrors(Step(w, e)) <==> Agrees(w, e)
  {
    BackendAccepted(w, e);
    match e
    case SelectDevice(dev) =>
      if w.ui.paused {
        PausedSwitchIff(w, dev);
      } else if dev in w.lists && dev != "" {
        SwitchIff(w, dev);
      }
    case AutoConnectSet(uuid, state) =>
      if w.ui.paused {
        PausedAutoConnectIff(w, uuid, state);
      } else {
        AutoConnectSyncIff(w, uuid, state);
      }
    case _ => StepMirrors(w, e);
  }

  ghost predicate AgreeingRun(w: Wlan, es: seq<Event>)
    decreases |es|
  {
    es == [] ||
    (FromBackend(w, es[0]) && Agrees(w, es[0]) && (Accepts(w, es[0]) ==> AgreeingRun(Step(w, es[0]), es[1..])))
  }

  /** Over every run of signals and calls, device switches, pauses, resumes and
      auto-connect calls included, each of which meets its exact condition, no signal stops
      the code and every index passed to the view model exists. Whenever reordering is not
      paused, mirror and rows are what a full rebuild gives; while it is, the mirror is a
      permutation of the keeper list, with its own rows. */
  lemma {:induction false} EveryRunInSync(w: Wlan, es: seq<Event>)
    requires Mirrors(w) && AgreeingRun(w, es)
    ensures FittingRun(w, es) && Mirrors(Run(w, es))
    ensures var w' := Run(w, es);
            w'.ui.panel.rows == ToRows(w'.ui.panel.mirror) &&
            multiset(w'.ui.panel.mirror) == multiset(w'.lists[w'.ui.current]) &&
            (!w'.ui.paused ==> w'.ui == Rebuild(w'.ui, w'.lists))
    decreases |es|
  {
    if es != [] {
      StepAgreesIff(w, es[0]);
      EveryRunInSync(Step(w, es[0]), es[1..]);
    }
  }

  /** On one device, without auto-connect calls, nothing has to be checked. */
  lemma {:induction false} OneDeviceAgrees(w: Wlan, es: seq<Event>)
    requires Mirrors(w) && SameDeviceRun(w, es)
    ensures AgreeingRun(w, es)
    decreases |es|
  {
    if es != [] {
      StepMirrors(w, es[0]);
      StepAgreesIff(w, es[0]);
      OneDeviceAgrees(Step(w, es[0]), es[1..]);
    }
  }

  // ----- a switch that turns the list around ------------------------------------------------

  function Bare(name: string): Record {
    map[Name := Str(name), Uuid := Str(name)]
  }

  lemma BareFields(name: string)
    ensures NameOf(Bare(name)) == name && GoodRecord(Bare(name)) && !Active(Bare(name))
    ensures !IsConfigured(Bare(name)) && SignalOf(Bare(name)) == ParseInt("0")
  {
  }

  lemma PairReversed(p: Record, q: Record)
    requires Geq(q, p) && p != q
    ensures InsertAll([], [p, q]) == [q, p]
  {
    assert [p, q][1..] == [q] && [q][1..] == [];
    assert Insert([], p) == [p];
    FirstIndexUnique([p], Reaches(q), 0);
    assert Insert([p], q) == InsertAt([p], 0, q) == [q, p];
    assert InsertAll([], [p, q]) == InsertAll(Insert([], p), [q]) == InsertAll(Insert([p], q), []);
  }

  lemma PairGood(a: string, b: string)
    requires a != b
    ensures GoodList([Bare(a), Bare(b)]) && GoodList([Bare(a)]) && Geq(Bare(a), Bare(b)) && Geq(Bare(b), Bare(a))
  {
    BareFields(a);
    BareFields(b);
  }

  function Showing(m: seq<Record>, l: seq<Record>): Wlan {
    Wlan(true, map["d1" := m, "d2" := l], Ui("d1", Loaded(m), false))
  }

  lemma ShowingInSync(m: seq<Record>, l: seq<Record>)
    requires GoodList(m) && GoodList(l)
    ensures InSync(Showing(m, l))
    ensures Showing(m, l).lists["d2"] == l && Showing(m, l).lists["d1"] == m
  {
  }

  /** The mirror of one entry after a switch to two networks that reach each other. */
  lemma SwitchTurnsAround(m: seq<Record>, l: seq<Record>)
    requires GoodList(m) && GoodList(l) && |m| == 1 && |l| == 2 && NamesDisjoint(m, l)
    requires Geq(l[0], l[1]) && Geq(l[1], l[0])
    ensures InSync(Showing(m, l)) && Ordered(l) && !InSync(Step(Showing(m, l), SelectDevice("d2")))
    ensures DiffPass(Loaded(m), l).mirror == [l[1], l[0]]
  {
    ShowingInSync(m, l);
    ReversedByPass(m, l);
    assert !Falling(l);
    SwitchInSyncIff(Showing(m, l), "d2");
  }

  /** One entry shown, then a switch to a device with two networks of one rank: the
      mirror holds them in the opposite order. */
  lemma SwitchReverses()
    ensures var m, l := [Bare("x")], [Bare("p"), Bare("q")];
            InSync(Showing(m, l)) && Ordered(l) && !InSync(Step(Showing(m, l), SelectDevice("d2"))) &&
            DiffPass(Loaded(m), l).mirror == [l[1], l[0]]
  {
    PairGood("x", "p");
    PairGood("p", "q");
    BareFields("x");
    SwitchTurnsAround([Bare("x")], [Bare("p"), Bare("q")]);
  }

  lemma ReversedByPass(m: seq<Record>, l: seq<Record>)
    requires GoodList(m) && GoodList(l) && |m| == 1 && |l| == 2 && NamesDisjoint(m, l) && Geq(l[1], l[0])
    ensures DiffPass(Loaded(m), l).mirror == [l[1], l[0]]
  {
    DisjointStale(m, l);
    assert Survivors(m, l) == [];
    GoodBits(l);
    GoodBits(m);
    DiffPassReinserts(Loaded(m), l);
    PairReversed(l[0], l[1]);
    assert l == [l[0], l[1]];
  }
}
