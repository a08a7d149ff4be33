/** The order a device keeps its connections in, over every run of its mutators. */
module KeeperOrder {
  import opened Records
  import opened SeqOps
  import opened NetDevices
  import opened Names

  /** In an ordered list a new record lands exactly after the records it does
      not reach, hence before every equally good one that was there already. */
  lemma InsertPlace(l: seq<Record>, r: Record)
    requires Ordered(l)
    ensures forall j :: 0 <= j < |l| ==> (j < Slot(l, r) <==> !Geq(r, l[j]))
  {
  }

  lemma InsertKeepsOrder(l: seq<Record>, r: Record)
    requires Ordered(l)
    ensures Ordered(Insert(l, r))
  {
    InsertPlace(l, r);
  }

  lemma OrderedCons(x: Record, t: seq<Record>)
    ensures Ordered([x] + t) <==> Ordered(t) && forall y :: y in t ==> Geq(x, y)
  {
    var s := [x] + t;
    assert forall i :: 0 <= i < |t| ==> s[i + 1] == t[i];
    if Ordered(t) && forall y :: y in t ==> Geq(x, y) {
      forall i, j | 0 <= i < j < |s|
        ensures Geq(s[i], s[j])
      {
        assert s[j] == t[j - 1];
        if i > 0 {
          assert s[i] == t[i - 1];
        }
      }
    }
    if Ordered(s) {
      forall y | y in t
        ensures Geq(x, y)
      {
        var k :| 0 <= k < |t| && t[k] == y;
        assert s[0] == x && s[k + 1] == y;
      }
    }
  }

  lemma RemoveAtKeepsOrder(l: seq<Record>, i: nat)
    requires Ordered(l) && i < |l|
    ensures Ordered(RemoveAt(l, i))
  {
  }

  lemma {:induction false} SkippingKeepsOrder(l: seq<Record>, bad: Record -> bool)
    requires Ordered(l)
    ensures Ordered(RemoveSkipping(l, bad))
  {
    if l == [] {
    } else if !bad(l[0]) {
      assert l == [l[0]] + l[1..];
      OrderedCons(l[0], l[1..]);
      SkippingKeepsOrder(l[1..], bad);
      SkippingKeepsElements(l[1..], bad);
      OrderedCons(l[0], RemoveSkipping(l[1..], bad));
    } else if |l| > 1 {
      assert l[1..] == [l[1]] + l[2..];
      OrderedCons(l[1], l[2..]);
      SkippingKeepsOrder(l[2..], bad);
      SkippingKeepsElements(l[2..], bad);
      OrderedCons(l[1], RemoveSkipping(l[2..], bad));
    }
  }

  /** Replacing a record in place keeps the order exactly when it fits between
      its two neighbours. */
  lemma ReplaceOrderIff(l: seq<Record>, i: nat, c: Record)
    requires Ordered(l) && i < |l|
    ensures Ordered(l[i := c]) <==>
            (i > 0 ==> Geq(l[i - 1], c)) && (i + 1 < |l| ==> Geq(c, l[i + 1]))
  {
    var s := l[i := c];
    if Ordered(s) {
      assert i > 0 ==> Geq(s[i - 1], s[i]);
      assert i + 1 < |l| ==> Geq(s[i], s[i + 1]);
    }
    if (i > 0 ==> Geq(l[i - 1], c)) && (i + 1 < |l| ==> Geq(c, l[i + 1])) {
      assert forall j :: 0 <= j < i ==> Geq(l[j], c);
      assert forall j :: i < j < |l| ==> Geq(c, l[j]);
      assert forall j, k :: 0 <= j < k < |l| ==> Geq(s[j], s[k]);
    }
  }

  /** `updateConnection` to ACTIVATED keeps the order; to any other state it
      rewrites in place, and keeps the order exactly when the rewritten record
      still fits between its neighbours. */
  lemma UpdateConnectionOrder(l: seq<Record>, uuid: string, status: int)
    requires Ordered(l)
    ensures var i := FirstIndex(l, HasUuid(uuid));
            var l' := Restate(l, uuid, map[State := Num(status)], status == ACTIVATED);
            (status == ACTIVATED || i == |l| ==> Ordered(l')) &&
            (status != ACTIVATED && i < |l| ==>
               (Ordered(l') <==>
                (i > 0 ==> Geq(l[i - 1], l[i][State := Num(status)])) &&
                (i + 1 < |l| ==> Geq(l[i][State := Num(status)], l[i + 1]))))
  {
    var i := FirstIndex(l, HasUuid(uuid));
    if i < |l| {
      var c := l[i][State := Num(status)];
      assert l[i] + map[State := Num(status)] == c;
      if status == ACTIVATED {
        assert Active(c);
        RemoveAtKeepsOrder(l, i);
        OrderedCons(c, RemoveAt(l, i));
      } else {
        ReplaceOrderIff(l, i, c);
      }
    }
  }

  /** Deactivating the only active record in place can leave a worse record in
      front of a better one. */
  lemma DeactivationBreaksOrder()
    ensures var a: Record := map[Uuid := Str("a"), State := Num(ACTIVATED), Configured := Num(0)];
            var b: Record := map[Uuid := Str("b"), State := Num(DEACTIVATED), Configured := Num(1)];
            Ordered([a, b]) &&
            !Ordered(Restate([a, b], "a", map[State := Num(DEACTIVATING)], false))
  {
    var a: Record := map[Uuid := Str("a"), State := Num(ACTIVATED), Configured := Num(0)];
    var b: Record := map[Uuid := Str("b"), State := Num(DEACTIVATED), Configured := Num(1)];
    var l := [a, b];
    assert Active(l[0]);
    FirstIndexUnique(l, HasUuid("a"), 0);
    UpdateConnectionOrder(l, "a", DEACTIVATING);
    assert !IsConfigured(a[State := Num(DEACTIVATING)]) && IsConfigured(b) && !Active(b);
  }

  lemma UpdatePropKeepsOrder(l: seq<Record>, parm: Record)
    requires Ordered(l)
    ensures Ordered(UpdateProp(l, parm))
  {
    var i := FirstIndex(l, HasName(NameOf(parm)));
    if i < |l| {
      RemoveAtKeepsOrder(l, i);
      InsertKeepsOrder(RemoveAt(l, i), Patched(l[i], parm));
    }
  }

  // ----- every run -------------------------------------------------------

  datatype DeviceOp =
    | AddOp(r: Record)
    | DropOp(r: Record)
    | DropPathOp(path: string)
    | DropNameOp(name: string)
    | PropOp(parm: Record)
    | ActivateOp(uuid: string)
    | ConnectivityOp(uuid: string, connectivity: int)
    | ClearOp

  /** The list after one call, as the methods of `NetDevice` state it. */
  function Apply(l: seq<Record>, op: DeviceOp): seq<Record> {
    match op
    case AddOp(r) => Insert(l, r)
    case DropOp(r) => DropRecord(l, r)
    case DropPathOp(path) => RemoveSkipping(l, HasPath(path))
    case DropNameOp(name) => RemoveSkipping(l, HasName(name))
    case PropOp(parm) => UpdateProp(l, parm)
    case ActivateOp(uuid) => Restate(l, uuid, map[State := Num(ACTIVATED)], true)
    case ConnectivityOp(uuid, c) =>
      Restate(l, uuid, map[State := Num(ACTIVATED), Connectivity := Num(c)], true)
    case ClearOp => []
  }

  function ApplyAll(l: seq<Record>, ops: seq<DeviceOp>): seq<Record> {
    if ops == [] then l else Apply(ApplyAll(l, ops[..|ops| - 1]), ops[|ops| - 1])
  }

  lemma ApplyKeepsOrder(l: seq<Record>, op: DeviceOp)
    requires Ordered(l)
    ensures Ordered(Apply(l, op))
  {
    match op
    case AddOp(r) => InsertKeepsOrder(l, r);
    case DropOp(r) =>
      if FirstIndex(l, Is(r)) < |l| {
        RemoveAtKeepsOrder(l, FirstIndex(l, Is(r)));
      }
    case DropPathOp(path) => SkippingKeepsOrder(l, HasPath(path));
    case DropNameOp(name) => SkippingKeepsOrder(l, HasName(name));
    case PropOp(parm) => UpdatePropKeepsOrder(l, parm);
    case ActivateOp(uuid) => UpdateConnectionOrder(l, uuid, ACTIVATED);
    case ConnectivityOp(uuid, c) => ActivateKeepsOrder(l, uuid, map[State := Num(ACTIVATED), Connectivity := Num(c)]);
    case ClearOp =>
  }

  lemma ActivateKeepsOrder(l: seq<Record>, uuid: string, patch: Record)
    requires Ordered(l) && Active(patch) && State in patch
    ensures Ordered(Restate(l, uuid, patch, true))
  {
  }

  /** From an empty device, over every run of the mutators, the list stays ordered. */
  lemma {:induction false} EveryRunIsOrdered(ops: seq<DeviceOp>)
    ensures Ordered(ApplyAll([], ops))
  {
    if ops != [] {
      EveryRunIsOrdered(ops[..|ops| - 1]);
      ApplyKeepsOrder(ApplyAll([], ops[..|ops| - 1]), ops[|ops| - 1]);
    }
  }

  function Idle(): Record -> bool {
    r => !Active(r)
  }

  /** What the order means: an active prefix, then configured before unconfigured,
      then falling signal. */
  lemma OrderedMeans(l: seq<Record>)
    requires Ordered(l)
    ensures forall i :: 0 <= i < |l| ==> (i < FirstIndex(l, Idle()) <==> Active(l[i]))
    ensures forall i, j :: FirstIndex(l, Idle()) <= i < j < |l| ==>
              (IsConfigured(l[j]) ==> IsConfigured(l[i])) &&
              (IsConfigured(l[i]) == IsConfigured(l[j]) ==> SignalOf(l[i]) >= SignalOf(l[j]))
  {
  }

  // ----- bulk load ---------------------------------------------------------

  lemma {:induction false} InsertAllSorts(l: seq<Record>, rs: seq<Record>)
    requires Ordered(l)
    ensures Ordered(InsertAll(l, rs))
    decreases |rs|
  {
    if rs != [] {
      InsertKeepsOrder(l, rs[0]);
      InsertAllSorts(Insert(l, rs[0]), rs[1..]);
    }
  }

  lemma {:induction false} InsertAllAppend(l: seq<Record>, a: seq<Record>, b: seq<Record>)
    ensures InsertAll(l, a + b) == InsertAll(InsertAll(l, a), b)
    decreases |a|
  {
    if a == [] {
      assert a + b == b;
    } else {
      assert (a + b)[1..] == a[1..] + b;
      InsertAllAppend(Insert(l, a[0]), a[1..], b);
    }
  }

  ghost predicate AllDistinct(l: seq<Record>, rs: seq<Record>) {
    (forall i, j :: 0 <= i < j < |rs| ==> rs[i] != rs[j]) &&
    (forall i :: 0 <= i < |rs| ==> rs[i] !in l)
  }

  lemma InsertMembers(l: seq<Record>, r: Record)
    requires r !in l
    ensures multiset(Insert(l, r)) == multiset(l) + multiset{r}
    ensures forall x :: x in Insert(l, r) <==> x in l || x == r
  {
    MultisetInsertAt(l, Slot(l, r), r);
    assert forall x :: x in Insert(l, r) <==> x in multiset(Insert(l, r));
  }

  lemma {:induction false} InsertAllPermutes(l: seq<Record>, rs: seq<Record>)
    requires AllDistinct(l, rs)
    ensures multiset(InsertAll(l, rs)) == multiset(l) + multiset(rs)
    decreases |rs|
  {
    if rs != [] {
      InsertMembers(l, rs[0]);
      InsertAllPermutes(Insert(l, rs[0]), rs[1..]);
      assert rs == [rs[0]] + rs[1..];
    }
  }

  lemma {:induction false} InsertAllMembers(s: seq<Record>, rs: seq<Record>, x: Record)
    ensures x in InsertAll(s, rs) <==> x in s || x in rs
    decreases |rs|
  {
    if rs != [] {
      if rs[0] !in s {
        InsertMembers(s, rs[0]);
      }
      InsertAllMembers(Insert(s, rs[0]), rs[1..], x);
      assert rs == [rs[0]] + rs[1..];
    }
  }

  /** All inactive, with the same configured flag and signal. */
  ghost predicate OneRank(l: seq<Record>, configured: bool, signal: int) {
    forall i :: 0 <= i < |l| ==> !Active(l[i]) && IsConfigured(l[i]) == configured && SignalOf(l[i]) == signal
  }

  lemma SlotBehindActive(active: seq<Record>, done: seq<Record>, r: Record)
    requires forall j :: 0 <= j < |active| ==> Active(active[j])
    requires !Active(r) && (done != [] ==> Geq(r, done[0]))
    ensures Slot(active + done, r) == |active|
  {
    var l := active + done;
    forall j | 0 <= j < |active|
      ensures !Geq(r, l[j])
    {
      assert l[j] == active[j];
    }
    if done != [] {
      assert l[|active|] == done[0];
    }
    FirstIndexUnique(l, Reaches(r), |active|);
  }

  lemma InsertBehindActive(active: seq<Record>, done: seq<Record>, r: Record)
    requires forall j :: 0 <= j < |active| ==> Active(active[j])
    requires !Active(r) && (done != [] ==> Geq(r, done[0]))
    requires r !in active + done
    ensures Insert(active + done, r) == active + ([r] + done)
  {
    SlotBehindActive(active, done, r);
    assert InsertAt(active + done, |active|, r) == active + ([r] + done);
  }

  /** Records that do not differ in rank and are inactive end up in reverse
      order of insertion, behind the active prefix. */
  lemma {:induction false} EqualRanksReverse(active: seq<Record>, done: seq<Record>, rs: seq<Record>,
                                             configured: bool, signal: int)
    requires forall j :: 0 <= j < |active| ==> Active(active[j])
    requires OneRank(done, configured, signal) && OneRank(rs, configured, signal)
    requires AllDistinct(active + done, rs)
    ensures InsertAll(active + done, rs) == active + Reversed(rs) + done
    decreases |rs|
  {
    if rs == [] {
      assert active + done == active + Reversed(rs) + done;
    } else {
      var r := rs[0];
      var done' := [r] + done;
      InsertBehindActive(active, done, r);
      AllDistinctStep(active, done, rs);
      OneRankMove(done, rs, configured, signal);
      EqualRanksReverse(active, done', rs[1..], configured, signal);
      Regroup(active, Reversed(rs[1..]), r, done);
    }
  }

  lemma OneRankMove(done: seq<Record>, rs: seq<Record>, configured: bool, signal: int)
    requires OneRank(done, configured, signal) && OneRank(rs, configured, signal) && rs != []
    ensures OneRank([rs[0]] + done, configured, signal) && OneRank(rs[1..], configured, signal)
  {
  }

  lemma Regroup(a: seq<Record>, b: seq<Record>, r: Record, c: seq<Record>)
    ensures a + b + ([r] + c) == a + (b + [r]) + c
  {
  }

  lemma AllDistinctStep(active: seq<Record>, done: seq<Record>, rs: seq<Record>)
    requires rs != [] && AllDistinct(active + done, rs)
    ensures AllDistinct(active + ([rs[0]] + done), rs[1..])
  {
  }

  function Reversed(s: seq<Record>): seq<Record> {
    if s == [] then [] else Reversed(s[1..]) + [s[0]]
  }

  // ----- names and frames --------------------------------------------------

  /** `addConnection` compares whole records, so a list stays duplicate-free by
      name exactly when the record is already there or its name is new. */
  lemma InsertNamesIff(l: seq<Record>, r: Record)
    requires NamesDistinct(l)
    ensures NamesDistinct(Insert(l, r)) <==> r in l || Fresh(l, NameOf(r))
  {
    if r !in l {
      FreshIff(l, NameOf(r));
      if Fresh(l, NameOf(r)) {
        DistinctInsertAt(l, Slot(l, r), r);
      } else {
        DuplicateInsertAt(l, Slot(l, r), r);
      }
    }
  }

  /** `after` takes the listed fields that `parm` carries from `parm`, and agrees
      with `before` on everything else. */
  ghost predicate ChangedOnly(before: Record, after: Record, fields: set<Field>, parm: Record) {
    forall f: Field ::
      if f in fields && f in parm then f in after && after[f] == parm[f]
      else (f in after <==> f in before) && (f in before ==> after[f] == before[f])
  }

  /** An activation or connectivity update touches one record and two fields:
      the other records, their order and the length stay. */
  lemma RestateFrame(l: seq<Record>, uuid: string, patch: Record, toFront: bool)
    ensures var i := FirstIndex(l, HasUuid(uuid));
            var l' := Restate(l, uuid, patch, toFront);
            |l'| == |l| &&
            (i == |l| ==> l' == l) &&
            (i < |l| ==>
               var i' := if toFront then 0 else i;
               RemoveAt(l', i') == RemoveAt(l, i) && ChangedOnly(l[i], l'[i'], patch.Keys, patch))
  {
  }

  lemma UpdatePropNames(l: seq<Record>, parm: Record)
    requires NamesDistinct(l)
    ensures NamesDistinct(UpdateProp(l, parm))
    ensures var i := FindName(l, NameOf(parm));
            i < |l| ==>
              var rest, c := RemoveAt(l, i), Patched(l[i], parm);
              NameOf(c) == NameOf(parm) && Fresh(rest, NameOf(c)) && c !in rest &&
              UpdateProp(l, parm) == InsertAt(rest, Slot(rest, c), c) &&
              FindName(UpdateProp(l, parm), NameOf(parm)) == Slot(rest, c)
  {
    var i := FindName(l, NameOf(parm));
    if i < |l| {
      var rest, c := RemoveAt(l, i), Patched(l[i], parm);
      assert NameOf(c) == NameOf(l[i]);
      DistinctRemoveAt(l, i);
      FreshNotIn(rest, c);
      DistinctInsertAt(rest, Slot(rest, c), c);
      FindNameAt(UpdateProp(l, parm), Slot(rest, c));
    }
  }

  /** A property update touches the named record, and of it only the eight
      fields it carries; the other records, their order and the length stay. */
  lemma UpdatePropFrame(l: seq<Record>, parm: Record)
    requires NamesDistinct(l)
    ensures var i := FindName(l, NameOf(parm));
            var l' := UpdateProp(l, parm);
            |l'| == |l| &&
            (i == |l| ==> l' == l) &&
            (i < |l| ==>
               var i' := FindName(l', NameOf(parm));
               i' < |l'| && RemoveAt(l', i') == RemoveAt(l, i) &&
               ChangedOnly(l[i], l'[i'], PROP_FIELDS, parm))
  {
    var i := FindName(l, NameOf(parm));
    if i < |l| {
      UpdatePropNames(l, parm);
      var rest, c := RemoveAt(l, i), Patched(l[i], parm);
      InsertThenRemove(rest, Slot(rest, c), c);
      PatchedChangesOnly(l[i], parm);
    }
  }

  lemma PatchedChangesOnly(conn: Record, parm: Record)
    ensures ChangedOnly(conn, Patched(conn, parm), PROP_FIELDS, parm)
  {
  }
}
