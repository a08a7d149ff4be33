/** The Wi-Fi item list of the control-center plugin and its reordering. */
module WifiResort {
  import opened SeqOps
  import opened KeyOrder

  /** A widget of the layout. */
  type ItemId = nat

  datatype Item = Item(isActive: bool, uuid: string)

  ghost predicate NoDup(l: seq<ItemId>) {
    forall i, j :: 0 <= i < j < |l| ==> l[i] != l[j]
  }

  function IsItem(x: ItemId): ItemId -> bool {
    y => y == x
  }

  function NotIn(k: seq<ItemId>): ItemId -> bool {
    y => y !in k
  }

  /** `removeWidget`. */
  function RemoveWidget(l: seq<ItemId>, x: ItemId): seq<ItemId> {
    var i := FirstIndex(l, IsItem(x));
    if i < |l| then RemoveAt(l, i) else l
  }

  /** `insertWidget`: an index past the end appends. */
  function InsertWidget(l: seq<ItemId>, index: nat, x: ItemId): seq<ItemId> {
    InsertAt(l, if index <= |l| then index else |l|, x)
  }

  // ----- what a resort amounts to --------------------------------------------

  /** The items `k` first, then all others in their old order. */
  function Gathered(l: seq<ItemId>, k: seq<ItemId>): seq<ItemId> {
    k + Filter(l, NotIn(k))
  }

  /** The items of the known names, in the order of the names. */
  function KnownItems(itemMap: map<string, ItemId>, names: seq<string>): seq<ItemId> {
    if names == [] then []
    else if names[|names| - 1] in itemMap then KnownItems(itemMap, names[..|names| - 1]) + [itemMap[names[|names| - 1]]]
    else KnownItems(itemMap, names[..|names| - 1])
  }

  lemma {:induction false} FilterNoDup(l: seq<ItemId>, p: ItemId -> bool)
    requires NoDup(l)
    ensures NoDup(Filter(l, p))
  {
    if l != [] {
      assert NoDup(l[1..]);
      FilterNoDup(l[1..], p);
      if p(l[0]) {
        assert l[0] !in l[1..];
      }
    }
  }

  lemma RemoveHead(f: seq<ItemId>, x: ItemId)
    ensures RemoveWidget([x] + f, x) == f
  {
  }

  lemma RemoveTail(y: ItemId, f: seq<ItemId>, x: ItemId)
    requires x != y
    ensures RemoveWidget([y] + f, x) == [y] + RemoveWidget(f, x)
  {
    var i := FirstIndex(f, IsItem(x));
    assert ([y] + f)[1..] == f;
    assert FirstIndex([y] + f, IsItem(x)) == 1 + i;
    if i < |f| {
      assert RemoveAt([y] + f, 1 + i) == [y] + RemoveAt(f, i);
    }
  }

  lemma RemoveAbsent(f: seq<ItemId>, x: ItemId)
    requires x !in f
    ensures RemoveWidget(f, x) == f
  {
  }

  lemma {:induction false} FilterWithout(l: seq<ItemId>, k: seq<ItemId>, x: ItemId)
    requires NoDup(l) && x !in k
    ensures RemoveWidget(Filter(l, NotIn(k)), x) == Filter(l, NotIn(k + [x]))
  {
    if l == [] {
      RemoveAbsent([], x);
    } else {
      FilterWithout(l[1..], k, x);
      var f := Filter(l[1..], NotIn(k));
      if l[0] == x {
        assert x !in l[1..];
        RemoveHead(f, x);
        RemoveAbsent(f, x);
      } else if l[0] !in k {
        RemoveTail(l[0], f, x);
      }
    }
  }

  lemma RemoveBehind(k: seq<ItemId>, f: seq<ItemId>, x: ItemId)
    requires x !in k
    ensures RemoveWidget(k + f, x) == k + RemoveWidget(f, x)
  {
    var i := FirstIndex(f, IsItem(x));
    FirstIndexBehind(k, f, x);
    if i < |f| {
      RemoveAtBehind(k, f, i);
      assert RemoveWidget(k + f, x) == RemoveAt(k + f, |k| + i);
    } else {
      assert RemoveWidget(f, x) == f;
    }
  }

  lemma {:induction false} FirstIndexBehind(k: seq<ItemId>, f: seq<ItemId>, x: ItemId)
    requires x !in k
    ensures FirstIndex(k + f, IsItem(x)) == |k| + FirstIndex(f, IsItem(x))
    decreases |k|
  {
    if k == [] {
      assert k + f == f;
    } else {
      assert (k + f)[0] == k[0] && (k + f)[1..] == k[1..] + f;
      FirstIndexBehind(k[1..], f, x);
    }
  }

  lemma RemoveAtBehind(k: seq<ItemId>, f: seq<ItemId>, i: nat)
    requires i < |f|
    ensures RemoveAt(k + f, |k| + i) == k + RemoveAt(f, i)
  {
  }

  /** One move of the loop: the next known item goes behind those already placed. */
  lemma GatherStep(l: seq<ItemId>, k: seq<ItemId>, x: ItemId)
    requires NoDup(l) && x !in k
    ensures InsertWidget(RemoveWidget(Gathered(l, k), x), |k|, x) == Gathered(l, k + [x])
  {
    var f := Filter(l, NotIn(k));
    FilterWithout(l, k, x);
    RemoveBehind(k, f, x);
    InsertBehind(k, RemoveWidget(f, x), x);
  }

  lemma InsertBehind(k: seq<ItemId>, g: seq<ItemId>, x: ItemId)
    ensures InsertWidget(k + g, |k|, x) == k + [x] + g
  {
  }

  /** Each named item is in the layout, under one name only. */
  ghost predicate Consistent(layout: seq<ItemId>, itemMap: map<string, ItemId>) {
    NoDup(layout) &&
    (forall n :: n in itemMap ==> itemMap[n] in layout) &&
    (forall a, b :: a in itemMap && b in itemMap && a != b ==> itemMap[a] != itemMap[b])
  }

  ghost predicate DistinctNames(names: seq<string>) {
    forall i, j :: 0 <= i < j < |names| ==> names[i] != names[j]
  }

  /** A new name means a new item. */
  lemma NextItemIsNew(layout: seq<ItemId>, itemMap: map<string, ItemId>, names: seq<string>, name: string)
    requires Consistent(layout, itemMap) && name !in names && name in itemMap
    ensures itemMap[name] !in KnownItems(itemMap, names)
  {
  }

  lemma {:induction false} KnownItemsNoDup(layout: seq<ItemId>, itemMap: map<string, ItemId>, names: seq<string>)
    requires Consistent(layout, itemMap) && DistinctNames(names)
    ensures NoDup(KnownItems(itemMap, names))
    ensures forall x :: x in KnownItems(itemMap, names) ==> x in layout
  {
    if names != [] {
      var init, last := names[..|names| - 1], names[|names| - 1];
      KnownItemsNoDup(layout, itemMap, init);
      if last in itemMap {
        NextItemIsNew(layout, itemMap, init, last);
      }
    }
  }

  lemma {:induction false} NoDupSize(a: seq<ItemId>, b: seq<ItemId>)
    requires NoDup(a) && forall x :: x in a ==> x in b
    ensures |a| <= |b|
  {
    if a != [] {
      var x := a[0];
      assert x in a;
      var i :| 0 <= i < |b| && b[i] == x;
      var b' := RemoveAt(b, i);
      forall y | y in a[1..]
        ensures y in b'
      {
        assert y in a && y != x;
        var j :| 0 <= j < |b| && b[j] == y;
        assert b'[if j < i then j else j - 1] == y;
      }
      NoDupSize(a[1..], b');
    }
  }

  /** When every position is filled no further listed name is known, so the early
      return skips nothing. */
  lemma NothingLeft(layout: seq<ItemId>, itemMap: map<string, ItemId>, done: seq<string>, name: string)
    requires Consistent(layout, itemMap) && DistinctNames(done) && name !in done
    requires |KnownItems(itemMap, done)| >= |layout|
    ensures name !in itemMap
  {
    if name in itemMap {
      NextItemIsNew(layout, itemMap, done, name);
      KnownItemsNoDup(layout, itemMap, done);
      var more := KnownItems(itemMap, done) + [itemMap[name]];
      NoDupSize(more, layout);
    }
  }

  lemma GatheredConsistent(l: seq<ItemId>, itemMap: map<string, ItemId>, k: seq<ItemId>)
    requires Consistent(l, itemMap) && NoDup(k) && forall x :: x in k ==> x in l
    ensures Consistent(Gathered(l, k), itemMap)
    ensures forall x :: x in Gathered(l, k) <==> x in l
  {
    var f := Filter(l, NotIn(k));
    FilterNoDup(l, NotIn(k));
    var g := k + f;
    forall i, j | 0 <= i < j < |g|
      ensures g[i] != g[j]
    {
      if i < |k| <= j {
        assert g[j] in f && g[i] in k;
      }
    }
  }

  lemma GatheredLength(l: seq<ItemId>, itemMap: map<string, ItemId>, done: seq<string>)
    requires Consistent(l, itemMap) && DistinctNames(done)
    ensures |Gathered(l, KnownItems(itemMap, done))| == |l|
  {
    KnownItemsNoDup(l, itemMap, done);
    GatheredConsistent(l, itemMap, KnownItems(itemMap, done));
    NoDupSize(Gathered(l, KnownItems(itemMap, done)), l);
    NoDupSize(l, Gathered(l, KnownItems(itemMap, done)));
  }

  lemma {:induction false} FilterAllIn(l: seq<ItemId>)
    ensures Gathered(l, []) == l
  {
    if l != [] {
      FilterAllIn(l[1..]);
    }
  }

  lemma InsertedOnce(l: seq<ItemId>, index: nat, x: ItemId)
    requires NoDup(l) && x !in l
    ensures NoDup(InsertWidget(l, index, x))
    ensures forall y :: y in InsertWidget(l, index, x) <==> y in l || y == x
  {
  }

  lemma RemovedOnce(l: seq<ItemId>, x: ItemId)
    requires NoDup(l) && x in l
    ensures NoDup(RemoveWidget(l, x))
    ensures forall y :: y in RemoveWidget(l, x) <==> y in l && y != x
  {
  }

  lemma MovedConsistent(l: seq<ItemId>, itemMap: map<string, ItemId>, x: ItemId, index: nat)
    requires Consistent(l, itemMap) && x in l
    ensures Consistent(InsertWidget(RemoveWidget(l, x), index, x), itemMap)
    ensures forall y :: y in InsertWidget(RemoveWidget(l, x), index, x) <==> y in l
  {
    RemovedOnce(l, x);
    InsertedOnce(RemoveWidget(l, x), index, x);
  }

  // ----- the loop over the inactive rows ------------------------------------------

  type Items = map<ItemId, Item>

  datatype Placed = Placed(layout: seq<ItemId>, items: Items)

  /** An item met in an inactive row stops being active. */
  function Deactivated(items: Items, x: ItemId): Items {
    if x in items && items[x].isActive then items[x := Item(false, "")] else items
  }

  /** The loop from position `index` on, with its early return when every position is filled. */
  function PlaceFrom(p: Placed, itemMap: map<string, ItemId>, names: seq<string>, index: nat): Placed
    decreases |names|
  {
    if names == [] || index > |p.layout| - 1 then p
    else if names[0] in itemMap then
      var x := itemMap[names[0]];
      PlaceFrom(Placed(InsertWidget(RemoveWidget(p.layout, x), index, x), Deactivated(p.items, x)),
                itemMap, names[1..], index + 1)
    else PlaceFrom(p, itemMap, names[1..], index)
  }

  /** Items of the listed inactive names are switched off, the others are untouched. */
  ghost predicate SwitchedOff(before: Items, after: Items, off: seq<ItemId>) {
    after.Keys == before.Keys &&
    forall x :: x in before ==> after[x] == if x in off && before[x].isActive then Item(false, "") else before[x]
  }

  lemma SwitchedOffStep(before: Items, after: Items, x: ItemId, off: seq<ItemId>)
    requires SwitchedOff(Deactivated(before, x), after, off)
    ensures SwitchedOff(before, after, [x] + off)
  {
  }

  /** The known items of a list of names, head first. */
  function KnownFrom(itemMap: map<string, ItemId>, names: seq<string>): seq<ItemId> {
    if names == [] then []
    else if names[0] in itemMap then [itemMap[names[0]]] + KnownFrom(itemMap, names[1..])
    else KnownFrom(itemMap, names[1..])
  }

  lemma {:induction false} KnownSplit(itemMap: map<string, ItemId>, done: seq<string>, names: seq<string>)
    ensures KnownItems(itemMap, done + names) == KnownItems(itemMap, done) + KnownFrom(itemMap, names)
    decreases |names|
  {
    if names == [] {
      assert done + names == done;
    } else {
      assert done + names == (done + [names[0]]) + names[1..];
      KnownSplit(itemMap, done + [names[0]], names[1..]);
      assert (done + [names[0]])[..|done|] == done;
    }
  }

  lemma {:induction false} NoneKnown(itemMap: map<string, ItemId>, names: seq<string>)
    requires forall i :: 0 <= i < |names| ==> names[i] !in itemMap
    ensures KnownFrom(itemMap, names) == []
  {
    if names != [] {
      NoneKnown(itemMap, names[1..]);
    }
  }

  lemma DistinctSplit(done: seq<string>, names: seq<string>)
    requires DistinctNames(done + names) && names != []
    ensures DistinctNames(done) && (forall i :: 0 <= i < |names| ==> names[i] !in done)
    ensures DistinctNames((done + [names[0]]) + names[1..])
  {
    var all := done + names;
    assert forall i :: 0 <= i < |done| ==> all[i] == done[i];
    assert forall i :: 0 <= i < |names| ==> all[|done| + i] == names[i];
    assert (done + [names[0]]) + names[1..] == all;
  }

  /** From the point where the items of `done` lead the layout, the loop puts the known
      items of `names` behind them in list order, leaves the rest in its old order, and
      switches off exactly those items; the early return loses nothing. */
  lemma {:induction false} PlaceFromGathers(layout: seq<ItemId>, items: Items, itemMap: map<string, ItemId>,
                                            done: seq<string>, names: seq<string>)
    requires Consistent(layout, itemMap) && DistinctNames(done + names)
    ensures var k := KnownItems(itemMap, done);
            var r := PlaceFrom(Placed(Gathered(layout, k), items), itemMap, names, |k|);
            r.layout == Gathered(layout, KnownItems(itemMap, done + names)) &&
            SwitchedOff(items, r.items, KnownFrom(itemMap, names))
    decreases |names|
  {
    var k := KnownItems(itemMap, done);
    if names == [] {
      assert done + names == done;
    } else {
      DistinctSplit(done, names);
      GatheredLength(layout, itemMap, done);
      if |k| > |layout| - 1 {
        forall i | 0 <= i < |names|
          ensures names[i] !in itemMap
        {
          NothingLeft(layout, itemMap, done, names[i]);
        }
        NoneKnown(itemMap, names);
        KnownSplit(itemMap, done, names);
        assert k + [] == k;
      } else {
        var done' := done + [names[0]];
        assert done + names == done' + names[1..] && done'[..|done|] == done;
        if names[0] in itemMap {
          var x := itemMap[names[0]];
          NextItemIsNew(layout, itemMap, done, names[0]);
          GatherStep(layout, k, x);
          PlaceFromGathers(layout, Deactivated(items, x), itemMap, done', names[1..]);
          var r := PlaceFrom(Placed(Gathered(layout, k), items), itemMap, names, |k|);
          SwitchedOffStep(items, r.items, x, KnownFrom(itemMap, names[1..]));
        } else {
          PlaceFromGathers(layout, items, itemMap, done', names[1..]);
        }
      }
    }
  }

  // ----- the frame of one device ----------------------------------------------------

  type Row = seq<string>

  /** The first row names the active connection when it has more than one field. */
  predicate HasActiveRow(list: seq<Row>) {
    list != [] && |list[0]| > 1
  }

  function RowNames(rows: seq<Row>): (names: seq<string>)
    requires forall i :: 0 <= i < |rows| ==> |rows[i]| >= 1
    ensures |names| == |rows| && forall i :: 0 <= i < |rows| ==> names[i] == rows[i][0]
  {
    seq(|rows|, i requires 0 <= i < |rows| => rows[i][0])
  }

  /** The fields that the code reads: a name in every row behind the first, and the
      uuid in a first row whose name is known. */
  predicate RowsFit(list: seq<Row>, itemMap: map<string, ItemId>) {
    (forall i :: 1 <= i < |list| ==> |list[i]| >= 1) &&
    (HasActiveRow(list) && list[0][0] in itemMap ==> |list[0]| >= 4)
  }

  /** The names whose item carries the uuid. */
  function Carriers(itemMap: map<string, ItemId>, items: Items, uuid: string): set<string> {
    set n | n in itemMap && itemMap[n] in items && items[itemMap[n]].uuid == uuid
  }

  /** The first item in key order that carries the frame's uuid is switched off. */
  ghost function Cleared(items: Items, itemMap: map<string, ItemId>, uuid: string): Items {
    var names := Carriers(itemMap, items, uuid);
    if uuid == "" || names == {} then items else items[itemMap[FirstKey(names)] := Item(false, "")]
  }

  /** What precedes the loop: an active row's item in front and marked; without an
      active row the item that carried the frame's uuid is switched off. */
  ghost function Prepared(before: Placed, itemMap: map<string, ItemId>, uuid: string, list: seq<Row>): Placed
    requires list != [] && RowsFit(list, itemMap)
  {
    if !HasActiveRow(list) then Placed(before.layout, Cleared(before.items, itemMap, uuid))
    else if list[0][0] in itemMap then
      var x := itemMap[list[0][0]];
      Placed(Gathered(before.layout, [x]), before.items[x := Item(true, list[0][3])])
    else before
  }

  function UuidAfter(itemMap: map<string, ItemId>, uuid: string, list: seq<Row>): string
    requires list != [] && RowsFit(list, itemMap)
  {
    if !HasActiveRow(list) then "" else if list[0][0] in itemMap then list[0][3] else uuid
  }

  ghost function Resorted(before: Placed, itemMap: map<string, ItemId>, uuid: string, list: seq<Row>): Placed
    requires list != [] && RowsFit(list, itemMap)
  {
    PlaceFrom(Prepared(before, itemMap, uuid, list), itemMap, RowNames(list[1..]), PlacedCount(list, itemMap))
  }

  function IsName(name: string): string -> bool {
    n => n == name
  }

  /** The first row with the name, the first of all when there is none. */
  function RowOf(list: seq<Row>, name: string): nat
    requires forall i :: 0 <= i < |list| ==> |list[i]| >= 1
  {
    var i := FirstIndex(RowNames(list), IsName(name));
    if i < |list| then i else 0
  }

  function PlacedCount(list: seq<Row>, itemMap: map<string, ItemId>): nat {
    if HasActiveRow(list) && list[0][0] in itemMap then 1 else 0
  }

  class ItemFrame {
    var layout: seq<ItemId>
    var itemMap: map<string, ItemId>
    var items: Items
    var uuid: string

    ghost predicate Valid()
      reads this
    {
      Consistent(layout, itemMap) && forall x :: x in layout ==> x in items
    }

    constructor ()
      ensures Valid() && layout == [] && itemMap == map[] && uuid == ""
    {
      layout, itemMap, items, uuid := [], map[], map[], "";
    }

    /** `addOneWlanFrame`: a known name is left alone. An inactive item goes to the place
        its name has in the backend's rows for the device. */
    method AddItem(name: string, widget: ItemId, active: bool, connUuid: string, list: seq<Row>)
      requires Valid() && widget !in layout && widget !in items
      requires forall i :: 0 <= i < |list| ==> |list[i]| >= 1
      modifies this
      ensures Valid()
      ensures name in old(itemMap) ==>
                layout == old(layout) && itemMap == old(itemMap) && items == old(items) && uuid == old(uuid)
      ensures name !in old(itemMap) ==>
                layout == InsertWidget(old(layout), if active then 0 else RowOf(list, name), widget) &&
                itemMap == old(itemMap)[name := widget] &&
                items == old(items)[widget := Item(active, if active then connUuid else "")] &&
                uuid == if active then connUuid else old(uuid)
    {
      if name in itemMap {
        return;
      }
      var at := 0;
      if !active {
        at := SortWlanNet(list, name);
      }
      InsertedOnce(layout, at, widget);
      itemMap := itemMap[name := widget];
      items := items[widget := Item(active, if active then connUuid else "")];
      if active {
        uuid := connUuid;
      }
      layout := InsertWidget(layout, at, widget);
    }

    /** `sortWlanNet`. */
    method SortWlanNet(list: seq<Row>, name: string) returns (index: nat)
      requires forall i :: 0 <= i < |list| ==> |list[i]| >= 1
      ensures index == RowOf(list, name)
    {
      for i := 0 to |list|
        invariant forall k :: 0 <= k < i ==> list[k][0] != name
      {
        if name == list[i][0] {
          FirstIndexUnique(RowNames(list), IsName(name), i);
          return i;
        }
      }
      FirstIndexUnique(RowNames(list), IsName(name), |list|);
      return 0;
    }

    /** `removeOneWlanFrame`. */
    method RemoveItem(name: string)
      requires Valid()
      modifies this`layout, this`itemMap
      ensures Valid() && itemMap == old(itemMap) - {name}
      ensures layout == if name in old(itemMap) then RemoveWidget(old(layout), old(itemMap)[name]) else old(layout)
    {
      if name in itemMap {
        RemovedOnce(layout, itemMap[name]);
        layout := RemoveWidget(layout, itemMap[name]);
        itemMap := itemMap - {name};
      }
    }

    /** Taking the item out and putting it first, as for an activated connection. */
    method MoveToFront(name: string)
      requires Valid() && name in itemMap
      modifies this`layout
      ensures Valid() && layout == Gathered(old(layout), [itemMap[name]])
    {
      var x := itemMap[name];
      FrontIsGathered(layout, x);
      MovedConsistent(layout, itemMap, x, 0);
      layout := InsertWidget(RemoveWidget(layout, x), 0, x);
    }

    /** Without an active row the item that carried the frame's uuid is switched off. */
    method ClearActive()
      requires Valid()
      modifies this`items, this`uuid
      ensures Valid() && uuid == "" && items == Cleared(old(items), itemMap, old(uuid))
    {
      ghost var names := Carriers(itemMap, items, uuid);
      if uuid != "" {
        var todo := itemMap.Keys;
        while todo != {}
          invariant names <= todo <= itemMap.Keys
          invariant items == old(items) && uuid == old(uuid)
          decreases |todo|
        {
          var n := FirstOf(todo);
          if items[itemMap[n]].uuid == uuid {
            assert n in names;
            KeyLeqTotal(n, FirstKey(names));
            items := items[itemMap[n] := Item(false, "")];
            uuid := "";
            return;
          }
          todo := todo - {n};
        }
        assert names == {};
      }
      uuid := "";
    }

    /** The loop over the inactive rows, from the position behind the active item. */
    method PlaceInactive(names: seq<string>, start: nat)
      requires Valid()
      modifies this`layout, this`items
      ensures Valid()
      ensures Placed(layout, items) == PlaceFrom(Placed(old(layout), old(items)), itemMap, names, start)
    {
      var frameIndex: nat := start;
      assert names[0..] == names;
      for i := 0 to |names|
        invariant Valid()
        invariant PlaceFrom(Placed(layout, items), itemMap, names[i..], frameIndex) ==
                  PlaceFrom(Placed(old(layout), old(items)), itemMap, names, start)
      {
        assert names[i..][0] == names[i] && names[i..][1..] == names[i + 1..];
        if frameIndex > |layout| - 1 {
          return;
        }
        if names[i] in itemMap {
          var x := itemMap[names[i]];
          MovedConsistent(layout, itemMap, x, frameIndex);
          layout := InsertWidget(RemoveWidget(layout, x), frameIndex, x);
          if items[x].isActive {
            items := items[x := Item(false, "")];
          }
          frameIndex := frameIndex + 1;
        }
      }
      assert names[|names|..] == [];
    }

    /** `resortWifiList`. */
    method ResortWifiList(list: seq<Row>)
      requires Valid() && RowsFit(list, itemMap)
      modifies this`layout, this`items, this`uuid
      ensures Valid()
      ensures old(layout) == [] || list == [] ==> layout == old(layout) && items == old(items) && uuid == old(uuid)
      ensures old(layout) != [] && list != [] ==>
                uuid == UuidAfter(itemMap, old(uuid), list) &&
                Placed(layout, items) == Resorted(Placed(old(layout), old(items)), itemMap, old(uuid), list)
    {
      if layout == [] || list == [] {
        return;
      }
      var frameIndex: nat := 0;
      if |list[0]| > 1 {
        if list[0][0] in itemMap {
          var x := itemMap[list[0][0]];
          MoveToFront(list[0][0]);
          items := items[x := Item(true, list[0][3])];
          uuid := list[0][3];
          frameIndex := 1;
        }
      } else {
        ClearActive();
      }
      assert Placed(layout, items) == Prepared(Placed(old(layout), old(items)), itemMap, old(uuid), list);
      PlaceInactive(RowNames(list[1..]), frameIndex);
    }
  }

  lemma FrontIsGathered(l: seq<ItemId>, x: ItemId)
    requires NoDup(l)
    ensures InsertWidget(RemoveWidget(l, x), 0, x) == Gathered(l, [x])
  {
    GatherStep(l, [], x);
    FilterAllIn(l);
    assert [] + [x] == [x];
  }

  /** The names a resort puts first: the active one if there is one, then the others. */
  function ListedNames(list: seq<Row>): seq<string>
    requires list != [] && forall i :: 1 <= i < |list| ==> |list[i]| >= 1
  {
    FirstName(list) + RowNames(list[1..])
  }

  lemma ActiveNameIsNotAgain(active: string, names: seq<string>)
    requires DistinctNames([active] + names)
    ensures active !in names
  {
    assert forall i :: 0 <= i < |names| ==> ([active] + names)[i + 1] == names[i];
    assert ([active] + names)[0] == active;
  }

  lemma KnownFromIsKnownItems(itemMap: map<string, ItemId>, names: seq<string>)
    ensures KnownFrom(itemMap, names) == KnownItems(itemMap, names)
  {
    KnownSplit(itemMap, [], names);
    assert [] + names == names;
    assert [] + KnownFrom(itemMap, names) == KnownFrom(itemMap, names);
  }

  lemma ActiveItemStays(layout: seq<ItemId>, itemMap: map<string, ItemId>, active: string, names: seq<string>)
    requires Consistent(layout, itemMap) && active in itemMap && DistinctNames([active] + names)
    ensures itemMap[active] !in KnownFrom(itemMap, names)
  {
    ActiveNameIsNotAgain(active, names);
    KnownFromIsKnownItems(itemMap, names);
    NextItemIsNew(layout, itemMap, names, active);
  }

  /** A resort yields the known names in list order, then all other items in their old
      order; every known item of an inactive row ends up inactive, the item of a known
      active row active; every other item is as it was, but for the one that loses the
      frame's uuid when no row is active. */
  lemma ResortGathers(before: Placed, itemMap: map<string, ItemId>, uuid: string, list: seq<Row>)
    requires Consistent(before.layout, itemMap) && list != [] && RowsFit(list, itemMap)
    requires DistinctNames(ListedNames(list))
    ensures var r := Resorted(before, itemMap, uuid, list);
            var off := KnownFrom(itemMap, RowNames(list[1..]));
            r.layout == Gathered(before.layout, KnownItems(itemMap, ListedNames(list))) &&
            SwitchedOff(Prepared(before, itemMap, uuid, list).items, r.items, off) &&
            (forall x :: x in off && x in r.items ==> !r.items[x].isActive) &&
            (HasActiveRow(list) && list[0][0] in itemMap ==>
               r.items[itemMap[list[0][0]]] == Item(true, list[0][3]))
  {
    if HasActiveRow(list) && list[0][0] in itemMap {
      ActiveItemStays(before.layout, itemMap, list[0][0], RowNames(list[1..]));
    }
    var mid := Prepared(before, itemMap, uuid, list);
    PreparedLayout(before, itemMap, uuid, list);
    PlaceFromGathers(before.layout, mid.items, itemMap, FirstName(list), RowNames(list[1..]));
  }

  function FirstName(list: seq<Row>): seq<string> {
    if HasActiveRow(list) then [list[0][0]] else []
  }

  lemma PreparedLayout(before: Placed, itemMap: map<string, ItemId>, uuid: string, list: seq<Row>)
    requires list != [] && RowsFit(list, itemMap)
    ensures Prepared(before, itemMap, uuid, list).layout ==
            Gathered(before.layout, KnownItems(itemMap, FirstName(list)))
    ensures PlacedCount(list, itemMap) == |KnownItems(itemMap, FirstName(list))|
  {
    var first := FirstName(list);
    FilterAllIn(before.layout);
    KnownFromIsKnownItems(itemMap, first);
    assert first != [] ==> first[1..] == [];
    assert KnownFrom(itemMap, first) ==
           if HasActiveRow(list) && list[0][0] in itemMap then [itemMap[list[0][0]]] else [];
  }

  // ----- what the parts of a resort mean ---------------------------------------------

  /** An unlisted name goes to the first place, a listed one to that of its first row. */
  lemma RowOfMeans(list: seq<Row>, name: string)
    requires forall i :: 0 <= i < |list| ==> |list[i]| >= 1
    ensures (forall i :: 0 <= i < |list| ==> list[i][0] != name) ==> RowOf(list, name) == 0
    ensures forall i :: 0 <= i < |list| && list[i][0] == name && (forall k :: 0 <= k < i ==> list[k][0] != name) ==>
              RowOf(list, name) == i
  {
    forall i | 0 <= i < |list| && list[i][0] == name && (forall k :: 0 <= k < i ==> list[k][0] != name)
      ensures RowOf(list, name) == i
    {
      FirstIndexUnique(RowNames(list), IsName(name), i);
    }
  }

  /** An inserted item stands at its index, or last when the index is past the end; the
      others keep their order. */
  lemma InsertPlaces(l: seq<ItemId>, index: nat, x: ItemId)
    ensures var r := InsertWidget(l, index, x);
            var i := if index < |l| then index else |l|;
            |r| == |l| + 1 && r[i] == x && r[..i] == l[..i] && r[i + 1..] == l[i..]
  {
  }

  /** The name carries the frame's uuid, and no earlier key does. */
  ghost predicate FirstCarrier(items: Items, itemMap: map<string, ItemId>, uuid: string, n: string) {
    n in Carriers(itemMap, items, uuid) && forall m :: m in Carriers(itemMap, items, uuid) ==> KeyLeq(n, m)
  }

  /** Without an active row one item is switched off, the carrier of the uuid that comes
      first in key order, and no item when the frame has no uuid or nobody carries it. */
  lemma ClearedEffect(items: Items, itemMap: map<string, ItemId>, uuid: string, n: string)
    requires uuid != "" && FirstCarrier(items, itemMap, uuid, n)
    ensures var after := Cleared(items, itemMap, uuid);
            after.Keys == items.Keys && after[itemMap[n]] == Item(false, "") &&
            forall x :: x in items && x != itemMap[n] ==> after[x] == items[x]
  {
    KeyLeqTotal(n, FirstKey(Carriers(itemMap, items, uuid)));
  }

  lemma ClearedNobody(items: Items, itemMap: map<string, ItemId>, uuid: string)
    requires uuid == "" ||
             forall m :: m in itemMap && itemMap[m] in items ==> items[itemMap[m]].uuid != uuid
    ensures Cleared(items, itemMap, uuid) == items
  {
  }

  /** A row of one field as the first says that nothing is active; the frame's uuid is then
      empty. With a known active row it is the uuid of the active item. */
  lemma FrameUuid(before: Placed, itemMap: map<string, ItemId>, uuid: string, list: seq<Row>)
    requires Consistent(before.layout, itemMap) && list != [] && RowsFit(list, itemMap)
    requires DistinctNames(ListedNames(list))
    ensures |list[0]| <= 1 ==> UuidAfter(itemMap, uuid, list) == ""
    ensures |list[0]| > 1 && list[0][0] !in itemMap ==> UuidAfter(itemMap, uuid, list) == uuid
    ensures |list[0]| > 1 && list[0][0] in itemMap ==>
              var items, x := Resorted(before, itemMap, uuid, list).items, itemMap[list[0][0]];
              x in items && items[x].isActive && items[x].uuid == UuidAfter(itemMap, uuid, list) == list[0][3]
  {
    ResortGathers(before, itemMap, uuid, list);
  }

  // ----- the order of the items ---------------------------------------------------------

  /** One item stands in front of another. */
  ghost predicate Before(l: seq<ItemId>, x: ItemId, y: ItemId) {
    exists i, j :: 0 <= i < j < |l| && l[i] == x && l[j] == y
  }

  lemma BeforeIn(a: seq<ItemId>, b: seq<ItemId>, x: ItemId, y: ItemId)
    ensures Before(a, x, y) || Before(b, x, y) || (x in a && y in b) ==> Before(a + b, x, y)
  {
    var l := a + b;
    if i, j :| 0 <= i < j < |a| && a[i] == x && a[j] == y {
      assert l[i] == x && l[j] == y;
    } else if i, j :| 0 <= i < j < |b| && b[i] == x && b[j] == y {
      assert l[|a| + i] == x && l[|a| + j] == y;
    } else if x in a && y in b {
      var i, j :| 0 <= i < |a| && 0 <= j < |b| && a[i] == x && b[j] == y;
      assert l[i] == x && l[|a| + j] == y;
    }
  }

  lemma {:induction false} FilterBefore(l: seq<ItemId>, p: ItemId -> bool, x: ItemId, y: ItemId)
    requires Before(l, x, y) && p(x) && p(y)
    ensures Before(Filter(l, p), x, y)
  {
    var i, j :| 0 <= i < j < |l| && l[i] == x && l[j] == y;
    var rest := Filter(l[1..], p);
    if i == 0 {
      assert l[1..][j - 1] == y && y in rest;
      BeforeIn([x], rest, x, y);
    } else {
      assert l[1..][i - 1] == x && l[1..][j - 1] == y;
      FilterBefore(l[1..], p, x, y);
      BeforeIn([l[0]], rest, x, y);
    }
  }

  lemma {:induction false} KnownBefore(itemMap: map<string, ItemId>, names: seq<string>, i: nat, j: nat)
    requires i < j < |names| && names[i] in itemMap && names[j] in itemMap
    ensures Before(KnownFrom(itemMap, names), itemMap[names[i]], itemMap[names[j]])
  {
    var rest := KnownFrom(itemMap, names[1..]);
    if i == 0 {
      KnownListed(itemMap, names[1..], j - 1);
      BeforeIn([itemMap[names[0]]], rest, itemMap[names[0]], itemMap[names[j]]);
    } else {
      KnownBefore(itemMap, names[1..], i - 1, j - 1);
      if names[0] in itemMap {
        BeforeIn([itemMap[names[0]]], rest, itemMap[names[i]], itemMap[names[j]]);
      }
    }
  }

  lemma {:induction false} KnownListed(itemMap: map<string, ItemId>, names: seq<string>, i: nat)
    requires i < |names| && names[i] in itemMap
    ensures itemMap[names[i]] in KnownFrom(itemMap, names)
  {
    if i > 0 {
      KnownListed(itemMap, names[1..], i - 1);
    }
  }

  /** The item of a known listed name stands in front of the items of the names behind it
      in the list. */
  lemma ListedOrder(before: Placed, itemMap: map<string, ItemId>, uuid: string, list: seq<Row>, i: nat, j: nat)
    requires Consistent(before.layout, itemMap) && list != [] && RowsFit(list, itemMap)
    requires DistinctNames(ListedNames(list)) && i < j < |ListedNames(list)|
    requires ListedNames(list)[i] in itemMap && ListedNames(list)[j] in itemMap
    ensures Before(Resorted(before, itemMap, uuid, list).layout,
                   itemMap[ListedNames(list)[i]], itemMap[ListedNames(list)[j]])
  {
    var names := ListedNames(list);
    ResortGathers(before, itemMap, uuid, list);
    KnownFromIsKnownItems(itemMap, names);
    KnownBefore(itemMap, names, i, j);
    BeforeIn(KnownFrom(itemMap, names), Filter(before.layout, NotIn(KnownFrom(itemMap, names))),
             itemMap[names[i]], itemMap[names[j]]);
  }

  ghost predicate Unlisted(itemMap: map<string, ItemId>, names: seq<string>, x: ItemId) {
    forall i :: 0 <= i < |names| && names[i] in itemMap ==> itemMap[names[i]] != x
  }

  lemma {:induction false} UnlistedNotKnown(itemMap: map<string, ItemId>, names: seq<string>, x: ItemId)
    requires Unlisted(itemMap, names, x)
    ensures x !in KnownFrom(itemMap, names)
  {
    if names != [] {
      assert forall i :: 0 <= i < |names[1..]| ==> names[1..][i] == names[i + 1];
      UnlistedNotKnown(itemMap, names[1..], x);
    }
  }

  /** The listed items stand in front of all others. */
  lemma ListedFirst(before: Placed, itemMap: map<string, ItemId>, uuid: string, list: seq<Row>, i: nat, y: ItemId)
    requires Consistent(before.layout, itemMap) && list != [] && RowsFit(list, itemMap)
    requires DistinctNames(ListedNames(list)) && i < |ListedNames(list)| && ListedNames(list)[i] in itemMap
    requires y in before.layout && Unlisted(itemMap, ListedNames(list), y)
    ensures Before(Resorted(before, itemMap, uuid, list).layout, itemMap[ListedNames(list)[i]], y)
  {
    var names := ListedNames(list);
    var k := KnownFrom(itemMap, names);
    ResortGathers(before, itemMap, uuid, list);
    KnownFromIsKnownItems(itemMap, names);
    UnlistedNotKnown(itemMap, names, y);
    KnownListed(itemMap, names, i);
    BeforeIn(k, Filter(before.layout, NotIn(k)), itemMap[names[i]], y);
  }

  /** Two items of no listed name keep their order. */
  lemma UnlistedOrder(before: Placed, itemMap: map<string, ItemId>, uuid: string, list: seq<Row>, x: ItemId, y: ItemId)
    requires Consistent(before.layout, itemMap) && list != [] && RowsFit(list, itemMap)
    requires DistinctNames(ListedNames(list)) && Before(before.layout, x, y)
    requires Unlisted(itemMap, ListedNames(list), x) && Unlisted(itemMap, ListedNames(list), y)
    ensures Before(Resorted(before, itemMap, uuid, list).layout, x, y)
  {
    var names := ListedNames(list);
    var k := KnownFrom(itemMap, names);
    ResortGathers(before, itemMap, uuid, list);
    KnownFromIsKnownItems(itemMap, names);
    UnlistedNotKnown(itemMap, names, x);
    UnlistedNotKnown(itemMap, names, y);
    FilterBefore(before.layout, NotIn(k), x, y);
    BeforeIn(k, Filter(before.layout, NotIn(k)), x, y);
  }
}
