/** The incremental pass against the full rebuild, and the rows against the mirror. */
module MirrorTheorems {
  import opened Records
  import opened SeqOps
  import opened Names
  import opened NetDevices
  import opened KeeperOrder
  import opened ViewModel
  import opened Mirror

  /** Rows and mirror in lockstep, names pairwise different. */
  ghost predicate Lockstep(p: Panel) {
    p.rows == ToRows(p.mirror) && NamesDistinct(p.mirror)
  }

  function Stale(list: seq<Record>): Record -> bool {
    r => r !in list
  }

  // ----- the removal loop ----------------------------------------------------

  lemma {:induction false} DropStaleMirror(p: Panel, i: nat, list: seq<Record>)
    ensures DropStale(p, i, list).mirror == SkipFrom(p.mirror, i, Stale(list))
    decreases |p.mirror| - i
  {
    if i < |p.mirror| {
      SkippingStep(p.mirror, i, Stale(list));
      if p.mirror[i] in list {
        DropStaleMirror(p, i + 1, list);
      } else {
        DropStaleMirror(PanelDrop(p, i), i + 1, list);
      }
    }
  }

  lemma {:induction false} DropStaleLockstep(p: Panel, i: nat, list: seq<Record>)
    requires Lockstep(p)
    ensures Lockstep(DropStale(p, i, list))
    decreases |p.mirror| - i
  {
    if i < |p.mirror| {
      if p.mirror[i] in list {
        DropStaleLockstep(p, i + 1, list);
      } else {
        LockstepRemove(p.mirror, i);
        DistinctRemoveAt(p.mirror, i);
        DropStaleLockstep(PanelDrop(p, i), i + 1, list);
      }
    }
  }

  // ----- the insert-or-replace loop --------------------------------------------

  lemma UpsertLockstep(p: Panel, r: Record)
    requires Lockstep(p)
    ensures Lockstep(Upsert(p, r))
  {
    var i := FindName(p.mirror, NameOf(r));
    if i < |p.mirror| {
      LockstepReplace(p.mirror, i, r);
      DistinctReplace(p.mirror, i, r);
    } else {
      var k := MirrorSlot(p.mirror, r);
      LockstepInsert(p.mirror, k, r);
      DistinctInsertAt(p.mirror, k, r);
    }
  }

  lemma UpsertMembers(p: Panel, r: Record, x: Record)
    requires NamesDistinct(p.mirror)
    ensures x in Upsert(p, r).mirror <==> x == r || (x in p.mirror && NameOf(x) != NameOf(r))
  {
    var l := p.mirror;
    var i := FindName(l, NameOf(r));
    if i < |l| {
      var s := l[i := r];
      if x in l && NameOf(x) != NameOf(r) {
        var k :| 0 <= k < |l| && l[k] == x;
        assert s[k] == x;
      }
      assert s[i] == r;
      if x in s && x != r {
        var k :| 0 <= k < |s| && s[k] == x;
        assert l[k] == x && k != i;
      }
    } else {
      assert forall y :: y in InsertAt(l, MirrorSlot(l, r), r) <==> y == r || y in l by {
        assert l == l[..MirrorSlot(l, r)] + l[MirrorSlot(l, r)..];
      }
    }
  }

  lemma {:induction false} UpsertAllLockstep(p: Panel, list: seq<Record>)
    requires Lockstep(p)
    ensures Lockstep(UpsertAll(p, list))
    decreases |list|
  {
    if list != [] {
      UpsertLockstep(p, list[0]);
      UpsertAllLockstep(Upsert(p, list[0]), list[1..]);
    }
  }

  lemma MemberCons(list: seq<Record>, x: Record)
    requires list != []
    ensures x in list <==> x == list[0] || x in list[1..]
  {
  }

  lemma DistinctTail(list: seq<Record>)
    requires NamesDistinct(list) && list != []
    ensures NamesDistinct(list[1..]) && Fresh(list[1..], NameOf(list[0]))
  {
  }

  lemma {:induction false} UpsertAllMembers(p: Panel, list: seq<Record>, x: Record)
    requires Lockstep(p) && NamesDistinct(list)
    ensures x in UpsertAll(p, list).mirror <==> x in list || (x in p.mirror && Fresh(list, NameOf(x)))
    decreases |list|
  {
    if list != [] {
      UpsertLockstep(p, list[0]);
      UpsertMembers(p, list[0], x);
      DistinctTail(list);
      UpsertAllMembers(Upsert(p, list[0]), list[1..], x);
      MemberCons(list, x);
      FreshCons(list, NameOf(x));
    }
  }

  lemma FreshCons(list: seq<Record>, name: string)
    requires list != []
    ensures Fresh(list, name) <==> name != NameOf(list[0]) && Fresh(list[1..], name)
  {
  }

  // ----- the pass as a whole ------------------------------------------------------

  lemma DiffPassLockstep(p: Panel, list: seq<Record>)
    requires Lockstep(p)
    ensures Lockstep(DiffPass(p, list))
  {
    DropStaleLockstep(p, 0, list);
    UpsertAllLockstep(DropStale(p, 0, list), list);
  }

  function Survivors(mirror: seq<Record>, list: seq<Record>): seq<Record> {
    RemoveSkipping(mirror, Stale(list))
  }

  lemma DropStaleIsSurvivors(p: Panel, list: seq<Record>)
    ensures DropStale(p, 0, list).mirror == Survivors(p.mirror, list)
  {
    DropStaleMirror(p, 0, list);
    SkipFromStart(p.mirror, Stale(list));
  }

  /** For any two duplicate-free lists the pass leaves a duplicate-free mirror
      that holds every keeper record, and beyond those only entries that the
      removal loop passed over and whose name the keeper no longer has. */
  lemma DiffPassMembers(p: Panel, list: seq<Record>)
    requires Lockstep(p) && NamesDistinct(list)
    ensures Lockstep(DiffPass(p, list))
    ensures forall x :: x in DiffPass(p, list).mirror <==>
              x in list || (x in Survivors(p.mirror, list) && Fresh(list, NameOf(x)))
  {
    DiffPassLockstep(p, list);
    DropStaleLockstep(p, 0, list);
    DropStaleIsSurvivors(p, list);
    forall x
      ensures x in DiffPass(p, list).mirror <==>
              x in list || (x in Survivors(p.mirror, list) && Fresh(list, NameOf(x)))
    {
      UpsertAllMembers(DropStale(p, 0, list), list, x);
    }
  }

  /** An extra is a stale entry that directly follows a removed stale entry. */
  lemma ExtrasAreSkipped(p: Panel, list: seq<Record>, x: Record)
    requires Lockstep(p) && NamesDistinct(list)
    requires x in DiffPass(p, list).mirror && x !in list
    ensures exists i :: 0 < i < |p.mirror| && p.mirror[i] == x && Stale(list)(x) &&
                        Removed(p.mirror, Stale(list), i - 1)
  {
    DiffPassMembers(p, list);
    SkippingSurvivors(p.mirror, Stale(list), x);
    var i :| 0 <= i < |p.mirror| && p.mirror[i] == x && !Removed(p.mirror, Stale(list), i);
    assert Removed(p.mirror, Stale(list), i - 1);
  }

  /** The mirror becomes a permutation of the keeper list exactly when every entry
      the removal loop leaves has its name in the keeper list; two stale entries
      never being adjacent is enough. */
  lemma DiffPassPermutesIff(p: Panel, list: seq<Record>)
    requires Lockstep(p) && NamesDistinct(list)
    ensures multiset(DiffPass(p, list).mirror) == multiset(list) <==>
            forall x :: x in Survivors(p.mirror, list) ==> !Fresh(list, NameOf(x))
    ensures NoTwoAdjacent(p.mirror, Stale(list)) ==>
            multiset(DiffPass(p, list).mirror) == multiset(list)
  {
    var m := DiffPass(p, list).mirror;
    DiffPassMembers(p, list);
    SameMembers(m, list);
    if forall x :: x in Survivors(p.mirror, list) ==> !Fresh(list, NameOf(x)) {
      assert forall x :: x in m <==> x in list;
    }
    if x :| x in Survivors(p.mirror, list) && Fresh(list, NameOf(x)) {
      FreshNotIn(list, x);
      assert x in m && x !in list;
    }
    if NoTwoAdjacent(p.mirror, Stale(list)) {
      SkippingRemovesAllIff(p.mirror, Stale(list));
      forall x | x in Survivors(p.mirror, list)
        ensures !Fresh(list, NameOf(x))
      {
        var k :| 0 <= k < |Survivors(p.mirror, list)| && Survivors(p.mirror, list)[k] == x;
        assert !Stale(list)(x);
      }
    }
  }

  /** Two adjacent stale entries: the second one stays in the mirror. */
  lemma AdjacentStaleSurvives()
    ensures var a: Record := map[Name := Str("a")];
            var b: Record := map[Name := Str("b")];
            DiffPass(Loaded([a, b]), []).mirror == [b]
  {
  }

  // ----- incremental equals rebuild, one change at a time --------------------------

  lemma {:induction false} UpsertAllSame(p: Panel, list: seq<Record>)
    requires Lockstep(p)
    requires forall i :: 0 <= i < |list| ==> list[i] in p.mirror
    ensures UpsertAll(p, list) == p
    decreases |list|
  {
    if list != [] {
      var r := list[0];
      var k :| 0 <= k < |p.mirror| && p.mirror[k] == r;
      FindNameAt(p.mirror, k);
      LockstepReplace(p.mirror, k, r);
      assert p.mirror[k := r] == p.mirror;
      UpsertAllSame(p, list[1..]);
    }
  }

  lemma {:induction false} UpsertAllAppend(p: Panel, a: seq<Record>, b: seq<Record>)
    ensures UpsertAll(p, a + b) == UpsertAll(UpsertAll(p, a), b)
    decreases |a|
  {
    if a == [] {
      assert a + b == b;
    } else {
      assert (a + b)[1..] == a[1..] + b;
      UpsertAllAppend(Upsert(p, a[0]), a[1..], b);
    }
  }

  lemma NothingStale(p: Panel, list: seq<Record>)
    requires forall i :: 0 <= i < |p.mirror| ==> p.mirror[i] in list
    ensures DropStale(p, 0, list) == p
  {
    NothingStaleFrom(p, 0, list);
  }

  lemma {:induction false} NothingStaleFrom(p: Panel, i: nat, list: seq<Record>)
    requires forall k :: 0 <= k < |p.mirror| ==> p.mirror[k] in list
    ensures DropStale(p, i, list) == p
    decreases |p.mirror| - i
  {
    if i < |p.mirror| {
      NothingStaleFrom(p, i + 1, list);
    }
  }

  /** No change on the device: the pass changes nothing. */
  lemma DiffUnchanged(l: seq<Record>)
    requires NamesDistinct(l)
    ensures DiffPass(Loaded(l), l) == Loaded(l)
  {
    NothingStale(Loaded(l), l);
    UpsertAllSame(Loaded(l), l);
  }

  ghost predicate ConfiguredBit(r: Record) {
    ConfiguredOf(r) == 0 || ConfiguredOf(r) == 1
  }

  ghost predicate ConfiguredBits(l: seq<Record>) {
    forall i :: 0 <= i < |l| ==> ConfiguredBit(l[i])
  }

  /** The two copies of the sorting rule pick the same place when Configured is 0 or 1. */
  lemma SlotsAgree(l: seq<Record>, r: Record)
    requires ConfiguredBits(l) && ConfiguredBit(r)
    ensures MirrorSlot(l, r) == Slot(l, r)
  {
  }

  /** One insertion on the device: the pass inserts at the same place. */
  lemma DiffAfterInsert(l: seq<Record>, r: Record)
    requires NamesDistinct(l) && Fresh(l, NameOf(r))
    ensures var l' := InsertAt(l, MirrorSlot(l, r), r);
            DiffPass(Loaded(l), l') == Loaded(l')
  {
    var k := MirrorSlot(l, r);
    var l' := InsertAt(l, k, r);
    var p := Loaded(l);
    assert l == l[..k] + l[k..];
    NothingStale(p, l');
    UpsertAllAppend(p, l[..k] + [r], l[k..]);
    UpsertAllAppend(p, l[..k], [r]);
    UpsertAllSame(p, l[..k]);
    FreshIff(l, NameOf(r));
    LockstepInsert(l, k, r);
    assert UpsertAll(p, [r]) == UpsertAll(Upsert(p, r), []);
    assert UpsertAll(p, [r]) == Loaded(l');
    DistinctInsertAt(l, k, r);
    UpsertAllSame(Loaded(l'), l[k..]);
  }

  /** One removal on the device: the pass removes the same entry. */
  lemma DiffAfterRemove(l: seq<Record>, i: nat)
    requires NamesDistinct(l) && i < |l|
    ensures DiffPass(Loaded(l), RemoveAt(l, i)) == Loaded(RemoveAt(l, i))
  {
    var l' := RemoveAt(l, i);
    var p := Loaded(l);
    DistinctRemoveAt(l, i);
    FreshNotIn(l', l[i]);
    forall k | 0 <= k < |l| && k != i
      ensures !Stale(l')(l[k])
    {
      assert l'[if k < i then k else k - 1] == l[k];
    }
    SkippingSingle(l, Stale(l'), i);
    DropStaleIsSurvivors(p, l');
    DropStaleLockstep(p, 0, l');
    assert DropStale(p, 0, l') == Loaded(l');
    UpsertAllSame(Loaded(l'), l');
  }

  // ----- property updates -----------------------------------------------------------

  lemma MoveInLockstep(l: seq<Record>, i: nat, k: nat, c: Record)
    requires NamesDistinct(l) && i < |l| && k < |l| && NameOf(c) == NameOf(l[i])
    requires Active(c) ==> k == 0
    ensures MoveTo(Loaded(l), i, k, c) == Loaded(InsertAt(RemoveAt(l, i), k, c))
  {
    if i == k {
      LockstepReplace(l, i, c);
      SameSpot(l, i, c);
    } else {
      var rest := RemoveAt(l, i);
      LockstepRemove(l, i);
      LockstepInsert(rest, k, c);
      assert MoveTo(Loaded(l), i, k, c).mirror == InsertAt(rest, k, c);
      assert MoveTo(Loaded(l), i, k, c).rows == RowAdd(ToRows(rest), k, ToRow(c));
    }
  }

  lemma SameSpot(l: seq<Record>, i: nat, c: Record)
    requires i < |l|
    ensures l[i := c] == InsertAt(RemoveAt(l, i), i, c)
  {
  }

  /** Where a property update puts the record. */
  lemma UpdatedPlace(l: seq<Record>, parm: Record)
    requires NamesDistinct(l) && FindName(l, NameOf(parm)) < |l|
    ensures var i := FindName(l, NameOf(parm));
            var rest, c := RemoveAt(l, i), Patched(l[i], parm);
            var k, l' := Slot(rest, c), UpdateProp(l, parm);
            NameOf(c) == NameOf(l[i]) && k <= |rest| && l' == InsertAt(rest, k, c) &&
            FindName(l', NameOf(parm)) == k < |l'| && l'[k] == c && (Active(c) ==> k == 0)
  {
    UpdatePropNames(l, parm);
    var i := FindName(l, NameOf(parm));
    var rest, c := RemoveAt(l, i), Patched(l[i], parm);
    InsertThenRemove(rest, Slot(rest, c), c);
    assert Active(c) && rest != [] ==> Geq(c, rest[0]);
  }

  /** A property update from sync: the move lands where the keeper put the record,
      and the index exists. */
  lemma PropAfterUpdate(l: seq<Record>, parm: Record)
    requires NamesDistinct(l)
    ensures var l' := UpdateProp(l, parm);
            PanelFits(Loaded(l), false, l', NameOf(parm)) &&
            PropPanel(Loaded(l), false, l', NameOf(parm)) == Loaded(l')
  {
    var i := FindName(l, NameOf(parm));
    if i < |l| {
      UpdatedPlace(l, parm);
      var rest, c := RemoveAt(l, i), Patched(l[i], parm);
      MoveInLockstep(l, i, Slot(rest, c), c);
    }
  }

  /** The keeper's place for the updated record is one the rows have, not counting the
      row that is taken out first. */
  predicate RankFits(p: Panel, paused: bool, l: seq<Record>, parm: Record) {
    var i := FindName(l, NameOf(parm));
    p.rows == [] || i == |l| || paused ||
    Slot(RemoveAt(l, i), Patched(l[i], parm)) <=
    |p.rows| - (if FindName(p.mirror, NameOf(parm)) < |p.mirror| then 1 else 0)
  }

  /** The index that a property update asks the view model for exists exactly when the
      rank that the record gets in the keeper fits the number of rows. */
  lemma PropIndexIff(p: Panel, paused: bool, l: seq<Record>, parm: Record)
    requires Lockstep(p) && NamesDistinct(l)
    ensures PanelFits(p, paused, UpdateProp(l, parm), NameOf(parm)) <==> RankFits(p, paused, l, parm)
  {
    if FindName(l, NameOf(parm)) < |l| {
      UpdatedPlace(l, parm);
    }
  }

  /** Then the update leaves the rows in lockstep whatever the mirror holds: an active
      record just updated stands first in the keeper. */
  lemma PropLockstep(p: Panel, paused: bool, l: seq<Record>, parm: Record)
    requires Lockstep(p) && NamesDistinct(l)
    ensures RankFits(p, paused, l, parm) ==> Lockstep(PropPanel(p, paused, UpdateProp(l, parm), NameOf(parm)))
  {
    PropIndexIff(p, paused, l, parm);
    var name := NameOf(parm);
    var l' := UpdateProp(l, parm);
    UpdatePropNames(l, parm);
    var k := FindName(l', name);
    if p.mirror != [] && k < |l'| && RankFits(p, paused, l, parm) {
      FreshIff(l, name);
      if FindName(l, name) < |l| {
        UpdatedPlace(l, parm);
      }
      PatchLockstep(p, paused, l', name);
    }
  }

  lemma PatchLockstep(p: Panel, paused: bool, l': seq<Record>, name: string)
    requires Lockstep(p) && NamesDistinct(l') && PanelFits(p, paused, l', name)
    requires var k := FindName(l', name); p.mirror != [] && k < |l'| && (Active(l'[k]) ==> k == 0)
    ensures Lockstep(PropPanel(p, paused, l', name))
  {
    var k, oldIdx := FindName(l', name), FindName(p.mirror, name);
    var c := l'[k];
    if oldIdx < |p.mirror| {
      LockstepReplace(p.mirror, oldIdx, c);
      DistinctReplace(p.mirror, oldIdx, c);
      if !paused && oldIdx != k {
        LockstepRemove(p.mirror, oldIdx);
        DistinctRemoveAt(p.mirror, oldIdx);
        LockstepInsert(RemoveAt(p.mirror, oldIdx), k, c);
        DistinctInsertAt(RemoveAt(p.mirror, oldIdx), k, c);
      }
    } else if !paused {
      FreshIff(p.mirror, name);
      LockstepInsert(p.mirror, k, c);
      DistinctInsertAt(p.mirror, k, c);
    }
  }

  lemma BagCancel(a: multiset<Record>, b: multiset<Record>, x: Record)
    requires a + multiset{x} == b + multiset{x}
    ensures a == b
  {
    assert a == a + multiset{x} - multiset{x};
    assert b == b + multiset{x} - multiset{x};
  }

  lemma BagReplace(m: seq<Record>, j: nat, c: Record)
    requires j < |m|
    ensures multiset(m[j := c]) == multiset(RemoveAt(m, j)) + multiset{c}
  {
    SameSpot(m, j, c);
    MultisetInsertAt(RemoveAt(m, j), j, c);
  }

  lemma ReplaceInBag(m: seq<Record>, j: nat, l: seq<Record>, i: nat, k: nat, c: Record)
    requires multiset(m) == multiset(l) && j < |m| && i < |l| && m[j] == l[i] && k < |l|
    ensures multiset(m[j := c]) == multiset(InsertAt(RemoveAt(l, i), k, c))
  {
    MultisetRemoveAt(l, i);
    MultisetRemoveAt(m, j);
    BagCancel(multiset(RemoveAt(m, j)), multiset(RemoveAt(l, i)), l[i]);
    BagReplace(m, j, c);
    MultisetInsertAt(RemoveAt(l, i), k, c);
  }

  lemma PausedReplace(p: Panel, j: nat, c: Record, list: seq<Record>, k: nat)
    requires NamesDistinct(p.mirror) && j < |p.mirror| && NameOf(c) == NameOf(p.mirror[j])
    requires k == FindName(list, NameOf(c)) && k < |list| && list[k] == c
    ensures PropPanel(p, true, list, NameOf(c)).mirror == p.mirror[j := c]
    ensures NameSeq(p.mirror[j := c]) == NameSeq(p.mirror)
  {
  }

  /** While paused, an update of one record keeps the names where they are and
      makes the same replacement in the mirror as in the keeper. */
  lemma PausedUpdate(p: Panel, l: seq<Record>, parm: Record)
    requires Lockstep(p) && NamesDistinct(l)
    requires multiset(p.mirror) == multiset(l)
    ensures var l' := UpdateProp(l, parm);
            var p' := PropPanel(p, true, l', NameOf(parm));
            Lockstep(p') && NamesDistinct(l') &&
            multiset(p'.mirror) == multiset(l') &&
            NameSeq(p'.mirror) == NameSeq(p.mirror)
  {
    PropLockstep(p, true, l, parm);
    UpdatePropNames(l, parm);
    if FindName(l, NameOf(parm)) < |l| {
      PausedFound(p, l, parm);
    } else if p.mirror == [] {
      assert |multiset(l)| == 0;
    }
  }

  lemma PausedFound(p: Panel, l: seq<Record>, parm: Record)
    requires NamesDistinct(p.mirror) && NamesDistinct(l)
    requires multiset(p.mirror) == multiset(l) && FindName(l, NameOf(parm)) < |l|
    ensures var l' := UpdateProp(l, parm);
            var p' := PropPanel(p, true, l', NameOf(parm));
            multiset(p'.mirror) == multiset(l') && NameSeq(p'.mirror) == NameSeq(p.mirror)
  {
    UpdatePropNames(l, parm);
    var i := FindName(l, NameOf(parm));
    var c := Patched(l[i], parm);
    var k := Slot(RemoveAt(l, i), c);
    assert l[i] in multiset(p.mirror);
    var j :| 0 <= j < |p.mirror| && p.mirror[j] == l[i];
    PausedReplace(p, j, c, UpdateProp(l, parm), k);
    ReplaceInBag(p.mirror, j, l, i, k, c);
  }
}
