/** When the incremental pass gives exactly the keeper's list, for any two lists. */
module PassCondition {
  import opened Records
  import opened SeqOps
  import opened Names
  import opened Mirror
  import opened MirrorTheorems

  // ----- the condition -------------------------------------------------------------

  function Beyond(l: seq<Record>, j: nat): Record -> bool {
    x => FindName(l, NameOf(x)) > j
  }

  /** The survivors that have their names in the list, in the list's order of names. */
  ghost predicate KeepsPlaces(s: seq<Record>, l: seq<Record>, j: nat) {
    (forall a :: 0 <= a < |s| ==> j <= FindName(l, NameOf(s[a])) < |l|) &&
    (forall a, b :: 0 <= a < b < |s| ==> FindName(l, NameOf(s[a])) < FindName(l, NameOf(s[b])))
  }

  /** A record that the mirror has to take up lands between what precedes it in the list
      and the first survivor that follows it there. */
  ghost predicate LandsRight(s: seq<Record>, l: seq<Record>, j: nat)
    requires j < |l|
  {
    var t := FirstIndex(s, Beyond(l, j));
    (forall i :: 0 <= i < j ==> !MirrorGeq(l[j], l[i])) &&
    (t < |s| ==> MirrorGeq(l[j], s[t]))
  }

  ghost predicate CondAt(s: seq<Record>, l: seq<Record>, j: nat) {
    KeepsPlaces(s, l, j) &&
    forall k :: j <= k < |l| && Fresh(s, NameOf(l[k])) ==> LandsRight(s, l, k)
  }

  /** The condition on the entries that the removal loop leaves. */
  ghost predicate Cond(s: seq<Record>, l: seq<Record>) {
    CondAt(s, l, 0)
  }

  // ----- the condition turn by turn --------------------------------------------------

  ghost predicate TurnFits(s: seq<Record>, l: seq<Record>, j: nat)
    requires j < |l|
  {
    (forall i :: 0 <= i < j ==> !MirrorGeq(l[j], l[i])) && (s != [] ==> MirrorGeq(l[j], s[0]))
  }

  ghost predicate CondFrom(s: seq<Record>, l: seq<Record>, j: nat)
    requires j <= |l|
    decreases |l| - j
  {
    if j == |l| then s == []
    else if Fresh(s, NameOf(l[j])) then TurnFits(s, l, j) && CondFrom(s, l, j + 1)
    else NameOf(s[0]) == NameOf(l[j]) && CondFrom(s[1..], l, j + 1)
  }

  lemma PlacesFresh(s: seq<Record>, l: seq<Record>, j: nat)
    requires NamesDistinct(l) && j < |l| && Fresh(s, NameOf(l[j]))
    ensures KeepsPlaces(s, l, j) <==> KeepsPlaces(s, l, j + 1)
    ensures KeepsPlaces(s, l, j) && s != [] ==> FirstIndex(s, Beyond(l, j)) == 0
  {
    FindNameAt(l, j);
    if KeepsPlaces(s, l, j) {
      forall a | 0 <= a < |s|
        ensures FindName(l, NameOf(s[a])) != j
      {
        assert NameOf(s[a]) != NameOf(l[j]);
      }
    }
  }

  lemma CondSplit(s: seq<Record>, l: seq<Record>, j: nat)
    requires j < |l| && Fresh(s, NameOf(l[j])) && (KeepsPlaces(s, l, j) <==> KeepsPlaces(s, l, j + 1))
    ensures CondAt(s, l, j) <==> LandsRight(s, l, j) && CondAt(s, l, j + 1)
  {
  }

  lemma TurnIsFresh(s: seq<Record>, l: seq<Record>, j: nat)
    requires NamesDistinct(l) && j < |l| && Fresh(s, NameOf(l[j]))
    ensures CondAt(s, l, j) <==> TurnFits(s, l, j) && CondAt(s, l, j + 1)
  {
    PlacesFresh(s, l, j);
    assert s == [] ==> FirstIndex(s, Beyond(l, j)) == 0;
    assert KeepsPlaces(s, l, j) ==> (LandsRight(s, l, j) <==> TurnFits(s, l, j));
    CondSplit(s, l, j);
  }

  lemma PlacesHead(s: seq<Record>, l: seq<Record>, j: nat)
    requires NamesDistinct(l) && j < |l| && s != [] && NameOf(s[0]) == NameOf(l[j])
    ensures KeepsPlaces(s, l, j) <==> KeepsPlaces(s[1..], l, j + 1)
  {
    var rest := s[1..];
    FindNameAt(l, j);
    assert FindName(l, NameOf(s[0])) == j;
    assert forall a :: 0 <= a < |rest| ==> rest[a] == s[a + 1];
    if KeepsPlaces(rest, l, j + 1) {
      forall a, b | 0 <= a < b < |s|
        ensures FindName(l, NameOf(s[a])) < FindName(l, NameOf(s[b]))
      {
        assert s[b] == rest[b - 1];
        assert a > 0 ==> s[a] == rest[a - 1];
      }
      forall a | 0 <= a < |s|
        ensures j <= FindName(l, NameOf(s[a])) < |l|
      {
        assert a > 0 ==> s[a] == rest[a - 1];
      }
    }
  }

  lemma HeadOut(s: seq<Record>, l: seq<Record>, j: nat, k: nat)
    requires NamesDistinct(l) && j < k < |l| && s != [] && NameOf(s[0]) == NameOf(l[j])
    ensures Fresh(s, NameOf(l[k])) <==> Fresh(s[1..], NameOf(l[k]))
    ensures LandsRight(s, l, k) <==> LandsRight(s[1..], l, k)
  {
    FindNameAt(l, j);
    FreshCons(s, NameOf(l[k]));
    assert !Beyond(l, k)(s[0]);
    assert FirstIndex(s, Beyond(l, k)) == 1 + FirstIndex(s[1..], Beyond(l, k));
  }

  /** One half: what holds for the list with its head holds for the rest. */
  lemma CondTail(s: seq<Record>, l: seq<Record>, j: nat)
    requires NamesDistinct(l) && j < |l| && s != [] && NameOf(s[0]) == NameOf(l[j])
    requires CondAt(s, l, j)
    ensures CondAt(s[1..], l, j + 1)
  {
    PlacesHead(s, l, j);
    forall k | j < k < |l| && Fresh(s[1..], NameOf(l[k]))
      ensures LandsRight(s[1..], l, k)
    {
      HeadOut(s, l, j, k);
    }
  }

  lemma CondWithHead(s: seq<Record>, l: seq<Record>, j: nat)
    requires NamesDistinct(l) && j < |l| && s != [] && NameOf(s[0]) == NameOf(l[j])
    requires CondAt(s[1..], l, j + 1)
    ensures CondAt(s, l, j)
  {
    PlacesHead(s, l, j);
    assert !Fresh(s, NameOf(l[j]));
    forall k | j <= k < |l| && Fresh(s, NameOf(l[k]))
      ensures LandsRight(s, l, k)
    {
      HeadOut(s, l, j, k);
    }
  }

  lemma TurnIsHead(s: seq<Record>, l: seq<Record>, j: nat)
    requires NamesDistinct(l) && j < |l| && s != [] && NameOf(s[0]) == NameOf(l[j])
    ensures CondAt(s, l, j) <==> CondAt(s[1..], l, j + 1)
  {
    if CondAt(s, l, j) {
      CondTail(s, l, j);
    }
    if CondAt(s[1..], l, j + 1) {
      CondWithHead(s, l, j);
    }
  }

  lemma HeadElsewhere(s: seq<Record>, l: seq<Record>, j: nat)
    requires NamesDistinct(l) && j < |l| && !Fresh(s, NameOf(l[j])) && NameOf(s[0]) != NameOf(l[j])
    ensures !CondAt(s, l, j)
  {
    var q := FindName(s, NameOf(l[j]));
    FreshIff(s, NameOf(l[j]));
    FindNameAt(l, j);
    assert q > 0 && FindName(l, NameOf(s[q])) == j;
    assert FindName(l, NameOf(s[0])) <= |l|;
  }

  lemma {:induction false} CondFromIff(s: seq<Record>, l: seq<Record>, j: nat)
    requires NamesDistinct(l) && j <= |l|
    ensures CondFrom(s, l, j) <==> CondAt(s, l, j)
    decreases |l| - j
  {
    if j < |l| {
      if Fresh(s, NameOf(l[j])) {
        TurnIsFresh(s, l, j);
        CondFromIff(s, l, j + 1);
      } else if NameOf(s[0]) == NameOf(l[j]) {
        TurnIsHead(s, l, j);
        CondFromIff(s[1..], l, j + 1);
      } else {
        HeadElsewhere(s, l, j);
      }
    } else if s != [] {
      assert FindName(l, NameOf(s[0])) <= |l|;
    }
  }

  // ----- two names keep their order -----------------------------------------------------

  ghost predicate NamePrecedes(m: seq<Record>, x: string, y: string) {
    exists a, b :: 0 <= a < b < |m| && NameOf(m[a]) == x && NameOf(m[b]) == y
  }

  lemma ReplaceKeepsNames(m: seq<Record>, i: nat, r: Record, x: string, y: string)
    requires NamePrecedes(m, x, y) && i < |m| && NameOf(r) == NameOf(m[i])
    ensures NamePrecedes(m[i := r], x, y)
  {
    var a, b :| 0 <= a < b < |m| && NameOf(m[a]) == x && NameOf(m[b]) == y;
    assert NameOf(m[i := r][a]) == x && NameOf(m[i := r][b]) == y;
  }

  lemma InsertKeepsNames(m: seq<Record>, k: nat, r: Record, x: string, y: string)
    requires NamePrecedes(m, x, y) && k <= |m|
    ensures NamePrecedes(InsertAt(m, k, r), x, y)
  {
    var a, b :| 0 <= a < b < |m| && NameOf(m[a]) == x && NameOf(m[b]) == y;
    var m' := InsertAt(m, k, r);
    var a', b' := if a < k then a else a + 1, if b < k then b else b + 1;
    assert m'[a'] == m[a] && m'[b'] == m[b];
  }

  lemma UpsertKeepsNames(p: Panel, r: Record, x: string, y: string)
    requires NamePrecedes(p.mirror, x, y)
    ensures NamePrecedes(Upsert(p, r).mirror, x, y)
  {
    var i := FindName(p.mirror, NameOf(r));
    if i < |p.mirror| {
      ReplaceKeepsNames(p.mirror, i, r, x, y);
    } else {
      InsertKeepsNames(p.mirror, MirrorSlot(p.mirror, r), r, x, y);
    }
  }

  lemma {:induction false} UpsertAllKeepsNames(p: Panel, rs: seq<Record>, x: string, y: string)
    requires NamePrecedes(p.mirror, x, y)
    ensures NamePrecedes(UpsertAll(p, rs).mirror, x, y)
    decreases |rs|
  {
    if rs != [] {
      UpsertKeepsNames(p, rs[0], x, y);
      UpsertAllKeepsNames(Upsert(p, rs[0]), rs[1..], x, y);
    }
  }

  /** In a list with distinct names the order of two names is known from one of them. */
  lemma NotBefore(l: seq<Record>, j: nat, x: string)
    requires NamesDistinct(l) && j < |l| && forall i :: 0 <= i < j ==> NameOf(l[i]) != x
    ensures !NamePrecedes(l, x, NameOf(l[j]))
  {
  }

  lemma NotAfter(l: seq<Record>, i: nat, j: nat)
    requires NamesDistinct(l) && i < j < |l|
    ensures !NamePrecedes(l, NameOf(l[j]), NameOf(l[i]))
  {
  }

  // ----- one turn of the second loop ------------------------------------------------------

  /** The list up to `j`, then `s`. */
  ghost predicate Joined(m: seq<Record>, l: seq<Record>, j: nat, s: seq<Record>) {
    j <= |l| && |m| == j + |s| &&
    (forall i :: 0 <= i < j ==> m[i] == l[i]) &&
    (forall i :: j <= i < |m| ==> m[i] == s[i - j])
  }

  /** The mirror when the first `j` records are in place: those, then what is left of the
      survivors. */
  ghost predicate Turn(p: Panel, l: seq<Record>, j: nat, s: seq<Record>) {
    Lockstep(p) && NamesDistinct(l) && Joined(p.mirror, l, j, s)
  }

  lemma FreshInRest(m: seq<Record>, l: seq<Record>, j: nat, s: seq<Record>)
    requires Joined(m, l, j, s) && NamesDistinct(l) && j < |l|
    ensures Fresh(m, NameOf(l[j])) <==> Fresh(s, NameOf(l[j]))
  {
    if Fresh(m, NameOf(l[j])) {
      forall a | 0 <= a < |s|
        ensures NameOf(s[a]) != NameOf(l[j])
      {
        assert m[j + a] == s[a];
      }
    }
  }

  lemma JoinedInsert(m: seq<Record>, l: seq<Record>, j: nat, s: seq<Record>)
    requires Joined(m, l, j, s) && j < |l|
    ensures Joined(InsertAt(m, j, l[j]), l, j + 1, s)
  {
    var m' := InsertAt(m, j, l[j]);
    forall i | 0 <= i < |m'|
      ensures m'[i] == if i < j then m[i] else if i == j then l[j] else m[i - 1]
    {
    }
  }

  lemma JoinedReplace(m: seq<Record>, l: seq<Record>, j: nat, s: seq<Record>)
    requires Joined(m, l, j, s) && j < |l| && s != []
    ensures Joined(m[j := l[j]], l, j + 1, s[1..])
  {
  }

  lemma FreshTurn(p: Panel, l: seq<Record>, j: nat, s: seq<Record>)
    requires Turn(p, l, j, s) && j < |l| && Fresh(s, NameOf(l[j])) && TurnFits(s, l, j)
    ensures Turn(Upsert(p, l[j]), l, j + 1, s)
  {
    FreshInRest(p.mirror, l, j, s);
    FreshIff(p.mirror, NameOf(l[j]));
    UpsertLockstep(p, l[j]);
    FirstIndexUnique(p.mirror, MirrorReaches(l[j]), j);
    JoinedInsert(p.mirror, l, j, s);
  }

  lemma HeadTurn(p: Panel, l: seq<Record>, j: nat, s: seq<Record>)
    requires Turn(p, l, j, s) && j < |l| && s != [] && NameOf(s[0]) == NameOf(l[j])
    ensures Turn(Upsert(p, l[j]), l, j + 1, s[1..])
  {
    UpsertLockstep(p, l[j]);
    assert p.mirror[j] == s[0];
    FindNameAt(p.mirror, j);
    JoinedReplace(p.mirror, l, j, s);
  }

  lemma InsertedBefore(m: seq<Record>, k: nat, r: Record, i: nat)
    requires k <= i < |m|
    ensures NamePrecedes(InsertAt(m, k, r), NameOf(r), NameOf(m[i]))
  {
    var m' := InsertAt(m, k, r);
    assert m'[k] == r && m'[i + 1] == m[i];
  }

  lemma InsertedAfter(m: seq<Record>, k: nat, r: Record, i: nat)
    requires i < k <= |m|
    ensures NamePrecedes(InsertAt(m, k, r), NameOf(m[i]), NameOf(r))
  {
    var m' := InsertAt(m, k, r);
    assert m'[i] == m[i] && m'[k] == r;
  }

  /** A turn that puts the record in front of one before it in the list. */
  lemma LandsTooEarly(p: Panel, l: seq<Record>, j: nat, s: seq<Record>, i: nat)
    requires Turn(p, l, j, s) && j < |l| && Fresh(s, NameOf(l[j])) && i < j && MirrorGeq(l[j], l[i])
    ensures NamePrecedes(Upsert(p, l[j]).mirror, NameOf(l[j]), NameOf(l[i]))
  {
    FreshInRest(p.mirror, l, j, s);
    FreshIff(p.mirror, NameOf(l[j]));
    assert p.mirror[i] == l[i];
    InsertedBefore(p.mirror, MirrorSlot(p.mirror, l[j]), l[j], i);
  }

  /** A turn that puts the record behind the first survivor left. */
  lemma LandsTooLate(p: Panel, l: seq<Record>, j: nat, s: seq<Record>)
    requires Turn(p, l, j, s) && j < |l| && Fresh(s, NameOf(l[j])) && s != []
    requires (forall i :: 0 <= i < j ==> !MirrorGeq(l[j], l[i])) && !MirrorGeq(l[j], s[0])
    ensures NamePrecedes(Upsert(p, l[j]).mirror, NameOf(s[0]), NameOf(l[j]))
  {
    FreshInRest(p.mirror, l, j, s);
    FreshIff(p.mirror, NameOf(l[j]));
    var k := MirrorSlot(p.mirror, l[j]);
    assert p.mirror[j] == s[0];
    assert k < |p.mirror| ==> k > j;
    InsertedAfter(p.mirror, k, l[j], j);
  }

  /** A turn that updates an entry behind the first survivor left. */
  lemma UpdatesTooLate(m: seq<Record>, l: seq<Record>, j: nat, s: seq<Record>)
    requires Joined(m, l, j, s) && j < |l| && !Fresh(s, NameOf(l[j])) && NameOf(s[0]) != NameOf(l[j])
    ensures NamePrecedes(m, NameOf(s[0]), NameOf(l[j]))
  {
    var q := FindName(s, NameOf(l[j]));
    FreshIff(s, NameOf(l[j]));
    assert m[j] == s[0] && m[j + q] == s[q] && q > 0;
  }

  lemma SurvivorIsNew(p: Panel, l: seq<Record>, j: nat, s: seq<Record>)
    requires Turn(p, l, j, s) && j < |l| && s != [] && NameOf(s[0]) != NameOf(l[j])
    ensures !NamePrecedes(l, NameOf(s[0]), NameOf(l[j]))
  {
    var m := p.mirror;
    assert m[j] == s[0];
    forall i | 0 <= i < j
      ensures NameOf(l[i]) != NameOf(s[0])
    {
      assert m[i] == l[i];
    }
    NotBefore(l, j, NameOf(s[0]));
  }

  /** From the point where the first `j` records are in place the rest of the loop gives
      the list exactly under the condition. */
  lemma {:induction false} TurnIff(p: Panel, l: seq<Record>, j: nat, s: seq<Record>)
    requires Turn(p, l, j, s)
    ensures UpsertAll(p, l[j..]).mirror == l <==> CondFrom(s, l, j)
    decreases |l| - j
  {
    if j == |l| {
      assert l[j..] == [];
      assert s == [] ==> p.mirror == l;
    } else {
      var p' := Upsert(p, l[j]);
      assert l[j..][0] == l[j] && l[j..][1..] == l[j + 1..];
      assert UpsertAll(p, l[j..]) == UpsertAll(p', l[j + 1..]);
      if Fresh(s, NameOf(l[j])) {
        FreshTurnIff(p, l, j, s);
        if TurnFits(s, l, j) {
          FreshTurn(p, l, j, s);
          TurnIff(p', l, j + 1, s);
        }
      } else if NameOf(s[0]) == NameOf(l[j]) {
        HeadTurn(p, l, j, s);
        TurnIff(p', l, j + 1, s[1..]);
      } else {
        UpdatesTooLate(p.mirror, l, j, s);
        UpsertAllKeepsNames(p, l[j..], NameOf(s[0]), NameOf(l[j]));
        SurvivorIsNew(p, l, j, s);
      }
    }
  }

  /** A turn that does not fit spoils the result. */
  lemma FreshTurnIff(p: Panel, l: seq<Record>, j: nat, s: seq<Record>)
    requires Turn(p, l, j, s) && j < |l| && Fresh(s, NameOf(l[j]))
    ensures UpsertAll(Upsert(p, l[j]), l[j + 1..]).mirror == l ==> TurnFits(s, l, j)
  {
    var p' := Upsert(p, l[j]);
    if i :| 0 <= i < j && MirrorGeq(l[j], l[i]) {
      LandsTooEarly(p, l, j, s, i);
      UpsertAllKeepsNames(p', l[j + 1..], NameOf(l[j]), NameOf(l[i]));
      NotAfter(l, i, j);
    } else if s != [] && !MirrorGeq(l[j], s[0]) {
      LandsTooLate(p, l, j, s);
      UpsertAllKeepsNames(p', l[j + 1..], NameOf(s[0]), NameOf(l[j]));
      assert NameOf(s[0]) != NameOf(l[j]);
      SurvivorIsNew(p, l, j, s);
    }
  }

  /** For any mirror and any list, names shared or not: the pass gives exactly the list
      if and only if the entries left by the removal loop meet the condition. */
  lemma PassIff(p: Panel, l: seq<Record>)
    requires Lockstep(p) && NamesDistinct(l)
    ensures DiffPass(p, l) == Loaded(l) <==> Cond(Survivors(p.mirror, l), l)
  {
    var d, s := DropStale(p, 0, l), Survivors(p.mirror, l);
    DropStaleLockstep(p, 0, l);
    DropStaleIsSurvivors(p, l);
    assert l[0..] == l;
    TurnIff(d, l, 0, s);
    CondFromIff(s, l, 0);
    DiffPassLockstep(p, l);
  }
}
