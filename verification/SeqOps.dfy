/** List operations shared by the modules: positional insert and remove, first
    index, and the skipping removal loop that several source files share. */
module SeqOps {

  function RemoveAt<T>(s: seq<T>, i: nat): seq<T>
    requires i < |s|
  {
    s[..i] + s[i + 1..]
  }

  function InsertAt<T>(s: seq<T>, i: nat, x: T): seq<T>
    requires i <= |s|
  {
    s[..i] + [x] + s[i..]
  }

  /** Position of the first element that satisfies `p`; the length when there is none. */
  function FirstIndex<T>(s: seq<T>, p: T -> bool): (i: nat)
    ensures i <= |s|
    ensures forall k :: 0 <= k < i ==> !p(s[k])
    ensures i < |s| ==> p(s[i])
  {
    if s == [] then 0 else if p(s[0]) then 0 else 1 + FirstIndex(s[1..], p)
  }

  lemma FirstIndexUnique<T>(s: seq<T>, p: T -> bool, i: nat)
    requires i <= |s|
    requires forall k :: 0 <= k < i ==> !p(s[k])
    requires i < |s| ==> p(s[i])
    ensures FirstIndex(s, p) == i
  {
  }

  function Filter<T(!new)>(s: seq<T>, p: T -> bool): (r: seq<T>)
    ensures forall x :: x in r <==> x in s && p(x)
  {
    if s == [] then []
    else if p(s[0]) then [s[0]] + Filter(s[1..], p)
    else Filter(s[1..], p)
  }

  /** What a loop that advances its index even after `removeAt(i)` leaves behind:
      the element that follows a removed one is never looked at. */
  function RemoveSkipping<T>(s: seq<T>, bad: T -> bool): seq<T>
  {
    if s == [] then []
    else if !bad(s[0]) then [s[0]] + RemoveSkipping(s[1..], bad)
    else if |s| == 1 then []
    else [s[1]] + RemoveSkipping(s[2..], bad)
  }

  function Not<T>(p: T -> bool): T -> bool {
    x => !p(x)
  }

  ghost predicate NoTwoAdjacent<T>(s: seq<T>, bad: T -> bool) {
    forall i :: 0 <= i < |s| - 1 ==> !(bad(s[i]) && bad(s[i + 1]))
  }

  ghost predicate NoneOf<T>(s: seq<T>, bad: T -> bool) {
    forall i :: 0 <= i < |s| ==> !bad(s[i])
  }

  lemma {:induction false} SkippingKeepsElements<T(!new)>(s: seq<T>, bad: T -> bool)
    ensures multiset(RemoveSkipping(s, bad)) <= multiset(s)
    ensures forall x :: x in RemoveSkipping(s, bad) ==> x in s
    ensures forall x :: x in s && !bad(x) ==> x in RemoveSkipping(s, bad)
  {
    if s == [] {
    } else if !bad(s[0]) {
      SkippingKeepsElements(s[1..], bad);
      assert s == [s[0]] + s[1..];
    } else if |s| > 1 {
      SkippingKeepsElements(s[2..], bad);
      assert s == [s[0]] + [s[1]] + s[2..];
    }
  }

  lemma NoneOfCons<T>(x: T, t: seq<T>, bad: T -> bool)
    ensures NoneOf([x] + t, bad) <==> !bad(x) && NoneOf(t, bad)
  {
    assert ([x] + t)[0] == x && forall i :: 0 <= i < |t| ==> t[i] == ([x] + t)[i + 1];
  }

  lemma AdjacentBehindGood<T>(s: seq<T>, bad: T -> bool)
    requires s != [] && !bad(s[0])
    ensures NoTwoAdjacent(s, bad) <==> NoTwoAdjacent(s[1..], bad)
  {
    assert forall i :: 0 <= i < |s[1..]| ==> s[1..][i] == s[i + 1];
    assert forall i :: 0 < i < |s| ==> s[i] == s[1..][i - 1];
  }

  lemma AdjacentBehindBad<T>(s: seq<T>, bad: T -> bool)
    requires |s| > 1 && bad(s[0])
    ensures NoTwoAdjacent(s, bad) <==> !bad(s[1]) && NoTwoAdjacent(s[2..], bad)
  {
    if !bad(s[1]) {
      AdjacentBehindGood(s[1..], bad);
      assert s[1..][1..] == s[2..];
      assert forall i :: 0 <= i < |s[1..]| ==> s[1..][i] == s[i + 1];
      assert forall i :: 0 < i < |s| ==> s[i] == s[1..][i - 1];
    }
  }

  /** The loop removes every bad element exactly when no two of them are adjacent. */
  lemma {:induction false} SkippingRemovesAllIff<T(!new)>(s: seq<T>, bad: T -> bool)
    ensures NoneOf(RemoveSkipping(s, bad), bad) <==> NoTwoAdjacent(s, bad)
    ensures NoTwoAdjacent(s, bad) ==> RemoveSkipping(s, bad) == Filter(s, Not(bad))
  {
    if s == [] {
    } else if !bad(s[0]) {
      SkippingRemovesAllIff(s[1..], bad);
      NoneOfCons(s[0], RemoveSkipping(s[1..], bad), bad);
      AdjacentBehindGood(s, bad);
    } else if |s| == 1 {
      assert Filter(s[1..], Not(bad)) == [];
    } else {
      SkippingRemovesAllIff(s[2..], bad);
      NoneOfCons(s[1], RemoveSkipping(s[2..], bad), bad);
      AdjacentBehindBad(s, bad);
      if NoTwoAdjacent(s, bad) {
        assert s[1..][1..] == s[2..];
        assert Filter(s[1..], Not(bad)) == [s[1]] + Filter(s[2..], Not(bad));
      }
    }
  }

  /** Position `i` is removed by the loop: it is bad and the loop did not step over it. */
  ghost predicate Removed<T>(s: seq<T>, bad: T -> bool, i: nat)
    requires i < |s|
  {
    bad(s[i]) && !(i > 0 && Removed(s, bad, i - 1))
  }

  lemma {:induction false} RemovedShift<T>(s: seq<T>, bad: T -> bool, n: nat, i: nat)
    requires n + i < |s|
    requires n > 0 ==> !Removed(s, bad, n - 1)
    ensures Removed(s, bad, n + i) == Removed(s[n..], bad, i)
  {
    if i > 0 {
      RemovedShift(s, bad, n, i - 1);
    }
  }

  /** The survivors are the elements at the positions the loop does not remove. */
  lemma {:induction false} SkippingSurvivors<T(!new)>(s: seq<T>, bad: T -> bool, x: T)
    ensures x in RemoveSkipping(s, bad) <==>
            exists i :: 0 <= i < |s| && s[i] == x && !Removed(s, bad, i)
  {
    if s == [] {
    } else {
      var n := if !bad(s[0]) then 1 else if |s| == 1 then 1 else 2;
      var kept := if !bad(s[0]) then [s[0]] else if |s| == 1 then [] else [s[1]];
      assert RemoveSkipping(s, bad) == kept + RemoveSkipping(s[n..], bad);
      SkippingSurvivors(s[n..], bad, x);
      if n < |s| || !bad(s[0]) || n == 2 {
        assert !Removed(s, bad, n - 1);
      }
      forall i | 0 <= i < |s| - n
        ensures Removed(s, bad, n + i) == Removed(s[n..], bad, i) && s[n..][i] == s[n + i]
      {
        RemovedShift(s, bad, n, i);
      }
      if x in RemoveSkipping(s[n..], bad) {
        var i :| 0 <= i < |s[n..]| && s[n..][i] == x && !Removed(s[n..], bad, i);
        assert s[n + i] == x && !Removed(s, bad, n + i);
      }
      if x in kept {
        assert s[n - 1] == x && !Removed(s, bad, n - 1);
      }
      if i :| 0 <= i < |s| && s[i] == x && !Removed(s, bad, i) {
        if i >= n {
          assert s[n..][i - n] == x && !Removed(s[n..], bad, i - n);
        }
      }
    }
  }

  /** When `k` holds the only bad element the loop removes just that one. */
  lemma {:induction false} SkippingSingle<T>(s: seq<T>, bad: T -> bool, k: nat)
    requires k < |s| && bad(s[k])
    requires forall i :: 0 <= i < |s| && i != k ==> !bad(s[i])
    ensures RemoveSkipping(s, bad) == RemoveAt(s, k)
  {
    if k > 0 {
      var t := s[1..];
      assert forall i :: 0 <= i < |t| ==> t[i] == s[i + 1];
      SkippingSingle(t, bad, k - 1);
      assert RemoveAt(s, k) == [s[0]] + RemoveAt(t, k - 1);
    } else {
      assert RemoveAt(s, 0) == s[1..];
      if |s| > 1 {
        assert NoneOf(s[2..], bad);
        SkippingNone(s[2..], bad);
        assert s[1..] == [s[1]] + s[2..];
      }
    }
  }

  lemma {:induction false} SkippingNone<T>(s: seq<T>, bad: T -> bool)
    requires NoneOf(s, bad)
    ensures RemoveSkipping(s, bad) == s
  {
    if s != [] {
      SkippingNone(s[1..], bad);
    }
  }

  /** What the loop makes of `s` from index `i` on: `s[..i]` is settled. */
  function SkipFrom<T>(s: seq<T>, i: nat, bad: T -> bool): seq<T> {
    if i < |s| then s[..i] + RemoveSkipping(s[i..], bad) else s
  }

  lemma SkipFromStart<T>(s: seq<T>, bad: T -> bool)
    ensures SkipFrom(s, 0, bad) == RemoveSkipping(s, bad)
  {
  }

  lemma SkipPast<T>(s: seq<T>, i: nat, bad: T -> bool)
    requires i < |s| && !bad(s[i])
    ensures s[..i] + RemoveSkipping(s[i..], bad) == s[..i + 1] + RemoveSkipping(s[i + 1..], bad)
  {
  }

  lemma SkipOver<T>(s: seq<T>, i: nat, bad: T -> bool)
    requires i + 1 < |s| && bad(s[i])
    ensures var t := RemoveAt(s, i);
            s[..i] + RemoveSkipping(s[i..], bad) == t[..i + 1] + RemoveSkipping(t[i + 1..], bad)
  {
    var t := RemoveAt(s, i);
    assert s[i..][2..] == t[i + 1..];
    assert t[..i + 1] == s[..i] + [s[i + 1]];
  }

  /** One turn of the loop. */
  lemma SkippingStep<T>(s: seq<T>, i: nat, bad: T -> bool)
    requires i < |s|
    ensures SkipFrom(s, i, bad) == SkipFrom(if bad(s[i]) then RemoveAt(s, i) else s, i + 1, bad)
  {
    if !bad(s[i]) {
      SkipPast(s, i, bad);
    } else if i + 1 < |s| {
      SkipOver(s, i, bad);
    }
  }

  lemma InsertThenRemove<T>(s: seq<T>, i: nat, x: T)
    requires i <= |s|
    ensures RemoveAt(InsertAt(s, i, x), i) == s && InsertAt(s, i, x)[i] == x
  {
  }

  lemma MultisetRemoveAt<T>(s: seq<T>, i: nat)
    requires i < |s|
    ensures multiset(s) == multiset(RemoveAt(s, i)) + multiset{s[i]}
  {
    assert s == s[..i] + [s[i]] + s[i + 1..];
  }

  lemma MultisetInsertAt<T>(s: seq<T>, i: nat, x: T)
    requires i <= |s|
    ensures multiset(InsertAt(s, i, x)) == multiset(s) + multiset{x}
  {
    assert s == s[..i] + s[i..];
  }
}
