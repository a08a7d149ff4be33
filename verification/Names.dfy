/** Lists of records with pairwise different names. */
module Names {
  import opened Records
  import opened SeqOps

  ghost predicate Fresh(l: seq<Record>, name: string) {
    forall i :: 0 <= i < |l| ==> NameOf(l[i]) != name
  }

  function FindName(l: seq<Record>, name: string): (i: nat)
    ensures i <= |l|
    ensures forall k :: 0 <= k < i ==> NameOf(l[k]) != name
    ensures i < |l| ==> NameOf(l[i]) == name
  {
    FirstIndex(l, HasName(name))
  }

  lemma FindNameAt(l: seq<Record>, i: nat)
    requires NamesDistinct(l) && i < |l|
    ensures FindName(l, NameOf(l[i])) == i
  {
  }

  lemma FreshIff(l: seq<Record>, name: string)
    ensures Fresh(l, name) <==> FindName(l, name) == |l|
  {
  }

  lemma DistinctInsertAt(l: seq<Record>, k: nat, r: Record)
    requires NamesDistinct(l) && Fresh(l, NameOf(r)) && k <= |l|
    ensures NamesDistinct(InsertAt(l, k, r))
  {
  }

  lemma DistinctRemoveAt(l: seq<Record>, k: nat)
    requires NamesDistinct(l) && k < |l|
    ensures NamesDistinct(RemoveAt(l, k)) && Fresh(RemoveAt(l, k), NameOf(l[k]))
  {
  }

  lemma DistinctReplace(l: seq<Record>, k: nat, r: Record)
    requires NamesDistinct(l) && k < |l| && NameOf(r) == NameOf(l[k])
    ensures NamesDistinct(l[k := r])
  {
  }

  /** Not fresh: inserting makes two records share the name. */
  lemma DuplicateInsertAt(l: seq<Record>, k: nat, r: Record)
    requires k <= |l| && !Fresh(l, NameOf(r))
    ensures !NamesDistinct(InsertAt(l, k, r))
  {
    var s := InsertAt(l, k, r);
    var i := FindName(l, NameOf(r));
    if i < k {
      assert s[i] == l[i] && s[k] == r;
    } else {
      assert s[k] == r && s[i + 1] == l[i];
    }
  }

  lemma FreshNotIn(l: seq<Record>, r: Record)
    requires Fresh(l, NameOf(r))
    ensures r !in l
  {
  }

  lemma {:induction false} DistinctCount(l: seq<Record>, x: Record)
    requires NamesDistinct(l)
    ensures multiset(l)[x] == if x in l then 1 else 0
  {
    if l != [] {
      assert l == [l[0]] + l[1..];
      DistinctCount(l[1..], x);
    }
  }

  /** Duplicate-free lists with the same members are permutations of each other. */
  lemma SameMembers(a: seq<Record>, b: seq<Record>)
    requires NamesDistinct(a) && NamesDistinct(b)
    ensures multiset(a) == multiset(b) <==> forall x :: x in a <==> x in b
  {
    if forall x :: x in a <==> x in b {
      forall x
        ensures multiset(a)[x] == multiset(b)[x]
      {
        DistinctCount(a, x);
        DistinctCount(b, x);
      }
    }
    if multiset(a) == multiset(b) {
      forall x
        ensures x in a <==> x in b
      {
        assert x in a <==> x in multiset(a);
      }
    }
  }

  lemma FreshAmong(rest: seq<Record>, l: seq<Record>, name: string)
    requires Fresh(l, name) && forall x :: x in rest ==> x in l
    ensures Fresh(rest, name)
  {
    forall i | 0 <= i < |rest|
      ensures NameOf(rest[i]) != name
    {
      assert rest[i] in l;
    }
  }

  lemma DistinctCons(r: Record, rest: seq<Record>)
    requires NamesDistinct(rest) && Fresh(rest, NameOf(r))
    ensures NamesDistinct([r] + rest)
  {
  }

  lemma {:induction false} DistinctSkipping(l: seq<Record>, bad: Record -> bool)
    requires NamesDistinct(l)
    ensures NamesDistinct(RemoveSkipping(l, bad))
  {
    if l != [] {
      var n := if bad(l[0]) && |l| > 1 then 2 else 1;
      var tail := l[n..];
      assert NamesDistinct(tail) && Fresh(tail, NameOf(l[n - 1]));
      DistinctSkipping(tail, bad);
      SkippingKeepsElements(tail, bad);
      FreshAmong(RemoveSkipping(tail, bad), tail, NameOf(l[n - 1]));
      DistinctCons(l[n - 1], RemoveSkipping(tail, bad));
    }
  }
}
