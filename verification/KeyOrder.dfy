/** The order in which a `QMap` with text keys is iterated. */
module KeyOrder {

  /** Texts are compared by character code. */
  predicate KeyLeq(a: string, b: string) {
    a == "" || (b != "" && (a[0] < b[0] || (a[0] == b[0] && KeyLeq(a[1..], b[1..]))))
  }

  lemma KeyLeqReflexive(a: string)
    ensures KeyLeq(a, a)
  {
  }

  lemma {:induction false} KeyLeqTotal(a: string, b: string)
    ensures KeyLeq(a, b) || KeyLeq(b, a)
    ensures KeyLeq(a, b) && KeyLeq(b, a) ==> a == b
  {
    if a != "" && b != "" && a[0] == b[0] {
      KeyLeqTotal(a[1..], b[1..]);
      assert a == [a[0]] + a[1..] && b == [b[0]] + b[1..];
    }
  }

  lemma {:induction false} KeyLeqTransitive(a: string, b: string, c: string)
    requires KeyLeq(a, b) && KeyLeq(b, c)
    ensures KeyLeq(a, c)
  {
    if a != "" && b != "" && c != "" && a[0] == b[0] == c[0] {
      KeyLeqTransitive(a[1..], b[1..], c[1..]);
    }
  }

  /** The first difference decides by character code; a text that ends there comes first. */
  lemma {:induction false} KeyLeqMeans(common: string, a: string, b: string)
    requires a == "" || b == "" || a[0] != b[0]
    ensures KeyLeq(common + a, common + b) <==> a == "" || (b != "" && a[0] as int < b[0] as int)
  {
    if common == "" {
      assert common + a == a && common + b == b;
    } else {
      assert (common + a)[1..] == common[1..] + a && (common + b)[1..] == common[1..] + b;
      KeyLeqMeans(common[1..], a, b);
    }
  }

  ghost predicate IsFirstKey(keys: set<string>, k: string) {
    k in keys && forall other :: other in keys ==> KeyLeq(k, other)
  }

  lemma FirstKeyExists(keys: set<string>)
    requires keys != {}
    ensures exists k :: IsFirstKey(keys, k)
    decreases |keys|
  {
    var x :| x in keys;
    KeyLeqReflexive(x);
    var rest := keys - {x};
    if rest == {} {
      assert keys == {x};
      assert IsFirstKey(keys, x);
    } else {
      FirstKeyExists(rest);
      var y :| IsFirstKey(rest, y);
      var k := if KeyLeq(x, y) then x else y;
      forall other | other in keys
        ensures KeyLeq(k, other)
      {
        KeyLeqTotal(x, y);
        if other != x && k == x {
          KeyLeqTransitive(x, y, other);
        }
      }
      assert IsFirstKey(keys, k);
    }
  }

  ghost function FirstKey(keys: set<string>): (k: string)
    requires keys != {}
    ensures IsFirstKey(keys, k)
  {
    FirstKeyExists(keys);
    var k :| IsFirstKey(keys, k);
    k
  }

  /** The key that an iteration over the map visits first. */
  method FirstOf(keys: set<string>) returns (first: string)
    requires keys != {}
    ensures first == FirstKey(keys)
  {
    var todo := keys;
    first :| first in todo;
    todo := todo - {first};
    KeyLeqReflexive(first);
    while todo != {}
      invariant first in keys && todo <= keys
      invariant forall k :: k in keys - todo ==> KeyLeq(first, k)
      decreases |todo|
    {
      var k :| k in todo;
      KeyLeqTotal(first, k);
      if !KeyLeq(first, k) {
        forall other | other in keys - todo
          ensures KeyLeq(k, other)
        {
          KeyLeqTransitive(k, first, other);
        }
        KeyLeqReflexive(k);
        first := k;
      }
      todo := todo - {k};
    }
    KeyLeqTotal(first, FirstKey(keys));
  }
}
