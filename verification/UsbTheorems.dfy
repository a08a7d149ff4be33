/** Laws of the hidden-USB list: normal form, exactness, append as a homomorphism. */
module UsbTheorems {
  import opened Options
  import opened SeqOps
  import opened Text
  import opened UsbPairs

  // ----- normal form -----------------------------------------------------------

  ghost predicate LowerCase(s: string) {
    forall k :: 0 <= k < |s| ==> LowerChar(s[k]) == s[k]
  }

  ghost predicate NoColon(s: string) {
    forall k :: 0 <= k < |s| ==> s[k] != ':'
  }

  lemma PieceFacts(p: string, a: nat, b: nat)
    requires a <= b <= |p| && LowerCase(p)
    requires forall k :: a <= k < b ==> p[k] != ':'
    ensures LowerCase(Trim(p[a..b])) && NoColon(Trim(p[a..b])) && Trimmed(Trim(p[a..b]))
  {
    var piece := p[a..b];
    TrimGives(piece);
    var t := Trim(piece);
    forall k | 0 <= k < |t|
      ensures LowerChar(t[k]) == t[k] && t[k] != ':'
    {
      assert t[k] in piece;
      var j :| 0 <= j < |piece| && piece[j] == t[k];
      assert piece[j] == p[a + j];
    }
  }

  lemma JustifiedFacts(s: string)
    requires LowerCase(s) && NoColon(s) && Trimmed(s) && s != ""
    ensures var t := Justified(s);
            LowerCase(t) && NoColon(t) && Trimmed(t) && t != "" && Justified(t) == t
  {
  }

  ghost predicate Clean(s: string) {
    LowerCase(s) && NoColon(s) && Trimmed(s) && s != ""
  }

  lemma SplitGivesClean(p: string)
    requires LowerCase(p) && SplitPair(p).Halves?
    ensures Clean(SplitPair(p).vendor) && Clean(SplitPair(p).product)
  {
    var i := FirstIndex(p, IsColon());
    assert forall k :: 0 <= k < i ==> !IsColon()(p[k]);
    forall k | i + 1 <= k < |p|
      ensures p[k] != ':'
    {
      assert p[i + 1..][k - i - 1] == p[k] && !IsColon()(p[i + 1..][k - i - 1]);
    }
    PieceFacts(p, 0, i);
    PieceFacts(p, i + 1, |p|);
    assert p[0..i] == p[..i] && p[i + 1..|p|] == p[i + 1..];
  }

  lemma SplitOfHalves(v: string, r: string)
    requires Clean(v) && Clean(r)
    ensures SplitPair(v + ":" + r) == Halves(v, r)
  {
    var n := v + ":" + r;
    FirstIndexUnique(n, IsColon(), |v|);
    assert n[..|v|] == v && n[|v| + 1..] == r;
    FirstIndexUnique(r, IsColon(), |r|);
    TrimGives(v);
    TrimGives(r);
  }

  lemma JoinedIsStored(v: string, r: string)
    requires Clean(v) && Clean(r)
    ensures Stored(v + ":" + r) == v + ":" + r
  {
  }

  /** The normal form is a fixed point of normalisation and reads back unchanged. */
  lemma NormaliseIdempotent(pair: string)
    requires Normalise(pair).Some?
    ensures Normalise(Normalise(pair).value) == Normalise(pair)
    ensures Stored(Normalise(pair).value) == Normalise(pair).value && Normalise(pair).value != ""
  {
    var p := Lower(Trim(pair));
    assert LowerCase(p);
    SplitGivesClean(p);
    var v, r := SplitPair(p).vendor, SplitPair(p).product;
    JustifiedFacts(v);
    JustifiedFacts(r);
    SplitOfHalves(Justified(v), Justified(r));
    JoinedIsStored(Justified(v), Justified(r));
  }

  // ----- which values are added ----------------------------------------------------

  ghost predicate Requested(norms: seq<Option<string>>, n: string) {
    exists i :: 0 <= i < |norms| && norms[i] == Some(n)
  }

  lemma RequestedCons(norms: seq<Option<string>>, n: string)
    requires norms != []
    ensures Requested(norms, n) <==> norms[0] == Some(n) || Requested(norms[1..], n)
  {
  }

  lemma {:induction false} FreshMembers(known: set<string>, norms: seq<Option<string>>, n: string)
    ensures n in FreshPairs(known, norms) <==> n !in known && Requested(norms, n)
    decreases |norms|
  {
    if norms != [] {
      RequestedCons(norms, n);
      if norms[0].None? || norms[0].value in known {
        FreshMembers(known, norms[1..], n);
      } else {
        FreshMembers(known + {norms[0].value}, norms[1..], n);
      }
    }
  }

  ghost predicate NoRepeats(l: seq<string>) {
    forall i, j :: 0 <= i < j < |l| ==> l[i] != l[j]
  }

  lemma {:induction false} FreshDistinct(known: set<string>, norms: seq<Option<string>>)
    ensures NoRepeats(FreshPairs(known, norms))
    decreases |norms|
  {
    if norms != [] {
      if norms[0].None? || norms[0].value in known {
        FreshDistinct(known, norms[1..]);
      } else {
        var v := norms[0].value;
        FreshDistinct(known + {v}, norms[1..]);
        FreshMembers(known + {v}, norms[1..], v);
      }
    }
  }

  /** The added values are exactly the normalised valid entries that were not
      stored before, and none is added twice. */
  lemma AddedExactly(store: Store, pairs: seq<string>)
    ensures forall n :: n in Added(store, pairs) <==>
              n !in Known(store) && exists i :: 0 <= i < |pairs| && Normalise(pairs[i]) == Some(n)
    ensures NoRepeats(Added(store, pairs))
  {
    var norms := NormalForms(pairs);
    FreshDistinct(Known(store), norms);
    forall n
      ensures n in Added(store, pairs) <==>
              n !in Known(store) && exists i :: 0 <= i < |pairs| && Normalise(pairs[i]) == Some(n)
    {
      FreshMembers(Known(store), norms, n);
      if Requested(norms, n) {
        var i :| 0 <= i < |norms| && norms[i] == Some(n);
        assert Normalise(pairs[i]) == Some(n);
      }
      if i :| 0 <= i < |pairs| && Normalise(pairs[i]) == Some(n) {
        assert norms[i] == Some(n);
      }
    }
  }

  function Members(l: seq<string>): (s: set<string>)
    ensures forall x :: x in s <==> x in l
  {
    set x | x in l
  }

  lemma MembersCons(known: set<string>, v: string, rest: seq<string>)
    ensures known + {v} + Members(rest) == known + Members([v] + rest)
  {
  }

  lemma {:induction false} FreshAppend(known: set<string>, p: seq<Option<string>>, q: seq<Option<string>>)
    ensures FreshPairs(known, p + q) ==
            FreshPairs(known, p) + FreshPairs(known + Members(FreshPairs(known, p)), q)
    decreases |p|
  {
    if p == [] {
      assert p + q == q && known + Members([]) == known;
    } else {
      assert (p + q)[1..] == p[1..] + q;
      if p[0].None? || p[0].value in known {
        FreshAppend(known, p[1..], q);
      } else {
        var v := p[0].value;
        FreshAppend(known + {v}, p[1..], q);
        MembersCons(known, v, FreshPairs(known + {v}, p[1..]));
      }
    }
  }

  // ----- the group after an append -----------------------------------------------------

  /** The keys printed for `n` values from number `next` on. */
  function NewKeys(next: nat, n: nat): (s: set<string>)
    ensures forall m :: next <= m < next + n ==> PairKey(m) in s
  {
    set m | next <= m < next + n :: PairKey(m)
  }

  /** No stored key is overwritten, the new values sit in order under the next
      unused numbers, and nothing else is added. */
  ghost predicate Extends(store: Store, after: Store, values: seq<string>, next: nat) {
    after.Keys == store.Keys + NewKeys(next, |values|) && store.Keys !! NewKeys(next, |values|) &&
    (forall k :: k in store ==> after[k] == store[k]) &&
    (forall m :: next <= m < next + |values| ==> after[PairKey(m)] == values[m - next])
  }

  lemma NewKeysStep(next: nat, n: nat)
    requires n > 0
    ensures NewKeys(next, n) == {PairKey(next)} + NewKeys(next + 1, n - 1)
  {
  }

  lemma ExtendsStep(store: Store, after: Store, v: string, rest: seq<string>, next: nat)
    requires PairKey(next) !in store
    requires Extends(store[PairKey(next) := v], after, rest, next + 1)
    ensures Extends(store, after, [v] + rest, next)
  {
    var values := [v] + rest;
    NewKeysStep(next, |values|);
    assert after[PairKey(next)] == v;
    forall m | next <= m < next + |values|
      ensures after[PairKey(m)] == values[m - next]
    {
      assert m > next ==> values[m - next] == rest[m - (next + 1)];
    }
  }

  lemma {:induction false} AppendFromExtends(store: Store, known: set<string>, next: nat, norms: seq<Option<string>>)
    requires FreeFrom(store, next) && next + |FreshPairs(known, norms)| <= INT_MAX
    ensures Extends(store, AppendFrom(store, known, next, norms), FreshPairs(known, norms), next)
    decreases |norms|
  {
    if norms != [] {
      if norms[0].None? || norms[0].value in known {
        AppendFromExtends(store, known, next, norms[1..]);
      } else {
        var v := norms[0].value;
        FreeAfter(store, next, v);
        AppendFromExtends(store[PairKey(next) := v], known + {v}, next + 1, norms[1..]);
        ExtendsStep(store, AppendFrom(store, known, next, norms), v, FreshPairs(known + {v}, norms[1..]), next);
      }
    }
  }

  /** Appending keeps every stored entry and adds exactly the new values, each under
      a key that was unused when it was printed. */
  lemma AppendExtends(store: Store, pairs: seq<string>)
    requires Fits(store, pairs)
    ensures Extends(store, Append(store, pairs), Added(store, pairs), MaxIndex(store) + 1)
  {
    FreeAbove(store);
    AppendFromExtends(store, Known(store), MaxIndex(store) + 1, NormalForms(pairs));
  }

  lemma KnownStep(store: Store, key: string, v: string)
    requires key !in store && Stored(v) == v && v != ""
    ensures Known(store[key := v]) == Known(store) + {v}
  {
    var after := store[key := v];
    assert after[key] == v;
    forall x
      ensures x in Known(after) <==> x in Known(store) || x == v
    {
      if x in Known(store) {
        var k :| k in store && Stored(store[k]) != "" && Stored(store[k]) == x;
        assert after[k] == store[k];
      }
    }
  }

  lemma MaxIndexStep(store: Store, n: nat, v: string)
    requires n == MaxIndex(store) + 1 && n <= INT_MAX
    ensures MaxIndex(store[PairKey(n) := v]) == n
  {
    PairKeyNumber(n);
    var keys := store[PairKey(n) := v].Keys;
    assert PairKey(n) in keys;
    assert IsMaxIndex(keys, n);
    MaxIndexUnique(keys, n, MaxIndex(store[PairKey(n) := v]));
  }

  lemma StateStep(store: Store, next: nat, v: string)
    requires next == MaxIndex(store) + 1 && next <= INT_MAX && Stored(v) == v && v != ""
    ensures Known(store[PairKey(next) := v]) == Known(store) + {v}
    ensures MaxIndex(store[PairKey(next) := v]) == next
  {
    FreeAbove(store);
    KnownStep(store, PairKey(next), v);
    MaxIndexStep(store, next, v);
  }

  /** Values that normalisation can produce. */
  ghost function IsCanonical(): string -> bool {
    v => Stored(v) == v && v != ""
  }

  ghost predicate Canonical(norms: seq<Option<string>>, canonical: string -> bool) {
    forall i :: 0 <= i < |norms| && norms[i].Some? ==> canonical(norms[i].value)
  }

  lemma NormalFormsCanonical(pairs: seq<string>)
    ensures Canonical(NormalForms(pairs), IsCanonical())
  {
    forall i | 0 <= i < |pairs| && NormalForms(pairs)[i].Some?
      ensures IsCanonical()(NormalForms(pairs)[i].value)
    {
      NormaliseIdempotent(pairs[i]);
    }
  }

  /** What an append reads off the settings before it starts. */
  datatype Readout = Readout(known: set<string>, next: nat)

  ghost function ReadState(): Store -> Readout {
    store => Readout(Known(store), MaxIndex(store) + 1)
  }

  /** Storing one new value moves the reading on by that value and one number. */
  ghost predicate ReadsOn(read: Store -> Readout, canonical: string -> bool) {
    forall store: Store, v: string ::
      canonical(v) && read(store).next <= INT_MAX ==>
        read(store[PairKey(read(store).next) := v]) == Readout(read(store).known + {v}, read(store).next + 1)
  }

  lemma SettingsReadOn()
    ensures ReadsOn(ReadState(), IsCanonical())
  {
    var read := ReadState();
    forall store: Store, v: string | IsCanonical()(v) && read(store).next <= INT_MAX
      ensures read(store[PairKey(read(store).next) := v]) == Readout(read(store).known + {v}, read(store).next + 1)
    {
      StateStep(store, read(store).next, v);
    }
  }

  function Run(store: Store, r: Readout, norms: seq<Option<string>>): Store {
    AppendFrom(store, r.known, r.next, norms)
  }

  function ReadAfter(r: Readout, values: seq<string>): Readout {
    Readout(r.known + Members(values), r.next + |values|)
  }

  lemma ReadAfterCons(r: Readout, v: string, rest: seq<string>)
    ensures ReadAfter(Readout(r.known + {v}, r.next + 1), rest) == ReadAfter(r, [v] + rest)
  {
  }

  lemma ReadAfterNothing(r: Readout)
    ensures ReadAfter(r, []) == r
  {
  }

  /** What a second append reads off the settings is what the first one had in hand. */
  lemma {:induction false} AppendFromState(store: Store, norms: seq<Option<string>>, read: Store -> Readout,
                                           canonical: string -> bool)
    requires ReadsOn(read, canonical) && Canonical(norms, canonical)
    requires read(store).next + |FreshPairs(read(store).known, norms)| <= INT_MAX
    ensures read(Run(store, read(store), norms)) == ReadAfter(read(store), FreshPairs(read(store).known, norms))
    decreases |norms|
  {
    var r := read(store);
    if norms == [] {
      ReadAfterNothing(r);
    } else if norms[0].None? || norms[0].value in r.known {
      AppendFromState(store, norms[1..], read, canonical);
    } else {
      var v := norms[0].value;
      var store' := store[PairKey(r.next) := v];
      assert read(store') == Readout(r.known + {v}, r.next + 1);
      AppendFromState(store', norms[1..], read, canonical);
      ReadAfterCons(r, v, FreshPairs(r.known + {v}, norms[1..]));
    }
  }

  lemma {:induction false} AppendFromSplit(store: Store, r: Readout, p: seq<Option<string>>, q: seq<Option<string>>)
    ensures Run(store, r, p + q) == Run(Run(store, r, p), ReadAfter(r, FreshPairs(r.known, p)), q)
    decreases |p|
  {
    if p == [] {
      ReadAfterNothing(r);
      assert p + q == q;
    } else {
      assert (p + q)[1..] == p[1..] + q;
      if p[0].None? || p[0].value in r.known {
        AppendFromSplit(store, r, p[1..], q);
      } else {
        var v := p[0].value;
        AppendFromSplit(store[PairKey(r.next) := v], Readout(r.known + {v}, r.next + 1), p[1..], q);
        ReadAfterCons(r, v, FreshPairs(r.known + {v}, p[1..]));
      }
    }
  }

  lemma NormalFormsAppend(p: seq<string>, q: seq<string>)
    ensures NormalForms(p + q) == NormalForms(p) + NormalForms(q)
  {
  }

  lemma SplitAppend(store: Store, a: seq<Option<string>>, b: seq<Option<string>>, read: Store -> Readout,
                    canonical: string -> bool)
    requires ReadsOn(read, canonical) && Canonical(a, canonical)
    requires read(store).next + |FreshPairs(read(store).known, a + b)| <= INT_MAX
    ensures var first := Run(store, read(store), a);
            read(store).next + |FreshPairs(read(store).known, a)| <= INT_MAX &&
            read(first).next + |FreshPairs(read(first).known, b)| <= INT_MAX &&
            Run(first, read(first), b) == Run(store, read(store), a + b)
  {
    FreshAppend(read(store).known, a, b);
    AppendFromState(store, a, read, canonical);
    AppendFromSplit(store, read(store), a, b);
  }

  lemma AppendIsRun(store: Store, pairs: seq<string>)
    ensures Append(store, pairs) == Run(store, ReadState()(store), NormalForms(pairs))
    ensures Fits(store, pairs) <==>
            ReadState()(store).next + |FreshPairs(ReadState()(store).known, NormalForms(pairs))| <= INT_MAX
  {
  }

  /** Appending two lists one after the other gives the same keys and values as
      appending their concatenation. */
  lemma AppendHomomorphism(store: Store, p: seq<string>, q: seq<string>)
    requires Fits(store, p + q)
    ensures Fits(store, p) && Fits(Append(store, p), q)
    ensures Append(Append(store, p), q) == Append(store, p + q)
  {
    NormalFormsAppend(p, q);
    NormalFormsCanonical(p);
    SettingsReadOn();
    AppendIsRun(store, p + q);
    SplitAppend(store, NormalForms(p), NormalForms(q), ReadState(), IsCanonical());
    AppendIsRun(store, p);
    AppendIsRun(Append(store, p), q);
  }

  lemma {:induction false} NothingFresh(known: set<string>, norms: seq<Option<string>>)
    requires forall i :: 0 <= i < |norms| && norms[i].Some? ==> norms[i].value in known
    ensures FreshPairs(known, norms) == []
    decreases |norms|
  {
    if norms != [] {
      NothingFresh(known, norms[1..]);
    }
  }

  lemma {:induction false} NothingAppended(store: Store, known: set<string>, next: nat, norms: seq<Option<string>>)
    requires FreshPairs(known, norms) == []
    ensures AppendFrom(store, known, next, norms) == store
    decreases |norms|
  {
    if norms != [] {
      NothingAppended(store, known, next, norms[1..]);
    }
  }

  /** Appending a list a second time changes nothing. */
  lemma AppendTwice(store: Store, p: seq<string>)
    requires Fits(store, p)
    ensures Append(Append(store, p), p) == Append(store, p)
  {
    var norms := NormalForms(p);
    AppendIsRun(store, p);
    AppendIsRun(Append(store, p), p);
    NormalFormsCanonical(p);
    SettingsReadOn();
    RunTwice(store, norms, ReadState(), IsCanonical());
  }

  lemma RunTwice(store: Store, norms: seq<Option<string>>, read: Store -> Readout, canonical: string -> bool)
    requires ReadsOn(read, canonical) && Canonical(norms, canonical)
    requires read(store).next + |FreshPairs(read(store).known, norms)| <= INT_MAX
    ensures var after := Run(store, read(store), norms);
            Run(after, read(after), norms) == after
  {
    var r, after := read(store), Run(store, read(store), norms);
    AppendFromState(store, norms, read, canonical);
    forall i | 0 <= i < |norms| && norms[i].Some?
      ensures norms[i].value in read(after).known
    {
      FreshMembers(r.known, norms, norms[i].value);
      assert Requested(norms, norms[i].value);
    }
    NothingFresh(read(after).known, norms);
    NothingAppended(after, read(after).known, read(after).next, norms);
  }
}
