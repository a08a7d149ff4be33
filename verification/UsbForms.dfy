/** The normal form of a vendor and product pair, character by character. */
module UsbForms {
  import opened Options
  import opened SeqOps
  import opened Text
  import opened TextFacts
  import opened UsbPairs
  import opened UsbTheorems

  // ----- letter case and blanks -------------------------------------------------------

  ghost predicate NoCapitals(s: string) {
    forall k :: 0 <= k < |s| ==> !('A' <= s[k] <= 'Z')
  }

  /** The same character, or the capital and the small form of one letter. */
  predicate SameLetter(a: char, b: char) {
    a == b || ('A' <= a <= 'Z' && b as int == a as int + 32) || ('A' <= b <= 'Z' && a as int == b as int + 32)
  }

  ghost predicate SameButCase(a: string, b: string) {
    |a| == |b| && forall k :: 0 <= k < |a| ==> SameLetter(a[k], b[k])
  }

  lemma LowerSame(a: string, b: string)
    requires SameButCase(a, b)
    ensures Lower(a) == Lower(b)
  {
    LowerMeans(a);
    LowerMeans(b);
    forall k | 0 <= k < |a|
      ensures Lower(a)[k] == Lower(b)[k]
    {
      assert SameLetter(a[k], b[k]);
    }
  }

  /** Requests that differ only in letter case or outer blanks have the same normal form. */
  lemma NormaliseIgnoresCase(a: string, b: string, blanks: seq<string>)
    requires Trimmed(a) && Trimmed(b) && SameButCase(a, b)
    requires |blanks| == 4 && forall i :: 0 <= i < 4 ==> Blanks(blanks[i])
    ensures Normalise(blanks[0] + a + blanks[1]) == Normalise(blanks[2] + b + blanks[3])
  {
    TrimOf(blanks[0], a, blanks[1]);
    TrimOf(blanks[2], b, blanks[3]);
    LowerSame(a, b);
  }

  // ----- the halves ---------------------------------------------------------------------

  ghost predicate NoColonIn(s: string) {
    forall k :: 0 <= k < |s| ==> s[k] != ':'
  }

  ghost predicate Half(s: string) {
    s != "" && Trimmed(s) && NoCapitals(s) && NoColonIn(s)
  }

  /** At least four characters, filled up with zeros in front. */
  function Padded(s: string): string {
    if |s| == 0 then "0000" else if |s| == 1 then "000" + s else if |s| == 2 then "00" + s
    else if |s| == 3 then "0" + s else s
  }

  lemma JustifiedIsPadded(s: string)
    ensures Justified(s) == Padded(s)
  {
  }

  lemma LowerOfSmall(s: string)
    requires NoCapitals(s)
    ensures Lower(s) == s
  {
    LowerMeans(s);
  }

  lemma BlanksHaveNoColon(b: string)
    requires Blanks(b)
    ensures forall k :: 0 <= k < |b| ==> b[k] != ':' && !('A' <= b[k] <= 'Z')
  {
  }

  /** Two texts around the one colon are split there and trimmed. */
  lemma SplitAround(x: string, y: string)
    requires NoColonIn(x) && NoColonIn(y)
    ensures SplitPair(x + ":" + y) == if Trim(x) == "" || Trim(y) == "" then Skipped else Halves(Trim(x), Trim(y))
  {
    var p := x + ":" + y;
    FirstIndexUnique(p, IsColon(), |x|);
    assert p[..|x|] == x && p[|x| + 1..] == y;
    FirstIndexUnique(y, IsColon(), |y|);
  }

  lemma BlanksBehind(h: string, b: string)
    requires Blanks(b) && Half(h)
    ensures NoColonIn(h + b) && Trim(h + b) == h
  {
    assert "" + h + b == h + b;
    TrimOf("", h, b);
    BlanksHaveNoColon(b);
  }

  lemma BlanksInFront(a: string, h: string)
    requires Blanks(a) && Half(h)
    ensures NoColonIn(a + h) && Trim(a + h) == h
  {
    assert a + h + "" == a + h;
    TrimOf(a, h, "");
    BlanksHaveNoColon(a);
  }

  lemma JoinedHalves(v: string, p: string)
    requires Half(v) && Half(p)
    ensures Trimmed(v + ":" + p) && NoCapitals(v + ":" + p)
  {
    var s := v + ":" + p;
    assert s[0] == v[0] && s[|s| - 1] == p[|p| - 1];
  }

  lemma NormaliseSplit(s: string, v: string, p: string)
    requires Trimmed(s) && NoCapitals(s) && SplitPair(s) == Halves(v, p)
    ensures Normalise(s) == Some(Justified(v) + ":" + Justified(p))
  {
    TrimGives(s);
    LowerOfSmall(s);
  }

  lemma NormaliseWithin(a: string, core: string, b: string)
    requires Blanks(a) && Trimmed(core) && Blanks(b)
    ensures Normalise(a + core + b) == Normalise(core)
  {
    TrimOf(a, core, b);
    TrimGives(core);
  }

  /** The text between the outer blanks, around its colon. */
  lemma CoreShape(v: string, b1: string, b2: string, p: string)
    requires Blanks(b1) && Blanks(b2) && Half(v) && Half(p)
    ensures var core := v + b1 + ":" + b2 + p;
            core == (v + b1) + ":" + (b2 + p) && Trimmed(core) && NoCapitals(core)
  {
    var core := v + b1 + ":" + b2 + p;
    BlanksHaveNoColon(b1);
    BlanksHaveNoColon(b2);
    assert core[0] == v[0] && core[|core| - 1] == p[|p| - 1];
  }

  lemma CoreSplits(v: string, b1: string, b2: string, p: string)
    requires Blanks(b1) && Blanks(b2) && Half(v) && Half(p)
    ensures SplitPair((v + b1) + ":" + (b2 + p)) == Halves(v, p)
  {
    BlanksBehind(v, b1);
    BlanksInFront(b2, p);
    SplitAround(v + b1, b2 + p);
  }

  /** Vendor, colon, product, with any blanks around either: the vendor comes first, each
      half is filled up with zeros in front. */
  lemma NormalForm(b0: string, v: string, b1: string, b2: string, p: string, b3: string)
    requires Blanks(b0) && Blanks(b1) && Blanks(b2) && Blanks(b3) && Half(v) && Half(p)
    ensures Normalise(b0 + (v + b1 + ":" + b2 + p) + b3) == Some(Padded(v) + ":" + Padded(p))
  {
    var core := v + b1 + ":" + b2 + p;
    CoreShape(v, b1, b2, p);
    NormaliseWithin(b0, core, b3);
    CoreSplits(v, b1, b2, p);
    NormaliseSplit(core, v, p);
    JustifiedIsPadded(v);
    JustifiedIsPadded(p);
  }

  /** Four characters and more stay as they are. */
  lemma PlainPairStays(v: string, p: string)
    requires Half(v) && Half(p) && |v| >= 4 && |p| >= 4
    ensures Normalise(v + ":" + p) == Some(v + ":" + p)
  {
    JoinedHalves(v, p);
    SplitAround(v, p);
    TrimGives(v);
    TrimGives(p);
    NormaliseSplit(v + ":" + p, v, p);
  }

  /** No normal form has a capital letter. */
  lemma NormalFormIsSmall(pair: string)
    requires Normalise(pair).Some?
    ensures NoCapitals(Normalise(pair).value)
  {
    NormaliseIdempotent(pair);
    var n := Normalise(pair).value;
    LowerMeans(Trim(n));
  }

  // ----- what is skipped ------------------------------------------------------------------

  lemma LowerKeepsColons(s: string, k: nat)
    requires k < |s|
    ensures Lower(s)[k] == ':' <==> s[k] == ':'
  {
    LowerMeans(s);
  }

  /** No colon, or two, and the entry is skipped. */
  lemma ColonsMatter(s: string)
    requires Trimmed(s)
    requires NoColonIn(s) || exists i, j :: 0 <= i < j < |s| && s[i] == ':' && s[j] == ':'
    ensures Normalise(s) == None
  {
    TrimGives(s);
    var p := Lower(s);
    forall k | 0 <= k < |s|
      ensures p[k] == ':' <==> s[k] == ':'
    {
      LowerKeepsColons(s, k);
    }
    if NoColonIn(s) {
      FirstIndexUnique(p, IsColon(), |p|);
    } else {
      var i, j :| 0 <= i < j < |s| && s[i] == ':' && s[j] == ':';
      SecondColon(p, i, j);
    }
  }

  lemma SecondColon(p: string, i: nat, j: nat)
    requires i < j < |p| && p[i] == ':' && p[j] == ':'
    ensures SplitPair(p) == Skipped
  {
    var k := FirstIndex(p, IsColon());
    assert IsColon()(p[i]);
    var rest := p[k + 1..];
    assert IsColon()(rest[j - k - 1]);
  }

  /** A blank half, and the entry is skipped. */
  lemma BlankHalf(x: string, y: string)
    requires Blanks(x) || Blanks(y)
    requires NoColonIn(x) && NoColonIn(y) && NoCapitals(x) && NoCapitals(y)
    requires Trimmed(x + ":" + y)
    ensures Normalise(x + ":" + y) == None
  {
    var p := x + ":" + y;
    TrimGives(p);
    LowerOfSmall(p);
    SplitAround(x, y);
    if Blanks(x) {
      TrimOf(x, "", "");
      assert x + "" + "" == x;
    } else {
      TrimOf(y, "", "");
      assert y + "" + "" == y;
    }
  }

  // ----- keys ---------------------------------------------------------------------------

  ghost predicate DigitsOnly(s: string) {
    s != "" && forall k :: 0 <= k < |s| ==> '0' <= s[k] <= '9'
  }

  lemma {:induction false} DigitsIff(s: string)
    ensures Digits(s) <==> s == "" || DigitsOnly(s)
  {
    if s != "" {
      DigitsIff(s[..|s| - 1]);
      assert s == s[..|s| - 1] + [s[|s| - 1]];
    }
  }

  /** "pair" and decimal digits. */
  ghost predicate Numbered(body: string, n: nat) {
    |body| > 4 && body[..4] == "pair" && DigitsOnly(body[4..]) && DigitsValue'(body[4..]) == n
  }

  lemma PairNumberMeans(body: string, n: nat)
    ensures PairNumber(body) == Some(n) <==> Numbered(body, n)
  {
    if |body| > 4 {
      DigitsIff(body[4..]);
    }
  }

  /** A key counts when it is "pair" and decimal digits, perhaps with one line break behind
      them, and the number fits an `int`. */
  lemma KeyIndexMeans(key: string, n: nat)
    ensures KeyIndex(key) == Some(n) <==>
            n <= 0x7fff_ffff &&
            exists body: string :: Numbered(body, n) && (key == body || key == body + "\n")
  {
    if KeyIndex(key) == Some(n) {
      var body := if key[|key| - 1] == '\n' then key[..|key| - 1] else key;
      PairNumberMeans(body, n);
      assert key == body || key == body + "\n";
    }
    if body: string :| n <= 0x7fff_ffff && Numbered(body, n) && (key == body || key == body + "\n") {
      PairNumberMeans(body, n);
      assert body[|body| - 1] == body[4..][|body| - 5];
      assert key != body ==> key[..|key| - 1] == body;
    }
  }

  function DigitsValue'(s: string): nat {
    if Digits(s) then DigitsValue(s) else 0
  }

  /** The printed keys: "pair" and the number in decimal. */
  lemma KeyPrinted(n: nat)
    ensures PairKey(n)[..4] == "pair" && PairKey(n)[4..] == PrintNat(n)
  {
  }

  // ----- one request -----------------------------------------------------------------------

  lemma {:induction false} TrimLeftSplits(s: string) returns (a: string)
    ensures Blanks(a) && s == a + TrimLeft(s)
  {
    a := "";
    if s != "" && IsSpace(s[0]) {
      var rest := TrimLeftSplits(s[1..]);
      a := [s[0]] + rest;
    }
  }

  lemma {:induction false} TrimRightSplits(s: string) returns (b: string)
    ensures Blanks(b) && s == TrimRight(s) + b
  {
    b := "";
    if s != "" && IsSpace(s[|s| - 1]) {
      var rest := TrimRightSplits(s[..|s| - 1]);
      b := rest + [s[|s| - 1]];
      assert s == s[..|s| - 1] + [s[|s| - 1]];
    }
  }

  lemma TrimSplits(s: string) returns (a: string, b: string)
    ensures Blanks(a) && Blanks(b) && s == a + Trim(s) + b
  {
    a := TrimLeftSplits(s);
    b := TrimRightSplits(TrimLeft(s));
  }

  ghost predicate ReadsAs(s: string, a: string, v: string, b: string, n: string) {
    s == a + v + b && Blanks(a) && Blanks(b) && SameButCase(v, n)
  }

  /** The text is `n` but for letter case and outer blanks. */
  ghost predicate Reads(s: string, n: string) {
    exists a: string, v: string, b: string :: ReadsAs(s, a, v, b, n)
  }

  lemma SameEnds(v: string, n: string)
    requires SameButCase(v, n) && Trimmed(n)
    ensures Trimmed(v)
  {
    assert v != "" ==> SameLetter(v[0], n[0]) && SameLetter(v[|v| - 1], n[|n| - 1]);
  }

  lemma StoredOf(a: string, v: string, b: string, n: string)
    requires Blanks(a) && Blanks(b) && SameButCase(v, n) && NoCapitals(n) && Trimmed(n)
    ensures Stored(a + v + b) == n
  {
    SameEnds(v, n);
    TrimOf(a, v, b);
    LowerSame(v, n);
    LowerOfSmall(n);
  }

  lemma LowerIsSame(t: string)
    ensures SameButCase(t, Lower(t))
  {
    LowerMeans(t);
  }

  lemma StoredDecomposes(s: string)
    ensures Reads(s, Stored(s))
  {
    var a, b := TrimSplits(s);
    LowerIsSame(Trim(s));
    assert ReadsAs(s, a, Trim(s), b, Stored(s));
  }

  lemma StoredReads(s: string, n: string)
    requires NoCapitals(n) && Trimmed(n)
    ensures Stored(s) == n <==> Reads(s, n)
  {
    StoredDecomposes(s);
    if Reads(s, n) {
      var a: string, v: string, b: string :| ReadsAs(s, a, v, b, n);
      StoredOf(a, v, b, n);
    }
  }

  lemma FixedPointFacts(n: string)
    requires Stored(n) == n
    ensures NoCapitals(n) && Trimmed(n)
  {
    TrimGives(n);
    LowerMeans(Trim(n));
  }

  lemma KnownReads(store: Store, n: string)
    requires NoCapitals(n) && Trimmed(n) && n != ""
    ensures n in Known(store) <==> exists k :: k in store && Reads(store[k], n)
  {
    forall k | k in store
      ensures Stored(store[k]) == n <==> Reads(store[k], n)
    {
      StoredReads(store[k], n);
    }
  }

  lemma AppendOne(store: Store, known: set<string>, next: nat, norm: Option<string>)
    ensures AppendFrom(store, known, next, [norm]) ==
            if norm == None || norm.value in known then store else store["pair" + PrintNat(next) := norm.value]
  {
    assert [norm][1..] == [];
  }

  lemma AppendNorm(store: Store, norm: Option<string>)
    requires norm.Some? ==> Stored(norm.value) == norm.value && norm.value != ""
    ensures AppendFrom(store, Known(store), MaxIndex(store) + 1, [norm]) ==
            if norm == None || exists k :: k in store && Reads(store[k], norm.value) then store
            else store["pair" + PrintNat(MaxIndex(store) + 1) := norm.value]
  {
    AppendOne(store, Known(store), MaxIndex(store) + 1, norm);
    if norm.Some? {
      FixedPointFacts(norm.value);
      KnownReads(store, norm.value);
    }
  }

  /** A request for one pair: nothing changes when it is no pair, or when some key already
      stores it, whatever its letter case and blanks there; else the normal form is stored
      under the number behind the highest one, and all other keys stay. */
  lemma OneRequest(store: Store, pair: string)
    ensures Append(store, [pair]) ==
            if Normalise(pair) == None || exists k :: k in store && Reads(store[k], Normalise(pair).value) then store
            else store["pair" + PrintNat(MaxIndex(store) + 1) := Normalise(pair).value]
  {
    if Normalise(pair).Some? {
      NormaliseIdempotent(pair);
    }
    assert NormalForms([pair]) == [Normalise(pair)];
    AppendNorm(store, Normalise(pair));
  }
}
