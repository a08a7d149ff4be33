/** The list of hidden USB devices in the settings file. */
module UsbPairs {
  import opened Options
  import opened SeqOps
  import opened Text

  /** The group of the settings file: key to value. */
  type Store = map<string, string>

  // ----- normal form ---------------------------------------------------------

  function IsColon(): char -> bool {
    c => c == ':'
  }

  /** `rightJustified(4, '0')`: zeros in front, never cut. */
  function Justified(s: string): (t: string)
    ensures |t| >= 4 && (|s| >= 4 ==> t == s)
  {
    if |s| >= 4 then s else seq(4 - |s|, _ => '0') + s
  }

  datatype Halves = Skipped | Halves(vendor: string, product: string)

  /** Exactly one colon, with text on both sides. */
  function SplitPair(p: string): Halves {
    var i := FirstIndex(p, IsColon());
    if p == "" || i == |p| || FirstIndex(p[i + 1..], IsColon()) < |p[i + 1..]| then Skipped
    else
      var vendor, product := Trim(p[..i]), Trim(p[i + 1..]);
      if vendor == "" || product == "" then Skipped else Halves(vendor, product)
  }

  /** `None` for an entry that is skipped. */
  function Normalise(pair: string): Option<string> {
    match SplitPair(Lower(Trim(pair)))
    case Skipped => None
    case Halves(vendor, product) => Some(Justified(vendor) + ":" + Justified(product))
  }

  /** The entries of a request, each normalised or `None`. */
  function NormalForms(pairs: seq<string>): (norms: seq<Option<string>>)
    ensures |norms| == |pairs|
    ensures forall i :: 0 <= i < |pairs| ==> norms[i] == Normalise(pairs[i])
  {
    seq(|pairs|, i requires 0 <= i < |pairs| => Normalise(pairs[i]))
  }

  // ----- keys -------------------------------------------------------------------

  function PairKey(n: nat): string {
    "pair" + PrintNat(n)
  }

  /** The number in a key of the form "pair" and digits. */
  function PairNumber(key: string): Option<nat> {
    if |key| > 4 && key[..4] == "pair" && Digits(key[4..]) then Some(DigitsValue(key[4..])) else None
  }

  /** The regular expression `^pair(\d+)$` with `toInt`: its end also matches before one
      trailing line break, and a number outside 32 bits is not taken. */
  function KeyIndex(key: string): Option<nat> {
    var body := if key != "" && key[|key| - 1] == '\n' then key[..|key| - 1] else key;
    var n := PairNumber(body);
    if n.Some? && n.value <= INT_MAX then n else None
  }

  lemma PairKeyNumber(n: nat)
    ensures PairNumber(PairKey(n)) == Some(n)
    ensures n <= INT_MAX ==> KeyIndex(PairKey(n)) == Some(n)
  {
  }

  // ----- what the group holds -----------------------------------------------------

  function Stored(value: string): string {
    Lower(Trim(value))
  }

  function Known(store: Store): set<string> {
    set k | k in store && Stored(store[k]) != "" :: Stored(store[k])
  }

  ghost predicate IsMaxIndex(keys: set<string>, m: nat) {
    (m == 0 || exists k :: k in keys && KeyIndex(k) == Some(m)) &&
    forall k :: k in keys && KeyIndex(k).Some? ==> KeyIndex(k).value <= m
  }

  lemma MaxIndexExists(keys: set<string>)
    ensures exists m: nat :: IsMaxIndex(keys, m)
    decreases |keys|
  {
    if keys == {} {
      assert IsMaxIndex(keys, 0);
    } else {
      var k :| k in keys;
      MaxIndexExists(keys - {k});
      var m: nat :| IsMaxIndex(keys - {k}, m);
      var m' := if KeyIndex(k).Some? && KeyIndex(k).value > m then KeyIndex(k).value else m;
      assert IsMaxIndex(keys, m') by {
        assert m' == m && m != 0 ==> exists k' :: k' in keys - {k} && KeyIndex(k') == Some(m);
      }
    }
  }

  lemma MaxIndexUnique(keys: set<string>, a: nat, b: nat)
    requires IsMaxIndex(keys, a) && IsMaxIndex(keys, b)
    ensures a == b
  {
  }

  ghost function MaxIndex(store: Store): (m: nat)
    ensures IsMaxIndex(store.Keys, m)
  {
    MaxIndexExists(store.Keys);
    var m: nat :| IsMaxIndex(store.Keys, m);
    m
  }

  // ----- append -------------------------------------------------------------------

  /** The valid entries that are not known yet, each once, in order. */
  function FreshPairs(known: set<string>, norms: seq<Option<string>>): seq<string>
    decreases |norms|
  {
    if norms == [] then []
    else if norms[0].None? || norms[0].value in known then FreshPairs(known, norms[1..])
    else [norms[0].value] + FreshPairs(known + {norms[0].value}, norms[1..])
  }

  /** Entry by entry: the group after the append loop, which knows `known` and prints
      the number `next` first. */
  function AppendFrom(store: Store, known: set<string>, next: nat, norms: seq<Option<string>>): Store
    decreases |norms|
  {
    if norms == [] then store
    else if norms[0].None? || norms[0].value in known then AppendFrom(store, known, next, norms[1..])
    else AppendFrom(store[PairKey(next) := norms[0].value], known + {norms[0].value}, next + 1, norms[1..])
  }

  ghost function Append(store: Store, pairs: seq<string>): Store {
    AppendFrom(store, Known(store), MaxIndex(store) + 1, NormalForms(pairs))
  }

  /** The values an append adds. */
  function Added(store: Store, pairs: seq<string>): seq<string> {
    FreshPairs(Known(store), NormalForms(pairs))
  }

  /** The keys still to be printed stay inside 32 bits. */
  ghost predicate Fits(store: Store, pairs: seq<string>) {
    MaxIndex(store) + 1 + |Added(store, pairs)| <= INT_MAX
  }

  class AppSettings {
    var usb: Store

    constructor ()
      ensures usb == map[]
    {
      usb := map[];
    }

    method KnownPairs() returns (exist: set<string>)
      ensures exist == Known(usb)
    {
      exist := {};
      var todo := usb.Keys;
      while todo != {}
        invariant todo <= usb.Keys
        invariant exist == set k | k in usb.Keys - todo && Stored(usb[k]) != "" :: Stored(usb[k])
        decreases |todo|
      {
        var k :| k in todo;
        var v := Lower(Trim(usb[k]));
        if v != "" {
          exist := exist + {v};
        }
        todo := todo - {k};
      }
    }

    method HighestIndex() returns (maxIndex: nat)
      ensures maxIndex == MaxIndex(usb)
    {
      maxIndex := 0;
      var todo := usb.Keys;
      while todo != {}
        invariant todo <= usb.Keys
        invariant IsMaxIndex(usb.Keys - todo, maxIndex)
        decreases |todo|
      {
        var k :| k in todo;
        var idx := KeyIndex(k);
        if idx.Some? && idx.value > maxIndex {
          maxIndex := idx.value;
        }
        assert usb.Keys - (todo - {k}) == (usb.Keys - todo) + {k};
        todo := todo - {k};
      }
      MaxIndexUnique(usb.Keys, maxIndex, MaxIndex(usb));
    }

    /** The do-while loop that prints keys until one is unused. */
    method ProbeKey(start: nat) returns (key: string, next: nat)
      ensures next > start && key == PairKey(next - 1) && key !in usb
      ensures forall n :: start <= n < next - 1 ==> PairKey(n) in usb
    {
      next := start;
      while true
        invariant start <= next
        invariant forall n :: start <= n < next ==> PairKey(n) in usb
        decreases |KeysFrom(usb, next)|
      {
        key := PairKey(next);
        next := next + 1;
        if key !in usb {
          return;
        }
        KeysFromShrinks(usb, next - 1);
      }
    }

    method AppendHiddenUsbPairs(pairs: seq<string>)
      requires Fits(usb, pairs)
      modifies this
      ensures usb == Append(old(usb), pairs)
    {
      var exist := KnownPairs();
      var maxIndex := HighestIndex();
      var next: nat := maxIndex + 1;
      FreeAbove(usb);
      AppendEach(pairs, exist, next);
    }

    /** The loop over the requested entries. */
    method AppendEach(pairs: seq<string>, known: set<string>, start: nat)
      requires FreeFrom(usb, start) && start + |FreshPairs(known, NormalForms(pairs))| <= INT_MAX
      modifies this
      ensures usb == AppendFrom(old(usb), known, start, NormalForms(pairs))
    {
      var exist, next: nat := known, start;
      ghost var norms := NormalForms(pairs);
      assert norms[0..] == norms;
      for i := 0 to |pairs|
        invariant AppendFrom(usb, exist, next, norms[i..]) == AppendFrom(old(usb), known, start, norms)
        invariant FreeFrom(usb, next)
        invariant next + |FreshPairs(exist, norms[i..])| <= INT_MAX
      {
        assert norms[i..][0] == norms[i] && norms[i..][1..] == norms[i + 1..];
        var norm := Normalise(pairs[i]);
        if norm.None? || norm.value in exist {
          continue;
        }
        next := AddUnderNextKey(next, norm.value);
        exist := exist + {norm.value};
      }
      assert norms[|pairs|..] == [];
    }

    /** The probe finds the first key it prints unused. */
    method AddUnderNextKey(start: nat, value: string) returns (next: nat)
      requires FreeFrom(usb, start) && start <= INT_MAX
      modifies this
      ensures next == start + 1 && usb == old(usb)[PairKey(start) := value] && FreeFrom(usb, next)
    {
      var key, after := ProbeKey(start);
      FreeAfter(usb, start, value);
      next := after;
      usb := usb[key := value];
    }

    method ClearHiddenUsbPairs()
      modifies this
      ensures usb == map[]
    {
      usb := map[];
    }
  }

  // ----- the probe -------------------------------------------------------------------

  function KeysFrom(store: Store, n: nat): set<string> {
    set k | k in store && PairNumber(k).Some? && PairNumber(k).value >= n
  }

  lemma KeysFromShrinks(store: Store, n: nat)
    requires PairKey(n) in store
    ensures |KeysFrom(store, n + 1)| < |KeysFrom(store, n)|
  {
    PairKeyNumber(n);
    var a, b := KeysFrom(store, n + 1), KeysFrom(store, n);
    assert PairKey(n) in b && PairKey(n) !in a;
    assert a <= b - {PairKey(n)};
    SubsetSize(a, b - {PairKey(n)});
  }

  lemma SubsetSize(a: set<string>, b: set<string>)
    requires a <= b
    ensures |a| <= |b|
    decreases |a|
  {
    if a != {} {
      var x :| x in a;
      SubsetSize(a - {x}, b - {x});
    }
  }

  /** Every key printed above the highest index is unused, so the first probe succeeds. */
  lemma FreeAbove(store: Store)
    ensures FreeFrom(store, MaxIndex(store) + 1)
  {
  }

  ghost predicate FreeFrom(store: Store, next: nat) {
    forall n :: next <= n <= INT_MAX ==> PairKey(n) !in store
  }

  lemma FreeAfter(store: Store, next: nat, value: string)
    requires FreeFrom(store, next)
    ensures FreeFrom(store[PairKey(next) := value], next + 1)
  {
    forall n | next + 1 <= n <= INT_MAX
      ensures PairKey(n) != PairKey(next)
    {
      PairKeyNumber(n);
      PairKeyNumber(next);
    }
  }
}
