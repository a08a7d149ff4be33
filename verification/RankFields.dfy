/** What the order of connections is decided by, field by field. */
module RankFields {
  import opened Text
  import opened TextFacts
  import opened Records
  import opened NetDevices
  import opened Mirror

  /** The stored state, Configured and signal strength: numbers, the strength as a text. */
  ghost predicate Stores(r: Record, state: int, configured: int, signal: int) {
    State in r && Configured in r && Signal in r && InRange(signal) &&
    r[State] == Num(state) && r[Configured] == Num(configured) && ShowsNumber(r[Signal], signal)
  }

  predicate InRange(n: int) {
    -0x8000_0000 <= n < 0x8000_0000
  }

  ghost predicate PrintedBetween(s: string, a: string, n: int, b: string) {
    Blanks(a) && Blanks(b) && s == a + PrintInt(n) + b
  }

  ghost predicate ShowsNumber(v: Variant, n: int) {
    match v
    case Num(k) => k == n
    case Str(s) => exists a: string, b: string :: PrintedBetween(s, a, n, b)
  }

  predicate ActiveState(state: int) {
    state == 1 || state == 2
  }

  lemma SignalRead(r: Record, n: int)
    requires Signal in r && ShowsNumber(r[Signal], n) && InRange(n)
    ensures SignalOf(r) == n
  {
    match r[Signal]
    case Num(k) =>
      ParsePrinted("", n, "");
      assert "" + PrintInt(n) + "" == PrintInt(n);
    case Str(s) =>
      var a: string, b: string :| PrintedBetween(s, a, n, b);
      ParsePrinted(a, n, b);
  }

  /** A record may stand in front of another when it is activating or activated; or when
      neither is, and it alone has Configured 1, or both or none have and its signal is at
      least as strong. */
  lemma RankMeans(a: Record, b: Record, s: int, c: int, n: int, s': int, c': int, n': int)
    requires Stores(a, s, c, n) && Stores(b, s', c', n')
    ensures Geq(a, b) <==>
            ActiveState(s) ||
            (!ActiveState(s') && ((c == 1 && c' != 1) || ((c == 1) == (c' == 1) && n >= n')))
  {
    SignalRead(a, n);
    SignalRead(b, n');
  }

  /** The interface compares the two Configured numbers themselves. */
  lemma MirrorRankMeans(a: Record, b: Record, s: int, c: int, n: int, s': int, c': int, n': int)
    requires Stores(a, s, c, n) && Stores(b, s', c', n')
    ensures MirrorGeq(a, b) <==> ActiveState(s) || (!ActiveState(s') && (c > c' || (c == c' && n >= n')))
  {
    SignalRead(a, n);
    SignalRead(b, n');
  }

  /** A record without these fields counts as inactive, not configured, of strength 0. */
  lemma NoFieldsRank(r: Record)
    requires State !in r && Configured !in r && Signal !in r
    ensures !Active(r) && !IsConfigured(r) && ConfiguredOf(r) == 0 && SignalOf(r) == 0
  {
    ParsePrinted("", 0, "");
    assert PrintInt(0) == "0" && "" + "0" + "" == "0";
  }
}
