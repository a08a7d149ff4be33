/** What the string operations do, character by character. */
module TextFacts {
  import opened Text

  ghost predicate Blanks(s: string) {
    forall k :: 0 <= k < |s| ==> IsSpace(s[k])
  }

  // ----- trimming --------------------------------------------------------------

  lemma {:induction false} TrimLeftOf(a: string, rest: string)
    requires Blanks(a)
    ensures TrimLeft(a + rest) == TrimLeft(rest)
  {
    if a == "" {
      assert a + rest == rest;
    } else {
      assert (a + rest)[0] == a[0] && (a + rest)[1..] == a[1..] + rest;
      TrimLeftOf(a[1..], rest);
    }
  }

  lemma {:induction false} TrimRightOf(rest: string, b: string)
    requires Blanks(b)
    ensures TrimRight(rest + b) == TrimRight(rest)
    decreases |b|
  {
    if b == "" {
      assert rest + b == rest;
    } else {
      var s := rest + b;
      assert s[|s| - 1] == b[|b| - 1] && s[..|s| - 1] == rest + b[..|b| - 1];
      TrimRightOf(rest, b[..|b| - 1]);
    }
  }

  /** Trimming takes off the blanks at both ends and nothing else. */
  lemma TrimOf(a: string, core: string, b: string)
    requires Blanks(a) && Trimmed(core) && Blanks(b)
    ensures Trim(a + core + b) == core
  {
    assert a + core + b == a + (core + b);
    TrimLeftOf(a, core + b);
    if core == "" {
      assert core + b == b && b == b + "";
      TrimLeftOf(b, "");
    } else {
      assert (core + b)[0] == core[0];
      TrimRightOf(core, b);
    }
  }

  // ----- letter case -----------------------------------------------------------

  /** A capital ASCII letter becomes the small one, 32 places on; all else stays. */
  lemma LowerMeans(s: string)
    ensures |Lower(s)| == |s|
    ensures forall k :: 0 <= k < |s| ==>
              !('A' <= Lower(s)[k] <= 'Z') &&
              (if 'A' <= s[k] <= 'Z' then Lower(s)[k] as int == s[k] as int + 32 else Lower(s)[k] == s[k])
  {
  }

  // ----- numbers ---------------------------------------------------------------

  function Digit(d: nat): char
    requires d < 10
  {
    "0123456789"[d]
  }

  /** Decimal notation, the most significant digit first. */
  lemma PrintMeans(a: nat, d: nat)
    requires d < 10
    ensures PrintNat(d) == [Digit(d)]
    ensures a > 0 ==> PrintNat(10 * a + d) == PrintNat(a) + [Digit(d)]
  {
    if a > 0 {
      assert (10 * a + d) / 10 == a && (10 * a + d) % 10 == d;
    }
  }

  lemma {:induction false} PrintStarts(n: nat)
    ensures IsDigit(PrintNat(n)[0]) && !IsSpace(PrintNat(n)[0])
    ensures IsDigit(PrintNat(n)[|PrintNat(n)| - 1])
  {
    if n >= 10 {
      PrintStarts(n / 10);
      assert PrintNat(n)[0] == PrintNat(n / 10)[0];
    }
  }

  lemma PrintIntTrimmed(n: int)
    ensures Trimmed(PrintInt(n)) && PrintInt(n) != ""
  {
    PrintStarts(if n < 0 then -n else n);
    var digits := PrintNat(if n < 0 then -n else n);
    assert n < 0 ==> PrintInt(n)[|PrintInt(n)| - 1] == digits[|digits| - 1];
  }

  /** A printed number, with any blanks around it, reads as itself if it fits 32 bits
      and as 0 otherwise. */
  lemma ParsePrinted(a: string, n: int, b: string)
    requires Blanks(a) && Blanks(b)
    ensures ParseInt(a + PrintInt(n) + b) == if -0x8000_0000 <= n < 0x8000_0000 then n else 0
    ensures n >= 0 ==> ParseUInt(a + PrintInt(n) + b) == if n < 0x1_0000_0000 then n else 0
  {
    PrintIntTrimmed(n);
    TrimOf(a, PrintInt(n), b);
    var digits := PrintNat(if n < 0 then -n else n);
    PrintStarts(if n < 0 then -n else n);
    assert n < 0 ==> PrintInt(n)[1..] == digits;
  }

  lemma {:induction false} DigitsThroughout(s: string)
    requires Digits(s)
    ensures forall c :: c in s ==> IsDigit(c)
  {
    if s != "" {
      DigitsThroughout(s[..|s| - 1]);
      assert s == s[..|s| - 1] + [s[|s| - 1]];
    }
  }

  /** A text in which something other than a digit stands behind a digit, or no digit at
      all, does not read as a number. */
  lemma ParseRefuses(s: string, k: nat)
    requires Trimmed(s)
    requires s == "" || (0 < k < |s| && !IsDigit(s[k])) || (|s| == 1 && !IsDigit(s[0]))
    ensures ParseInt(s) == 0 && ParseUInt(s) == 0
  {
    TrimGives(s);
    if |s| > 1 {
      assert s[1..][k - 1] == s[k];
      if Digits(s[1..]) {
        DigitsThroughout(s[1..]);
      }
      if Digits(s) {
        DigitsThroughout(s);
      }
    }
  }
}
