/** The string operations of the source that the models depend on: trimming,
    ASCII lower case, and decimal numbers. */
module Text {

  predicate IsSpace(c: char) {
    c == ' ' || '\t' <= c <= '\r'
  }

  function TrimLeft(s: string): string {
    if s != [] && IsSpace(s[0]) then TrimLeft(s[1..]) else s
  }

  function TrimRight(s: string): string {
    if s != [] && IsSpace(s[|s| - 1]) then TrimRight(s[..|s| - 1]) else s
  }

  /** `QString::trimmed`. */
  function Trim(s: string): string {
    TrimRight(TrimLeft(s))
  }

  /** No blank at either end. */
  predicate Trimmed(s: string) {
    s == [] || (!IsSpace(s[0]) && !IsSpace(s[|s| - 1]))
  }

  lemma {:induction false} TrimLeftGives(s: string)
    ensures var t := TrimLeft(s);
            (t == [] || !IsSpace(t[0])) && forall c :: c in t ==> c in s
  {
    if s != [] && IsSpace(s[0]) {
      TrimLeftGives(s[1..]);
    }
  }

  lemma {:induction false} TrimRightGives(s: string)
    ensures var t := TrimRight(s);
            (t == [] || !IsSpace(t[|t| - 1])) && forall c :: c in t ==> c in s
    ensures TrimRight(s) != [] ==> s != [] && TrimRight(s)[0] == s[0]
  {
    if s != [] && IsSpace(s[|s| - 1]) {
      TrimRightGives(s[..|s| - 1]);
    }
  }

  /** Trimming gives a trimmed piece of the text and leaves trimmed text alone. */
  lemma TrimGives(s: string)
    ensures Trimmed(Trim(s))
    ensures forall c :: c in Trim(s) ==> c in s
    ensures Trimmed(s) ==> Trim(s) == s
  {
    TrimLeftGives(s);
    TrimRightGives(TrimLeft(s));
  }

  function LowerChar(c: char): char {
    if 'A' <= c <= 'Z' then (c as int + 32) as char else c
  }

  /** `QString::toLower` on ASCII letters. */
  function Lower(s: string): (t: string)
    ensures |t| == |s|
    ensures forall k :: 0 <= k < |s| ==> t[k] == LowerChar(s[k])
  {
    seq(|s|, i requires 0 <= i < |s| => LowerChar(s[i]))
  }

  predicate IsDigit(c: char) {
    '0' <= c <= '9'
  }

  /** Printing a natural number in decimal, no leading zero. */
  function PrintNat(n: nat): (s: string)
    ensures s != [] && Digits(s) && DigitsValue(s) == n
    ensures |s| > 1 ==> s[0] != '0'
  {
    if n < 10 then
      var d := (n as char) + '0';
      assert DigitsValue([d]) == n;
      [d]
    else
      var s := PrintNat(n / 10) + [((n % 10) as char) + '0'];
      assert s[..|s| - 1] == PrintNat(n / 10);
      s
  }

  function DigitsValue(s: string): nat
    requires Digits(s)
  {
    if s == [] then 0
    else DigitsValue(s[..|s| - 1]) * 10 + (s[|s| - 1] as int - '0' as int)
  }

  function PrintInt(n: int): string {
    if n < 0 then "-" + PrintNat(-n) else PrintNat(n)
  }

  predicate Digits(s: string) {
    s == [] || (IsDigit(s[|s| - 1]) && Digits(s[..|s| - 1]))
  }

  const INT_MIN: int := -0x8000_0000
  const INT_MAX: int := 0x7fff_ffff

  /** `QString::toInt`: surrounding blanks and one sign are allowed; anything
      else, and a value outside 32 bits, reads as 0. */
  function ParseInt(s: string): (n: int)
    ensures INT_MIN <= n <= INT_MAX
  {
    var t := Trim(s);
    var negative := t != [] && t[0] == '-';
    var digits := if t != [] && (t[0] == '-' || t[0] == '+') then t[1..] else t;
    if digits == [] || !Digits(digits) then 0
    else
      var v: int := DigitsValue(digits) * (if negative then -1 else 1);
      if INT_MIN <= v <= INT_MAX then v else 0
  }

  /** `QString::toUInt`. */
  function ParseUInt(s: string): (n: nat)
    ensures n < 0x1_0000_0000
  {
    var t := Trim(s);
    var digits := if t != [] && t[0] == '+' then t[1..] else t;
    if digits == [] || !Digits(digits) || DigitsValue(digits) >= 0x1_0000_0000 then 0 else DigitsValue(digits)
  }
}
