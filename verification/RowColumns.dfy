/** What each field of a record does to the row it is shown in. */
module RowColumns {
  import opened Text
  import opened TextFacts
  import opened Records
  import opened ViewModel

  /** The row of a record without any field. */
  lemma EmptyRow()
    ensures ToRow(map[]) == Row("", "", "", "", "", "", 0, 0, false, 0, false, false)
  {
  }

  /** Six columns show a stored text as it is. */
  lemma TextColumns(r: Record, s: string)
    ensures ToRow(r[Name := Str(s)]) == ToRow(r).(ssid := s)
    ensures ToRow(r[Signal := Str(s)]) == ToRow(r).(signal := s)
    ensures ToRow(r[Security := Str(s)]) == ToRow(r).(security := s)
  {
  }

  lemma MoreTextColumns(r: Record, s: string)
    ensures ToRow(r[Uuid := Str(s)]) == ToRow(r).(uuid := s)
    ensures ToRow(r[IsApConn := Str(s)]) == ToRow(r).(isApConn := s)
    ensures ToRow(r[Category := Str(s)]) == ToRow(r).(category := s)
  {
  }

  /** A stored number is shown as it is; the category in decimal. */
  lemma NumberColumns(r: Record, n: int)
    ensures ToRow(r[State := Num(n)]) == ToRow(r).(status := n)
    ensures ToRow(r[Configured := Num(n)]) == ToRow(r).(configured := n)
    ensures ToRow(r[Category := Num(n)]) == ToRow(r).(category := if n < 0 then "-" + PrintNat(-n) else PrintNat(n))
  {
  }

  /** The frequency is unsigned: 32 bits that mean a negative number wrap around. */
  lemma FrequencyColumn(r: Record, n: int)
    requires -0x8000_0000 <= n < 0x1_0000_0000
    ensures ToRow(r[Frequency := Num(n)]) == ToRow(r).(frequency := if n < 0 then n + 0x1_0000_0000 else n)
  {
    var r' := r[Frequency := Num(n)];
    assert UIntOf(r', Frequency) == if n < 0 then n + 0x1_0000_0000 else n;
  }

  /** Or as whether it is not zero. */
  lemma YesNoColumns(r: Record, n: int)
    ensures ToRow(r[Loading := Num(n)]) == ToRow(r).(loading := n != 0)
    ensures ToRow(r[IsMix := Num(n)]) == ToRow(r).(isMix := n != 0)
    ensures ToRow(r[AutoConnect := Num(n)]) == ToRow(r).(autoConnect := n != 0)
  {
  }

  /** A number stored as text, with any blanks around it, is read as that number. */
  lemma ParsedColumns(r: Record, a: string, n: int, b: string)
    requires Blanks(a) && Blanks(b) && -0x8000_0000 <= n < 0x8000_0000
    ensures var v := Str(a + PrintInt(n) + b);
            ToRow(r[State := v]) == ToRow(r).(status := n) &&
            ToRow(r[Configured := v]) == ToRow(r).(configured := n) &&
            (n >= 0 ==> ToRow(r[Frequency := v]) == ToRow(r).(frequency := n))
  {
    ParsePrinted(a, n, b);
  }

  lemma MeansNo(s: string)
    requires s == "" || s == "0" || s == "false" || s == "FALSE"
    ensures !ToBool(Str(s))
  {
    assert Lower("false") == "false" && Lower("FALSE") == "false";
  }

  /** As text, only the empty text, "0" and "false" in any letter case mean no. */
  lemma BoolColumns(r: Record, s: string)
    requires s == "" || s == "0" || s == "false" || s == "FALSE"
    ensures ToRow(r[Loading := Str(s)]) == ToRow(r).(loading := false)
    ensures ToRow(r[IsMix := Str(s)]) == ToRow(r).(isMix := false)
    ensures ToRow(r[AutoConnect := Str(s)]) == ToRow(r).(autoConnect := false)
  {
    MeansNo(s);
  }

  lemma TrueColumns(r: Record, s: string)
    requires s != "" && s != "0" && |s| != 5
    ensures ToRow(r[Loading := Str(s)]) == ToRow(r).(loading := true)
    ensures ToRow(r[IsMix := Str(s)]) == ToRow(r).(isMix := true)
    ensures ToRow(r[AutoConnect := Str(s)]) == ToRow(r).(autoConnect := true)
  {
  }

  /** The other fields are not shown. */
  lemma HiddenFields(r: Record, f: Field, v: Variant)
    requires f == Path || f == IsDsl || f == Connectivity || f == DeviceName
    ensures ToRow(r[f := v]) == ToRow(r)
  {
  }
}
