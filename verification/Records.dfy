/** Connection records: the `QMap<QString, QVariant>` that the keepers, the
    interface mirror and the view model exchange. */
module Records {
  import opened Text

  /** The keys used by the source. */
  datatype Field =
    | Name | Signal | Security | Uuid | IsApConn | Category | State | Loading
    | Configured | Frequency | IsMix | AutoConnect | Path | IsDsl | Connectivity | DeviceName

  /** A stored value. Integers and booleans are one case because `QVariant`
      compares them by numeric value. */
  datatype Variant = Num(n: int) | Str(s: string)

  type Record = map<Field, Variant>

  const ACTIVATING: int := 1
  const ACTIVATED: int := 2
  const DEACTIVATING: int := 3
  const DEACTIVATED: int := 4

  function ToInt(v: Variant): int {
    match v
    case Num(n) => n
    case Str(s) => ParseInt(s)
  }

  function ToStr(v: Variant): string {
    match v
    case Num(n) => PrintInt(n)
    case Str(s) => s
  }

  function ToBool(v: Variant): bool {
    match v
    case Num(n) => n != 0
    case Str(s) => s != "" && s != "0" && Lower(s) != "false"
  }

  /** `value(key).toString()`: empty for a missing key. */
  function StrOf(r: Record, f: Field): string {
    if f in r then ToStr(r[f]) else ""
  }

  /** `value(key).toInt()`: zero for a missing key. */
  function IntOf(r: Record, f: Field): int {
    if f in r then ToInt(r[f]) else 0
  }

  /** `value(key).toUInt()`. */
  function UIntOf(r: Record, f: Field): nat {
    if f !in r then 0
    else
      match r[f]
      case Num(n) => n % 0x1_0000_0000
      case Str(s) => ParseUInt(s)
  }

  function BoolOf(r: Record, f: Field): bool {
    f in r && ToBool(r[f])
  }

  function NameOf(r: Record): string {
    StrOf(r, Name)
  }

  function StateOf(r: Record): int {
    IntOf(r, State)
  }

  function ConfiguredOf(r: Record): int {
    IntOf(r, Configured)
  }

  function SignalOf(r: Record): int {
    ParseInt(if Signal in r then ToStr(r[Signal]) else "0")
  }

  predicate Active(r: Record) {
    StateOf(r) == ACTIVATED || StateOf(r) == ACTIVATING
  }

  function HasName(name: string): Record -> bool {
    r => NameOf(r) == name
  }

  function HasUuid(uuid: string): Record -> bool {
    r => StrOf(r, Uuid) == uuid
  }

  function HasPath(path: string): Record -> bool {
    r => StrOf(r, Path) == path
  }

  function Is(record: Record): Record -> bool {
    r => r == record
  }

  /** Apart from the listed fields the two records agree. */
  ghost predicate SameBut(before: Record, after: Record, fields: set<Field>) {
    forall f: Field :: f !in fields ==> (f in after <==> f in before) && (f in before ==> after[f] == before[f])
  }

  ghost predicate NamesDistinct(l: seq<Record>) {
    forall i, j :: 0 <= i < j < |l| ==> NameOf(l[i]) != NameOf(l[j])
  }
}
