/** One network device and its ordered connection list. */
module NetDevices {
  import opened Records
  import opened SeqOps

  datatype DeviceType = WiredDevice | WirelessDevice

  // ----- ranking -------------------------------------------------------

  predicate IsConfigured(r: Record) {
    ConfiguredOf(r) == 1
  }

  /** `a` may stand directly before `b`: `a` is active, or both are inactive and
      `a` is at least as good by (configured, signal). */
  predicate Geq(a: Record, b: Record) {
    Active(a) ||
    (!Active(b) &&
     ((IsConfigured(a) && !IsConfigured(b)) ||
      (IsConfigured(a) == IsConfigured(b) && SignalOf(a) >= SignalOf(b))))
  }

  ghost predicate Ordered(l: seq<Record>) {
    forall i, j :: 0 <= i < j < |l| ==> Geq(l[i], l[j])
  }

  function Reaches(r: Record): Record -> bool {
    b => Geq(r, b)
  }

  /** The insertion index: before the first record that `r` is at least as good as. */
  function Slot(l: seq<Record>, r: Record): (k: nat)
    ensures k <= |l|
    ensures forall j :: 0 <= j < k ==> !Geq(r, l[j])
    ensures k < |l| ==> Geq(r, l[k])
  {
    FirstIndex(l, Reaches(r))
  }

  function Insert(l: seq<Record>, r: Record): seq<Record> {
    if r in l then l else InsertAt(l, Slot(l, r), r)
  }

  function InsertAll(l: seq<Record>, rs: seq<Record>): seq<Record>
    decreases |rs|
  {
    if rs == [] then l else InsertAll(Insert(l, rs[0]), rs[1..])
  }

  // ----- specification of the mutators -----------------------------------

  function DropRecord(l: seq<Record>, r: Record): seq<Record> {
    var i := FirstIndex(l, Is(r));
    if i < |l| then RemoveAt(l, i) else l
  }

  /** The record found by `uuid` gets `patch`, and moves to the front on request. */
  function Restate(l: seq<Record>, uuid: string, patch: Record, toFront: bool): seq<Record> {
    var i := FirstIndex(l, HasUuid(uuid));
    if i == |l| then l
    else if toFront then [l[i] + patch] + RemoveAt(l, i)
    else l[i := l[i] + patch]
  }

  function Restated(l: seq<Record>, uuid: string, patch: Record): Record {
    var i := FirstIndex(l, HasUuid(uuid));
    if i == |l| then map[] else l[i] + patch
  }

  const PROP_FIELDS: set<Field> := {Signal, Security, Uuid, Frequency, Configured, IsMix, State, AutoConnect}

  /** `conn` with the listed fields of `parm` copied over it. */
  function Merged(conn: Record, parm: Record, fields: set<Field>): Record {
    conn + (map f | f in parm && f in fields :: parm[f])
  }

  function Patched(conn: Record, parm: Record): Record {
    Merged(conn, parm, PROP_FIELDS)
  }

  method CopyField(base: Record, conn: Record, parm: Record, f: Field, ghost fields: set<Field>) returns (r: Record)
    requires conn == Merged(base, parm, fields)
    ensures r == Merged(base, parm, fields + {f})
  {
    r := conn;
    if f in parm {
      r := r - {f};
      r := r[f := parm[f]];
    }
    assert r == Merged(base, parm, fields + {f});
  }

  method CopyFields(conn: Record, parm: Record) returns (patched: Record)
    ensures patched == Patched(conn, parm)
  {
    patched := conn;
    ghost var copied: set<Field> := {};
    assert patched == Merged(conn, parm, copied);
    patched := CopyField(conn, patched, parm, Signal, copied);
    copied := copied + {Signal};
    patched := CopyField(conn, patched, parm, Security, copied);
    copied := copied + {Security};
    patched := CopyField(conn, patched, parm, Uuid, copied);
    copied := copied + {Uuid};
    patched := CopyField(conn, patched, parm, Frequency, copied);
    copied := copied + {Frequency};
    patched := CopyField(conn, patched, parm, Configured, copied);
    copied := copied + {Configured};
    patched := CopyField(conn, patched, parm, IsMix, copied);
    copied := copied + {IsMix};
    patched := CopyField(conn, patched, parm, State, copied);
    copied := copied + {State};
    patched := CopyField(conn, patched, parm, AutoConnect, copied);
    copied := copied + {AutoConnect};
    assert copied == PROP_FIELDS;
  }

  function UpdateProp(l: seq<Record>, parm: Record): seq<Record> {
    var i := FirstIndex(l, HasName(NameOf(parm)));
    if i == |l| then l else Insert(RemoveAt(l, i), Patched(l[i], parm))
  }

  // ----- the scan of updateConnection ------------------------------------

  /** One turn of the scan of `updateConnection`: `Some` next index, or `None` when the loop ends. */
  datatype Scan = At(i: nat) | Done

  function ScanStep(l: seq<Record>, uuid: string, s: Scan): Scan {
    if s.Done? || s.i >= |l| then Done
    else if Uuid !in l[s.i] then s
    else if StrOf(l[s.i], Uuid) == uuid then Done
    else At(s.i + 1)
  }

  function ScanAfter(l: seq<Record>, uuid: string, s: Scan, steps: nat): Scan
    decreases steps
  {
    if steps == 0 then s else ScanAfter(l, uuid, ScanStep(l, uuid, s), steps - 1)
  }

  /** Every record up to and including the first match carries a Uuid. */
  ghost predicate ScanHalts(l: seq<Record>, uuid: string) {
    forall k :: 0 <= k <= FirstIndex(l, HasUuid(uuid)) && k < |l| ==> Uuid in l[k]
  }

  lemma {:induction false} ScanStuck(l: seq<Record>, uuid: string, i: nat, steps: nat)
    requires i < |l| && Uuid !in l[i]
    ensures ScanAfter(l, uuid, At(i), steps) == At(i)
  {
    if steps > 0 {
      ScanStuck(l, uuid, i, steps - 1);
    }
  }

  lemma {:induction false} ScanAdvances(l: seq<Record>, uuid: string, i: nat, k: nat)
    requires i <= k <= |l|
    requires forall j :: i <= j < k ==> Uuid in l[j] && StrOf(l[j], Uuid) != uuid
    ensures ScanAfter(l, uuid, At(i), k - i) == At(k)
    decreases k - i
  {
    if i < k {
      ScanAdvances(l, uuid, i + 1, k);
    }
  }

  lemma ScanSplit(l: seq<Record>, uuid: string, s: Scan, a: nat, b: nat)
    ensures ScanAfter(l, uuid, s, a + b) == ScanAfter(l, uuid, ScanAfter(l, uuid, s, a), b)
    decreases a
  {
    if a > 0 {
      ScanSplit(l, uuid, ScanStep(l, uuid, s), a - 1, b);
    }
  }

  lemma ScanStaysDone(l: seq<Record>, uuid: string, steps: nat)
    ensures ScanAfter(l, uuid, Done, steps) == Done
  {
  }

  /** The loop of `updateConnection` ends exactly when no record without a Uuid
      stands before the match: it does not advance past such a record. */
  lemma ScanEndsIff(l: seq<Record>, uuid: string)
    ensures (exists steps: nat :: ScanAfter(l, uuid, At(0), steps) == Done) <==> ScanHalts(l, uuid)
  {
    var i := FirstIndex(l, HasUuid(uuid));
    if ScanHalts(l, uuid) {
      ScanAdvances(l, uuid, 0, i);
      ScanSplit(l, uuid, At(0), i, 1);
      assert ScanAfter(l, uuid, At(i), 1) == ScanAfter(l, uuid, ScanStep(l, uuid, At(i)), 0);
      assert ScanAfter(l, uuid, At(0), i + 1) == Done;
    } else {
      var lacks := (r: Record) => Uuid !in r;
      var m := FirstIndex(l, lacks);
      assert m < |l| && m <= i;
      ScanAdvances(l, uuid, 0, m);
      forall steps: nat
        ensures ScanAfter(l, uuid, At(0), steps) != Done
      {
        if steps >= m {
          ScanSplit(l, uuid, At(0), m, steps - m);
          ScanStuck(l, uuid, m, steps - m);
        } else if ScanAfter(l, uuid, At(0), steps) == Done {
          ScanSplit(l, uuid, At(0), steps, m - steps);
          ScanStaysDone(l, uuid, m - steps);
        }
      }
    }
  }

  /** The uuid, or on a wired device the path, that `containsConnection` looks for. */
  function Identifies(devType: DeviceType, uuidOrPath: string): Record -> bool {
    r => StrOf(r, Uuid) == uuidOrPath || (devType == WiredDevice && StrOf(r, Path) == uuidOrPath)
  }

  predicate Contains(l: seq<Record>, devType: DeviceType, uuidOrPath: string) {
    FirstIndex(l, Identifies(devType, uuidOrPath)) < |l|
  }

  // ----- the device ------------------------------------------------------

  class NetDevice {
    const name: string
    const devType: DeviceType
    var available: bool
    var conns: seq<Record>

    constructor (devName: string, kind: DeviceType)
      ensures name == devName && devType == kind && !available && conns == []
    {
      name := devName;
      devType := kind;
      available := false;
      conns := [];
    }

    method SetAvailable(isAvailable: bool)
      modifies this`available
      ensures available == isAvailable
    {
      available := isAvailable;
    }

    method AddConnection(r: Record)
      modifies this`conns
      ensures conns == Insert(old(conns), r)
    {
      if r in conns {
        return;
      }
      if StateOf(r) == ACTIVATED || StateOf(r) == ACTIVATING {
        assert Slot(conns, r) == 0;
        conns := [r] + conns;
        return;
      }
      var insertIndex := 0;
      var configured := ConfiguredOf(r) == 1;
      var signal := SignalOf(r);
      while insertIndex < |conns|
        invariant insertIndex <= |conns|
        invariant forall j :: 0 <= j < insertIndex ==> !Geq(r, conns[j])
      {
        var existing := conns[insertIndex];
        if StateOf(existing) == ACTIVATED || StateOf(existing) == ACTIVATING {
          assert !Geq(r, existing);
          insertIndex := insertIndex + 1;
          continue;
        }
        if configured && !(ConfiguredOf(existing) == 1) {
          break;
        } else if configured == (ConfiguredOf(existing) == 1) {
          if signal >= SignalOf(existing) {
            break;
          }
        }
        insertIndex := insertIndex + 1;
      }
      FirstIndexUnique(conns, Reaches(r), insertIndex);
      conns := conns[..insertIndex] + [r] + conns[insertIndex..];
    }

    method RemoveConnection(r: Record)
      modifies this`conns
      ensures conns == DropRecord(old(conns), r)
    {
      if r !in conns {
        return;
      }
      var i := FirstIndex(conns, Is(r));
      conns := conns[..i] + conns[i + 1..];
    }

    method RemoveConnectionByPath(path: string)
      modifies this`conns
      ensures conns == RemoveSkipping(old(conns), HasPath(path))
    {
      var i := 0;
      SkipFromStart(conns, HasPath(path));
      while i < |conns|
        invariant i >= 0 && SkipFrom(conns, i, HasPath(path)) == RemoveSkipping(old(conns), HasPath(path))
        decreases |conns| - i
      {
        SkippingStep(conns, i, HasPath(path));
        if StrOf(conns[i], Path) == path {
          conns := conns[..i] + conns[i + 1..];
        }
        i := i + 1;
      }
    }

    method RemoveConnectionByName(connName: string)
      modifies this`conns
      ensures conns == RemoveSkipping(old(conns), HasName(connName))
    {
      var i := 0;
      SkipFromStart(conns, HasName(connName));
      while i < |conns|
        invariant i >= 0 && SkipFrom(conns, i, HasName(connName)) == RemoveSkipping(old(conns), HasName(connName))
        decreases |conns| - i
      {
        SkippingStep(conns, i, HasName(connName));
        if NameOf(conns[i]) == connName {
          conns := conns[..i] + conns[i + 1..];
        }
        i := i + 1;
      }
    }

    /** The scan does not advance past a record without a Uuid, so callers must
        rule that out: `ScanHalts` is exactly the condition (see `ScanEndsIff`). */
    method UpdateConnection(uuid: string, status: int) returns (conn: Record)
      requires ScanHalts(conns, uuid)
      modifies this`conns
      ensures conns == Restate(old(conns), uuid, map[State := Num(status)], status == ACTIVATED)
      ensures conn == Restated(old(conns), uuid, map[State := Num(status)])
    {
      var i := 0;
      conn := map[];
      while i < |conns|
        invariant i <= |conns| && conns == old(conns) && conn == map[]
        invariant forall k :: 0 <= k < i ==> StrOf(conns[k], Uuid) != uuid
      {
        var current := conns[i];
        assert i <= FirstIndex(conns, HasUuid(uuid));
        if Uuid !in current {
          // Here the scan goes round again without advancing.
          assert false;
        }
        if StrOf(current, Uuid) == uuid {
          FirstIndexUnique(conns, HasUuid(uuid), i);
          conns := conns[..i] + conns[i + 1..];
          conn := current - {State};
          conn := conn[State := Num(status)];
          assert conn == current + map[State := Num(status)];
          if status == ACTIVATED {
            conns := [conn] + conns;
          } else {
            conns := conns[..i] + [conn] + conns[i..];
          }
          return;
        }
        i := i + 1;
      }
      FirstIndexUnique(conns, HasUuid(uuid), i);
    }

    method UpdateConnectivity(uuid: string, status: int, connectivity: int) returns (conn: Record)
      modifies this`conns
      ensures conns == Restate(old(conns), uuid, map[State := Num(status), Connectivity := Num(connectivity)],
                               status == ACTIVATED)
      ensures conn == Restated(old(conns), uuid, map[State := Num(status), Connectivity := Num(connectivity)])
    {
      var i := 0;
      conn := map[];
      while i < |conns|
        invariant i <= |conns| && conns == old(conns) && conn == map[]
        invariant forall k :: 0 <= k < i ==> StrOf(conns[k], Uuid) != uuid
      {
        var current := conns[i];
        if StrOf(current, Uuid) == uuid {
          FirstIndexUnique(conns, HasUuid(uuid), i);
          conns := conns[..i] + conns[i + 1..];
          conn := current - {State};
          conn := conn[State := Num(status)];
          conn := conn - {Connectivity};
          conn := conn[Connectivity := Num(connectivity)];
          assert conn == current + map[State := Num(status), Connectivity := Num(connectivity)];
          if status == ACTIVATED {
            conns := [conn] + conns;
          } else {
            conns := conns[..i] + [conn] + conns[i..];
          }
          return;
        }
        i := i + 1;
      }
      FirstIndexUnique(conns, HasUuid(uuid), i);
    }

    method UpdateConnectionProp(parm: Record)
      modifies this`conns
      ensures conns == UpdateProp(old(conns), parm)
    {
      var i := 0;
      while i < |conns|
        invariant i <= |conns| && conns == old(conns)
        invariant forall k :: 0 <= k < i ==> NameOf(conns[k]) != NameOf(parm)
      {
        var conn := conns[i];
        if NameOf(conn) == NameOf(parm) {
          FirstIndexUnique(conns, HasName(NameOf(parm)), i);
          conns := conns[..i] + conns[i + 1..];
          var patched := CopyFields(conn, parm);
          AddConnection(patched);
          return;
        }
        i := i + 1;
      }
      FirstIndexUnique(conns, HasName(NameOf(parm)), i);
    }

    method ContainsConnection(uuidOrPath: string) returns (found: bool)
      ensures found <==> Contains(conns, devType, uuidOrPath)
    {
      for i := 0 to |conns|
        invariant forall k :: 0 <= k < i ==> !Identifies(devType, uuidOrPath)(conns[k])
      {
        if StrOf(conns[i], Uuid) == uuidOrPath {
          FirstIndexUnique(conns, Identifies(devType, uuidOrPath), i);
          return true;
        }
        if devType == WirelessDevice {
          continue;
        }
        if StrOf(conns[i], Path) == uuidOrPath {
          FirstIndexUnique(conns, Identifies(devType, uuidOrPath), i);
          return true;
        }
      }
      FirstIndexUnique(conns, Identifies(devType, uuidOrPath), |conns|);
      return false;
    }

    method ContainsConnectionName(connName: string) returns (found: bool)
      ensures found <==> FirstIndex(conns, HasName(connName)) < |conns|
    {
      for i := 0 to |conns|
        invariant forall k :: 0 <= k < i ==> NameOf(conns[k]) != connName
      {
        if NameOf(conns[i]) == connName {
          FirstIndexUnique(conns, HasName(connName), i);
          return true;
        }
      }
      FirstIndexUnique(conns, HasName(connName), |conns|);
      return false;
    }

    method GetConnectionByName(connName: string) returns (r: Record)
      ensures var i := FirstIndex(conns, HasName(connName));
              r == if i < |conns| then conns[i] else map[]
    {
      for i := 0 to |conns|
        invariant forall k :: 0 <= k < i ==> NameOf(conns[k]) != connName
      {
        if NameOf(conns[i]) == connName {
          FirstIndexUnique(conns, HasName(connName), i);
          return conns[i];
        }
      }
      FirstIndexUnique(conns, HasName(connName), |conns|);
      return map[];
    }

    method ClearConnections()
      modifies this`conns
      ensures conns == []
    {
      conns := [];
    }
  }
}
