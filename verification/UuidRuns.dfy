/** Over every run the scans of the wireless keeper end, for any names and states. */
module UuidRuns {
  import opened Records
  import opened SeqOps
  import opened NetDevices
  import opened KeeperOrder
  import opened DataKeepers
  import opened WlanSpec
  import opened WlanRuns

  ghost predicate AllUuid(l: seq<Record>) {
    forall r :: r in l ==> Uuid in r
  }

  ghost predicate EveryUuid(lists: Lists) {
    forall d :: d in lists ==> AllUuid(lists[d])
  }

  lemma InsertKeepsUuid(l: seq<Record>, r: Record)
    requires AllUuid(l) && Uuid in r
    ensures AllUuid(Insert(l, r))
  {
  }

  lemma RemoveAtKeepsUuid(l: seq<Record>, i: nat)
    requires AllUuid(l) && i < |l|
    ensures AllUuid(RemoveAt(l, i)) && Uuid in l[i]
  {
  }

  lemma {:induction false} InsertAllKeepsUuid(l: seq<Record>, rs: seq<Record>)
    requires AllUuid(l) && AllUuid(rs)
    ensures AllUuid(InsertAll(l, rs))
    decreases |rs|
  {
    if rs != [] {
      assert rs[0] in rs;
      InsertKeepsUuid(l, rs[0]);
      assert forall r :: r in rs[1..] ==> r in rs;
      InsertAllKeepsUuid(Insert(l, rs[0]), rs[1..]);
    }
  }

  lemma UpdatePropKeepsUuid(l: seq<Record>, parm: Record)
    requires AllUuid(l)
    ensures AllUuid(UpdateProp(l, parm))
  {
    var i := FirstIndex(l, HasName(NameOf(parm)));
    if i < |l| {
      RemoveAtKeepsUuid(l, i);
      PatchedChangesOnly(l[i], parm);
      InsertKeepsUuid(RemoveAt(l, i), Patched(l[i], parm));
    }
  }

  lemma ActivateKeepsUuid(l: seq<Record>, ssid: string, uuid: string, status: int)
    requires AllUuid(l)
    ensures AllUuid(Activate(l, ssid, uuid, status))
  {
    var i := FirstIndex(l, HasName(ssid));
    if i < |l| {
      var k := FirstIndex(l, Is(l[i]));
      if k < |l| {
        RemoveAtKeepsUuid(l, k);
      }
      InsertKeepsUuid(DropRecord(l, l[i]), l[i] + ActivationPatch(uuid, status));
    }
  }

  /** Every row the backend answers with has at least ten fields. */
  ghost predicate TenFields(rows: seq<BackendRow>) {
    (rows != [] && !NoActiveRow(rows[0]) ==> |rows[0]| >= 10) && forall i :: 1 <= i < |rows| ==> |rows[i]| >= 10
  }

  lemma RowHasUuid(status: int, row: BackendRow)
    requires |row| >= 10
    ensures Uuid in MakeConnectionMap(status, row)
  {
  }

  lemma LoadKeepsUuid(rows: seq<BackendRow>)
    requires TenFields(rows)
    ensures RowsWide(rows) && AllUuid(RowRecords(rows))
  {
  }

  lemma DeactivateKeepsUuid(l: seq<Record>, dev: string, uuid: string, status: int, reply: map<string, seq<BackendRow>>)
    requires AllUuid(l) && !Activates(status)
    requires forall d :: d in reply ==> TenFields(reply[d]) && RowsWide(reply[d])
    ensures AllUuid(Deactivate(l, dev, uuid, status, reply))
  {
    if dev in reply {
      LoadKeepsUuid(reply[dev]);
      InsertAllKeepsUuid([], RowRecords(reply[dev]));
    }
    var i := FirstIndex(l, HasUuid(uuid));
    if i < |l| {
      var c := l[i] + map[State := Num(status)];
      assert l[i] in l;
      assert forall r :: r in l[i := c] ==> r in l || r == c;
    }
  }

  ghost predicate WideEvent(e: Event) {
    e.ActiveChanged? ==> forall d :: d in e.reply ==> TenFields(e.reply[d])
  }

  lemma WideAccepted(w: Wlan, e: Event)
    requires EveryUuid(w.lists) && WideEvent(e)
    ensures Accepts(w, e)
  {
  }

  lemma StepKeepsUuid(w: Wlan, e: Event)
    requires EveryUuid(w.lists) && WideEvent(e) && Accepts(w, e)
    ensures EveryUuid(ListsAfter(w, e))
  {
    var lists := w.lists;
    match e
    case NetworkAdd(dev, info) =>
      if dev in lists && (|info| == 10 || |info| == 11) {
        RowHasUuid(DEACTIVATED, info);
        InsertKeepsUuid(lists[dev], MakeConnectionMap(DEACTIVATED, info));
      }
    case NetworkRemove(dev, name) =>
      if dev in lists {
        SkippingKeepsElements(lists[dev], HasName(name));
      }
    case NetworkProp(parm) =>
      if StrOf(parm, DeviceName) in lists {
        UpdatePropKeepsUuid(lists[StrOf(parm, DeviceName)], parm);
      }
    case ActiveChanged(dev, ssid, uuid, status, reply) =>
      if !ActiveIgnored(w, e) {
        if Activates(status) {
          ActivateKeepsUuid(lists[dev], ssid, uuid, status);
        } else {
          forall d | d in lists
            ensures AllUuid(ListsAfterActive(lists, e)[d])
          {
            DeactivateKeepsUuid(lists[d], d, uuid, status, reply);
          }
        }
      }
    case _ =>
  }

  /** If every backend row has at least ten fields, every record carries a Uuid in every
      reachable state, so no signal of any run leaves a scan looping. */
  lemma {:induction false} EveryRunScansEnd(w: Wlan, es: seq<Event>)
    requires EveryUuid(w.lists)
    requires forall i :: 0 <= i < |es| ==> WideEvent(es[i])
    ensures RunsThrough(w, es) && EveryUuid(Run(w, es).lists)
    decreases |es|
  {
    if es != [] {
      WideAccepted(w, es[0]);
      StepKeepsUuid(w, es[0]);
      EveryRunScansEnd(Step(w, es[0]), es[1..]);
    }
  }

  /** Nine fields are accepted for an inactive row, but leave it without a Uuid: the
      next state change by uuid then never gets past it. */
  lemma NineFieldsStopTheScan(row: BackendRow, uuid: string)
    requires |row| == 9
    ensures RowWide(DEACTIVATED, row) && !ScanHalts([MakeConnectionMap(DEACTIVATED, row)], uuid)
  {
    var l := [MakeConnectionMap(DEACTIVATED, row)];
    assert Uuid !in l[0];
  }
}
