/** The rows shown by the wireless list view. */
module ViewModel {
  import opened Records
  import opened SeqOps
  import opened Names

  datatype Row = Row(
    ssid: string, signal: string, security: string, uuid: string, isApConn: string, category: string,
    frequency: nat, status: int, loading: bool, configured: int, isMix: bool, autoConnect: bool)

  /** `mapToConnectionInfo`. */
  function ToRow(r: Record): Row {
    Row(NameOf(r), StrOf(r, Signal), StrOf(r, Security), StrOf(r, Uuid), StrOf(r, IsApConn), StrOf(r, Category),
        UIntOf(r, Frequency), StateOf(r), BoolOf(r, Loading), ConfiguredOf(r), BoolOf(r, IsMix), BoolOf(r, AutoConnect))
  }

  function ToRows(l: seq<Record>): (rows: seq<Row>)
    ensures |rows| == |l|
    ensures forall i :: 0 <= i < |l| ==> rows[i] == ToRow(l[i])
  {
    seq(|l|, i requires 0 <= i < |l| => ToRow(l[i]))
  }

  function HasSsid(id: string): Row -> bool {
    (row: Row) => row.ssid == id
  }

  predicate RowActive(row: Row) {
    row.status == ACTIVATING || row.status == ACTIVATED
  }

  /** An active row always goes to the front. `QVector::insert` is undefined
      beyond the end: what the rows are then is not said (here: unchanged). */
  function RowAdd(rows: seq<Row>, index: nat, row: Row): seq<Row> {
    if RowActive(row) then [row] + rows
    else if index <= |rows| then InsertAt(rows, index, row)
    else rows
  }

  function RowDrop(rows: seq<Row>, id: string): seq<Row> {
    var i := FirstIndex(rows, HasSsid(id));
    if i < |rows| then RemoveAt(rows, i) else rows
  }

  function RowReplace(rows: seq<Row>, row: Row): seq<Row> {
    var i := FirstIndex(rows, HasSsid(row.ssid));
    if i < |rows| then rows[i := row] else rows
  }

  class WirelessConnectionModel {
    var rows: seq<Row>

    constructor ()
      ensures rows == []
    {
      rows := [];
    }

    /** `defined` tells whether the vector has the index; otherwise the behaviour of
        the original is undefined from here on. */
    method AddConnection(index: nat, row: Row) returns (defined: bool)
      modifies this`rows
      ensures defined <==> RowActive(row) || index <= |old(rows)|
      ensures rows == RowAdd(old(rows), index, row)
    {
      if row.status == 1 || row.status == 2 {
        rows := [row] + rows;
        return true;
      }
      if index > |rows| {
        return false;
      }
      rows := rows[..index] + [row] + rows[index..];
      return true;
    }

    method FindIndexById(id: string) returns (index: int)
      ensures var i := FirstIndex(rows, HasSsid(id));
              index == if i < |rows| then i else -1
    {
      for i := 0 to |rows|
        invariant forall k :: 0 <= k < i ==> rows[k].ssid != id
      {
        if rows[i].ssid == id {
          FirstIndexUnique(rows, HasSsid(id), i);
          return i;
        }
      }
      FirstIndexUnique(rows, HasSsid(id), |rows|);
      return -1;
    }

    method RemoveConnection(id: string)
      modifies this`rows
      ensures rows == RowDrop(old(rows), id)
    {
      var index := FindIndexById(id);
      if index != -1 {
        rows := rows[..index] + rows[index + 1..];
      }
    }

    method ReplaceConnection(row: Row)
      modifies this`rows
      ensures rows == RowReplace(old(rows), row)
    {
      var index := FindIndexById(row.ssid);
      if index != -1 {
        rows := rows[index := row];
      }
    }

    method RefreshConnections(newList: seq<Record>)
      modifies this`rows
      ensures rows == ToRows(newList)
    {
      rows := [];
      for i := 0 to |newList|
        invariant rows == ToRows(newList[..i])
      {
        rows := rows + [ToRow(newList[i])];
      }
      assert newList[..|newList|] == newList;
    }
  }

  // ----- rows against records ---------------------------------------------

  function NameSeq(l: seq<Record>): (s: seq<string>)
    ensures |s| == |l|
  {
    seq(|l|, i requires 0 <= i < |l| => NameOf(l[i]))
  }

  function SsidSeq(rows: seq<Row>): (s: seq<string>)
    ensures |s| == |rows|
  {
    seq(|rows|, i requires 0 <= i < |rows| => rows[i].ssid)
  }

  /** The rows show the same names as the records, each as often. */
  ghost predicate NamesAgree(l: seq<Record>, rows: seq<Row>) {
    |l| == |rows| && multiset(NameSeq(l)) == multiset(SsidSeq(rows))
  }

  lemma NamesAgreeRefresh(l: seq<Record>)
    ensures NamesAgree(l, ToRows(l))
  {
    assert NameSeq(l) == SsidSeq(ToRows(l));
  }

  lemma NamesAgreeAdd(l: seq<Record>, rows: seq<Row>, i: nat, k: nat, r: Record)
    requires NamesAgree(l, rows) && i <= |l| && (Active(r) || k <= |rows|)
    ensures NamesAgree(InsertAt(l, i, r), RowAdd(rows, k, ToRow(r)))
  {
    var j := if Active(r) then 0 else k;
    NamesAgreeInsert(l, rows, i, j, r);
    assert Active(r) ==> [ToRow(r)] + rows == InsertAt(rows, 0, ToRow(r));
  }

  lemma NamesAgreeInsert(l: seq<Record>, rows: seq<Row>, i: nat, j: nat, r: Record)
    requires NamesAgree(l, rows) && i <= |l| && j <= |rows|
    ensures NamesAgree(InsertAt(l, i, r), InsertAt(rows, j, ToRow(r)))
  {
    assert NameSeq(InsertAt(l, i, r)) == InsertAt(NameSeq(l), i, NameOf(r));
    assert SsidSeq(InsertAt(rows, j, ToRow(r))) == InsertAt(SsidSeq(rows), j, NameOf(r));
    MultisetInsertAt(NameSeq(l), i, NameOf(r));
    MultisetInsertAt(SsidSeq(rows), j, NameOf(r));
  }

  lemma NamesAgreeDrop(l: seq<Record>, rows: seq<Row>, i: nat)
    requires NamesAgree(l, rows) && i < |l|
    ensures NamesAgree(RemoveAt(l, i), RowDrop(rows, NameOf(l[i])))
  {
    var j := FindSsid(l, rows, i);
    assert NameSeq(RemoveAt(l, i)) == RemoveAt(NameSeq(l), i);
    assert SsidSeq(RemoveAt(rows, j)) == RemoveAt(SsidSeq(rows), j);
    MultisetRemoveAt(NameSeq(l), i);
    MultisetRemoveAt(SsidSeq(rows), j);
    var name := multiset{NameOf(l[i])};
    assert multiset(NameSeq(l)) - name == multiset(RemoveAt(NameSeq(l), i));
    assert multiset(SsidSeq(rows)) - name == multiset(RemoveAt(SsidSeq(rows), j));
  }

  lemma NamesAgreeReplace(l: seq<Record>, rows: seq<Row>, i: nat, r: Record)
    requires NamesAgree(l, rows) && i < |l| && NameOf(r) == NameOf(l[i])
    ensures NamesAgree(l[i := r], RowReplace(rows, ToRow(r)))
  {
    var j := FindSsid(l, rows, i);
    assert NameSeq(l[i := r]) == NameSeq(l);
    assert SsidSeq(rows[j := ToRow(r)]) == SsidSeq(rows);
  }

  lemma FindSsid(l: seq<Record>, rows: seq<Row>, i: nat) returns (j: nat)
    requires NamesAgree(l, rows) && i < |l|
    ensures j == FirstIndex(rows, HasSsid(NameOf(l[i]))) && j < |rows|
  {
    j := FirstIndex(rows, HasSsid(NameOf(l[i])));
    assert NameSeq(l)[i] == NameOf(l[i]);
    assert NameOf(l[i]) in multiset(SsidSeq(rows));
    var k :| 0 <= k < |rows| && SsidSeq(rows)[k] == NameOf(l[i]);
    assert HasSsid(NameOf(l[i]))(rows[k]);
  }

  // Lockstep: with distinct names each row operation matches the list operation.

  lemma SsidIndex(l: seq<Record>, name: string)
    ensures FirstIndex(ToRows(l), HasSsid(name)) == FindName(l, name)
  {
    FirstIndexUnique(ToRows(l), HasSsid(name), FindName(l, name));
  }

  lemma LockstepInsert(l: seq<Record>, k: nat, r: Record)
    requires k <= |l| && (Active(r) ==> k == 0)
    ensures RowAdd(ToRows(l), k, ToRow(r)) == ToRows(InsertAt(l, k, r))
  {
  }

  lemma LockstepRemove(l: seq<Record>, i: nat)
    requires NamesDistinct(l) && i < |l|
    ensures RowDrop(ToRows(l), NameOf(l[i])) == ToRows(RemoveAt(l, i))
  {
    SsidIndex(l, NameOf(l[i]));
    FindNameAt(l, i);
    assert RowDrop(ToRows(l), NameOf(l[i])) == RemoveAt(ToRows(l), i);
  }

  lemma LockstepReplace(l: seq<Record>, i: nat, r: Record)
    requires NamesDistinct(l) && i < |l| && NameOf(r) == NameOf(l[i])
    ensures RowReplace(ToRows(l), ToRow(r)) == ToRows(l[i := r])
  {
    SsidIndex(l, NameOf(r));
    FindNameAt(l, i);
    assert RowReplace(ToRows(l), ToRow(r)) == ToRows(l)[i := ToRow(r)];
  }
}
