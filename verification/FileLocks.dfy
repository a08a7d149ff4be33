/** The per-process file lock over the system's record-lock table
    (fcntl() in the System Interfaces volume of IEEE Std 1003.1-2017). */
module FileLocks {

  datatype LockMode = NoLock | ReadLock | WriteLock

  type Pid = nat

  /** Who holds which lock on the lock file. */
  type Table = map<Pid, LockMode>

  function Held(t: Table, p: Pid): LockMode {
    if p in t then t[p] else NoLock
  }

  /** A process's own lock never blocks it; a write lock excludes every other
      process, a read lock excludes other writers. */
  ghost predicate Grantable(t: Table, p: Pid, mode: LockMode) {
    match mode
    case NoLock => true
    case ReadLock => forall q :: q != p ==> Held(t, q) != WriteLock
    case WriteLock => forall q :: q != p ==> Held(t, q) == NoLock
  }

  predicate GrantableCode(t: Table, p: Pid, mode: LockMode)
    ensures GrantableCode(t, p, mode) <==> Grantable(t, p, mode)
  {
    match mode
    case NoLock => true
    case ReadLock => forall q | q in t.Keys :: q != p ==> Held(t, q) != WriteLock
    case WriteLock => forall q | q in t.Keys :: q != p ==> Held(t, q) == NoLock
  }

  /** One `fcntl` call that sets, converts or clears the lock. `fails` stands for an
      error other than a conflict; a failed call leaves the table alone. */
  function Fcntl(t: Table, p: Pid, mode: LockMode, fails: bool): (r: (Table, bool))
    ensures r.1 <==> !fails && Grantable(t, p, mode)
    ensures Held(r.0, p) == if r.1 then mode else Held(t, p)
    ensures forall q :: q != p ==> Held(r.0, q) == Held(t, q)
  {
    if fails || !GrantableCode(t, p, mode) then (t, false) else (t[p := mode], true)
  }

  /** No writer beside another holder. */
  ghost predicate Exclusive(t: Table) {
    forall p, q :: p != q && Held(t, p) == WriteLock ==> Held(t, q) == NoLock
  }

  lemma FcntlKeepsExclusive(t: Table, p: Pid, mode: LockMode, fails: bool)
    requires Exclusive(t)
    ensures Exclusive(Fcntl(t, p, mode, fails).0)
  {
  }

  /** The table when a request is answered: at once, or for a blocking request when it can
      be granted or the wait is interrupted. The waiting process keeps its own entry. */
  function Served(t: Table, p: Pid, mode: LockMode, block: bool, others: seq<Table>): (r: Table)
    ensures Held(r, p) == Held(t, p)
    ensures !block ==> r == t
    ensures r == t || (block && !Grantable(t, p, mode))
    decreases |others|
  {
    if !block || others == [] || GrantableCode(t, p, mode) then t
    else Served(others[0][p := Held(t, p)], p, mode, block, others[1..])
  }

  class LockTable {
    var held: Table

    constructor ()
      ensures held == map[]
    {
      held := map[];
    }

    /** While a blocking request waits, the other processes change the table: `others` are
        the tables they leave, one after the other, until the wait is interrupted. */
    method Wait(p: Pid, mode: LockMode, block: bool, others: seq<Table>)
      modifies this
      ensures held == Served(old(held), p, mode, block, others)
    {
      var i := 0;
      while block && i < |others| && !GrantableCode(held, p, mode)
        invariant 0 <= i <= |others|
        invariant Served(held, p, mode, block, others[i..]) == Served(old(held), p, mode, block, others)
      {
        held := others[i][p := Held(held, p)];
        assert others[i..][0] == others[i] && others[i..][1..] == others[i + 1..];
        i := i + 1;
      }
    }

    method Set(p: Pid, mode: LockMode, fails: bool) returns (ok: bool)
      modifies this
      ensures (held, ok) == Fcntl(old(held), p, mode, fails)
    {
      var r := Fcntl(held, p, mode, fails);
      held := r.0;
      ok := r.1;
    }
  }

  /** What one call saw: the lock mode it leaves, the table, and its result. */
  datatype Outcome = Outcome(mode: LockMode, table: Table, ok: bool)

  function Unlocked(open: bool, mode: LockMode, t: Table, p: Pid, fails: bool): Outcome {
    if !open then Outcome(mode, t, false)
    else if mode == NoLock then Outcome(mode, t, true)
    else
      var (t', ok) := Fcntl(t, p, NoLock, fails);
      Outcome(if ok then NoLock else mode, t', ok)
  }

  function Locked(open: bool, mode: LockMode, t: Table, p: Pid, want: LockMode, block: bool, others: seq<Table>,
                  unlockFails: bool, setFails: bool): Outcome
  {
    if !open then Outcome(mode, t, false)
    else if want == NoLock then Unlocked(open, mode, t, p, unlockFails)
    else if want == mode then Outcome(mode, t, true)
    else
      var u := if mode != NoLock then Unlocked(open, mode, t, p, unlockFails) else Outcome(mode, t, true);
      var (t', ok) := Fcntl(Served(u.table, p, want, block, others), p, want, setFails);
      Outcome(if ok then want else u.mode, t', ok)
  }

  /** One process's locked file. */
  class QtLockedFile {
    const pid: Pid
    const os: LockTable
    var isOpen: bool
    var lockMode: LockMode

    /** The recorded mode is what the system holds for this process. */
    ghost predicate Valid()
      reads this, os
    {
      lockMode == Held(os.held, pid)
    }

    constructor (process: Pid, table: LockTable, openOk: bool)
      requires Held(table.held, process) == NoLock
      ensures pid == process && os == table && isOpen == openOk && lockMode == NoLock && Valid()
    {
      pid := process;
      os := table;
      isOpen := openOk;
      lockMode := NoLock;
    }

    method Unlock(fails: bool) returns (ok: bool)
      requires Valid()
      modifies this`lockMode, os
      ensures Valid()
      ensures Outcome(lockMode, os.held, ok) == Unlocked(isOpen, old(lockMode), old(os.held), pid, fails)
    {
      if !isOpen {
        return false;
      }
      if lockMode == NoLock {
        return true;
      }
      var ret := os.Set(pid, NoLock, fails);
      if !ret {
        return false;
      }
      lockMode := NoLock;
      return true;
    }

    /** A blocking call waits until the lock is granted or the wait is interrupted, a
        non-blocking one returns at once. */
    method Lock(mode: LockMode, block: bool, others: seq<Table>, unlockFails: bool, setFails: bool) returns (ok: bool)
      requires Valid()
      modifies this`lockMode, os
      ensures Valid()
      ensures Outcome(lockMode, os.held, ok) ==
              Locked(isOpen, old(lockMode), old(os.held), pid, mode, block, others, unlockFails, setFails)
    {
      if !isOpen {
        return false;
      }
      if mode == NoLock {
        ok := Unlock(unlockFails);
        return;
      }
      if mode == lockMode {
        return true;
      }
      if lockMode != NoLock {
        var ignored := Unlock(unlockFails);
      }
      os.Wait(pid, mode, block, others);
      var ret := os.Set(pid, mode, setFails);
      if !ret {
        return false;
      }
      lockMode := mode;
      return true;
    }
  }

  /** The documented result of `lock()`, true exactly when the file is locked by the
      object afterwards, is met unless a lock of the other kind could be neither
      released nor converted: then it reports false while the old lock stays. */
  lemma LockReportsTruthIff(mode: LockMode, t: Table, p: Pid, want: LockMode, block: bool, others: seq<Table>,
                            unlockFails: bool, setFails: bool)
    requires mode == Held(t, p) && want != NoLock
    ensures var o := Locked(true, mode, t, p, want, block, others, unlockFails, setFails);
            (o.ok <==> o.mode != NoLock) <==>
            !(mode != NoLock && mode != want && unlockFails &&
              (setFails || !Grantable(Served(t, p, want, block, others), p, want)))
  {
  }

  /** A granted request leaves exactly the wanted lock, recorded and in the table; a refused
      one leaves the old lock or none. Without waiting no other process's lock changes, and
      on a closed file nothing does. */
  lemma LockTakesWanted(open: bool, mode: LockMode, t: Table, p: Pid, want: LockMode, block: bool,
                        others: seq<Table>, unlockFails: bool, setFails: bool)
    requires mode == Held(t, p)
    ensures var o := Locked(open, mode, t, p, want, block, others, unlockFails, setFails);
            o.mode == Held(o.table, p) &&
            (o.ok ==> open && o.mode == want) &&
            (!o.ok ==> o.mode == mode || o.mode == NoLock) &&
            (!block ==> forall q :: q != p ==> Held(o.table, q) == Held(t, q)) &&
            (!open ==> o.mode == mode && o.table == t)
  {
  }

  /** Two readers, one asks for the write lock while releasing fails: `lock()` says no
      although the file is still locked by the object. */
  lemma RefusedWhileHeld()
    ensures var t: Table := map[1 := ReadLock, 2 := ReadLock];
            var o := Locked(true, ReadLock, t, 1, WriteLock, false, [], true, false);
            !o.ok && o.mode == ReadLock && Held(o.table, 1) == ReadLock
  {
    var t: Table := map[1 := ReadLock, 2 := ReadLock];
    assert Held(t, 2) != NoLock;
  }

  /** The documented result of `unlock()`, true exactly when the object holds no lock
      afterwards, is always met on an open file. */
  lemma UnlockReportsTruth(mode: LockMode, t: Table, p: Pid, fails: bool)
    requires mode == Held(t, p)
    ensures var o := Unlocked(true, mode, t, p, fails);
            o.ok <==> o.mode == NoLock
    ensures Held(Unlocked(true, mode, t, p, fails).table, p) == Unlocked(true, mode, t, p, fails).mode
  {
  }

  /** A change of lock kind goes through an unlocked moment: when the new lock is not
      granted after a successful release, the old one is lost. */
  lemma FailedUpgradeLosesLock(t: Table, p: Pid, block: bool, others: seq<Table>, setFails: bool)
    requires Held(t, p) == ReadLock
    requires var free := Unlocked(true, ReadLock, t, p, false).table;
             setFails || !Grantable(Served(free, p, WriteLock, block, others), p, WriteLock)
    ensures var o := Locked(true, ReadLock, t, p, WriteLock, block, others, false, setFails);
            !o.ok && o.mode == NoLock && Held(o.table, p) == NoLock
  {
  }

  /** A blocking request fails only when it is interrupted: when the others leave a table
      in which it can be granted, it is granted. */
  lemma {:induction false} BlockingIsServed(t: Table, p: Pid, want: LockMode, others: seq<Table>, k: nat)
    requires k < |others| && Grantable(others[k], p, want)
    ensures Grantable(Served(t, p, want, true, others), p, want)
    decreases |others|
  {
    if !Grantable(t, p, want) {
      var next := others[0][p := Held(t, p)];
      if k == 0 {
        assert forall q :: q != p ==> Held(next, q) == Held(others[0], q);
        assert Grantable(next, p, want);
        assert Served(next, p, want, true, others[1..]) == next;
      } else {
        BlockingIsServed(next, p, want, others[1..], k - 1);
      }
    }
  }
}
