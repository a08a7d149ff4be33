/** Any number of processes racing for the lock file, one system call at a time. */
module SingleInstance {
  import opened FileLocks

  /** A process: is its lock file open, the mode it recorded, and the lock it is about
      to request when it stands between the two system calls of `lock()`. */
  datatype Wanted = Nothing | Wants(mode: LockMode, block: bool)
  datatype Proc = Proc(isOpen: bool, mode: LockMode, wanted: Wanted)

  datatype Sys = Sys(procs: map<Pid, Proc>, table: Table)

  datatype Action =
    | Construct(p: Pid, openOk: bool)
    | BeginLock(p: Pid, want: LockMode, block: bool, unlockFails: bool)
    | FinishLock(p: Pid, setFails: bool)
    | Unlock(p: Pid, fails: bool)
    | Exit(p: Pid)
    | Crash(p: Pid)

  /** Construction needs a fresh process; a call needs a live process that is not
      inside another one; leaving is always possible. A blocking request is answered
      once it can be granted or when it is interrupted; until then the call waits. */
  predicate Enabled(s: Sys, a: Action) {
    match a
    case Construct(p, _) => p !in s.procs
    case BeginLock(p, _, _, _) => p in s.procs && s.procs[p].wanted == Nothing
    case FinishLock(p, setFails) =>
      p in s.procs && s.procs[p].wanted != Nothing &&
      (s.procs[p].wanted.block ==> setFails || GrantableCode(s.table, p, s.procs[p].wanted.mode))
    case Unlock(p, _) => p in s.procs && s.procs[p].wanted == Nothing
    case Exit(p) => p in s.procs
    case Crash(p) => p in s.procs
  }

  /** A process that ends has its descriptors closed, which drops its lock, whether
      or not the destructor's `unlock` worked. */
  function Gone(s: Sys, p: Pid): Sys {
    Sys(s.procs - {p}, s.table - {p})
  }

  /** `lock()` up to its second system call. */
  function Begin(s: Sys, p: Pid, want: LockMode, block: bool, unlockFails: bool): Sys
    requires p in s.procs
  {
    var proc := s.procs[p];
    if !proc.isOpen || want == proc.mode then s
    else if want == NoLock || proc.mode != NoLock then
      var u := Unlocked(true, proc.mode, s.table, p, unlockFails);
      Sys(s.procs[p := Proc(true, u.mode, if want == NoLock then Nothing else Wants(want, block))], u.table)
    else Sys(s.procs[p := proc.(wanted := Wants(want, block))], s.table)
  }

  /** The second system call of `lock()`. */
  function Finish(s: Sys, p: Pid, setFails: bool): Sys
    requires p in s.procs && s.procs[p].wanted != Nothing
  {
    var proc := s.procs[p];
    var (t, ok) := Fcntl(s.table, p, proc.wanted.mode, setFails);
    Sys(s.procs[p := Proc(proc.isOpen, if ok then proc.wanted.mode else proc.mode, Nothing)], t)
  }

  function Next(s: Sys, a: Action): Sys
    requires Enabled(s, a)
  {
    match a
    case Construct(p, openOk) => Sys(s.procs[p := Proc(openOk, NoLock, Nothing)], s.table)
    case BeginLock(p, want, block, unlockFails) => Begin(s, p, want, block, unlockFails)
    case FinishLock(p, setFails) => Finish(s, p, setFails)
    case Unlock(p, fails) =>
      var proc := s.procs[p];
      var u := Unlocked(proc.isOpen, proc.mode, s.table, p, fails);
      Sys(s.procs[p := proc.(mode := u.mode)], u.table)
    case Exit(p) => Gone(s, p)
    case Crash(p) => Gone(s, p)
  }

  /** Disabled actions do nothing, so that every list of actions is a run. */
  function Run(s: Sys, actions: seq<Action>): Sys
    decreases |actions|
  {
    if actions == [] then s
    else Run(if Enabled(s, actions[0]) then Next(s, actions[0]) else s, actions[1..])
  }

  const Start: Sys := Sys(map[], map[])

  // ----- safety ------------------------------------------------------------

  /** Every recorded mode is the table's entry, only live processes hold locks, and a
      writer excludes all others. */
  ghost predicate Inv(s: Sys) {
    (forall p :: p in s.procs ==> s.procs[p].mode == Held(s.table, p)) &&
    (forall p :: p !in s.procs ==> Held(s.table, p) == NoLock) &&
    (forall p :: p in s.procs && s.procs[p].wanted != Nothing ==> s.procs[p].isOpen) &&
    Exclusive(s.table)
  }

  lemma GoneKeepsInv(s: Sys, p: Pid)
    requires Inv(s)
    ensures Inv(Gone(s, p))
  {
  }

  lemma NextKeepsInv(s: Sys, a: Action)
    requires Inv(s) && Enabled(s, a)
    ensures Inv(Next(s, a))
  {
    match a
    case Construct(p, openOk) =>
    case BeginLock(p, want, _, unlockFails) => FcntlKeepsExclusive(s.table, p, NoLock, unlockFails);
    case FinishLock(p, setFails) => FcntlKeepsExclusive(s.table, p, s.procs[p].wanted.mode, setFails);
    case Unlock(p, fails) => FcntlKeepsExclusive(s.table, p, NoLock, fails);
    case Exit(p) => GoneKeepsInv(s, p);
    case Crash(p) => GoneKeepsInv(s, p);
  }

  lemma {:induction false} RunKeepsInv(s: Sys, actions: seq<Action>)
    requires Inv(s)
    ensures Inv(Run(s, actions))
    decreases |actions|
  {
    if actions != [] {
      if Enabled(s, actions[0]) {
        NextKeepsInv(s, actions[0]);
        RunKeepsInv(Next(s, actions[0]), actions[1..]);
      } else {
        RunKeepsInv(s, actions[1..]);
      }
    }
  }

  /** The process that `isClient` reports as not a client. */
  predicate Primary(s: Sys, p: Pid) {
    p in s.procs && s.procs[p].mode == WriteLock
  }

  /** In every reachable state of any number of processes, with failing system calls
      and crashes: what a process recorded is what the system holds for it, and there
      is at most one primary. */
  lemma AtMostOnePrimary(actions: seq<Action>, p: Pid, q: Pid)
    ensures var s := Run(Start, actions);
            (p in s.procs ==> s.procs[p].mode == Held(s.table, p)) &&
            (Primary(s, p) && Primary(s, q) ==> p == q)
  {
    RunKeepsInv(Start, actions);
  }

  // ----- the peer: isClient only -----------------------------------------------

  /** What a peer process does: construct, ask `isClient`, leave. */
  predicate PeerAction(a: Action) {
    a.Construct? || (a.BeginLock? && a.want == WriteLock && !a.block) || a.FinishLock? || a.Exit? || a.Crash?
  }

  predicate LeavesOut(a: Action, p: Pid) {
    (a.Exit? || a.Crash?) ==> a.p != p
  }

  /** A primary inside no call stays so: its own `isClient` returns at once. */
  predicate SettledPrimary(s: Sys, p: Pid) {
    Primary(s, p) && s.procs[p].wanted == Nothing
  }

  lemma PrimaryStaysStep(s: Sys, a: Action, p: Pid)
    requires Inv(s) && SettledPrimary(s, p) && Enabled(s, a)
    requires a.p == p ==> PeerAction(a) && LeavesOut(a, p)
    ensures SettledPrimary(Next(s, a), p)
  {
  }

  /** A primary stays primary until it exits or crashes, whatever the other processes
      do and however often it asks `isClient` again. */
  lemma {:induction false} PrimaryStays(s: Sys, actions: seq<Action>, p: Pid)
    requires Inv(s) && SettledPrimary(s, p)
    requires forall i :: 0 <= i < |actions| && actions[i].p == p ==> PeerAction(actions[i]) && LeavesOut(actions[i], p)
    ensures SettledPrimary(Run(s, actions), p)
    decreases |actions|
  {
    if actions != [] {
      if Enabled(s, actions[0]) {
        PrimaryStaysStep(s, actions[0], p);
        NextKeepsInv(s, actions[0]);
        PrimaryStays(Next(s, actions[0]), actions[1..], p);
      } else {
        PrimaryStays(s, actions[1..], p);
      }
    }
  }

  /** How an unlocked peer's `isClient` ends: it becomes primary exactly when its file
      is open, the call does not fail, and no other process holds a lock when the
      request reaches the system, whatever happened in between. */
  lemma IsClientDecides(s: Sys, p: Pid, between: seq<Action>, setFails: bool)
    requires Inv(s) && p in s.procs && s.procs[p] == Proc(true, NoLock, Nothing)
    requires forall i :: 0 <= i < |between| ==> between[i].p != p
    ensures var asked := Run(Next(s, BeginLock(p, WriteLock, false, false)), between);
            Enabled(asked, FinishLock(p, setFails)) &&
            (Primary(Next(asked, FinishLock(p, setFails)), p) <==>
             !setFails && forall q :: q != p ==> Held(asked.table, q) == NoLock)
  {
    var begun := Next(s, BeginLock(p, WriteLock, false, false));
    NextKeepsInv(s, BeginLock(p, WriteLock, false, false));
    RunKeepsInv(begun, between);
    OthersLeave(begun, between, p);
    var asked := Run(begun, between);
    assert Grantable(asked.table, p, WriteLock) <==> forall q :: q != p ==> Held(asked.table, q) == NoLock by {
      assert forall q :: q in asked.table ==> Held(asked.table, q) == asked.table[q];
    }
  }

  lemma {:induction false} OthersLeave(s: Sys, actions: seq<Action>, p: Pid)
    requires p in s.procs
    requires forall i :: 0 <= i < |actions| ==> actions[i].p != p
    ensures p in Run(s, actions).procs && Run(s, actions).procs[p] == s.procs[p]
    decreases |actions|
  {
    if actions != [] {
      if Enabled(s, actions[0]) {
        OthersLeave(Next(s, actions[0]), actions[1..], p);
      } else {
        OthersLeave(s, actions[1..], p);
      }
    }
  }

  /** After the primary is gone, or before there is one, the next peer with an open lock file to ask
      becomes primary. */
  lemma NextPeerBecomesPrimary(actions: seq<Action>, p: Pid)
    requires var s := Run(Start, actions);
             p in s.procs && s.procs[p] == Proc(true, NoLock, Nothing) &&
             forall q :: q in s.procs ==> s.procs[q].mode == NoLock
    ensures Primary(Run(Run(Start, actions), [BeginLock(p, WriteLock, false, false), FinishLock(p, false)]), p)
  {
    var s := Run(Start, actions);
    RunKeepsInv(Start, actions);
    IsClientDecides(s, p, [], false);
    var begun := Next(s, BeginLock(p, WriteLock, false, false));
    var ask: seq<Action> := [BeginLock(p, WriteLock, false, false), FinishLock(p, false)];
    assert ask[1..] == [FinishLock(p, false)] && ask[1..][1..] == [];
    assert Run(s, ask) == Run(begun, ask[1..]);
    assert Run(begun, []) == begun;
    assert Run(begun, ask[1..]) == Next(begun, FinishLock(p, false));
  }

  // ----- the peer object ------------------------------------------------------------

  /** One process's peer: the lock file and the local server. */
  class QtLocalPeer {
    const lockFile: QtLockedFile
    var listening: bool

    constructor (pid: Pid, os: LockTable, openOk: bool)
      requires Held(os.held, pid) == NoLock
      ensures lockFile.Valid() && lockFile.os == os && lockFile.pid == pid && fresh(lockFile)
      ensures lockFile.isOpen == openOk && lockFile.lockMode == NoLock && !listening
    {
      lockFile := new QtLockedFile(pid, os, openOk);
      listening := false;
    }

    /** Holding the lock is being primary; only the call that obtains it listens. */
    method IsClient(setFails: bool, listenOk: bool) returns (client: bool)
      requires lockFile.Valid()
      modifies this, lockFile`lockMode, lockFile.os
      ensures lockFile.Valid()
      ensures client <==> lockFile.lockMode == NoLock
      ensures old(lockFile.lockMode) != NoLock ==>
                lockFile.os.held == old(lockFile.os.held) && lockFile.lockMode == old(lockFile.lockMode)
      ensures old(lockFile.lockMode) == NoLock ==>
                (!client <==>
                 lockFile.isOpen && !setFails && Grantable(old(lockFile.os.held), lockFile.pid, WriteLock)) &&
                (!client ==> lockFile.lockMode == WriteLock)
      ensures listening == if old(lockFile.lockMode) == NoLock && !client then listenOk else old(listening)
    {
      if lockFile.lockMode != NoLock {
        return false;
      }
      var got := lockFile.Lock(WriteLock, false, [], false, setFails);
      if !got {
        return true;
      }
      listening := listenOk;
      return false;
    }
  }

  // ----- the two views agree -------------------------------------------------------------

  /** With nothing in between, the two steps of the machine are one call of `lock()`,
      blocking or not, if the call returns at all. */
  lemma StepsAreLockCall(s: Sys, p: Pid, want: LockMode, block: bool, unlockFails: bool, setFails: bool)
    requires Inv(s) && p in s.procs && s.procs[p].wanted == Nothing
    ensures var o := Locked(s.procs[p].isOpen, s.procs[p].mode, s.table, p, want, block, [], unlockFails, setFails);
            var s1 := Next(s, BeginLock(p, want, block, unlockFails));
            var s2 := if Enabled(s1, FinishLock(p, setFails)) then Next(s1, FinishLock(p, setFails)) else s1;
            s2.procs[p].wanted == Nothing ==> s2.table == o.table && s2.procs[p].mode == o.mode
  {
    var begun := Begin(s, p, want, block, unlockFails);
    assert forall q :: q != p ==> Held(begun.table, q) == Held(s.table, q);
  }

  /** A blocking call that has to wait returns exactly when it is interrupted or no other
      process stands in the way, and then, unless interrupted, with the lock. */
  lemma BlockingCallWaits(s: Sys, p: Pid, setFails: bool)
    requires Inv(s) && p in s.procs && s.procs[p].wanted.Wants? && s.procs[p].wanted.block
    ensures var f := FinishLock(p, setFails);
            (Enabled(s, f) <==> setFails || Grantable(s.table, p, s.procs[p].wanted.mode)) &&
            (Enabled(s, f) && !setFails ==>
               Next(s, f).procs[p].mode == s.procs[p].wanted.mode == Held(Next(s, f).table, p))
  {
  }
}
