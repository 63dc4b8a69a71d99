/**
 fork, exit, wait, kill and reparent of labo2/kernel/proc.c over the process table.  One step
 runs one process from one acquire or release of a spinlock to the next.
 */
module Processes {
  // RUNNABLE and RUNNING are both Active: any process may be the next to run.
  datatype PState = Unused | Used | Active | Sleeping | Zombie

  // Where the process of a slot is.
  datatype Pc =
    | Nobody                                   // no process runs in the slot
    | Born                                     // forked, not yet scheduled
    | Idle
    // fork and allocproc
    | Alloc(i: nat)                            // before acquire of the lock of slot i
    | AllocHold(i: nat)
    | ForkBody(i: nat)                         // slot i is USED, and its lock held
    | ForkLink(i: nat)                         // before acquire(&wait_lock)
    | ForkSet(i: nat)
    | ForkReady(i: nat)                        // before acquire(&np->lock)
    | ForkRun(i: nat)
    // exit
    | ExitWant(x: int)                         // before acquire(&wait_lock)
    | Reparent(x: int, i: nat)
    | InitWake(x: int, i: nat, j: nat)         // wakeup(initproc), before slot j
    | InitWaking(x: int, i: nat, j: nat)       // ... and with its lock
    | ParWake(x: int, j: nat)                  // wakeup(p->parent)
    | ParWaking(x: int, j: nat)
    | ExitLock(x: int)                         // before acquire(&p->lock)
    | ExitSet(x: int)
    | Dying                                    // ZOMBIE; the scheduler has yet to release p->lock
    // wait
    | WaitWant                                 // before acquire(&wait_lock)
    | WaitScan(i: nat, kids: bool)
    | WaitHold(i: nat, kids: bool)             // with the lock of child i
    | WaitLeave                                // before release(&wait_lock)
    | KilledWant | KilledHold
    | WSleep1 | WSleep2 | WSleep3 | WSleep4    // sleep, as in Sleeping
    | WAsleep | WWoken
    // kill
    | Kill(pid: nat, i: nat)
    | Killing(pid: nat, i: nat)

  // What wait returned: who waited, whose child it was, and the child's pid and status.
  datatype Reaping = Reaping(waiter: nat, parent: int, pid: nat, status: int)

  /**
   The process table and its locks; slot 0 is initproc.  `exited` has the status that each
   process exited with, and `reaped` what wait returned, in order.
   */
  datatype System = System(pc: seq<Pc>, st: seq<PState>, parent: seq<int>, pid: seq<nat>, xs: seq<int>,
                           killed: seq<bool>,
                           plock: seq<int>, wlock: int, nextpid: nat, exited: map<nat, int>, reaped: seq<Reaping>)

  datatype Choice = Fork | Exit(x: int) | Wait | KillPid(pid: nat) | Ok | Fail

  // The slot that a place names must exist where its lock is held.
  predicate InRange(pc: Pc, n: nat) {
    match pc
    case AllocHold(i) => i < n
    case ForkBody(i) => i < n
    case ForkLink(i) => i < n
    case ForkSet(i) => i < n
    case ForkReady(i) => i < n
    case ForkRun(i) => i < n
    case InitWake(x, i, j) => i < n
    case InitWaking(x, i, j) => i < n && j < n
    case ParWaking(x, j) => j < n
    case WaitHold(i, kids) => i < n
    case Killing(t, i) => i < n
    case _ => true
  }

  predicate Shape(s: System) {
    && |s.pc| > 0
    && |s.st| == |s.parent| == |s.pid| == |s.xs| == |s.killed| == |s.plock| == |s.pc|
    && forall p :: 0 <= p < |s.pc| ==> InRange(s.pc[p], |s.pc|)
  }

  function Go(s: System, p: nat, pc: Pc): (t: System)
    requires p < |s.pc|
    ensures |t.pc| == |s.pc| && |t.plock| == |s.plock|
  {
    s.(pc := s.pc[p := pc])
  }

  // acquire(&wait_lock), once it is free.
  function AcquireW(s: System, p: nat, next: Pc): (t: System)
    requires p < |s.pc|
    ensures |t.pc| == |s.pc| && |t.plock| == |s.plock|
  {
    if s.wlock == -1 then Go(s.(wlock := p), p, next) else s
  }

  function ReleaseW(s: System, p: nat, next: Pc): (t: System)
    requires p < |s.pc|
    ensures |t.pc| == |s.pc| && |t.plock| == |s.plock|
  {
    Go(s.(wlock := -1), p, next)
  }

  function LockProc(s: System, p: nat, i: nat, next: Pc): (t: System)
    requires p < |s.pc| && i < |s.plock|
    ensures |t.pc| == |s.pc| && |t.plock| == |s.plock|
  {
    if s.plock[i] == -1 then Go(s.(plock := s.plock[i := p]), p, next) else s
  }

  function UnlockProc(s: System, p: nat, i: nat, next: Pc): (t: System)
    requires p < |s.pc| && i < |s.plock|
    ensures |t.pc| == |s.pc| && |t.plock| == |s.plock|
  {
    Go(s.(plock := s.plock[i := -1]), p, next)
  }

  // p->pid = allocpid(); p->state = USED
  function Claimed(s: System, i: nat): (t: System)
    requires Shape(s) && i < |s.pc|
    ensures |t.pc| == |s.pc| && |t.plock| == |s.plock|
  {
    s.(st := s.st[i := Used], pid := s.pid[i := s.nextpid], nextpid := s.nextpid + 1)
  }

  function FreeProc(s: System, i: nat): (t: System)
    requires Shape(s) && i < |s.pc|
    ensures |t.pc| == |s.pc| && |t.plock| == |s.plock|
  {
    s.(st := s.st[i := Unused], pid := s.pid[i := 0], parent := s.parent[i := -1], xs := s.xs[i := 0],
      killed := s.killed[i := false])
  }

  function WithParent(s: System, i: nat, q: int): (t: System)
    requires Shape(s) && i < |s.pc|
    ensures |t.pc| == |s.pc| && |t.plock| == |s.plock|
  {
    s.(parent := s.parent[i := q])
  }

  // The child of a fork becomes RUNNABLE.
  function Started(s: System, i: nat): (t: System)
    requires Shape(s) && i < |s.pc|
    ensures |t.pc| == |s.pc| && |t.plock| == |s.plock|
  {
    s.(st := s.st[i := Active], pc := s.pc[i := Born])
  }

  // wakeup(chan) at slot `j`, where `chan` is slot `c`: a process sleeps in wait on its own slot.
  function Wakeup(s: System, c: int, j: nat): (t: System)
    requires Shape(s) && j < |s.pc|
    ensures |t.pc| == |s.pc| && |t.plock| == |s.plock|
  {
    if s.st[j].Sleeping? && j == c then s.(st := s.st[j := Active]) else s
  }

  function Exited(s: System, p: nat, x: int): (t: System)
    requires Shape(s) && p < |s.pc|
    ensures |t.pc| == |s.pc| && |t.plock| == |s.plock|
  {
    s.(xs := s.xs[p := x], st := s.st[p := Zombie], exited := s.exited[s.pid[p] := x])
  }

  function FellAsleep(s: System, p: nat): (t: System)
    requires Shape(s) && p < |s.pc|
    ensures |t.pc| == |s.pc| && |t.plock| == |s.plock|
  {
    s.(st := s.st[p := Sleeping])
  }

  // wait returns the child in slot `i`.
  function Reaped(s: System, p: nat, i: nat): (t: System)
    requires Shape(s) && i < |s.pc|
    ensures |t.pc| == |s.pc| && |t.plock| == |s.plock|
  {
    FreeProc(s.(reaped := s.reaped + [Reaping(p, s.parent[i], s.pid[i], s.xs[i])]), i)
  }

  function Killed(s: System, i: nat): (t: System)
    requires Shape(s) && i < |s.pc|
    ensures |t.pc| == |s.pc| && |t.plock| == |s.plock|
  {
    s.(killed := s.killed[i := true], st := if s.st[i].Sleeping? then s.st[i := Active] else s.st)
  }

  /** What process `p` does next; the system itself if it cannot run. */
  function Step(s: System, p: nat, ch: Choice): System
    requires Shape(s) && p < |s.pc|
  {
    var n, pc := |s.pc|, s.pc[p];
    match pc
    case Nobody => s
    case Born => if s.plock[p] == -1 then Go(s, p, Idle) else s
    case Idle =>
      if ch.Fork? then Go(s, p, Alloc(0))
      else if ch.Exit? && p != 0 then Go(s, p, ExitWant(ch.x))
      else if ch.Wait? then Go(s, p, WaitWant)
      else if ch.KillPid? then Go(s, p, Kill(ch.pid, 0))
      else s
    case Alloc(i) => if i >= n then Go(s, p, Idle) else LockProc(s, p, i, AllocHold(i))
    case AllocHold(i) => if s.st[i].Unused? then Go(Claimed(s, i), p, ForkBody(i)) else UnlockProc(s, p, i,
      Alloc(i + 1))
    case ForkBody(i) => if ch.Fail? then UnlockProc(FreeProc(s, i), p, i, Idle) else UnlockProc(s, p, i, ForkLink(i))
    case ForkLink(i) => AcquireW(s, p, ForkSet(i))
    case ForkSet(i) => ReleaseW(WithParent(s, i, p), p, ForkReady(i))
    case ForkReady(i) => LockProc(s, p, i, ForkRun(i))
    case ForkRun(i) => UnlockProc(Started(s, i), p, i, Idle)
    case ExitWant(x) => AcquireW(s, p, Reparent(x, 0))
    case Reparent(x, i) =>
      if i >= n then Go(s, p, ParWake(x, 0))
      else if s.parent[i] == p then Go(WithParent(s, i, 0), p, InitWake(x, i, 0))
      else Go(s, p, Reparent(x, i + 1))
    case InitWake(x, i, j) =>
      if j >= n then Go(s, p, Reparent(x, i + 1))
      else if j == p then Go(s, p, InitWake(x, i, j + 1))
      else LockProc(s, p, j, InitWaking(x, i, j))
    case InitWaking(x, i, j) => UnlockProc(Wakeup(s, 0, j), p, j, InitWake(x, i, j + 1))
    case ParWake(x, j) =>
      if j >= n then Go(s, p, ExitLock(x))
      else if j == p then Go(s, p, ParWake(x, j + 1))
      else LockProc(s, p, j, ParWaking(x, j))
    case ParWaking(x, j) => UnlockProc(Wakeup(s, s.parent[p], j), p, j, ParWake(x, j + 1))
    case ExitLock(x) => LockProc(s, p, p, ExitSet(x))
    case ExitSet(x) => ReleaseW(Exited(s, p, x), p, Dying)
    case Dying => UnlockProc(s, p, p, Nobody)
    case WaitWant => AcquireW(s, p, WaitScan(0, false))
    case WaitScan(i, kids) =>
      if i >= n then Go(s, p, if kids then KilledWant else WaitLeave)
      else if s.parent[i] == p then LockProc(s, p, i, WaitHold(i, kids))
      else Go(s, p, WaitScan(i + 1, kids))
    case WaitHold(i, kids) =>
      if !s.st[i].Zombie? then UnlockProc(s, p, i, WaitScan(i + 1, true))
      else if ch.Fail? then UnlockProc(s, p, i, WaitLeave)
      else UnlockProc(Reaped(s, p, i), p, i, WaitLeave)
    case WaitLeave => ReleaseW(s, p, Idle)
    case KilledWant => LockProc(s, p, p, KilledHold)
    case KilledHold => UnlockProc(s, p, p, if s.killed[p] then WaitLeave else WSleep1)
    case WSleep1 => LockProc(s, p, p, WSleep2)
    case WSleep2 => ReleaseW(s, p, WSleep3)
    case WSleep3 => Go(FellAsleep(s, p), p, WSleep4)
    case WSleep4 => UnlockProc(s, p, p, WAsleep)
    case WAsleep => if s.st[p].Active? then LockProc(s, p, p, WWoken) else s
    case WWoken => UnlockProc(s, p, p, WaitWant)
    case Kill(t, i) => if i >= n then Go(s, p, Idle) else LockProc(s, p, i, Killing(t, i))
    case Killing(t, i) => if s.pid[i] == t then UnlockProc(Killed(s, i), p, i, Idle) else UnlockProc(s, p, i,
      Kill(t, i + 1))
  }

  // ---------- Locks ----------

  predicate HasW(pc: Pc) {
    match pc
    case ForkSet(i) => true
    case Reparent(x, i) => true
    case InitWake(x, i, j) => true
    case InitWaking(x, i, j) => true
    case ParWake(x, j) => true
    case ParWaking(x, j) => true
    case ExitLock(x) => true
    case ExitSet(x) => true
    case WaitScan(i, kids) => true
    case WaitHold(i, kids) => true
    case WaitLeave => true
    case KilledWant => true
    case KilledHold => true
    case WSleep1 => true
    case WSleep2 => true
    case _ => false
  }

  // The slot whose lock the process of slot `p` holds, or -1.
  function PlockOf(pc: Pc, p: nat): int {
    match pc
    case AllocHold(i) => i
    case ForkBody(i) => i
    case ForkRun(i) => i
    case InitWaking(x, i, j) => j
    case ParWaking(x, j) => j
    case ExitSet(x) => p
    case Dying => p
    case WaitHold(i, kids) => i
    case KilledHold => p
    case WSleep2 => p
    case WSleep3 => p
    case WSleep4 => p
    case WWoken => p
    case Killing(t, i) => i
    case _ => -1
  }

  predicate WHeld(s: System)
    requires Shape(s)
  {
    && (s.wlock != -1 ==> 0 <= s.wlock < |s.pc| && HasW(s.pc[s.wlock]))
    && forall p :: 0 <= p < |s.pc| && HasW(s.pc[p]) ==> s.wlock == p
  }

  predicate PHeld(s: System)
    requires Shape(s)
  {
    && (forall i :: 0 <= i < |s.pc| && s.plock[i] != -1 ==>
          0 <= s.plock[i] < |s.pc| && PlockOf(s.pc[s.plock[i]], s.plock[i]) == i)
    && (forall p :: 0 <= p < |s.pc| && PlockOf(s.pc[p], p) != -1 ==> s.plock[PlockOf(s.pc[p], p)] == p)
  }

  // ---------- The table ----------

  // The states that go with a place.
  predicate StateFits(pc: Pc, st: PState) {
    match pc
    case Nobody => st.Unused? || st.Used? || st.Zombie?
    case Dying => st.Zombie?
    case WSleep4 => st.Sleeping?
    case WAsleep => st.Sleeping? || st.Active?
    case _ => st.Active?
  }

  predicate Fits(s: System)
    requires Shape(s)
  {
    forall p :: 0 <= p < |s.pc| ==> StateFits(s.pc[p], s.st[p])
  }

  predicate Alive(st: PState) {
    st.Active? || st.Sleeping?
  }

  // The slot that a fork under way has taken, or -1.
  function Claim(pc: Pc): int {
    match pc
    case ForkBody(i) => i
    case ForkLink(i) => i
    case ForkSet(i) => i
    case ForkReady(i) => i
    case ForkRun(i) => i
    case _ => -1
  }

  predicate Claims(s: System)
    requires Shape(s)
  {
    && (forall p :: 0 <= p < |s.pc| && Claim(s.pc[p]) != -1 ==>
          && s.st[Claim(s.pc[p])].Used?
          && s.parent[Claim(s.pc[p])] == if s.pc[p].ForkReady? || s.pc[p].ForkRun? then p else -1)
    && (forall p, q :: 0 <= p < |s.pc| && 0 <= q < |s.pc| && p != q && Claim(s.pc[p]) != -1 ==>
      Claim(s.pc[p]) != Claim(s.pc[q]))
  }

  predicate Exiting(pc: Pc) {
    pc.ExitWant? || pc.Reparent? || pc.InitWake? || pc.InitWaking? || pc.ParWake? || pc.ParWaking? || pc.ExitLock?
      || pc.ExitSet? || pc.Dying?
  }

  /**
   A non-null parent field names a living process, other than the child.  Every process but
   initproc has a parent, and a free slot has none.
   */
  predicate Parents(s: System)
    requires Shape(s)
  {
    && (forall q :: 0 <= q < |s.pc| && s.parent[q] != -1 ==>
      0 <= s.parent[q] < |s.pc| && s.parent[q] != q && Alive(s.st[s.parent[q]]))
    && (forall q {:trigger s.parent[q]} :: 0 <= q < |s.pc| && s.st[q].Unused? ==> s.parent[q] == -1)
    && (forall q {:trigger s.parent[q]} :: 0 < q < |s.pc| && (Alive(s.st[q]) || s.st[q].Zombie?) ==> s.parent[q] != -1)
    && s.parent[0] == -1 && Alive(s.st[0]) && !Exiting(s.pc[0])
  }

  // How many of the first slots an exiting process has passed on.
  function ClearedTo(pc: Pc, n: nat): nat {
    match pc
    case Reparent(x, i) => i
    case InitWake(x, i, j) => i + 1
    case InitWaking(x, i, j) => i + 1
    case ParWake(x, j) => n
    case ParWaking(x, j) => n
    case ExitLock(x) => n
    case ExitSet(x) => n
    case _ => 0
  }

  predicate Orphans(s: System)
    requires Shape(s)
  {
    && (forall p, q :: 0 <= p < |s.pc| && 0 <= q < |s.pc| && q < ClearedTo(s.pc[p], |s.pc|) ==> s.parent[q] != p)
    && forall p :: 0 <= p < |s.pc| && s.pc[p].WaitHold? ==> s.parent[s.pc[p].i] == p
  }

  // ---------- Wakeups ----------

  // How many of the first slots wait has found not to be ZOMBIE children.
  function ScannedTo(pc: Pc, n: nat): nat {
    match pc
    case WaitScan(i, kids) => i
    case WaitHold(i, kids) => i
    case KilledWant => n
    case KilledHold => n
    case WSleep1 => n
    case WSleep2 => n
    case _ => 0
  }

  predicate Scans(s: System)
    requires Shape(s)
  {
    forall p, q :: 0 <= p < |s.pc| && 0 <= q < |s.pc| && q < ScannedTo(s.pc[p], |s.pc|) && s.parent[q] == p ==>
      !s.st[q].Zombie?
  }

  // Process `p` is SLEEPING in wait, or past the point of no return.
  predicate Committed(s: System, p: int)
    requires Shape(s)
  {
    0 <= p < |s.pc| && (s.pc[p].WSleep3? || (s.st[p].Sleeping? && (s.pc[p].WSleep4? || s.pc[p].WAsleep?)))
  }

  // Some process is about to wake initproc.
  predicate InitCalled(s: System)
    requires Shape(s)
  {
    0 <= s.wlock < |s.pc| && (s.pc[s.wlock].InitWake? || s.pc[s.wlock].InitWaking?) && s.pc[s.wlock].j == 0
  }

  predicate Kids(s: System)
    requires Shape(s)
  {
    forall q {:trigger s.parent[q]} :: 0 <= q < |s.pc| && s.st[q].Zombie? && Committed(s, s.parent[q]) ==>
      s.parent[q] == 0 && InitCalled(s)
  }

  // How many of the first slots the wakeup of exit has passed.
  function WokenTo(pc: Pc, n: nat): nat {
    match pc
    case ParWake(x, j) => j
    case ParWaking(x, j) => j
    case ExitLock(x) => n
    case ExitSet(x) => n
    case _ => 0
  }

  predicate Woken(s: System)
    requires Shape(s)
  {
    forall p {:trigger s.parent[p]} :: 0 <= p < |s.pc| && s.parent[p] < WokenTo(s.pc[p], |s.pc|) ==>
      !Committed(s, s.parent[p])
  }

  // ---------- Pids ----------

  /**
   Processes have different pids.  A ZOMBIE's pid and status are those it exited with; what
   wait returned is such a pair, returned once, to the parent.
   */
  predicate Pids(s: System)
    requires Shape(s)
  {
    && (forall q :: 0 <= q < |s.pc| && !s.st[q].Unused? ==> 0 < s.pid[q] < s.nextpid)
    && (forall q, r :: 0 <= q < r < |s.pc| && !s.st[q].Unused? && !s.st[r].Unused? ==> s.pid[q] != s.pid[r])
    && s.nextpid > 0 && (forall x :: x in s.exited ==> x < s.nextpid)
    && (forall q :: 0 <= q < |s.pc| && !s.st[q].Unused? ==>
          if s.st[q].Zombie? then s.pid[q] in s.exited && s.exited[s.pid[q]] == s.xs[q] else s.pid[q] !in s.exited)
    && ReapedOnce(s)
    && (forall k, q :: 0 <= k < |s.reaped| && 0 <= q < |s.pc| && !s.st[q].Unused? ==> s.reaped[k].pid != s.pid[q])
  }

  predicate ReapedOnce(s: System) {
    && (forall k :: 0 <= k < |s.reaped| ==>
          s.reaped[k].waiter == s.reaped[k].parent && s.reaped[k].pid in s.exited
            && s.exited[s.reaped[k].pid] == s.reaped[k].status)
    && (forall j, k :: 0 <= j < k < |s.reaped| ==> s.reaped[j].pid != s.reaped[k].pid)
  }

  predicate Inv(s: System) {
    && Shape(s) && WHeld(s) && PHeld(s) && Fits(s) && Claims(s) && Parents(s) && Orphans(s)
    && Scans(s) && Kids(s) && Woken(s) && Pids(s)
  }

  // ---------- Locks, at every step ----------

  // Process `p` moves; what others hold stays.
  predicate Moves(s: System, t: System, p: nat) {
    && Shape(s) && Shape(t) && p < |s.pc| == |t.pc|
    && forall q :: 0 <= q < |s.pc| && q != p ==>
      HasW(t.pc[q]) == HasW(s.pc[q]) && PlockOf(t.pc[q], q) == PlockOf(s.pc[q], q)
  }

  predicate MovesW(s: System, t: System, p: nat)
    requires Moves(s, t, p)
  {
    && (HasW(t.pc[p]) && !HasW(s.pc[p]) ==> s.wlock == -1)
    && t.wlock == if HasW(t.pc[p]) then p else if HasW(s.pc[p]) then -1 else s.wlock
  }

  predicate MovesP(s: System, t: System, p: nat)
    requires Moves(s, t, p)
  {
    && (PlockOf(t.pc[p], p) != -1 && PlockOf(t.pc[p], p) != PlockOf(s.pc[p], p) ==> s.plock[PlockOf(t.pc[p], p)] == -1)
    && forall i :: 0 <= i < |s.pc| ==>
         t.plock[i] == if PlockOf(t.pc[p], p) == i then p else if PlockOf(s.pc[p], p) == i then -1 else s.plock[i]
  }

  lemma WKept(s: System, t: System, p: nat)
    requires Moves(s, t, p) && WHeld(s) && MovesW(s, t, p)
    ensures WHeld(t)
  {
    hide InRange;
  }

  lemma PKept(s: System, t: System, p: nat)
    requires Moves(s, t, p) && PHeld(s) && MovesP(s, t, p)
    ensures PHeld(t)
  {
    hide HasW;
  }

  // ---------- Steps that change no parent, no pid, and nobody's life ----------

  predicate Quiet(s: System, t: System, p: nat, next: Pc) {
    && Shape(s) && Shape(t) && p < |s.pc| && t.pc == s.pc[p := next]
    && t.parent == s.parent && t.pid == s.pid && t.xs == s.xs && t.nextpid == s.nextpid && t.exited == s.exited
      && t.reaped == s.reaped
    && forall q :: 0 <= q < |s.pc| ==> t.st[q] == s.st[q] || (Alive(t.st[q]) && Alive(s.st[q]))
  }

  lemma QuietPids(s: System, t: System, p: nat, next: Pc)
    requires Quiet(s, t, p, next) && Pids(s)
    ensures Pids(t)
  {
    hide InRange;
  }

  lemma QuietClaims(s: System, t: System, p: nat, next: Pc)
    requires Quiet(s, t, p, next) && Claims(s)
    requires Claim(next) == -1 || (Claim(next) == Claim(s.pc[p])
             && (next.ForkReady? || next.ForkRun? <==> s.pc[p].ForkReady? || s.pc[p].ForkRun?))
    ensures Claims(t)
  {
  }

  lemma QuietParents(s: System, t: System, p: nat, next: Pc)
    requires Quiet(s, t, p, next) && Parents(s) && (Exiting(next) ==> p != 0)
    ensures Parents(t)
  {
    hide InRange;
  }

  // No parent changes and no process exits.
  predicate Calm(s: System, t: System, p: nat, next: Pc) {
    && Shape(s) && Shape(t) && p < |s.pc| == |t.pc| && t.pc[p] == next && t.parent == s.parent
    && (forall q :: 0 <= q < |s.pc| && q != p ==> t.pc[q] == s.pc[q] || (s.pc[q].Nobody? && t.pc[q].Born?))
    && forall q :: 0 <= q < |s.pc| ==> (t.st[q].Zombie? ==> s.st[q].Zombie?)
  }

  lemma CalmOrphans(s: System, t: System, p: nat, next: Pc)
    requires Calm(s, t, p, next) && Orphans(s)
    requires forall q :: 0 <= q < |s.pc| && q < ClearedTo(next, |s.pc|) ==> s.parent[q] != p
    requires next.WaitHold? ==> next.i < |s.pc| && s.parent[next.i] == p
    ensures Orphans(t)
  {
    hide InRange;
  }

  lemma CalmScans(s: System, t: System, p: nat, next: Pc)
    requires Calm(s, t, p, next) && Scans(s)
    requires forall q :: 0 <= q < |s.pc| && q < ScannedTo(next, |s.pc|) && s.parent[q] == p ==> !s.st[q].Zombie?
    ensures Scans(t)
  {
    hide InRange;
  }

  // Who commits itself to sleep holds wait_lock, and has no ZOMBIE child.
  predicate SleepsWell(s: System, t: System, p: nat)
    requires Shape(s) && Shape(t) && p < |s.pc| == |t.pc|
  {
    && (forall q :: 0 <= q < |s.pc| && q != p && Committed(t, q) ==> Committed(s, q))
    && (Committed(t, p) && !Committed(s, p) ==>
          HasW(s.pc[p]) && forall q :: 0 <= q < |s.pc| && s.parent[q] == p ==> !s.st[q].Zombie?)
  }

  lemma CalmKids(s: System, t: System, p: nat, next: Pc)
    requires Calm(s, t, p, next) && Kids(s) && MovesW2(s, t, p) && SleepsWell(s, t, p)
    requires s.wlock == p && InitCalled(s) ==> InitCalled(t) || !Committed(t, 0)
    ensures Kids(t)
  {
    hide InRange;
  }

  lemma CalmWoken(s: System, t: System, p: nat, next: Pc)
    requires Calm(s, t, p, next) && Woken(s) && WHeld(s) && Parents(s) && SleepsWell(s, t, p)
    requires s.parent[p] < WokenTo(next, |s.pc|) ==> !Committed(t, s.parent[p])
    ensures Woken(t)
  {
    hide InRange;
    forall r | 0 <= r < |t.pc| && t.parent[r] < WokenTo(t.pc[r], |t.pc|) ensures !Committed(t, t.parent[r]) {
      assert r != p && t.parent[r] >= 0 ==> HasW(t.pc[r]);
    }
  }

  // Only the holder of wait_lock gives it up.
  predicate MovesW2(s: System, t: System, p: nat) {
    s.wlock != -1 && s.wlock != p ==> t.wlock == s.wlock
  }

  // ---------- The quiet steps ----------

  // What a quiet step must satisfy: of locks and states ...
  predicate KeepsLocks(s: System, t: System, p: nat, next: Pc) {
    Quiet(s, t, p, next) && Moves(s, t, p) && MovesW(s, t, p) && MovesP(s, t, p) && Fits(t)
  }

  // ... of parents ...
  predicate KeepsTable(s: System, p: nat, next: Pc)
    requires Shape(s) && p < |s.pc|
  {
    && (Claim(next) == -1 || (Claim(next) == Claim(s.pc[p]) && (next.ForkReady? || next.ForkRun? <==>
      s.pc[p].ForkReady? || s.pc[p].ForkRun?)))
    && (Exiting(next) ==> p != 0)
    && (forall q :: 0 <= q < |s.pc| && q < ClearedTo(next, |s.pc|) ==> s.parent[q] != p)
    && (next.WaitHold? ==> next.i < |s.pc| && s.parent[next.i] == p)
    && (forall q :: 0 <= q < |s.pc| && q < ScannedTo(next, |s.pc|) && s.parent[q] == p ==> !s.st[q].Zombie?)
  }

  // ... and of wakeups.
  predicate KeepsWakeups(s: System, t: System, p: nat, next: Pc)
    requires Shape(s) && Shape(t) && p < |s.pc| == |t.pc|
  {
    && SleepsWell(s, t, p)
    && (s.wlock == p && InitCalled(s) ==> InitCalled(t) || !Committed(t, 0))
    && (s.parent[p] < WokenTo(next, |s.pc|) ==> !Committed(t, s.parent[p]))
  }

  lemma InvKept(s: System, t: System, p: nat, next: Pc)
    requires Inv(s) && KeepsLocks(s, t, p, next) && KeepsTable(s, p, next) && KeepsWakeups(s, t, p, next)
    ensures Inv(t)
  {
    hide Moves, MovesW, MovesP, Fits, WHeld, PHeld, Claims, Parents, Orphans, Scans, Kids, Woken, Pids, SleepsWell,
         InitCalled, Committed;
    assert MovesW2(s, t, p) by { WaitLockStays(s, t, p); }
    WKept(s, t, p);
    PKept(s, t, p);
    QuietPids(s, t, p, next);
    QuietClaims(s, t, p, next);
    QuietParents(s, t, p, next);
    CalmOrphans(s, t, p, next);
    CalmScans(s, t, p, next);
    CalmKids(s, t, p, next);
    CalmWoken(s, t, p, next);
  }

  lemma WaitLockStays(s: System, t: System, p: nat)
    requires Moves(s, t, p) && MovesW(s, t, p) && WHeld(s)
    ensures MovesW2(s, t, p)
  {
  }

  // What the invariant says of process `p`: its locks and its state, ...
  lemma LockFacts(s: System, p: nat)
    requires Inv(s) && p < |s.pc|
    ensures Shape(s) && InRange(s.pc[p], |s.pc|) && Fits(s) && StateFits(s.pc[p], s.st[p])
    ensures HasW(s.pc[p]) <==> s.wlock == p
    ensures PlockOf(s.pc[p], p) != -1 ==> 0 <= PlockOf(s.pc[p], p) < |s.pc| && s.plock[PlockOf(s.pc[p], p)] == p
  {
    hide Pids, Kids, Committed, Parents, Orphans, Claims, Scans, Woken;
  }

  // ... its parents and children ...
  lemma ParentFacts(s: System, p: nat)
    requires Inv(s) && p < |s.pc|
    ensures Exiting(s.pc[p]) ==> p != 0
    ensures s.parent[0] == -1 && (s.parent[p] == -1 || (0 <= s.parent[p] < |s.pc| && s.parent[p] != p))
  {
    hide Pids, Kids, Committed, Claims, Scans, Woken, WHeld, PHeld, Fits, Orphans, InRange;
  }

  lemma OrphanFacts(s: System, p: nat)
    requires Inv(s) && p < |s.pc|
    ensures s.pc[p].WaitHold? ==> s.pc[p].i < |s.pc| && s.parent[s.pc[p].i] == p
    ensures forall q :: 0 <= q < |s.pc| && q < ClearedTo(s.pc[p], |s.pc|) ==> s.parent[q] != p
  {
    hide Pids, Kids, Committed, Claims, Scans, Woken, WHeld, PHeld, Fits, Parents, ClearedTo;
  }

  lemma ScanFacts(s: System, p: nat)
    requires Inv(s) && p < |s.pc|
    ensures forall q :: 0 <= q < |s.pc| && q < ScannedTo(s.pc[p], |s.pc|) && s.parent[q] == p ==> !s.st[q].Zombie?
    ensures s.parent[p] < WokenTo(s.pc[p], |s.pc|) ==> !Committed(s, s.parent[p])
  {
    hide Pids, Kids, Committed, Claims, WHeld, PHeld, Fits, Orphans, Parents, ScannedTo, WokenTo, InRange;
  }

  // A move that takes and gives no lock.
  lemma KeepsGo(s: System, p: nat, next: Pc)
    requires Inv(s) && p < |s.pc| && InRange(next, |s.pc|)
    requires HasW(next) == HasW(s.pc[p]) && PlockOf(next, p) == PlockOf(s.pc[p], p) == -1
    requires StateFits(next, s.st[p])
    requires !next.WSleep3? && !s.pc[p].WSleep3? && !next.WAsleep? && !s.pc[p].WAsleep?
    requires KeepsTable(s, p, next)
    requires s.wlock == p && InitCalled(s) ==> (next.InitWake? && next.j == 0) || !Committed(s, 0)
    requires s.parent[p] < WokenTo(next, |s.pc|) ==> !Committed(s, s.parent[p])
    ensures Inv(Go(s, p, next))
  {
    hide WHeld, PHeld, Claims, Parents, Orphans, Scans, Kids, Woken, Pids, KeepsTable;
    LockFacts(s, p);
    var t := Go(s, p, next);
    assert KeepsLocks(s, t, p, next);
    assert KeepsWakeups(s, t, p, next);
    hide KeepsLocks, KeepsWakeups;
    InvKept(s, t, p, next);
  }

  // acquire(&wait_lock), which is free.
  lemma KeepsAcquire(s: System, p: nat, next: Pc)
    requires Inv(s) && p < |s.pc| && s.wlock == -1 && InRange(next, |s.pc|) && HasW(next) && PlockOf(next, p) == -1
    requires match s.pc[p]
             case ForkLink(i) => next == ForkSet(i)
             case ExitWant(x) => next == Reparent(x, 0)
             case WaitWant => next == WaitScan(0, false)
             case _ => false
    ensures Inv(AcquireW(s, p, next))
  {
    hide WHeld, PHeld, Claims, Parents, Orphans, Scans, Kids, Woken, Pids;
    LockFacts(s, p);
    ParentFacts(s, p);
    var t := AcquireW(s, p, next);
    assert KeepsLocks(s, t, p, next);
    assert KeepsTable(s, p, next) && KeepsWakeups(s, t, p, next);
    hide KeepsLocks, KeepsTable, KeepsWakeups;
    InvKept(s, t, p, next);
  }

  lemma KeepsRelease(s: System, p: nat, next: Pc)
    requires Inv(s) && p < |s.pc|
    requires (s.pc[p].WaitLeave? && next.Idle?) || (s.pc[p].WSleep2? && next.WSleep3?)
    ensures Inv(ReleaseW(s, p, next))
  {
    hide WHeld, PHeld, Claims, Parents, Orphans, Scans, Kids, Woken, Pids;
    LockFacts(s, p);
    ScanFacts(s, p);
    var t := ReleaseW(s, p, next);
    assert KeepsLocks(s, t, p, next);
    assert KeepsTable(s, p, next) && KeepsWakeups(s, t, p, next);
    hide KeepsLocks, KeepsTable, KeepsWakeups;
    InvKept(s, t, p, next);
  }

  // Places before and after an acquire of the lock of slot `i`.
  predicate LockNext(pc: Pc, p: nat, i: nat, next: Pc) {
    match pc
    case Alloc(k) => next == AllocHold(i) && k == i
    case ForkReady(k) => next == ForkRun(k) && i == k
    case InitWake(x, k, j) => next == InitWaking(x, k, j) && i == j
    case ParWake(x, j) => next == ParWaking(x, j) && i == j
    case ExitLock(x) => next == ExitSet(x) && i == p
    case WaitScan(k, kids) => next == WaitHold(k, kids) && i == k
    case KilledWant => next == KilledHold && i == p
    case WSleep1 => next == WSleep2 && i == p
    case WAsleep => next == WWoken && i == p
    case Kill(t, k) => next == Killing(t, k) && i == k
    case _ => false
  }

  // ... with what the step has seen.
  predicate MayLock(s: System, p: nat, i: nat, next: Pc)
    requires Shape(s) && p < |s.pc| && i < |s.pc|
  {
    && LockNext(s.pc[p], p, i, next) && (s.pc[p].WaitScan? ==> s.parent[i] == p)
      && (s.pc[p].WAsleep? ==> s.st[p].Active?)
  }

  lemma KeepsLock(s: System, p: nat, i: nat, next: Pc)
    requires Inv(s) && p < |s.pc| && i < |s.pc| && s.plock[i] == -1 && MayLock(s, p, i, next)
    ensures Inv(LockProc(s, p, i, next))
  {
    hide WHeld, PHeld, Claims, Parents, Orphans, Scans, Kids, Woken, Pids, Fits;
    var t := LockProc(s, p, i, next);
    LockKeepsLocks(s, p, i, next);
    LockKeepsTable(s, p, i, next);
    assert Shape(t);
    LockKeepsWakeups(s, p, i, next);
    hide KeepsLocks, KeepsTable, KeepsWakeups, LockNext;
    InvKept(s, t, p, next);
  }

  lemma LockKeepsLocks(s: System, p: nat, i: nat, next: Pc)
    requires Inv(s) && p < |s.pc| && i < |s.pc| && s.plock[i] == -1 && MayLock(s, p, i, next)
    ensures KeepsLocks(s, LockProc(s, p, i, next), p, next)
  {
    hide WHeld, PHeld, Claims, Parents, Orphans, Scans, Kids, Woken, Pids, HasW, PlockOf, StateFits;
    LockFacts(s, p);
    LockNextHolds(s.pc[p], p, i, next, s.st[p], |s.pc|);
    hide LockNext, InRange;
  }

  lemma LockNextHolds(pc: Pc, p: nat, i: nat, next: Pc, st: PState, n: nat)
    requires LockNext(pc, p, i, next) && StateFits(pc, st) && (pc.WAsleep? ==> st.Active?) && InRange(pc, n) && i < n
    ensures HasW(next) == HasW(pc) && PlockOf(pc, p) == -1 && PlockOf(next, p) == i && InRange(next, n)
    ensures StateFits(next, st)
  {
  }

  // The place `next` has no duties that `pc` has not.
  predicate NoNewDuties(pc: Pc, next: Pc, n: nat) {
    && HasW(next) == HasW(pc) && (Claim(next) == -1 || Claim(next) == Claim(pc)) && (Exiting(next) ==> Exiting(pc))
    && (Claim(next) != -1 ==> (next.ForkReady? || next.ForkRun? <==> pc.ForkReady? || pc.ForkRun?))
    && ClearedTo(next, n) <= ClearedTo(pc, n) && ScannedTo(next, n) <= ScannedTo(pc, n)
      && WokenTo(next, n) <= WokenTo(pc, n)
  }

  // A wakeup of initproc that is still to come stays so.
  predicate CallStays(pc: Pc, next: Pc) {
    (pc.InitWake? || pc.InitWaking?) && pc.j == 0 ==> (next.InitWake? || next.InitWaking?) && next.j == 0
  }

  lemma LockNextSame(pc: Pc, p: nat, i: nat, next: Pc, n: nat)
    requires LockNext(pc, p, i, next)
    ensures NoNewDuties(pc, next, n) && CallStays(pc, next)
    ensures (next.WaitHold? <==> pc.WaitScan?) && (next.WaitHold? ==> next.i == i)
    ensures !next.WSleep3? && !next.WSleep4? && !next.WAsleep?
  {
    LockNextClaims(pc, p, i, next);
    hide HasW, Claim, Exiting;
    LockNextScans(pc, p, i, next, n);
    hide ClearedTo, ScannedTo, WokenTo;
  }

  lemma LockNextClaims(pc: Pc, p: nat, i: nat, next: Pc)
    requires LockNext(pc, p, i, next)
    ensures HasW(next) == HasW(pc) && (Claim(next) == -1 || Claim(next) == Claim(pc)) && (Exiting(next) ==> Exiting(pc))
    ensures Claim(next) != -1 ==> (next.ForkReady? || next.ForkRun? <==> pc.ForkReady? || pc.ForkRun?)
  {
  }

  lemma LockNextScans(pc: Pc, p: nat, i: nat, next: Pc, n: nat)
    requires LockNext(pc, p, i, next)
    ensures ClearedTo(next, n) <= ClearedTo(pc, n) && ScannedTo(next, n) <= ScannedTo(pc, n)
    ensures WokenTo(next, n) <= WokenTo(pc, n)
  {
    hide HasW, Claim, Exiting;
  }

  lemma LockKeepsTable(s: System, p: nat, i: nat, next: Pc)
    requires Inv(s) && p < |s.pc| && i < |s.pc| && MayLock(s, p, i, next)
    ensures KeepsTable(s, p, next)
  {
    hide WHeld, PHeld, Claims, Parents, Orphans, Scans, Kids, Woken, Pids, Fits, KeepsTable, NoNewDuties;
    LockNextSame(s.pc[p], p, i, next, |s.pc|);
    hide LockNext;
    SameTable(s, p, next);
  }

  lemma SameTable(s: System, p: nat, next: Pc)
    requires Inv(s) && p < |s.pc| && NoNewDuties(s.pc[p], next, |s.pc|)
    requires next.WaitHold? ==> next.i < |s.pc| && s.parent[next.i] == p
    ensures KeepsTable(s, p, next)
  {
    hide WHeld, PHeld, Claims, Parents, Orphans, Scans, Kids, Woken, Pids, Fits, HasW, Claim, Exiting, ClearedTo,
         ScannedTo, WokenTo, Committed;
    ParentFacts(s, p);
    OrphanFacts(s, p);
    ScanFacts(s, p);
  }

  // Nothing that matters to sleepers and wakers changes.
  lemma SameWakeups(s: System, t: System, p: nat, next: Pc)
    requires Shape(s) && Shape(t) && p < |s.pc| && t.pc == s.pc[p := next] && t.parent == s.parent && t.wlock == s.wlock
    requires forall q :: 0 <= q < |s.pc| ==> (t.st[q].Sleeping? ==> s.st[q].Sleeping?)
    requires NoNewDuties(s.pc[p], next, |s.pc|) && CallStays(s.pc[p], next)
    requires !next.WSleep3? && !next.WSleep4? && (next.WAsleep? ==> s.pc[p].WSleep4?)
    requires s.parent[p] < WokenTo(s.pc[p], |s.pc|) ==> !Committed(s, s.parent[p])
    ensures KeepsWakeups(s, t, p, next)
  {
    hide InRange, HasW, Claim, Exiting, ClearedTo, ScannedTo, WokenTo;
    assert forall q :: Committed(t, q) ==> Committed(s, q);
    hide Committed;
  }

  lemma LockKeepsWakeups(s: System, p: nat, i: nat, next: Pc)
    requires Inv(s) && p < |s.pc| && i < |s.pc| && s.plock[i] == -1 && MayLock(s, p, i, next)
    requires Shape(LockProc(s, p, i, next))
    ensures KeepsWakeups(s, LockProc(s, p, i, next), p, next)
  {
    hide WHeld, PHeld, Claims, Parents, Orphans, Scans, Kids, Woken, Pids, Fits, HasW, Claim, Exiting, ClearedTo,
         ScannedTo, WokenTo, KeepsWakeups, Committed, NoNewDuties, InRange;
    LockNextSame(s.pc[p], p, i, next, |s.pc|);
    ScanFacts(s, p);
    hide LockNext;
    SameWakeups(s, LockProc(s, p, i, next), p, next);
  }

  // ---------- Releases of a slot's lock ----------

  // What wakeup and kill do before they release the lock of slot `i`.
  predicate Touches(s: System, u: System, i: nat)
    requires Shape(s) && i < |s.pc|
  {
    && u.pc == s.pc && u.parent == s.parent && u.pid == s.pid && u.xs == s.xs && u.plock == s.plock
      && u.wlock == s.wlock
    && u.nextpid == s.nextpid && u.exited == s.exited && u.reaped == s.reaped && |u.killed| == |s.killed|
    && (u.st == s.st || (s.st[i].Sleeping? && u.st == s.st[i := Active]))
  }

  // A sleeper whose lock another process holds has been switched away from.
  lemma SleeperOff(s: System, p: nat, i: nat)
    requires Inv(s) && p < |s.pc| && i < |s.pc| && i != p && PlockOf(s.pc[p], p) == i
    ensures !s.pc[i].WSleep3? && !s.pc[i].WSleep4? && !s.pc[i].Dying?
    ensures s.st[i].Sleeping? ==> s.pc[i].WAsleep?
  {
    hide Pids, Kids, Parents, Orphans, Claims, Scans, Woken, WHeld;
    assert PlockOf(s.pc[i], i) != i by {
      assert s.plock[i] == p;
    }
  }

  lemma UnlockKeepsLocks(s: System, u: System, p: nat, i: nat, next: Pc)
    requires Inv(s) && p < |s.pc| && i < |s.pc| && Touches(s, u, i) && PlockOf(s.pc[p], p) == i
    requires InRange(next, |s.pc|) && PlockOf(next, p) == -1 && HasW(next) == HasW(s.pc[p])
    requires StateFits(next, s.st[p]) && (u.st != s.st ==> s.st[p].Active?)
    ensures KeepsLocks(s, UnlockProc(u, p, i, next), p, next)
  {
    hide WHeld, PHeld, Claims, Parents, Orphans, Scans, Kids, Woken, Pids, HasW, PlockOf;
    hide StateFits, InRange;
    LockFacts(s, p);
    TouchedFits(s, u, p, i);
  }

  lemma TouchedFits(s: System, u: System, p: nat, i: nat)
    requires Inv(s) && p < |s.pc| && i < |s.pc| && Touches(s, u, i) && PlockOf(s.pc[p], p) == i
    requires u.st != s.st ==> s.st[p].Active?
    ensures forall q :: 0 <= q < |s.pc| ==> StateFits(s.pc[q], u.st[q])
    ensures u.st[p] == s.st[p]
  {
    hide WHeld, PHeld, Claims, Parents, Orphans, Scans, Kids, Woken, Pids, HasW, PlockOf, InRange, StateFits;
    if u.st != s.st {
      SleeperOff(s, p, i);
      AsleepFits(s.pc[i]);
    }
  }

  lemma AsleepFits(pc: Pc)
    requires pc.WAsleep?
    ensures StateFits(pc, Active)
  {
  }

  lemma KeepsUnlock(s: System, u: System, p: nat, i: nat, next: Pc)
    requires Inv(s) && p < |s.pc| && i < |s.pc| && Touches(s, u, i) && PlockOf(s.pc[p], p) == i
    requires InRange(next, |s.pc|) && PlockOf(next, p) == -1
    requires StateFits(next, s.st[p]) && (u.st != s.st ==> s.st[p].Active?)
    requires NoNewDuties(s.pc[p], next, |s.pc|) && CallStays(s.pc[p], next)
    requires !next.WSleep3? && !next.WSleep4? && (next.WAsleep? ==> s.pc[p].WSleep4?)
    requires !next.WaitHold?
    ensures Inv(UnlockProc(u, p, i, next))
  {
    hide WHeld, PHeld, Claims, Parents, Orphans, Scans, Kids, Woken, Pids, Fits, KeepsLocks, KeepsTable, KeepsWakeups,
         StateFits, Committed;
    var t := UnlockProc(u, p, i, next);
    UnlockKeepsLocks(s, u, p, i, next);
    SameTable(s, p, next);
    ScanFacts(s, p);
    SameWakeups(s, t, p, next);
    hide NoNewDuties, CallStays, Touches, UnlockProc;
    InvKept(s, t, p, next);
  }

  // wakeup(initproc) at slot `j`.
  lemma KeepsInitWaking(s: System, p: nat, x: int, i: nat, j: nat)
    requires Inv(s) && p < |s.pc| && s.pc[p] == InitWaking(x, i, j)
    ensures j < |s.pc| && Inv(UnlockProc(Wakeup(s, 0, j), p, j, InitWake(x, i, j + 1)))
  {
    hide WHeld, PHeld, Claims, Parents, Orphans, Scans, Kids, Woken, Pids, Fits, KeepsLocks, Committed;
    LockFacts(s, p);
    var next := InitWake(x, i, j + 1);
    var u := Wakeup(s, 0, j);
    var t := UnlockProc(u, p, j, next);
    UnlockKeepsLocks(s, u, p, j, next);
    SameTable(s, p, next);
    ParentFacts(s, p);
    AfterWakeup(s, u, p, 0, j, next);
    assert KeepsWakeups(s, t, p, next) by {
      OthersAsleep(s, t, p, j);
      InitMeans(s, p);
    }
    hide KeepsTable, KeepsWakeups;
    InvKept(s, t, p, next);
  }

  // Who is not committed before such a step is not after it.
  lemma OthersAsleep(s: System, t: System, p: nat, j: nat)
    requires Shape(s) && Shape(t) && p < |s.pc| == |t.pc| && j < |s.pc| && t.pc == s.pc[p := t.pc[p]]
    requires t.st == s.st || t.st == s.st[j := Active]
    requires !t.pc[p].WSleep3? && !t.pc[p].WSleep4? && !t.pc[p].WAsleep?
    ensures !Committed(t, -1) && forall q :: Committed(t, q) ==> Committed(s, q)
  {
  }

  lemma InitMeans(s: System, p: nat)
    requires Shape(s) && p < |s.pc| && s.wlock == p && s.pc[p].InitWaking?
    ensures InitCalled(s) <==> s.pc[p].j == 0
  {
  }

  // After wakeup at slot `c` nobody sleeps there in wait.
  lemma AfterWakeup(s: System, u: System, p: nat, c: int, j: nat, next: Pc)
    requires Inv(s) && p < |s.pc| && j < |s.pc| && u == Wakeup(s, c, j) && PlockOf(s.pc[p], p) == j && s.st[p].Active?
    requires !next.WSleep3? && !next.WSleep4? && !next.WAsleep?
    requires Shape(UnlockProc(u, p, j, next))
    ensures c == j && j != p ==> !Committed(UnlockProc(u, p, j, next), c)
  {
    if c == j && j != p {
      SleeperOff(s, p, j);
    }
    hide WHeld, PHeld, Claims, Parents, Orphans, Scans, Kids, Woken, Pids, Fits, StateFits, HasW, PlockOf;
  }

  lemma KeepsParWaking(s: System, p: nat, x: int, j: nat)
    requires Inv(s) && p < |s.pc| && s.pc[p] == ParWaking(x, j)
    ensures j < |s.pc| && Inv(UnlockProc(Wakeup(s, s.parent[p], j), p, j, ParWake(x, j + 1)))
  {
    hide WHeld, PHeld, Claims, Parents, Orphans, Scans, Kids, Woken, Pids, Fits, KeepsLocks, Committed;
    LockFacts(s, p);
    var next := ParWake(x, j + 1);
    var u := Wakeup(s, s.parent[p], j);
    var t := UnlockProc(u, p, j, next);
    UnlockKeepsLocks(s, u, p, j, next);
    ParentFacts(s, p);
    OrphanFacts(s, p);
    assert KeepsTable(s, p, next);
    ScanFacts(s, p);
    AfterWakeup(s, u, p, s.parent[p], j, next);
    OthersAsleep(s, t, p, j);
    assert KeepsWakeups(s, t, p, next) by {
      hide HasW, StateFits, InRange;
    }
    hide KeepsTable, KeepsWakeups;
    InvKept(s, t, p, next);
  }

  // wait goes on to the next child.
  lemma KeepsWaitHold(s: System, p: nat, i: nat, kids: bool)
    requires Inv(s) && p < |s.pc| && s.pc[p] == WaitHold(i, kids)
    ensures i < |s.pc| && (!s.st[i].Zombie? ==> Inv(UnlockProc(s, p, i, WaitScan(i + 1, true))))
  {
    hide WHeld, PHeld, Claims, Parents, Orphans, Scans, Kids, Woken, Pids, Fits, KeepsLocks, Committed;
    LockFacts(s, p);
    if !s.st[i].Zombie? {
      var next := WaitScan(i + 1, true);
      var t := UnlockProc(s, p, i, next);
      UnlockKeepsLocks(s, s, p, i, next);
      ScanFacts(s, p);
      assert KeepsTable(s, p, next);
      OthersAsleep(s, t, p, i);
      assert KeepsWakeups(s, t, p, next);
      hide KeepsTable, KeepsWakeups;
      InvKept(s, t, p, next);
    }
  }

  // p->state = SLEEPING
  lemma KeepsFallAsleep(s: System, p: nat)
    requires Inv(s) && p < |s.pc| && s.pc[p].WSleep3?
    ensures Inv(Go(FellAsleep(s, p), p, WSleep4))
  {
    hide WHeld, PHeld, Claims, Parents, Orphans, Scans, Kids, Woken, Pids;
    LockFacts(s, p);
    var t := Go(FellAsleep(s, p), p, WSleep4);
    assert KeepsLocks(s, t, p, WSleep4) by {
      hide HasW, PlockOf, InRange;
      assert !HasW(WSleep4) && !HasW(WSleep3) && PlockOf(WSleep4, p) == p == PlockOf(WSleep3, p) by { SleepPlaces(p); }
    }
    assert KeepsTable(s, p, WSleep4);
    assert KeepsWakeups(s, t, p, WSleep4);
    hide KeepsLocks, KeepsTable, KeepsWakeups;
    InvKept(s, t, p, WSleep4);
  }

  lemma SleepPlaces(p: nat)
    ensures !HasW(WSleep4) && !HasW(WSleep3) && PlockOf(WSleep4, p) == p == PlockOf(WSleep3, p)
  {
  }

  // ---------- Steps of fork, exit and wait that change the table ----------

  // What a step must satisfy of locks and states, when it changes the table as well.
  predicate MovesLocks(s: System, t: System, p: nat) {
    Moves(s, t, p) && MovesW(s, t, p) && MovesP(s, t, p) && Fits(t)
  }

  lemma InvBy(s: System, t: System, p: nat)
    requires Inv(s) && MovesLocks(s, t, p)
    requires Claims(t) && Parents(t) && Orphans(t) && Scans(t) && Kids(t) && Woken(t) && Pids(t)
    ensures Inv(t)
  {
    hide MovesW, MovesP, Fits, WHeld, PHeld, Claims, Parents, Orphans, Scans, Kids, Woken, Pids, HasW, PlockOf, InRange;
    WKept(s, t, p);
    PKept(s, t, p);
  }

  // Of the steps that leave parents alone: allocproc, its undoing, and the start of a child.
  lemma CalmKept(s: System, t: System, p: nat, next: Pc)
    requires Inv(s) && Calm(s, t, p, next) && t.wlock == s.wlock
    requires ClearedTo(next, |s.pc|) == 0 && ScannedTo(next, |s.pc|) == 0 && WokenTo(next, |s.pc|) == 0
    requires !next.WaitHold?
    requires s.parent[p] >= -1 && (forall q :: Committed(t, q) ==> Committed(s, q)) && !Committed(t, -1)
    requires !s.pc[p].InitWake? && !s.pc[p].InitWaking?
    ensures Orphans(t) && Scans(t) && Kids(t) && Woken(t)
  {
    hide Claims, Parents, Orphans, Scans, Kids, Woken, Pids, WHeld, PHeld, Fits, Committed, ClearedTo, ScannedTo,
         WokenTo, HasW, InRange;
    CalmOrphans(s, t, p, next);
    CalmScans(s, t, p, next);
    CalmKids(s, t, p, next);
    CalmWoken(s, t, p, next);
  }

  lemma PidsSame(s: System, t: System)
    requires Shape(s) && Shape(t) && Pids(s) && |t.pc| == |s.pc|
    requires t.pid == s.pid && t.xs == s.xs && t.nextpid == s.nextpid && t.exited == s.exited && t.reaped == s.reaped
    requires forall q :: 0 <= q < |s.pc| ==> t.st[q].Unused? == s.st[q].Unused? && t.st[q].Zombie? == s.st[q].Zombie?
    ensures Pids(t)
  {
    hide InRange;
  }

  // What the state of slot `i` says.
  lemma SlotFacts(s: System, i: nat)
    requires Inv(s) && i < |s.pc|
    ensures s.st[i].Unused? || s.st[i].Used? ==> s.pc[i].Nobody?
    ensures s.st[i].Zombie? ==> s.pc[i].Nobody? || s.pc[i].Dying?
    ensures s.st[i].Unused? ==> s.parent[i] == -1
    ensures 0 < |s.pc| && Alive(s.st[0])
    ensures forall q :: 0 <= q < |s.pc| && s.parent[q] == i ==> Alive(s.st[i])
    ensures forall q :: 0 <= q < |s.pc| && Claim(s.pc[q]) == i ==> s.st[i].Used?
  {
    hide Orphans, Scans, Kids, Woken, Pids, WHeld, PHeld, InRange;
  }

  // No process comes to be committed.
  lemma OthersAsleep2(s: System, t: System, p: nat, i: nat)
    requires Shape(s) && Shape(t) && p < |s.pc| == |t.pc| && i < |s.pc|
    requires forall q :: 0 <= q < |s.pc| && q != p && q != i ==> t.pc[q] == s.pc[q] && t.st[q] == s.st[q]
    requires forall q :: (q == p || q == i) ==> !t.pc[q].WSleep3? && !t.pc[q].WSleep4? && !t.pc[q].WAsleep?
    ensures !Committed(t, -1) && forall q :: Committed(t, q) ==> Committed(s, q)
  {
    hide InRange;
  }

  // ---------- Pids at the steps that change them ----------

  lemma PidsTaken(s: System, t: System, i: nat)
    requires Shape(s) && Shape(t) && Pids(s) && i < |s.pc| == |t.pc| && s.st[i].Unused?
    requires t.st == s.st[i := Used] && t.pid == s.pid[i := s.nextpid] && t.nextpid == s.nextpid + 1
    requires t.xs == s.xs && t.exited == s.exited && t.reaped == s.reaped
    ensures Pids(t)
  {
    hide InRange;
  }

  lemma PidsFreed(s: System, t: System, i: nat)
    requires Shape(s) && Shape(t) && Pids(s) && i < |s.pc| == |t.pc|
    requires t.st == s.st[i := Unused] && t.pid == s.pid[i := 0] && t.xs == s.xs[i := 0]
    requires t.nextpid == s.nextpid && t.exited == s.exited && t.reaped == s.reaped
    ensures Pids(t)
  {
    hide InRange;
  }

  lemma PidsExited(s: System, t: System, i: nat, x: int)
    requires Shape(s) && Shape(t) && Pids(s) && i < |s.pc| == |t.pc| && s.st[i].Active?
    requires t.st == s.st[i := Zombie] && t.xs == s.xs[i := x] && t.exited == s.exited[s.pid[i] := x]
    requires t.pid == s.pid && t.nextpid == s.nextpid && t.reaped == s.reaped
    ensures Pids(t)
  {
    hide InRange;
  }

  // wait returns a pid that it never returned before, and that no slot has any more.
  lemma PidsReaped(s: System, t: System, p: nat, i: nat)
    requires Shape(s) && Shape(t) && Pids(s) && i < |s.pc| == |t.pc| && s.st[i].Zombie? && s.parent[i] == p
    requires t.reaped == s.reaped + [Reaping(p, s.parent[i], s.pid[i], s.xs[i])]
    requires t.st == s.st[i := Unused] && t.pid == s.pid[i := 0] && t.xs == s.xs[i := 0]
    requires t.nextpid == s.nextpid && t.exited == s.exited
    ensures Pids(t)
  {
    hide InRange;
  }

  // ---------- Claims and parents at the steps that change them ----------

  // The slots but `i` keep their states and parents, and all processes but `p` their claims.
  predicate OnlySlot(s: System, t: System, p: nat, i: nat) {
    && Shape(s) && Shape(t) && p < |s.pc| && i < |s.pc| == |t.pc|
    && (forall q :: 0 <= q < |s.pc| && q != i ==> t.st[q] == s.st[q] && t.parent[q] == s.parent[q])
    && forall q :: 0 <= q < |s.pc| && q != p ==> t.pc[q] == s.pc[q] || (s.pc[q].Nobody? && t.pc[q].Born?)
  }

  // A claim on slot `i`, which nobody else has.
  lemma ClaimsAfter(s: System, t: System, p: nat, i: nat)
    requires OnlySlot(s, t, p, i) && Claims(s)
    requires forall q :: 0 <= q < |s.pc| && q != p ==> Claim(s.pc[q]) != i
    requires Claim(t.pc[p]) == -1 ||
      (Claim(t.pc[p]) == i && t.st[i].Used? && t.parent[i] == if t.pc[p].ForkReady? || t.pc[p].ForkRun? then p else -1)
    ensures Claims(t)
  {
    assert forall q :: 0 <= q < |s.pc| && q != p ==> Claim(t.pc[q]) == Claim(s.pc[q]);
    assert forall q :: 0 <= q < |s.pc| ==> Claim(s.pc[q]) < |s.pc| && Claim(t.pc[q]) < |s.pc|;
    hide InRange, Claim;
  }

  // Nobody else claims what process `p` claims, nor a slot that is not USED.
  lemma NoOtherClaim(s: System, p: nat, i: nat)
    requires Shape(s) && Claims(s) && p < |s.pc| && i < |s.pc|
    requires Claim(s.pc[p]) == i || !s.st[i].Used? || (s.parent[i] == p && !s.pc[p].ForkReady? && !s.pc[p].ForkRun?)
    ensures forall q :: 0 <= q < |s.pc| && q != p ==> Claim(s.pc[q]) != i
  {
    hide InRange;
  }

  lemma ParentsAfter(s: System, t: System, p: nat, i: nat)
    requires OnlySlot(s, t, p, i) && Parents(s)
    requires t.parent[i] == -1 || (0 <= t.parent[i] < |s.pc| && t.parent[i] != i && Alive(t.st[t.parent[i]]))
    requires t.st[i].Unused? ==> t.parent[i] == -1
    requires i != 0 && (Alive(t.st[i]) || t.st[i].Zombie? ==> t.parent[i] != -1)
    requires Alive(t.st[i]) || forall q :: 0 <= q < |s.pc| ==> t.parent[q] != i
    requires !Exiting(t.pc[0])
    ensures Parents(t)
  {
    hide InRange, Exiting;
  }

  // Nobody's parent is a slot whose process is not alive.
  lemma ChildLess(s: System, i: nat)
    requires Shape(s) && Parents(s) && i < |s.pc| && !Alive(s.st[i])
    ensures i != 0 && forall q :: 0 <= q < |s.pc| ==> s.parent[q] != i
  {
    hide InRange, Exiting;
  }

  // ---------- The steps ----------

  // A step at `p` that changes slot `i`: which locks `p` holds before and after.
  lemma LocksAfter(s: System, t: System, p: nat, i: nat, w: bool, w': bool, h: int, h': int)
    requires Inv(s) && OnlySlot(s, t, p, i)
    requires HasW(s.pc[p]) == w && HasW(t.pc[p]) == w' && PlockOf(s.pc[p], p) == h && PlockOf(t.pc[p], p) == h'
    requires (w' ==> w) && t.wlock == if w && !w' then -1 else s.wlock
    requires (h' == -1 || h' == h) && -1 <= h < |s.pc|
    requires t.plock == if h' == -1 && h != -1 then s.plock[h := -1] else s.plock
    requires StateFits(t.pc[p], t.st[p]) && StateFits(t.pc[i], t.st[i])
    requires forall q :: 0 <= q < |s.pc| && q != p && q != i ==> t.pc[q] == s.pc[q]
    ensures MovesLocks(s, t, p)
  {
    hide Claims, Parents, Orphans, Scans, Kids, Woken, Pids, WHeld, PHeld, StateFits, HasW, PlockOf, InRange;
    LockFacts(s, p);
    assert Fits(t);
    hide Fits;
    NobodyHolds();
    assert Moves(s, t, p);
    assert MovesW(s, t, p);
    assert MovesP(s, t, p);
  }

  lemma NobodyHolds()
    ensures !HasW(Nobody) && !HasW(Born) && forall q :: PlockOf(Nobody, q) == -1 && PlockOf(Born, q) == -1
  {
  }

  // Places without duties towards children and sleepers.
  predicate NoDuties(pc: Pc, n: nat) {
    ClearedTo(pc, n) == 0 && ScannedTo(pc, n) == 0 && WokenTo(pc, n) == 0 && !Exiting(pc) && !pc.WaitHold?
  }

  lemma ForkPlaces(i: nat, p: nat, n: nat)
    ensures NoDuties(AllocHold(i), n) && !HasW(AllocHold(i)) && PlockOf(AllocHold(i), p) == i
    ensures Claim(AllocHold(i)) == -1
    ensures NoDuties(ForkBody(i), n) && !HasW(ForkBody(i)) && PlockOf(ForkBody(i), p) == i && Claim(ForkBody(i)) == i
    ensures NoDuties(ForkSet(i), n) && HasW(ForkSet(i)) && PlockOf(ForkSet(i), p) == -1 && Claim(ForkSet(i)) == i
    ensures NoDuties(ForkReady(i), n) && !HasW(ForkReady(i)) && PlockOf(ForkReady(i), p) == -1
    ensures Claim(ForkReady(i)) == i
    ensures NoDuties(ForkRun(i), n) && !HasW(ForkRun(i)) && PlockOf(ForkRun(i), p) == i && Claim(ForkRun(i)) == i
    ensures NoDuties(Idle, n) && !HasW(Idle) && PlockOf(Idle, p) == -1 && Claim(Idle) == -1
    ensures InRange(ForkBody(i), n) == InRange(ForkReady(i), n) == (i < n) && InRange(Idle, n)
    ensures StateFits(ForkBody(i), Active) && StateFits(ForkReady(i), Active) && StateFits(Idle, Active)
    ensures StateFits(Born, Active)
    ensures StateFits(Nobody, Used) && StateFits(Nobody, Unused)
  {
  }

  // allocproc takes a free slot.
  lemma KeepsClaim(s: System, p: nat, i: nat)
    requires Inv(s) && p < |s.pc| && i < |s.pc| && s.pc[p] == AllocHold(i) && s.st[i].Unused?
    ensures Inv(Go(Claimed(s, i), p, ForkBody(i)))
  {
    hide Claims, Parents, Orphans, Scans, Kids, Woken, Pids, WHeld, PHeld, Fits, Committed, OnlySlot, HasW, PlockOf,
         StateFits, Claim, Exiting, ClearedTo, ScannedTo, WokenTo, InRange, MovesLocks;
    LockFacts(s, p);
    SlotFacts(s, i);
    ForkPlaces(i, p, |s.pc|);
    ActiveAt(s.pc[p], s.st[p]);
    assert i != p;
    var t := Go(Claimed(s, i), p, ForkBody(i));
    OneSlot(s, t, p, i, Used, -1);
    NoOtherClaim(s, p, i);
    ClaimsAfter(s, t, p, i);
    ChildLess(s, i);
    NotExiting0(s);
    ParentsAfter(s, t, p, i);
    PidsTaken(s, t, i);
    LocksAfter(s, t, p, i, false, false, i, i);
    CalmStep(s, t, p, i);
    InvBy(s, t, p);
  }

  lemma ActiveAt(pc: Pc, st: PState)
    requires StateFits(pc, st) && !pc.Nobody? && !pc.Dying? && !pc.WSleep4? && !pc.WAsleep?
    ensures st.Active?
  {
  }

  // A step that leaves parents alone, at a slot that is not a sleeper's.
  lemma CalmStep(s: System, t: System, p: nat, i: nat)
    requires Inv(s) && OnlySlot(s, t, p, i) && t.parent == s.parent && t.wlock == s.wlock && NoDuties(t.pc[p], |s.pc|)
    requires t.st[i].Zombie? ==> s.st[i].Zombie?
    requires forall q :: 0 <= q < |s.pc| && q != p && q != i ==> t.pc[q] == s.pc[q]
    requires forall q :: (q == p || q == i) ==> !t.pc[q].WSleep3? && !t.pc[q].WSleep4? && !t.pc[q].WAsleep?
    requires !s.pc[p].InitWake? && !s.pc[p].InitWaking?
    ensures Orphans(t) && Scans(t) && Kids(t) && Woken(t)
  {
    hide Claims, Parents, Orphans, Scans, Kids, Woken, Pids, WHeld, PHeld, Fits, Committed, HasW, PlockOf, StateFits,
         InRange;
    OthersAsleep2(s, t, p, i);
    ParentFacts(s, p);
    assert Calm(s, t, p, t.pc[p]);
    hide Calm;
    CalmKept(s, t, p, t.pc[p]);
  }

  lemma NotExiting0(s: System)
    requires Inv(s)
    ensures |s.pc| > 0 && !Exiting(s.pc[0])
  {
    hide Claims, Orphans, Scans, Kids, Woken, Pids, WHeld, PHeld, Fits, InRange;
  }

  lemma OneSlot(s: System, t: System, p: nat, i: nat, st: PState, par: int)
    requires Shape(s) && Shape(t) && p < |s.pc| && i < |s.pc| == |t.pc|
    requires (t.st == s.st || t.st == s.st[i := st]) && (t.parent == s.parent || t.parent == s.parent[i := par])
    requires t.pc == s.pc[p := t.pc[p]] || (s.pc[i].Nobody? && t.pc == s.pc[i := Born][p := t.pc[p]])
    ensures OnlySlot(s, t, p, i)
  {
    hide InRange;
  }

  // allocproc or uvmcopy failed: the slot is free again.
  lemma KeepsUnclaim(s: System, p: nat, i: nat)
    requires Inv(s) && p < |s.pc| && i < |s.pc| && s.pc[p] == ForkBody(i)
    ensures Inv(UnlockProc(FreeProc(s, i), p, i, Idle))
  {
    hide Claims, Parents, Orphans, Scans, Kids, Woken, Pids, WHeld, PHeld, Fits, Committed, OnlySlot, HasW, PlockOf,
         StateFits, Claim, Exiting, ClearedTo, ScannedTo, WokenTo, InRange, MovesLocks;
    LockFacts(s, p);
    ForkPlaces(i, p, |s.pc|);
    ClaimFacts(s, p, i);
    SlotFacts(s, i);
    ActiveAt(s.pc[p], s.st[p]);
    assert i != p && s.parent[i] == -1;
    var t := UnlockProc(FreeProc(s, i), p, i, Idle);
    assert t.parent == s.parent;
    OneSlot(s, t, p, i, Unused, -1);
    NoOtherClaim(s, p, i);
    ClaimsAfter(s, t, p, i);
    ChildLess(s, i);
    NotExiting0(s);
    ParentsAfter(s, t, p, i);
    PidsFreed(s, t, i);
    LocksAfter(s, t, p, i, false, false, i, -1);
    CalmStep(s, t, p, i);
    InvBy(s, t, p);
  }

  lemma ClaimFacts(s: System, p: nat, i: nat)
    requires Inv(s) && p < |s.pc| && i < |s.pc| && Claim(s.pc[p]) == i
    ensures s.st[i].Used? && s.parent[i] == if s.pc[p].ForkReady? || s.pc[p].ForkRun? then p else -1
  {
    hide Parents, Orphans, Scans, Kids, Woken, Pids, WHeld, PHeld, Fits, Claim, InRange;
  }

  // np->state = RUNNABLE
  lemma KeepsStart(s: System, p: nat, i: nat)
    requires Inv(s) && p < |s.pc| && i < |s.pc| && s.pc[p] == ForkRun(i)
    ensures Inv(UnlockProc(Started(s, i), p, i, Idle))
  {
    hide Claims, Parents, Orphans, Scans, Kids, Woken, Pids, WHeld, PHeld, Fits, Committed, OnlySlot, HasW, PlockOf,
         StateFits, Claim, Exiting, ClearedTo, ScannedTo, WokenTo, InRange, MovesLocks;
    LockFacts(s, p);
    ForkPlaces(i, p, |s.pc|);
    ClaimFacts(s, p, i);
    SlotFacts(s, i);
    ActiveAt(s.pc[p], s.st[p]);
    assert i != p && s.parent[i] == p;
    assert Shape(Started(s, i)) by { BornInRange(|s.pc|); }
    var t := UnlockProc(Started(s, i), p, i, Idle);
    OneSlot(s, t, p, i, Active, -1);
    NoOtherClaim(s, p, i);
    ClaimsAfter(s, t, p, i);
    ChildLess(s, i);
    NotExiting0(s);
    ParentsAfter(s, t, p, i);
    PidsSame(s, t);
    LocksAfter(s, t, p, i, false, false, i, -1);
    CalmStep(s, t, p, i);
    InvBy(s, t, p);
  }

  lemma BornInRange(n: nat)
    ensures InRange(Born, n) && !Exiting(Born)
  {
  }

  // ---------- Steps under wait_lock ----------

  // While one process holds wait_lock, no other has duties towards children and sleepers.
  lemma OthersFree(s: System, p: nat)
    requires Inv(s) && p < |s.pc| && s.wlock == p
    ensures forall q :: 0 <= q < |s.pc| && q != p ==>
      ClearedTo(s.pc[q], |s.pc|) == 0 && ScannedTo(s.pc[q], |s.pc|) == 0 && WokenTo(s.pc[q], |s.pc|) == 0
        && !s.pc[q].WaitHold?
    ensures !s.pc[p].InitWake? && !s.pc[p].InitWaking? ==>
      forall q :: 0 <= q < |s.pc| && s.st[q].Zombie? ==> !Committed(s, s.parent[q])
  {
    hide Claims, Parents, Orphans, Scans, Woken, Pids, PHeld, Fits, Committed, PlockOf, InRange, StateFits;
  }

  // After such a step by `p`, which has passed `cleared` slots.
  lemma DutiesAfter(s: System, t: System, p: nat, i: nat, cleared: nat)
    requires Inv(s) && OnlySlot(s, t, p, i) && s.wlock == p
    requires forall q :: 0 <= q < |s.pc| && q != p ==> t.pc[q] == s.pc[q]
    requires ClearedTo(t.pc[p], |s.pc|) == cleared && ScannedTo(t.pc[p], |s.pc|) == 0 && WokenTo(t.pc[p], |s.pc|) == 0
    requires !t.pc[p].WaitHold?
    requires forall q :: 0 <= q < |s.pc| && q < cleared ==> t.parent[q] != p
    requires t.parent[i] >= -1
    ensures Orphans(t) && Scans(t) && Woken(t)
  {
    hide Claims, Parents, WHeld, Pids, PHeld, Fits, PlockOf, InRange, StateFits, HasW, ClearedTo, ScannedTo, WokenTo,
         Kids,
         Committed, Scans, Woken, Orphans;
    OthersFree(s, p);
    ParentsBelow(s);
    DutiesOne(t, p, cleared);
  }

  // Only process `p` has duties.
  lemma DutiesOne(t: System, p: nat, cleared: nat)
    requires Shape(t) && p < |t.pc|
    requires forall q :: 0 <= q < |t.pc| && q != p ==> ClearedTo(t.pc[q], |t.pc|) == 0 && !t.pc[q].WaitHold?
    requires forall q :: 0 <= q < |t.pc| ==> ScannedTo(t.pc[q], |t.pc|) == 0 && WokenTo(t.pc[q], |t.pc|) == 0
    requires ClearedTo(t.pc[p], |t.pc|) == cleared && !t.pc[p].WaitHold?
    requires forall q :: 0 <= q < |t.pc| && q < cleared ==> t.parent[q] != p
    requires forall q :: 0 <= q < |t.pc| ==> t.parent[q] >= -1
    ensures Orphans(t) && Scans(t) && Woken(t)
  {
    hide InRange, ClearedTo, ScannedTo, WokenTo;
  }

  lemma ParentsBelow(s: System)
    requires Inv(s)
    ensures forall q :: 0 <= q < |s.pc| ==> s.parent[q] >= -1
  {
    hide Claims, Orphans, Scans, Woken, Pids, PHeld, Fits, Committed, InRange, StateFits, Kids;
  }

  lemma KidsAfter(s: System, t: System, p: nat, i: nat)
    requires Inv(s) && OnlySlot(s, t, p, i) && s.wlock == p && !s.pc[p].InitWake? && !s.pc[p].InitWaking?
    requires forall q :: Committed(t, q) ==> Committed(s, q)
    requires t.st[i].Zombie? && Committed(t, t.parent[i]) ==> t.parent[i] == 0 && InitCalled(t)
    ensures Kids(t)
  {
    hide HasW, ClearedTo, ScannedTo, WokenTo;
    OthersFree(s, p);
    hide Claims, Parents, Orphans, Scans, Woken, Pids, WHeld, PHeld, Fits, Committed, PlockOf, InRange, StateFits,
         InitCalled, Exiting;
  }

  // np->parent = p
  lemma KeepsLink(s: System, p: nat, i: nat)
    requires Inv(s) && p < |s.pc| && i < |s.pc| && s.pc[p] == ForkSet(i)
    ensures Inv(ReleaseW(WithParent(s, i, p), p, ForkReady(i)))
  {
    hide Claims, Parents, Orphans, Scans, Kids, Woken, Pids, WHeld, PHeld, Fits, Committed, OnlySlot, HasW, PlockOf,
         StateFits, Claim, Exiting, ClearedTo, ScannedTo, WokenTo, InRange, MovesLocks;
    LockFacts(s, p);
    ForkPlaces(i, p, |s.pc|);
    ClaimFacts(s, p, i);
    SlotFacts(s, i);
    ActiveAt(s.pc[p], s.st[p]);
    assert i != p;
    var t := ReleaseW(WithParent(s, i, p), p, ForkReady(i));
    OneSlot(s, t, p, i, Used, p);
    NoOtherClaim(s, p, i);
    ClaimsAfter(s, t, p, i);
    ChildLess(s, i);
    NotExiting0(s);
    ParentsAfter(s, t, p, i);
    PidsSame(s, t);
    LocksAfter(s, t, p, i, true, false, -1, -1);
    DutiesAfter(s, t, p, i, 0);
    OthersAsleep2(s, t, p, p);
    KidsAfter(s, t, p, i);
    InvBy(s, t, p);
  }

  lemma ExitPlaces(x: int, i: nat, kids: bool, p: nat, n: nat)
    ensures HasW(Reparent(x, i)) && PlockOf(Reparent(x, i), p) == -1 && ClearedTo(Reparent(x, i), n) == i
    ensures Claim(Reparent(x, i)) == -1
    ensures HasW(InitWake(x, i, 0)) && PlockOf(InitWake(x, i, 0), p) == -1 && ClearedTo(InitWake(x, i, 0), n) == i + 1
    ensures ScannedTo(InitWake(x, i, 0), n) == WokenTo(InitWake(x, i, 0), n) == 0 && Claim(InitWake(x, i, 0)) == -1
    ensures Exiting(Reparent(x, i)) && Exiting(InitWake(x, i, 0)) && Exiting(ExitSet(x))
    ensures HasW(ExitSet(x)) && PlockOf(ExitSet(x), p) == p && ClearedTo(ExitSet(x), n) == n == WokenTo(ExitSet(x), n)
    ensures Claim(ExitSet(x)) == -1
    ensures !HasW(Dying) && PlockOf(Dying, p) == p
    ensures ClearedTo(Dying, n) == ScannedTo(Dying, n) == WokenTo(Dying, n) == 0 && Claim(Dying) == -1
    ensures StateFits(InitWake(x, i, 0), Active) && StateFits(Dying, Zombie) && InRange(Dying, n)
    ensures InRange(InitWake(x, i, 0), n) == (i < n)
    ensures HasW(WaitHold(i, kids)) && PlockOf(WaitHold(i, kids), p) == i && Claim(WaitHold(i, kids)) == -1
    ensures !Exiting(WaitHold(i, kids))
    ensures HasW(WaitLeave) && PlockOf(WaitLeave, p) == -1 && NoDuties(WaitLeave, n) && Claim(WaitLeave) == -1
    ensures StateFits(WaitLeave, Active) && InRange(WaitLeave, n) && StateFits(Nobody, Unused)
  {
  }

  // reparent gives a child to initproc.
  lemma KeepsReparent(s: System, p: nat, x: int, i: nat)
    requires Inv(s) && p < |s.pc| && i < |s.pc| && s.pc[p] == Reparent(x, i) && s.parent[i] == p
    ensures Inv(Go(WithParent(s, i, 0), p, InitWake(x, i, 0)))
  {
    hide Claims, Parents, Orphans, Scans, Kids, Woken, Pids, WHeld, PHeld, Fits, Committed, OnlySlot, HasW, PlockOf,
         StateFits, Claim, Exiting, ClearedTo, ScannedTo, WokenTo, InRange, MovesLocks;
    LockFacts(s, p);
    ExitPlaces(x, i, false, p, |s.pc|);
    SlotFacts(s, i);
    SlotFacts(s, p);
    ParentFacts(s, p);
    OrphanFacts(s, p);
    ActiveAt(s.pc[p], s.st[p]);
    assert i != 0 && p != 0;
    var t := Go(WithParent(s, i, 0), p, InitWake(x, i, 0));
    OneSlot(s, t, p, i, Active, 0);
    NoOtherClaim(s, p, i);
    ClaimsAfter(s, t, p, i);
    NotExiting0(s);
    ChildNotParent(s, p, i);
    ParentsAfter(s, t, p, i);
    PidsSame(s, t);
    StatesFit(s, i);
    LocksAfter(s, t, p, i, true, true, -1, -1);
    DutiesAfter(s, t, p, i, i + 1);
    OthersAsleep2(s, t, p, p);
    KidsAfter(s, t, p, i);
    InvBy(s, t, p);
  }

  lemma StatesFit(s: System, i: nat)
    requires Inv(s) && i < |s.pc|
    ensures StateFits(s.pc[i], s.st[i])
  {
    hide Claims, Parents, Orphans, Scans, Kids, Woken, Pids, WHeld, PHeld, StateFits, InRange;
  }

  // What a child is, when it gets another parent.
  lemma ChildNotParent(s: System, p: nat, i: nat)
    requires Inv(s) && p < |s.pc| && i < |s.pc| && s.parent[i] == p && p != 0
    ensures i != p && !s.st[i].Unused?
    ensures !Alive(s.st[i]) ==> forall q :: 0 <= q < |s.pc| ==> s.parent[q] != i
  {
    hide Claims, Orphans, Scans, Kids, Woken, Pids, WHeld, PHeld, StateFits, InRange;
  }

  // p->state = ZOMBIE
  lemma KeepsExit(s: System, p: nat, x: int)
    requires Inv(s) && p < |s.pc| && s.pc[p] == ExitSet(x)
    ensures Inv(ReleaseW(Exited(s, p, x), p, Dying))
  {
    hide Claims, Parents, Orphans, Scans, Kids, Woken, Pids, WHeld, PHeld, Fits, Committed, OnlySlot, HasW, PlockOf,
         StateFits, Claim, Exiting, ClearedTo, ScannedTo, WokenTo, InRange, MovesLocks;
    LockFacts(s, p);
    ExitPlaces(x, 0, false, p, |s.pc|);
    SlotFacts(s, p);
    ParentFacts(s, p);
    OrphanFacts(s, p);
    ScanFacts(s, p);
    ActiveAt(s.pc[p], s.st[p]);
    HasParent(s, p);
    var t := ReleaseW(Exited(s, p, x), p, Dying);
    OneSlot(s, t, p, p, Zombie, 0);
    NoOtherClaim(s, p, p);
    ClaimsAfter(s, t, p, p);
    NotExiting0(s);
    ParentsAfter(s, t, p, p);
    PidsExited(s, t, p, x);
    LocksAfter(s, t, p, p, true, false, p, p);
    DutiesAfter(s, t, p, p, 0);
    OthersAsleep2(s, t, p, p);
    KidsAfter(s, t, p, p);
    InvBy(s, t, p);
  }

  // Every process but initproc has a living parent.
  lemma HasParent(s: System, p: nat)
    requires Inv(s) && p < |s.pc| && p != 0 && (Alive(s.st[p]) || s.st[p].Zombie?)
    ensures 0 <= s.parent[p] < |s.pc| && s.parent[p] != p && Alive(s.st[s.parent[p]])
  {
    hide Claims, Orphans, Scans, Kids, Woken, Pids, WHeld, PHeld, Fits, InRange;
  }

  // wait frees a ZOMBIE child.
  lemma KeepsReap(s: System, p: nat, i: nat, kids: bool)
    requires Inv(s) && p < |s.pc| && i < |s.pc| && s.pc[p] == WaitHold(i, kids) && s.st[i].Zombie?
    ensures Inv(UnlockProc(Reaped(s, p, i), p, i, WaitLeave))
  {
    hide Claims, Parents, Orphans, Scans, Kids, Woken, Pids, WHeld, PHeld, Fits, Committed, OnlySlot, HasW, PlockOf,
         StateFits, Claim, Exiting, ClearedTo, ScannedTo, WokenTo, InRange, MovesLocks;
    LockFacts(s, p);
    ExitPlaces(0, i, kids, p, |s.pc|);
    OrphanFacts(s, p);
    SlotFacts(s, i);
    ActiveAt(s.pc[p], s.st[p]);
    assert i != p && s.parent[i] == p;
    NotDying(s, p, i);
    var t := UnlockProc(Reaped(s, p, i), p, i, WaitLeave);
    OneSlot(s, t, p, i, Unused, -1);
    NoOtherClaim(s, p, i);
    ClaimsAfter(s, t, p, i);
    ChildLess(s, i);
    NotExiting0(s);
    ParentsAfter(s, t, p, i);
    PidsReaped(s, t, p, i);
    LocksAfter(s, t, p, i, true, true, i, -1);
    DutiesAfter(s, t, p, i, 0);
    OthersAsleep2(s, t, p, i);
    KidsAfter(s, t, p, i);
    InvBy(s, t, p);
  }

  // The child has been switched away from: wait holds its lock.
  lemma NotDying(s: System, p: nat, i: nat)
    requires Inv(s) && p < |s.pc| && i < |s.pc| && i != p && PlockOf(s.pc[p], p) == i
    ensures !s.pc[i].Dying?
  {
    hide Claims, Parents, Orphans, Scans, Kids, Woken, Pids, WHeld, StateFits, InRange, HasW, PlockOf, Committed;
    SleeperOff(s, p, i);
  }

  // ---------- All steps ----------

  // wait goes on with the next slot, or ends its scan.
  lemma KeepsWaitScan(s: System, p: nat, i: nat, kids: bool)
    requires Inv(s) && p < |s.pc| && s.pc[p] == WaitScan(i, kids)
    ensures i >= |s.pc| ==> Inv(Go(s, p, if kids then KilledWant else WaitLeave))
    ensures i < |s.pc| && s.parent[i] != p ==> Inv(Go(s, p, WaitScan(i + 1, kids)))
  {
    hide WHeld, PHeld, Claims, Parents, Orphans, Scans, Kids, Woken, Pids, Fits, Committed;
    LockFacts(s, p);
    ScanFacts(s, p);
    ParentFacts(s, p);
    NoneAt(s);
    if i >= |s.pc| {
      KeepsGo(s, p, if kids then KilledWant else WaitLeave);
    } else if s.parent[i] != p {
      KeepsGo(s, p, WaitScan(i + 1, kids));
    }
  }

  lemma NoneAt(s: System)
    requires Shape(s)
    ensures !Committed(s, -1)
  {
  }

  // The moves of exit between its wakeups.
  lemma KeepsReparentMoves(s: System, p: nat, x: int, i: nat)
    requires Inv(s) && p < |s.pc| && s.pc[p] == Reparent(x, i)
    ensures i >= |s.pc| ==> Inv(Go(s, p, ParWake(x, 0)))
    ensures i < |s.pc| && s.parent[i] != p ==> Inv(Go(s, p, Reparent(x, i + 1)))
  {
    hide WHeld, PHeld, Claims, Parents, Orphans, Scans, Kids, Woken, Pids, Fits, Committed;
    LockFacts(s, p);
    ParentFacts(s, p);
    OrphanFacts(s, p);
    NoneAt(s);
    if i >= |s.pc| {
      KeepsGo(s, p, ParWake(x, 0));
    } else if s.parent[i] != p {
      KeepsGo(s, p, Reparent(x, i + 1));
    }
  }

  lemma KeepsInitWakeMoves(s: System, p: nat, x: int, i: nat, j: nat)
    requires Inv(s) && p < |s.pc| && s.pc[p] == InitWake(x, i, j)
    ensures j >= |s.pc| ==> Inv(Go(s, p, Reparent(x, i + 1)))
    ensures j == p ==> Inv(Go(s, p, InitWake(x, i, j + 1)))
  {
    hide WHeld, PHeld, Claims, Parents, Orphans, Scans, Kids, Woken, Pids, Fits, Committed;
    LockFacts(s, p);
    ParentFacts(s, p);
    OrphanFacts(s, p);
    NoneAt(s);
    if j >= |s.pc| {
      KeepsGo(s, p, Reparent(x, i + 1));
    } else if j == p {
      KeepsGo(s, p, InitWake(x, i, j + 1));
    }
  }

  lemma KeepsParWakeMoves(s: System, p: nat, x: int, j: nat)
    requires Inv(s) && p < |s.pc| && s.pc[p] == ParWake(x, j)
    ensures j >= |s.pc| ==> Inv(Go(s, p, ExitLock(x)))
    ensures j == p ==> Inv(Go(s, p, ParWake(x, j + 1)))
  {
    hide WHeld, PHeld, Claims, Parents, Orphans, Scans, Kids, Woken, Pids, Fits, Committed;
    LockFacts(s, p);
    ParentFacts(s, p);
    OrphanFacts(s, p);
    ScanFacts(s, p);
    if j >= |s.pc| {
      KeepsGo(s, p, ExitLock(x));
    } else if j == p {
      KeepsGo(s, p, ParWake(x, j + 1));
    }
  }

  // Moves that involve no lock and no duty.
  lemma KeepsPlain(s: System, p: nat, next: Pc)
    requires Inv(s) && p < |s.pc|
    requires match s.pc[p]
             case Born => next == Idle
             case Idle => next == Alloc(0) || (next.ExitWant? && p != 0) || next == WaitWant || next.Kill?
             case Alloc(i) => next == Idle
             case Kill(t, i) => next == Idle
             case _ => false
    ensures Inv(Go(s, p, next))
  {
    hide WHeld, PHeld, Claims, Parents, Orphans, Scans, Kids, Woken, Pids, Fits, Committed;
    LockFacts(s, p);
    ParentFacts(s, p);
    NoneAt(s);
    KeepsGo(s, p, next);
  }

  lemma KeepsAcquired(s: System, p: nat, next: Pc)
    requires Inv(s) && p < |s.pc|
    requires match s.pc[p]
             case ForkLink(i) => next == ForkSet(i)
             case ExitWant(x) => next == Reparent(x, 0)
             case WaitWant => next == WaitScan(0, false)
             case _ => false
    ensures Inv(AcquireW(s, p, next))
  {
    hide WHeld, PHeld, Claims, Parents, Orphans, Scans, Kids, Woken, Pids, Fits, Committed, HasW, PlockOf;
    assert InRange(s.pc[p], |s.pc|);
    hide Inv;
    if s.wlock == -1 {
      AcquirePlaces(s.pc[p], p, |s.pc|, next);
      hide InRange;
      KeepsAcquire(s, p, next);
    }
  }

  lemma AcquirePlaces(pc: Pc, p: nat, n: nat, next: Pc)
    requires InRange(pc, n)
    requires match pc
             case ForkLink(i) => next == ForkSet(i)
             case ExitWant(x) => next == Reparent(x, 0)
             case WaitWant => next == WaitScan(0, false)
             case _ => false
    ensures InRange(next, n) && HasW(next) && PlockOf(next, p) == -1
  {
  }

  lemma KeepsLocked(s: System, p: nat, i: nat, next: Pc)
    requires Inv(s) && p < |s.pc| && i < |s.pc| && i < |s.plock| && MayLock(s, p, i, next)
    ensures Inv(LockProc(s, p, i, next))
  {
    hide Inv, MayLock;
    if s.plock[i] == -1 {
      KeepsLock(s, p, i, next);
    }
  }

  // Releases of a slot's lock with which duties end, if any.
  predicate UnlockNext(pc: Pc, next: Pc) {
    match pc
    case AllocHold(i) => next == Alloc(i + 1)
    case ForkBody(i) => next == ForkLink(i)
    case Dying => next == Nobody
    case WaitHold(i, kids) => next == WaitLeave
    case KilledHold => next == WaitLeave || next == WSleep1
    case WSleep4 => next == WAsleep
    case WWoken => next == WaitWant
    case Killing(t, i) => next == Idle || next == Kill(t, i + 1)
    case _ => false
  }

  lemma UnlockNextFits(pc: Pc, next: Pc, p: nat, n: nat, st: PState)
    requires UnlockNext(pc, next) && InRange(pc, n) && StateFits(pc, st)
    ensures InRange(next, n) && PlockOf(next, p) == -1 && StateFits(next, st)
    ensures NoNewDuties(pc, next, n) && CallStays(pc, next)
    ensures !next.WSleep3? && !next.WSleep4? && (next.WAsleep? ==> pc.WSleep4?) && !next.WaitHold?
    ensures pc.Killing? ==> st.Active?
  {
    hide NoNewDuties;
    UnlockNextSame(pc, next, n);
  }

  lemma UnlockNextSame(pc: Pc, next: Pc, n: nat)
    requires UnlockNext(pc, next)
    ensures NoNewDuties(pc, next, n)
  {
    UnlockNextClaims(pc, next);
    hide HasW, Claim, Exiting;
    UnlockNextScans(pc, next, n);
    hide ClearedTo, ScannedTo, WokenTo;
  }

  lemma UnlockNextClaims(pc: Pc, next: Pc)
    requires UnlockNext(pc, next)
    ensures HasW(next) == HasW(pc) && (Claim(next) == -1 || Claim(next) == Claim(pc)) && (Exiting(next) ==> Exiting(pc))
    ensures Claim(next) != -1 ==> (next.ForkReady? || next.ForkRun? <==> pc.ForkReady? || pc.ForkRun?)
  {
  }

  lemma UnlockNextScans(pc: Pc, next: Pc, n: nat)
    requires UnlockNext(pc, next)
    ensures ClearedTo(next, n) <= ClearedTo(pc, n) && ScannedTo(next, n) <= ScannedTo(pc, n)
    ensures WokenTo(next, n) <= WokenTo(pc, n)
  {
    hide HasW, Claim, Exiting;
  }

  lemma KeepsUnlocked(s: System, u: System, p: nat, i: nat, next: Pc)
    requires Inv(s) && p < |s.pc| && i < |s.pc| && Touches(s, u, i) && PlockOf(s.pc[p], p) == i
    requires UnlockNext(s.pc[p], next) && (u.st != s.st ==> s.pc[p].Killing?)
    ensures Inv(UnlockProc(u, p, i, next))
  {
    hide WHeld, PHeld, Claims, Parents, Orphans, Scans, Kids, Woken, Pids, Fits, Committed, UnlockNext, StateFits,
         NoNewDuties, CallStays, InRange, PlockOf, Touches, UnlockProc;
    LockFacts(s, p);
    UnlockNextFits(s.pc[p], next, p, |s.pc|, s.st[p]);
    KeepsUnlock(s, u, p, i, next);
  }

  predicate InFork(pc: Pc) {
    pc.Alloc? || pc.AllocHold? || pc.ForkBody? || pc.ForkLink? || pc.ForkSet? || pc.ForkReady? || pc.ForkRun?
  }

  predicate InExit(pc: Pc) {
    pc.ExitWant? || pc.Reparent? || pc.InitWake? || pc.InitWaking? || pc.ParWake? || pc.ParWaking? || pc.ExitLock?
      || pc.ExitSet? || pc.Dying?
  }

  lemma TouchesNothing(s: System, i: nat)
    requires Shape(s) && i < |s.pc|
    ensures Touches(s, s, i)
  {
  }

  lemma StepFork(s: System, p: nat, ch: Choice)
    requires Inv(s) && p < |s.pc| && InFork(s.pc[p])
    ensures Inv(Step(s, p, ch))
  {
    hide WHeld, PHeld, Claims, Parents, Orphans, Scans, Kids, Woken, Pids, Fits, Go, LockProc, UnlockProc, AcquireW,
         ReleaseW,
         Claimed, FreeProc, WithParent, Started, Touches;
    assert InRange(s.pc[p], |s.pc|);
    match s.pc[p]
    case Alloc(i) => if i >= |s.pc| { KeepsPlain(s, p, Idle); } else { KeepsLocked(s, p, i, AllocHold(i)); }
    case AllocHold(i) =>
      if s.st[i].Unused? {
        KeepsClaim(s, p, i);
      } else {
        TouchesNothing(s, i);
        KeepsUnlocked(s, s, p, i, Alloc(i + 1));
      }
    case ForkBody(i) =>
      if ch.Fail? {
        KeepsUnclaim(s, p, i);
      } else {
        TouchesNothing(s, i);
        KeepsUnlocked(s, s, p, i, ForkLink(i));
      }
    case ForkLink(i) => KeepsAcquired(s, p, ForkSet(i));
    case ForkSet(i) => KeepsLink(s, p, i);
    case ForkReady(i) => KeepsLocked(s, p, i, ForkRun(i));
    case ForkRun(i) => KeepsStart(s, p, i);
  }

  lemma StepExit(s: System, p: nat, ch: Choice)
    requires Inv(s) && p < |s.pc| && InExit(s.pc[p])
    ensures Inv(Step(s, p, ch))
  {
    hide WHeld, PHeld, Claims, Parents, Orphans, Scans, Kids, Woken, Pids, Fits, Go, LockProc, UnlockProc, AcquireW,
         ReleaseW,
         WithParent, Wakeup, Exited, Touches;
    assert InRange(s.pc[p], |s.pc|);
    match s.pc[p]
    case ExitWant(x) => KeepsAcquired(s, p, Reparent(x, 0));
    case Reparent(x, i) =>
      if i < |s.pc| && s.parent[i] == p {
        KeepsReparent(s, p, x, i);
      } else {
        KeepsReparentMoves(s, p, x, i);
      }
    case InitWake(x, i, j) =>
      if j < |s.pc| && j != p {
        KeepsLocked(s, p, j, InitWaking(x, i, j));
      } else {
        KeepsInitWakeMoves(s, p, x, i, j);
      }
    case InitWaking(x, i, j) => KeepsInitWaking(s, p, x, i, j);
    case ParWake(x, j) =>
      if j < |s.pc| && j != p {
        KeepsLocked(s, p, j, ParWaking(x, j));
      } else {
        KeepsParWakeMoves(s, p, x, j);
      }
    case ParWaking(x, j) => KeepsParWaking(s, p, x, j);
    case ExitLock(x) => KeepsLocked(s, p, p, ExitSet(x));
    case ExitSet(x) => KeepsExit(s, p, x);
    case Dying =>
      TouchesNothing(s, p);
      KeepsUnlocked(s, s, p, p, Nobody);
  }

  lemma StepWait(s: System, p: nat, ch: Choice)
    requires Inv(s) && p < |s.pc| && !InFork(s.pc[p]) && !InExit(s.pc[p])
    ensures Inv(Step(s, p, ch))
  {
    hide WHeld, PHeld, Claims, Parents, Orphans, Scans, Kids, Woken, Pids, Fits, Go, LockProc, UnlockProc, AcquireW,
         ReleaseW,
         FellAsleep, Reaped, Killed, Touches;
    assert InRange(s.pc[p], |s.pc|);
    match s.pc[p]
    case Nobody =>
    case Born => KeepsPlain(s, p, Idle);
    case Idle =>
      if ch.Fork? {
        KeepsPlain(s, p, Alloc(0));
      } else if ch.Exit? && p != 0 {
        KeepsPlain(s, p, ExitWant(ch.x));
      } else if ch.Wait? {
        KeepsPlain(s, p, WaitWant);
      } else if ch.KillPid? {
        KeepsPlain(s, p, Kill(ch.pid, 0));
      }
    case WaitWant => KeepsAcquired(s, p, WaitScan(0, false));
    case WaitScan(i, kids) =>
      if i < |s.pc| && s.parent[i] == p {
        KeepsLocked(s, p, i, WaitHold(i, kids));
      } else {
        KeepsWaitScan(s, p, i, kids);
      }
    case WaitHold(i, kids) =>
      if !s.st[i].Zombie? {
        KeepsWaitHold(s, p, i, kids);
      } else if ch.Fail? {
        TouchesNothing(s, i);
        KeepsUnlocked(s, s, p, i, WaitLeave);
      } else {
        KeepsReap(s, p, i, kids);
      }
    case WaitLeave => KeepsRelease(s, p, Idle);
    case KilledWant => KeepsLocked(s, p, p, KilledHold);
    case WSleep1 => KeepsLocked(s, p, p, WSleep2);
    case WSleep2 => KeepsRelease(s, p, WSleep3);
    case WSleep3 => KeepsFallAsleep(s, p);
    case WAsleep => if s.st[p].Active? { KeepsLocked(s, p, p, WWoken); }
    case _ => StepRest(s, p, ch);
  }

  lemma StepRest(s: System, p: nat, ch: Choice)
    requires Inv(s) && p < |s.pc|
    requires s.pc[p].KilledHold? || s.pc[p].WSleep4? || s.pc[p].WWoken? || s.pc[p].Kill? || s.pc[p].Killing?
    ensures Inv(Step(s, p, ch))
  {
    hide WHeld, PHeld, Claims, Parents, Orphans, Scans, Kids, Woken, Pids, Fits, Go, LockProc, UnlockProc, Killed,
         Touches;
    assert InRange(s.pc[p], |s.pc|);
    TouchesNothing(s, p);
    match s.pc[p]
    case KilledHold => KeepsUnlocked(s, s, p, p, if s.killed[p] then WaitLeave else WSleep1);
    case WSleep4 => KeepsUnlocked(s, s, p, p, WAsleep);
    case WWoken => KeepsUnlocked(s, s, p, p, WaitWant);
    case Kill(t, i) => if i >= |s.pc| { KeepsPlain(s, p, Idle); } else { KeepsLocked(s, p, i, Killing(t, i)); }
    case Killing(t, i) =>
      if s.pid[i] == t {
        KilledTouches(s, i);
        KeepsUnlocked(s, Killed(s, i), p, i, Idle);
      } else {
        TouchesNothing(s, i);
        KeepsUnlocked(s, s, p, i, Kill(t, i + 1));
      }
  }

  lemma KilledTouches(s: System, i: nat)
    requires Shape(s) && i < |s.pc|
    ensures Touches(s, Killed(s, i), i)
  {
  }

  /** No step of any process breaks the invariant. */
  lemma StepKeepsInv(s: System, p: nat, ch: Choice)
    requires Inv(s) && p < |s.pc|
    ensures Inv(Step(s, p, ch))
  {
    hide Inv, Step, InFork, InExit;
    if InFork(s.pc[p]) {
      StepFork(s, p, ch);
    } else if InExit(s.pc[p]) {
      StepExit(s, p, ch);
    } else {
      StepWait(s, p, ch);
    }
  }

  // ---------- Every run ----------

  // After userinit: initproc, and nothing else.
  function Booted(n: nat): (s: System)
    requires n > 0
    ensures |s.pc| == n
  {
    System(seq(n, p => if p == 0 then Idle else Nobody), seq(n, p => if p == 0 then Active else Unused),
      seq(n, p => -1),
           seq(n, p => if p == 0 then 1 else 0), seq(n, p => 0), seq(n, p => false), seq(n, p => -1), -1, 2, map[], [])
  }

  lemma BootedInv(n: nat)
    requires n > 0
    ensures Inv(Booted(n))
  {
    var s := Booted(n);
    AtRest(Idle, 0, n);
    forall p | 0 <= p < n
      ensures var pc := s.pc[p];
              && !HasW(pc) && PlockOf(pc, p) == Claim(pc) == -1 && !Exiting(pc) && !pc.WaitHold?
              && ClearedTo(pc, n) == ScannedTo(pc, n) == WokenTo(pc, n) == 0
    {
      AtRest(s.pc[p], p, n);
    }
    hide HasW, PlockOf, Claim, Exiting, ClearedTo, ScannedTo, WokenTo;
    assert Pids(s) by { hide WHeld, PHeld, Claims, Parents, Orphans, Scans, Kids, Woken, Fits; }
    hide Pids;
    assert Parents(s) && Fits(s);
  }

  lemma AtRest(pc: Pc, p: nat, n: nat)
    requires pc.Idle? || pc.Nobody?
    ensures !HasW(pc) && PlockOf(pc, p) == Claim(pc) == -1 && !Exiting(pc)
    ensures ClearedTo(pc, n) == ScannedTo(pc, n) == WokenTo(pc, n) == 0
  {
  }

  // Whose turn it is, and what it chooses.
  datatype Turn = Turn(p: nat, ch: Choice)

  // Any processes take turns in any order.
  function Run(s: System, turns: seq<Turn>): System
    decreases |turns|
  {
    if turns == [] then s
    else
      var last := |turns| - 1;
      var r := Run(s, turns[..last]);
      if Shape(r) && turns[last].p < |r.pc| then Step(r, turns[last].p, turns[last].ch) else r
  }

  /** No run from a state with the invariant breaks it. */
  lemma {:induction false} RunKeepsInv(s: System, turns: seq<Turn>)
    requires Inv(s)
    ensures Inv(Run(s, turns)) && |Run(s, turns).pc| == |s.pc|
    decreases |turns|
  {
    hide Inv, Step;
    if turns != [] {
      var last := |turns| - 1;
      RunKeepsInv(s, turns[..last]);
      var r, t := Run(s, turns[..last]), turns[last];
      if Shape(r) && t.p < |r.pc| {
        StepKeepsInv(r, t.p, t.ch);
        StepSize(r, t.p, t.ch);
      }
    }
  }

  lemma StepSize(s: System, p: nat, ch: Choice)
    requires Shape(s) && p < |s.pc|
    ensures |Step(s, p, ch).pc| == |s.pc|
  {
    hide Go, AcquireW, ReleaseW, LockProc, UnlockProc, Claimed, FreeProc, WithParent, Started, Wakeup, Exited,
         FellAsleep, Reaped, Killed;
  }

  /** In any run, a parent field that is set names a slot that is neither UNUSED nor ZOMBIE. */
  lemma {:induction false} ParentsLive(n: nat, turns: seq<Turn>, q: nat)
    requires n > 0 && q < n
    ensures var s := Run(Booted(n), turns);
            && Shape(s) && |s.pc| == n
            && (s.parent[q] != -1 ==>
                  0 <= s.parent[q] < n && s.parent[q] != q && s.st[s.parent[q]] != Unused
                    && s.st[s.parent[q]] != Zombie)
  {
    hide Booted, Run, WHeld, PHeld, Claims, Orphans, Scans, Kids, Woken, Pids, Fits, InRange;
    BootedInv(n);
    RunKeepsInv(Booted(n), turns);
  }

  /**
   In any run, what wait returned are different processes, each with the status that it
   exited with, and each returned to its parent.
   */
  lemma {:induction false} ReapedOnceByParent(n: nat, turns: seq<Turn>, j: nat, k: nat)
    requires n > 0
    ensures var s := Run(Booted(n), turns);
            k < |s.reaped| ==>
              && s.reaped[k].waiter == s.reaped[k].parent
              && s.reaped[k].pid in s.exited && s.exited[s.reaped[k].pid] == s.reaped[k].status
              && (j < k ==> s.reaped[j].pid != s.reaped[k].pid)
  {
    hide Booted, Run, WHeld, PHeld, Claims, Parents, Orphans, Scans, Kids, Woken, Fits, InRange;
    BootedInv(n);
    RunKeepsInv(Booted(n), turns);
    assert ReapedOnce(Run(Booted(n), turns));
  }

  /** In any run, when wait_lock is free no process that sleeps in wait has a ZOMBIE child. */
  lemma {:induction false} NoZombieMissed(n: nat, turns: seq<Turn>, p: nat, q: nat)
    requires n > 0 && p < n && q < n
    ensures var s := Run(Booted(n), turns);
            && Shape(s) && |s.pc| == n
            && (s.wlock == -1 && s.st[p] == Sleeping && s.parent[q] == p ==> s.st[q] != Zombie)
  {
    hide Booted, Run, WHeld, PHeld, Claims, Parents, Orphans, Scans, Woken, Pids, InRange;
    BootedInv(n);
    RunKeepsInv(Booted(n), turns);
    var s := Run(Booted(n), turns);
    assert StateFits(s.pc[p], s.st[p]);
    assert s.st[p] == Sleeping ==> Committed(s, p);
  }
}
