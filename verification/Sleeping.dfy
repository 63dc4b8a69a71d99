/**
 Processes that block and wake: sleep, wakeup and kill of labo2/kernel/proc.c under the
 semaphores of labo2/kernel/sysproc.c and the sleep-locks of labo2/kernel/sleeplock.c.  One
 step runs one process from one acquire or release of a spinlock to the next.
 */
module Sleeping {
  // What a sleeper waits for: a semaphore, or a sleep-lock (value 1 when it is locked).
  datatype Kind = Sem | SleepLock

  /**
   A semaphore or sleep-lock with its spinlock: `owner` is the process that holds that, or
   -1.  The rest is history: what value a semaphore last started from, -1 at boot, 0 at a close
   and N at a sem_open that took effect, how often it went up and down since, whether it is
   open, and which processes hold a sleep-lock.
   */
  datatype Chan = Chan(kind: Kind, value: int, owner: int, isOpen: bool, start: int, ups: nat, downs: nat,
                       holders: set<nat>) {
    predicate Blocked() {
      if kind.Sem? then value == 0 else value != 0
    }
  }

  // Operations that do not wait: sem_up, sem_close, sem_open and releasesleep.
  datatype Op = Up | Close | Open(n: int) | Release

  // Where a process is.
  datatype Pc =
    | Idle
    | Want(c: nat)                // sem_down, acquiresleep: before acquire(lk)
    | Test(c: nat)                // holds lk: the loop test
    | Sleep1(c: nat)              // holds lk: sleep, before acquire(&p->lock)
    | Sleep2(c: nat)              // holds both
    | Sleep3(c: nat)              // has released lk
    | Sleep4(c: nat)              // is SLEEPING; the scheduler has yet to release p->lock
    | Asleep(c: nat)
    | Woken(c: nat)               // scheduled again, holds p->lock
    | Leave(c: nat)               // holds lk, before the last release
    | Begin(c: nat, op: Op)       // before acquire
    | Change(c: nat, op: Op)      // holds lk
    | Scan(c: nat, i: nat)        // holds lk: wakeup, before process i
    | Scanning(c: nat, i: nat)    // holds lk and the lock of process i
    | Kill(i: nat)                // kill, before process i
    | Killing(i: nat)             // holds the lock of process i

  datatype State = State(pc: seq<Pc>, sleeping: seq<bool>, chan: seq<int>, plock: seq<int>, chans: seq<Chan>)

  // What is left open: which call an idle process makes, and whether kill found its pid.
  datatype Choice = Take(c: nat) | Do(c: nat, op: Op) | KillOne | Found | NotFound

  predicate Shape(s: State) {
    && |s.sleeping| == |s.pc| && |s.chan| == |s.pc| && |s.plock| == |s.pc|
    && forall p :: 0 <= p < |s.pc| ==> ChanOf(s.pc[p]) < |s.chans| && (s.pc[p].Scanning? || s.pc[p].Killing? ==> s.pc[p].i < |s.pc|)
  }

  // The semaphore or sleep-lock that a process is at, or -1.
  function ChanOf(pc: Pc): int {
    match pc
    case Idle => -1
    case Kill(i) => -1
    case Killing(i) => -1
    case _ => pc.c
  }

  // The one whose spinlock a process holds, or -1.
  function LkOf(pc: Pc): int {
    match pc
    case Test(c) => c
    case Sleep1(c) => c
    case Sleep2(c) => c
    case Leave(c) => c
    case Change(c, op) => c
    case Scan(c, i) => c
    case Scanning(c, i) => c
    case _ => -1
  }

  // The process whose p->lock process `p` holds, or -1.
  function PlockOf(pc: Pc, p: nat): int {
    match pc
    case Sleep2(c) => p
    case Sleep3(c) => p
    case Sleep4(c) => p
    case Woken(c) => p
    case Scanning(c, i) => i
    case Killing(i) => i
    case _ => -1
  }

  function Go(s: State, p: nat, pc: Pc): State
    requires p < |s.pc|
  {
    s.(pc := s.pc[p := pc])
  }

  function WithOwner(s: State, c: nat, o: int): State
    requires c < |s.chans|
  {
    s.(chans := s.chans[c := s.chans[c].(owner := o)])
  }

  function WithPlock(s: State, i: nat, o: int): State
    requires i < |s.plock|
  {
    s.(plock := s.plock[i := o])
  }

  // state = RUNNABLE, if it was SLEEPING
  function Wake(s: State, i: nat): State
    requires i < |s.sleeping|
  {
    s.(sleeping := s.sleeping[i := false])
  }

  // sem_down and acquiresleep past their loops.
  function Taken(c: Chan, p: nat): Chan {
    if c.kind.Sem? then c.(value := c.value - 1, downs := c.downs + 1) else c.(value := 1, holders := c.holders + {p})
  }

  function Changed(c: Chan, op: Op, p: nat): Chan {
    match op
    case Up => c.(value := c.value + 1, ups := c.ups + 1)
    case Close => c.(value := 0, isOpen := false, start := 0, ups := 0, downs := 0)
    case Open(n) => if c.value == -1 then c.(value := n, isOpen := n >= 0, start := n, ups := 0, downs := 0) else c
    case Release => c.(value := 0, holders := c.holders - {p})
  }

  // Up, close and open are for semaphores, release for the holder of a sleep-lock.
  predicate Allowed(c: Chan, op: Op, p: nat) {
    if op.Release? then c.kind.SleepLock? && p in c.holders else c.kind.Sem?
  }

  // acquire(lk), once it is free.
  function AcquireLk(s: State, p: nat, c: nat, next: Pc): State
    requires p < |s.pc| && c < |s.chans|
  {
    if s.chans[c].owner == -1 then Go(WithOwner(s, c, p), p, next) else s
  }

  // release(lk)
  function ReleaseLk(s: State, p: nat, c: nat, next: Pc): State
    requires p < |s.pc| && c < |s.chans|
  {
    Go(WithOwner(s, c, -1), p, next)
  }

  // acquire(&proc[i].lock), once it is free.
  function LockProc(s: State, p: nat, i: nat, next: Pc): State
    requires p < |s.pc| && i < |s.plock|
  {
    if s.plock[i] == -1 then Go(WithPlock(s, i, p), p, next) else s
  }

  // release(&proc[i].lock)
  function UnlockProc(s: State, p: nat, i: nat, next: Pc): State
    requires p < |s.pc| && i < |s.plock|
  {
    Go(WithPlock(s, i, -1), p, next)
  }

  function ChangeChan(s: State, p: nat, c: nat, ch: Chan, next: Pc): State
    requires p < |s.pc| && c < |s.chans|
  {
    Go(s.(chans := s.chans[c := ch]), p, next)
  }

  // p->chan = chan; p->state = SLEEPING
  function FallAsleep(s: State, p: nat, c: nat): State
    requires Shape(s) && p < |s.pc|
  {
    Go(s.(sleeping := s.sleeping[p := true], chan := s.chan[p := c]), p, Sleep4(c))
  }

  // p->chan = 0
  function TidyUp(s: State, p: nat): State
    requires Shape(s) && p < |s.pc|
  {
    s.(chan := s.chan[p := -1])
  }

  /** What process `p` does next; the state itself if it cannot run. */
  function Step(s: State, p: nat, ch: Choice): State
    requires Shape(s) && p < |s.pc|
  {
    var pc := s.pc[p];
    match pc
    case Idle =>
      (match ch
       case Take(c) => if c < |s.chans| then Go(s, p, Want(c)) else s
       case Do(c, op) => if c < |s.chans| && Allowed(s.chans[c], op, p) then Go(s, p, Begin(c, op)) else s
       case _ => if ch.KillOne? then Go(s, p, Kill(0)) else s)
    case Want(c) => AcquireLk(s, p, c, Test(c))
    case Test(c) =>
      if s.chans[c].Blocked() then Go(s, p, Sleep1(c)) else ChangeChan(s, p, c, Taken(s.chans[c], p), Leave(c))
    case Sleep1(c) => LockProc(s, p, p, Sleep2(c))
    case Sleep2(c) => ReleaseLk(s, p, c, Sleep3(c))
    case Sleep3(c) => FallAsleep(s, p, c)
    case Sleep4(c) => UnlockProc(s, p, p, Asleep(c))
    case Asleep(c) => if s.sleeping[p] then s else LockProc(s, p, p, Woken(c))
    case Woken(c) => UnlockProc(TidyUp(s, p), p, p, Want(c))
    case Leave(c) => ReleaseLk(s, p, c, Idle)
    case Begin(c, op) => AcquireLk(s, p, c, Change(c, op))
    case Change(c, op) => ChangeChan(s, p, c, Changed(s.chans[c], op, p), if op.Open? then Leave(c) else Scan(c, 0))
    case Scan(c, i) =>
      if i >= |s.pc| then Go(s, p, Leave(c))
      else if i == p then Go(s, p, Scan(c, i + 1))
      else LockProc(s, p, i, Scanning(c, i))
    case Scanning(c, i) =>
      UnlockProc(if s.sleeping[i] && s.chan[i] == c then Wake(s, i) else s, p, i, Scan(c, i + 1))
    case Kill(i) => if i >= |s.pc| then Go(s, p, Idle) else LockProc(s, p, i, Killing(i))
    case Killing(i) => if ch.Found? then UnlockProc(Wake(s, i), p, i, Idle) else UnlockProc(s, p, i, Kill(i + 1))
  }

  // ---------- The invariant ----------

  // Spinlocks are held by the processes that are where they hold them.
  predicate LocksHeld(s: State)
    requires Shape(s)
  {
    && (forall c :: 0 <= c < |s.chans| && s.chans[c].owner != -1 ==>
          0 <= s.chans[c].owner < |s.pc| && LkOf(s.pc[s.chans[c].owner]) == c)
    && (forall p :: 0 <= p < |s.pc| && LkOf(s.pc[p]) != -1 ==> s.chans[LkOf(s.pc[p])].owner == p)
  }

  predicate PlocksHeld(s: State)
    requires Shape(s)
  {
    && (forall i :: 0 <= i < |s.pc| && s.plock[i] != -1 ==>
          0 <= s.plock[i] < |s.pc| && PlockOf(s.pc[s.plock[i]], s.plock[i]) == i)
    && (forall p :: 0 <= p < |s.pc| && PlockOf(s.pc[p], p) != -1 ==> s.plock[PlockOf(s.pc[p], p)] == p)
  }

  // Who is SLEEPING is in sleep, with chan set.
  predicate Sleepers(s: State)
    requires Shape(s)
  {
    forall p :: 0 <= p < |s.pc| ==>
      && (s.sleeping[p] ==> s.pc[p].Sleep4? || s.pc[p].Asleep?)
      && (s.pc[p].Sleep4? || s.pc[p].Asleep? ==> s.chan[p] == s.pc[p].c)
  }

  // Whoever is about to sleep has seen that it must wait.
  predicate Tested(s: State)
    requires Shape(s)
  {
    forall p :: 0 <= p < |s.pc| && (s.pc[p].Sleep1? || s.pc[p].Sleep2?) ==> s.chans[s.pc[p].c].Blocked()
  }

  // Process `p` is SLEEPING, or past the point of no return.
  predicate Committed(s: State, p: nat)
    requires Shape(s) && p < |s.pc|
  {
    s.pc[p].Sleep3? || (s.sleeping[p] && (s.pc[p].Sleep4? || s.pc[p].Asleep?))
  }

  // A wakeup on `c` is under way that has yet to come to process `p`.
  predicate WillWake(s: State, c: nat, p: nat)
    requires Shape(s) && c < |s.chans|
  {
    var g := s.chans[c].owner;
    0 <= g < |s.pc| && (s.pc[g].Scan? || s.pc[g].Scanning?) && s.pc[g].c == c && s.pc[g].i <= p
  }

  predicate NoneLost(s: State)
    requires Shape(s)
  {
    forall p :: 0 <= p < |s.pc| && Committed(s, p) ==>
      s.chans[ChanOf(s.pc[p])].Blocked() || WillWake(s, ChanOf(s.pc[p]), p)
  }

  predicate OpsAllowed(s: State)
    requires Shape(s)
  {
    forall p :: 0 <= p < |s.pc| && (s.pc[p].Begin? || s.pc[p].Change?) ==> Allowed(s.chans[s.pc[p].c], s.pc[p].op, p)
  }

  // What the values are.
  predicate Counts(c: Chan) {
    && (c.kind.Sem? ==> c.value == c.start + c.ups - c.downs && (c.start >= 0 ==> c.value >= 0) && (c.isOpen ==> c.start >= 0))
    && (c.kind.SleepLock? ==> (c.value != 0 <==> c.holders != {}) && forall p, q :: p in c.holders && q in c.holders ==> p == q)
  }

  predicate AllCount(s: State) {
    forall c :: 0 <= c < |s.chans| ==> Counts(s.chans[c])
  }

  predicate Inv(s: State) {
    Shape(s) && LocksHeld(s) && PlocksHeld(s) && Sleepers(s) && Tested(s)
    && OpsAllowed(s) && NoneLost(s) && AllCount(s)
  }

  // ---------- Every step keeps it ----------

  // Process `p` moves; no other process does.
  predicate Moves(s: State, t: State, p: nat) {
    && Shape(s) && Shape(t) && p < |s.pc| == |t.pc| && |t.chans| == |s.chans|
    && forall q :: 0 <= q < |s.pc| && q != p ==> t.pc[q] == s.pc[q]
  }

  // It comes to hold the spinlock its new place says, which was free or its own.
  predicate MovesLock(s: State, t: State, p: nat)
    requires Moves(s, t, p)
  {
    && (LkOf(t.pc[p]) != -1 && LkOf(t.pc[p]) != LkOf(s.pc[p]) ==> s.chans[LkOf(t.pc[p])].owner == -1)
    && forall c :: 0 <= c < |s.chans| ==>
         t.chans[c].owner == if LkOf(t.pc[p]) == c then p else if LkOf(s.pc[p]) == c then -1 else s.chans[c].owner
  }

  predicate MovesPlock(s: State, t: State, p: nat)
    requires Moves(s, t, p)
  {
    && (PlockOf(t.pc[p], p) != -1 && PlockOf(t.pc[p], p) != PlockOf(s.pc[p], p) ==> s.plock[PlockOf(t.pc[p], p)] == -1)
    && forall i :: 0 <= i < |s.pc| ==>
         t.plock[i] == if PlockOf(t.pc[p], p) == i then p else if PlockOf(s.pc[p], p) == i then -1 else s.plock[i]
  }

  // Other sleepers wake at most.
  predicate MovesSleep(s: State, t: State, p: nat)
    requires Moves(s, t, p)
  {
    && (forall q :: 0 <= q < |s.pc| && q != p ==> (t.sleeping[q] ==> s.sleeping[q]) && t.chan[q] == s.chan[q])
    && (t.sleeping[p] ==> t.pc[p].Sleep4? || t.pc[p].Asleep?)
    && (t.pc[p].Sleep4? || t.pc[p].Asleep? ==> t.chan[p] == t.pc[p].c)
  }

  // What it changes it holds the spinlock of.
  predicate MovesValues(s: State, t: State, p: nat)
    requires Moves(s, t, p)
  {
    && (forall c :: 0 <= c < |s.chans| ==> LkOf(s.pc[p]) == c || t.chans[c].Blocked() == s.chans[c].Blocked())
    && (t.pc[p].Sleep1? || t.pc[p].Sleep2? ==> t.chans[t.pc[p].c].Blocked())
  }

  predicate MovesHistory(s: State, t: State, p: nat)
    requires Moves(s, t, p)
  {
    && (forall c :: 0 <= c < |s.chans| ==>
          t.chans[c].kind == s.chans[c].kind && Counts(t.chans[c]) && forall q :: q in s.chans[c].holders && q != p ==> q in t.chans[c].holders)
    && (t.pc[p].Begin? || t.pc[p].Change? ==> Allowed(t.chans[t.pc[p].c], t.pc[p].op, p))
  }

  // It unblocks what it is about to scan for, and its scan passes by no sleeper.
  predicate MovesWakeups(s: State, t: State, p: nat)
    requires Moves(s, t, p)
  {
    && (Committed(t, p) ==> t.chans[ChanOf(t.pc[p])].Blocked() || WillWake(t, ChanOf(t.pc[p]), p))
    && (forall c :: 0 <= c < |s.chans| && s.chans[c].Blocked() && !t.chans[c].Blocked() ==> t.pc[p] == Scan(c, 0))
    && (s.pc[p].Scan? || s.pc[p].Scanning? ==>
          forall q :: 0 <= q < |s.pc| && q != p && s.pc[p].i <= q && Committed(t, q) && ChanOf(t.pc[q]) == s.pc[p].c ==>
            (t.pc[p].Scan? || t.pc[p].Scanning?) && t.pc[p].c == s.pc[p].c && t.pc[p].i <= q)
  }

  lemma LocksKept(s: State, t: State, p: nat)
    requires Moves(s, t, p) && LocksHeld(s) && MovesLock(s, t, p)
    ensures LocksHeld(t)
  {
  }

  lemma PlocksKept(s: State, t: State, p: nat)
    requires Moves(s, t, p) && PlocksHeld(s) && MovesPlock(s, t, p)
    ensures PlocksHeld(t)
  {
  }

  lemma SleepersKept(s: State, t: State, p: nat)
    requires Moves(s, t, p) && Sleepers(s) && MovesSleep(s, t, p)
    ensures Sleepers(t)
  {
  }

  lemma TestedKept(s: State, t: State, p: nat)
    requires Moves(s, t, p) && Tested(s) && LocksHeld(s) && MovesValues(s, t, p)
    ensures Tested(t)
  {
    forall q | 0 <= q < |t.pc| && (t.pc[q].Sleep1? || t.pc[q].Sleep2?) ensures t.chans[t.pc[q].c].Blocked() {
      assert q != p ==> LkOf(s.pc[q]) == s.pc[q].c && s.chans[s.pc[q].c].owner == q;
    }
  }

  lemma HistoryKept(s: State, t: State, p: nat)
    requires Moves(s, t, p) && OpsAllowed(s) && MovesHistory(s, t, p)
    ensures OpsAllowed(t) && AllCount(t)
  {
    hide Counts;
  }

  lemma NoneLostKept(s: State, t: State, p: nat)
    requires Moves(s, t, p) && NoneLost(s) && LocksHeld(s) && MovesLock(s, t, p) && MovesSleep(s, t, p)
    requires MovesWakeups(s, t, p)
    ensures NoneLost(t)
  {
    forall q | 0 <= q < |t.pc| && Committed(t, q)
      ensures t.chans[ChanOf(t.pc[q])].Blocked() || WillWake(t, ChanOf(t.pc[q]), q)
    {
      if q != p && !t.chans[ChanOf(t.pc[q])].Blocked() {
        StillWoken(s, t, p, q);
      }
    }
  }

  lemma StillWoken(s: State, t: State, p: nat, q: nat)
    requires Moves(s, t, p) && NoneLost(s) && LocksHeld(s) && MovesLock(s, t, p) && MovesSleep(s, t, p)
    requires MovesWakeups(s, t, p)
    requires q < |t.pc| && q != p && Committed(t, q) && !t.chans[ChanOf(t.pc[q])].Blocked()
    ensures WillWake(t, ChanOf(t.pc[q]), q)
  {
    var c := ChanOf(t.pc[q]);
    assert Committed(s, q);
    if !s.chans[c].Blocked() {
      assert WillWake(s, c, q);
    }
  }

  lemma InvKept(s: State, t: State, p: nat)
    requires Inv(s) && Moves(s, t, p)
    requires MovesLock(s, t, p) && MovesPlock(s, t, p) && MovesSleep(s, t, p) && MovesValues(s, t, p)
    requires MovesHistory(s, t, p)
    requires MovesWakeups(s, t, p)
    ensures Inv(t)
  {
    LocksKept(s, t, p);
    PlocksKept(s, t, p);
    SleepersKept(s, t, p);
    TestedKept(s, t, p);
    HistoryKept(s, t, p);
    NoneLostKept(s, t, p);
  }

  // ---------- The steps, one by one ----------

  // A move that takes and gives no lock and changes nothing else.
  lemma KeepsGo(s: State, p: nat, next: Pc)
    requires Inv(s) && p < |s.pc| && ChanOf(next) < |s.chans|
    requires LkOf(next) == LkOf(s.pc[p]) && PlockOf(next, p) == PlockOf(s.pc[p], p) == -1
    requires next.Idle? || next.Want? || next.Leave? || next.Sleep1? || next.Begin? || next.Scan? || next.Kill?
    requires s.pc[p].Idle? || s.pc[p].Test? || s.pc[p].Scan? || s.pc[p].Kill?
    requires next.Sleep1? ==> s.chans[next.c].Blocked()
    requires next.Begin? ==> Allowed(s.chans[next.c], next.op, p)
    requires s.pc[p].Scan? ==> s.pc[p].i >= |s.pc| || (s.pc[p].i == p && next == Scan(s.pc[p].c, p + 1))
    ensures Inv(Go(s, p, next))
  {
    var t := Go(s, p, next);
    GoMoves(s, p, next);
    hide LocksHeld, PlocksHeld, NoneLost, Tested, Sleepers, AllCount, OpsAllowed, Counts;
    assert MovesHistory(s, t, p) by { GoHistory(s, p, next); }
    hide MovesHistory, MovesLock, MovesPlock, MovesSleep, MovesValues, MovesWakeups, Moves;
    InvKept(s, t, p);
  }

  // A step that leaves semaphores and sleep-locks alone.
  lemma SameChans(s: State, t: State, p: nat)
    requires Inv(s) && Moves(s, t, p) && t.chans == s.chans && LkOf(t.pc[p]) == LkOf(s.pc[p])
    requires !t.pc[p].Begin? && !t.pc[p].Change?
    requires t.pc[p].Sleep1? || t.pc[p].Sleep2? ==> s.chans[t.pc[p].c].Blocked()
    ensures MovesLock(s, t, p) && MovesValues(s, t, p) && MovesHistory(s, t, p)
  {
    hide PlocksHeld, NoneLost, Tested, Sleepers, OpsAllowed, Counts;
  }

  // A step at which no sleeper and no p->lock changes.
  lemma SameSleepers(s: State, t: State, p: nat)
    requires Inv(s) && Moves(s, t, p) && t.sleeping == s.sleeping && t.chan == s.chan && t.plock == s.plock
    requires PlockOf(t.pc[p], p) == PlockOf(s.pc[p], p) && !s.sleeping[p] && !t.pc[p].Sleep4? && !t.pc[p].Asleep?
    ensures MovesPlock(s, t, p) && MovesSleep(s, t, p)
  {
    hide LocksHeld, NoneLost, Tested, OpsAllowed, AllCount;
  }

  lemma GoMoves(s: State, p: nat, next: Pc)
    requires Inv(s) && p < |s.pc| && ChanOf(next) < |s.chans|
    requires LkOf(next) == LkOf(s.pc[p]) && PlockOf(next, p) == PlockOf(s.pc[p], p) == -1
    requires next.Idle? || next.Want? || next.Leave? || next.Sleep1? || next.Begin? || next.Scan? || next.Kill?
    requires s.pc[p].Idle? || s.pc[p].Test? || s.pc[p].Scan? || s.pc[p].Kill?
    requires next.Sleep1? ==> s.chans[next.c].Blocked()
    requires s.pc[p].Scan? ==> s.pc[p].i >= |s.pc| || (s.pc[p].i == p && next == Scan(s.pc[p].c, p + 1))
    ensures var t := Go(s, p, next);
            && Moves(s, t, p) && MovesLock(s, t, p) && MovesPlock(s, t, p) && MovesSleep(s, t, p)
              && MovesValues(s, t, p)
            && MovesWakeups(s, t, p)
  {
    hide NoneLost, Tested, AllCount, OpsAllowed, Counts;
  }

  lemma GoHistory(s: State, p: nat, next: Pc)
    requires Inv(s) && p < |s.pc| && Moves(s, Go(s, p, next), p)
    requires ChanOf(next) < |s.chans| && (next.Begin? ==> Allowed(s.chans[next.c], next.op, p))
    requires !next.Change?
    ensures MovesHistory(s, Go(s, p, next), p)
  {
    hide NoneLost, Tested, Counts, LocksHeld, PlocksHeld, Sleepers;
  }

  lemma KeepsAcquire(s: State, p: nat, c: nat, next: Pc)
    requires Inv(s) && p < |s.pc| && c < |s.chans| && (s.pc[p].Want? || s.pc[p].Begin?) && s.pc[p].c == c
    requires s.chans[c].owner == -1
    requires if s.pc[p].Want? then next == Test(c) else next == Change(c, s.pc[p].op)
    ensures Inv(AcquireLk(s, p, c, next))
  {
    hide LocksHeld, PlocksHeld, NoneLost, Tested, Sleepers, OpsAllowed;
    if s.pc[p].Begin? {
      OpOf(s, p);
    }
    assert !s.sleeping[p] by { AwakeOf(s, p); }
    var t := AcquireLk(s, p, c, next);
    assert MovesHistory(s, t, p) && MovesLock(s, t, p) && MovesPlock(s, t, p);
    assert MovesSleep(s, t, p) && MovesValues(s, t, p) && MovesWakeups(s, t, p);
    hide MovesHistory, MovesLock, MovesPlock, MovesSleep, MovesValues, MovesWakeups, Moves;
    InvKept(s, t, p);
  }

  lemma OpOf(s: State, p: nat)
    requires Inv(s) && p < |s.pc| && (s.pc[p].Begin? || s.pc[p].Change?)
    ensures Allowed(s.chans[s.pc[p].c], s.pc[p].op, p)
  {
  }

  lemma AwakeOf(s: State, p: nat)
    requires Inv(s) && p < |s.pc| && !s.pc[p].Sleep4? && !s.pc[p].Asleep?
    ensures !s.sleeping[p]
  {
  }

  // Process `p` holds the spinlocks that its place says.
  lemma HeldBy(s: State, p: nat)
    requires Inv(s) && p < |s.pc|
    ensures LkOf(s.pc[p]) != -1 ==> s.chans[LkOf(s.pc[p])].owner == p
    ensures PlockOf(s.pc[p], p) != -1 && PlockOf(s.pc[p], p) < |s.pc| ==> s.plock[PlockOf(s.pc[p], p)] == p
    ensures s.pc[p].Sleep1? || s.pc[p].Sleep2? ==> s.chans[s.pc[p].c].Blocked()
  {
  }

  lemma KeepsRelease(s: State, p: nat, c: nat, next: Pc)
    requires Inv(s) && p < |s.pc| && c < |s.chans| && (s.pc[p].Sleep2? || s.pc[p].Leave?) && s.pc[p].c == c
    requires if s.pc[p].Sleep2? then next == Sleep3(c) else next == Idle
    ensures Inv(ReleaseLk(s, p, c, next))
  {
    hide LocksHeld, PlocksHeld, NoneLost, Tested, Sleepers, OpsAllowed, MovesSleep;
    HeldBy(s, p);
    assert !s.sleeping[p] by { AwakeOf(s, p); }
    var t := ReleaseLk(s, p, c, next);
    SameSleepers(s, t, p);
    hide MovesPlock;
    assert MovesHistory(s, t, p);
    assert MovesLock(s, t, p);
    assert MovesValues(s, t, p) && MovesWakeups(s, t, p);
    hide MovesHistory, MovesLock, MovesValues, MovesWakeups, Moves;
    InvKept(s, t, p);
  }

  lemma HasTested(s: State, p: nat)
    requires Inv(s) && p < |s.pc| && s.pc[p].Sleep1?
    ensures s.chans[s.pc[p].c].Blocked()
  {
    hide LocksHeld, PlocksHeld, NoneLost, Sleepers, OpsAllowed, AllCount;
  }

  lemma KeepsLock(s: State, p: nat, i: nat, next: Pc)
    requires Inv(s) && p < |s.pc| && i < |s.pc| && s.plock[i] == -1
    requires match s.pc[p]
             case Sleep1(c) => next == Sleep2(c) && i == p
             case Asleep(c) => next == Woken(c) && !s.sleeping[p] && i == p
             case Scan(c, k) => next == Scanning(c, i) && k == i
             case Kill(k) => next == Killing(i)
             case _ => false
    ensures Inv(LockProc(s, p, i, next))
  {
    hide LocksHeld, PlocksHeld, NoneLost, Tested, Sleepers, OpsAllowed, Counts, AllCount, MovesHistory, MovesLock,
         MovesValues;
    HeldBy(s, p);
    assert !s.sleeping[p] by {
      if !s.pc[p].Asleep? {
        AwakeOf(s, p);
      }
    }
    if s.pc[p].Sleep1? {
      HasTested(s, p);
    }
    var t := LockProc(s, p, i, next);
    SameChans(s, t, p);
    assert MovesPlock(s, t, p) && MovesSleep(s, t, p) && MovesWakeups(s, t, p);
    hide MovesPlock, MovesSleep, MovesWakeups, Moves;
    InvKept(s, t, p);
  }

  // The scheduler releases the lock of a process that has gone to sleep.
  lemma KeepsDoze(s: State, p: nat, c: nat)
    requires Inv(s) && p < |s.pc| && s.pc[p] == Sleep4(c)
    ensures Inv(UnlockProc(s, p, p, Asleep(c)))
  {
    hide LocksHeld, PlocksHeld, NoneLost, Tested, Sleepers, OpsAllowed, Counts, AllCount, MovesHistory, MovesLock,
         MovesValues;
    HeldBy(s, p);
    SleepersMean(s, p, p);
    var t := UnlockProc(s, p, p, Asleep(c));
    SameChans(s, t, p);
    assert MovesPlock(s, t, p) && MovesSleep(s, t, p) && MovesWakeups(s, t, p);
    hide MovesPlock, MovesSleep, MovesWakeups, Moves;
    InvKept(s, t, p);
  }

  // wakeup at process `i`: it wakes if it is SLEEPING on `c`.
  function Roused(s: State, c: nat, i: nat): State
    requires i < |s.sleeping| && i < |s.chan|
  {
    if s.sleeping[i] && s.chan[i] == c then Wake(s, i) else s
  }

  lemma KeepsScan(s: State, p: nat, c: nat, i: nat)
    requires Inv(s) && p < |s.pc| && s.pc[p] == Scanning(c, i)
    ensures Inv(UnlockProc(Roused(s, c, i), p, i, Scan(c, i + 1)))
  {
    hide LocksHeld, PlocksHeld, NoneLost, Tested, Sleepers, OpsAllowed, Counts, AllCount, MovesHistory, MovesLock,
         MovesValues;
    HeldBy(s, p);
    SleepersMean(s, p, i);
    if i != p {
      NotAbout(s, p, i);
    }
    var t := UnlockProc(Roused(s, c, i), p, i, Scan(c, i + 1));
    SameChans(s, t, p);
    assert MovesPlock(s, t, p) && MovesSleep(s, t, p);
    assert MovesWakeups(s, t, p) by { ScanPasses(s, t, p, c, i); }
    hide MovesPlock, MovesSleep, MovesWakeups, Moves;
    InvKept(s, t, p);
  }

  lemma ScanPasses(s: State, t: State, p: nat, c: nat, i: nat)
    requires Inv(s) && p < |s.pc| && s.pc[p] == Scanning(c, i) && t == UnlockProc(Roused(s, c, i), p, i, Scan(c, i + 1))
    requires Moves(s, t, p) && (i != p ==> !s.pc[i].Sleep3?) && !s.sleeping[p]
    requires s.pc[i].Sleep4? || s.pc[i].Asleep? ==> s.chan[i] == s.pc[i].c
    ensures MovesWakeups(s, t, p)
  {
    hide LocksHeld, PlocksHeld, NoneLost, Tested, Sleepers, OpsAllowed, Counts;
  }

  // kill at process `i`.
  lemma KeepsKill(s: State, p: nat, i: nat, wakes: bool, next: Pc)
    requires Inv(s) && p < |s.pc| && s.pc[p] == Killing(i) && (next == Idle || next == Kill(i + 1))
    ensures Inv(UnlockProc(if wakes then Wake(s, i) else s, p, i, next))
  {
    hide LocksHeld, PlocksHeld, NoneLost, Tested, Sleepers, OpsAllowed, Counts, AllCount, MovesHistory, MovesLock,
         MovesValues;
    HeldBy(s, p);
    SleepersMean(s, p, i);
    var t := UnlockProc(if wakes then Wake(s, i) else s, p, i, next);
    SameChans(s, t, p);
    assert MovesPlock(s, t, p) && MovesSleep(s, t, p) && MovesWakeups(s, t, p);
    hide MovesPlock, MovesSleep, MovesWakeups, Moves;
    InvKept(s, t, p);
  }

  lemma MustWait(s: State, p: nat, c: nat)
    requires Inv(s) && p < |s.pc| && s.pc[p] == Sleep3(c)
    ensures s.chans[c].Blocked() || WillWake(s, c, p)
  {
    hide LocksHeld, PlocksHeld, Tested, Sleepers, OpsAllowed, AllCount;
    assert Committed(s, p);
  }

  lemma KeepsFallAsleep(s: State, p: nat, c: nat)
    requires Inv(s) && p < |s.pc| && s.pc[p] == Sleep3(c)
    ensures Inv(FallAsleep(s, p, c))
  {
    hide LocksHeld, PlocksHeld, NoneLost, Tested, Sleepers, OpsAllowed, Counts, AllCount, MovesHistory, MovesLock,
         MovesValues;
    HeldBy(s, p);
    MustWait(s, p, c);
    var t := FallAsleep(s, p, c);
    SameChans(s, t, p);
    assert MovesPlock(s, t, p) && MovesSleep(s, t, p) && MovesWakeups(s, t, p);
    hide MovesPlock, MovesSleep, MovesWakeups, Moves;
    InvKept(s, t, p);
  }

  lemma KeepsTake(s: State, p: nat, c: nat)
    requires Inv(s) && p < |s.pc| && s.pc[p] == Test(c) && !s.chans[c].Blocked()
    ensures Inv(ChangeChan(s, p, c, Taken(s.chans[c], p), Leave(c)))
  {
    hide LocksHeld, PlocksHeld, NoneLost, Tested, Sleepers, OpsAllowed, Counts, Taken, MovesPlock, MovesSleep;
    assert Counts(s.chans[c]);
    TakenCounts(s.chans[c], p);
    HeldBy(s, p);
    assert !s.sleeping[p] by { AwakeOf(s, p); }
    var t := ChangeChan(s, p, c, Taken(s.chans[c], p), Leave(c));
    SameSleepers(s, t, p);
    assert MovesHistory(s, t, p) && MovesLock(s, t, p) && MovesValues(s, t, p);
    assert MovesWakeups(s, t, p);
    hide MovesHistory, MovesLock, MovesValues, MovesWakeups, Moves, AllCount;
    InvKept(s, t, p);
  }

  lemma TakenCounts(c: Chan, p: nat)
    requires Counts(c) && !c.Blocked()
    ensures Counts(Taken(c, p)) && Taken(c, p).kind == c.kind && c.holders <= Taken(c, p).holders
    ensures Taken(c, p).owner == c.owner
  {
  }

  lemma KeepsChange(s: State, p: nat, c: nat, op: Op)
    requires Inv(s) && p < |s.pc| && s.pc[p] == Change(c, op)
    ensures Inv(ChangeChan(s, p, c, Changed(s.chans[c], op, p), if op.Open? then Leave(c) else Scan(c, 0)))
  {
    OpOf(s, p);
    ChangedCounts(s.chans[c], op, p);
    hide LocksHeld, PlocksHeld, NoneLost, Tested, Sleepers, OpsAllowed, Counts, Changed, Allowed;
    HeldBy(s, p);
    assert !s.sleeping[p] by { AwakeOf(s, p); }
    var next := if op.Open? then Leave(c) else Scan(c, 0);
    var t := ChangeChan(s, p, c, Changed(s.chans[c], op, p), next);
    ChangeMoves(s, p, c, Changed(s.chans[c], op, p), next);
    ChangeWakes(s, p, c, Changed(s.chans[c], op, p), next);
    hide MovesHistory, MovesLock, MovesPlock, MovesSleep, MovesValues, MovesWakeups, Moves;
    InvKept(s, t, p);
  }

  lemma ChangeMoves(s: State, p: nat, c: nat, d: Chan, next: Pc)
    requires Inv(s) && p < |s.pc| && s.pc[p].Change? && s.pc[p].c == c && (next == Leave(c) || next == Scan(c, 0))
    requires !s.sleeping[p]
    requires s.chans[c].owner == p == d.owner && Counts(d) && d.kind == s.chans[c].kind
    requires forall q :: q in s.chans[c].holders && q != p ==> q in d.holders
    ensures var t := ChangeChan(s, p, c, d, next);
            && Moves(s, t, p) && MovesHistory(s, t, p) && MovesLock(s, t, p) && MovesPlock(s, t, p)
            && MovesSleep(s, t, p) && MovesValues(s, t, p)
  {
    hide LocksHeld, PlocksHeld, NoneLost, Tested, Sleepers, OpsAllowed, Counts;
  }

  lemma ChangeWakes(s: State, p: nat, c: nat, d: Chan, next: Pc)
    requires Inv(s) && p < |s.pc| && s.pc[p].Change? && s.pc[p].c == c && (next == Leave(c) || next == Scan(c, 0))
    requires !s.sleeping[p]
    requires next == Leave(c) && s.chans[c].Blocked() ==> d.Blocked()
    ensures var t := ChangeChan(s, p, c, d, next); Moves(s, t, p) && MovesWakeups(s, t, p)
  {
    hide LocksHeld, PlocksHeld, NoneLost, Tested, Sleepers, OpsAllowed, Counts, AllCount;
  }

  lemma ChangedCounts(c: Chan, op: Op, p: nat)
    requires Counts(c) && Allowed(c, op, p)
    ensures var d := Changed(c, op, p);
            && Counts(d) && d.kind == c.kind && d.owner == c.owner
            && (forall q :: q in c.holders && q != p ==> q in d.holders)
            && (op.Open? && c.Blocked() ==> d.Blocked())
  {
  }

  lemma KeepsAcquired(s: State, p: nat, c: nat, next: Pc)
    requires Inv(s) && p < |s.pc| && c < |s.chans| && (s.pc[p].Want? || s.pc[p].Begin?) && s.pc[p].c == c
    requires if s.pc[p].Want? then next == Test(c) else next == Change(c, s.pc[p].op)
    ensures Inv(AcquireLk(s, p, c, next))
  {
    hide Inv;
    if s.chans[c].owner == -1 {
      KeepsAcquire(s, p, c, next);
    }
  }

  lemma KeepsLocked(s: State, p: nat, i: nat, next: Pc)
    requires Inv(s) && p < |s.pc| && i < |s.pc| && i < |s.plock|
    requires match s.pc[p]
             case Sleep1(c) => next == Sleep2(c) && i == p
             case Asleep(c) => next == Woken(c) && !s.sleeping[p] && i == p
             case Scan(c, k) => next == Scanning(c, i) && k == i
             case Kill(k) => next == Killing(i) && k == i
             case _ => false
    ensures Inv(LockProc(s, p, i, next))
  {
    if s.plock[i] == -1 {
      KeepsLock(s, p, i, next);
    }
    hide Inv;
  }

  /** No step of any process breaks it. */
  lemma StepKeepsInv(s: State, p: nat, ch: Choice)
    requires Inv(s) && p < |s.pc|
    ensures Inv(Step(s, p, ch))
  {
    hide LocksHeld, PlocksHeld, NoneLost, Tested, Sleepers, OpsAllowed, AllCount, AcquireLk, ReleaseLk, LockProc,
         UnlockProc,
         ChangeChan, FallAsleep, TidyUp, Wake, Taken, Changed, Go;
    var pc := s.pc[p];
    match pc
    case Idle =>
      if ch.Take? && ch.c < |s.chans| {
        KeepsGo(s, p, Want(ch.c));
      } else if ch.Do? && ch.c < |s.chans| && Allowed(s.chans[ch.c], ch.op, p) {
        KeepsGo(s, p, Begin(ch.c, ch.op));
      } else if ch.KillOne? {
        KeepsGo(s, p, Kill(0));
      }
    case Want(c) => KeepsAcquired(s, p, c, Test(c));
    case Test(c) => if s.chans[c].Blocked() { KeepsGo(s, p, Sleep1(c)); } else { KeepsTake(s, p, c); }
    case Sleep1(c) => KeepsLocked(s, p, p, Sleep2(c));
    case Sleep2(c) => KeepsRelease(s, p, c, Sleep3(c));
    case Sleep3(c) => KeepsFallAsleep(s, p, c);
    case Sleep4(c) => KeepsDoze(s, p, c);
    case Asleep(c) => if !s.sleeping[p] { KeepsLocked(s, p, p, Woken(c)); }
    case Woken(c) => KeepsTidy(s, p, c);
    case Leave(c) => KeepsRelease(s, p, c, Idle);
    case Begin(c, op) => KeepsAcquired(s, p, c, Change(c, op));
    case Change(c, op) => KeepsChange(s, p, c, op);
    case Scan(c, i) =>
      if i >= |s.pc| { KeepsGo(s, p, Leave(c)); }
      else if i == p { KeepsGo(s, p, Scan(c, i + 1)); }
      else { KeepsLocked(s, p, i, Scanning(c, i)); }
    case Scanning(c, i) => KeepsScan(s, p, c, i);
    case Kill(i) => if i >= |s.pc| { KeepsGo(s, p, Idle); } else { KeepsLocked(s, p, i, Killing(i)); }
    case Killing(i) => KeepsKill(s, p, i, ch.Found?, if ch.Found? then Idle else Kill(i + 1));
  }

  lemma SleepersMean(s: State, p: nat, i: nat)
    requires Inv(s) && p < |s.pc| && i < |s.pc|
    ensures s.sleeping[p] ==> s.pc[p].Sleep4? || s.pc[p].Asleep?
    ensures s.pc[p].Sleep4? || s.pc[p].Asleep? ==> s.chan[p] == s.pc[p].c
    ensures s.pc[i].Sleep4? || s.pc[i].Asleep? ==> s.chan[i] == s.pc[i].c
    ensures s.pc[p].Sleep4? && s.sleeping[p] ==> s.chans[s.pc[p].c].Blocked() || WillWake(s, s.pc[p].c, p)
  {
  }

  // A process whose lock another one holds is not about to sleep.
  lemma NotAbout(s: State, p: nat, i: nat)
    requires Inv(s) && p < |s.pc| && i < |s.pc| && i != p && s.plock[i] == p
    ensures !s.pc[i].Sleep3?
  {
  }

  lemma KeepsTidy(s: State, p: nat, c: nat)
    requires Inv(s) && p < |s.pc| && s.pc[p] == Woken(c)
    ensures Inv(UnlockProc(TidyUp(s, p), p, p, Want(c)))
  {
    hide LocksHeld, PlocksHeld, NoneLost, Tested, Sleepers, OpsAllowed, Counts;
    HeldBy(s, p);
    assert !s.sleeping[p] by { AwakeOf(s, p); }
    var t := UnlockProc(TidyUp(s, p), p, p, Want(c));
    assert MovesHistory(s, t, p) && MovesLock(s, t, p) && MovesPlock(s, t, p);
    assert MovesSleep(s, t, p) && MovesValues(s, t, p) && MovesWakeups(s, t, p);
    hide MovesHistory, MovesLock, MovesPlock, MovesSleep, MovesValues, MovesWakeups, Moves;
    InvKept(s, t, p);
  }

  // ---------- Every run ----------

  // After boot: sem_init leaves -1 in every semaphore, and sleep-locks are not locked.
  function Booted(n: nat, kinds: seq<Kind>): (s: State)
    ensures |s.pc| == n && |s.chans| == |kinds|
  {
    State(seq(n, p => Idle), seq(n, p => false), seq(n, p => -1), seq(n, p => -1),
          seq(|kinds|, c requires 0 <= c < |kinds| => Chan(kinds[c], if kinds[c].Sem? then -1 else 0, -1, false, if kinds[c].Sem? then -1 else 0, 0, 0, {})))
  }

  lemma BootedInv(n: nat, kinds: seq<Kind>)
    ensures Inv(Booted(n, kinds))
  {
  }

  // Whose turn it is, and what it chooses.
  datatype Turn = Turn(p: nat, ch: Choice)

  // Any processes take turns in any order.
  function Run(s: State, turns: seq<Turn>): State
    decreases |turns|
  {
    if turns == [] then s
    else
      var last := |turns| - 1;
      var r := Run(s, turns[..last]);
      if Shape(r) && turns[last].p < |r.pc| then Step(r, turns[last].p, turns[last].ch) else r
  }

  /** No run from a state with the invariant breaks it. */
  lemma {:induction false} RunKeepsInv(s: State, turns: seq<Turn>)
    requires Inv(s)
    ensures Inv(Run(s, turns)) && |Run(s, turns).pc| == |s.pc| && |Run(s, turns).chans| == |s.chans|
    decreases |turns|
  {
    hide Inv, Step;
    if turns != [] {
      var last := |turns| - 1;
      RunKeepsInv(s, turns[..last]);
      var r, t := Run(s, turns[..last]), turns[last];
      if Shape(r) && t.p < |r.pc| {
        StepKeepsInv(r, t.p, t.ch);
        StepShape(r, t.p, t.ch);
      }
    }
  }

  lemma StepShape(s: State, p: nat, ch: Choice)
    requires Shape(s) && p < |s.pc|
    ensures |Step(s, p, ch).pc| == |s.pc| && |Step(s, p, ch).chans| == |s.chans|
  {
    hide Taken, Changed;
  }

  /**
   No wakeup is lost, in any run: when the spinlock of a semaphore is free and its value is
   not zero, or that of a sleep-lock that is not locked, no process is SLEEPING on it.
   */
  lemma {:induction false} NoLostWakeups(n: nat, kinds: seq<Kind>, turns: seq<Turn>, c: nat, p: nat)
    requires c < |kinds| && p < n
    ensures var s := Run(Booted(n, kinds), turns);
            && Shape(s) && |s.pc| == n && |s.chans| == |kinds|
            && (s.chans[c].owner == -1 && !s.chans[c].Blocked() ==> !(s.sleeping[p] && s.chan[p] == c))
  {
    hide Booted, Run, LocksHeld, PlocksHeld, Tested, OpsAllowed, AllCount;
    BootedInv(n, kinds);
    RunKeepsInv(Booted(n, kinds), turns);
    var s := Run(Booted(n, kinds), turns);
    assert s.sleeping[p] ==> Committed(s, p);
  }

  /**
   Every semaphore, in any run: its value is what it last started from, plus ups, minus
   completed downs, and not negative if it started from 0 or more, as after a close and while
   it is open.
   */
  lemma {:induction false} SemaphoreCounts(n: nat, kinds: seq<Kind>, turns: seq<Turn>, c: nat)
    requires c < |kinds|
    ensures var chans := Run(Booted(n, kinds), turns).chans;
            && |chans| == |kinds|
            && var ch := chans[c];
               ch.kind.Sem? ==>
                 && ch.value == ch.start + ch.ups - ch.downs
                 && (ch.start >= 0 ==> ch.value >= 0) && (ch.isOpen ==> ch.start >= 0)
  {
    hide Booted, Run, LocksHeld, PlocksHeld, Tested, OpsAllowed, NoneLost, Sleepers;
    BootedInv(n, kinds);
    RunKeepsInv(Booted(n, kinds), turns);
    assert Counts(Run(Booted(n, kinds), turns).chans[c]);
  }

  /** At most one process holds a sleep-lock. */
  lemma {:induction false} SleepLockExcludes(n: nat, kinds: seq<Kind>, turns: seq<Turn>, c: nat, p: nat, q: nat)
    requires c < |kinds|
    ensures var chans := Run(Booted(n, kinds), turns).chans;
            && |chans| == |kinds|
            && var ch := chans[c];
               ch.kind.SleepLock? && p in ch.holders && q in ch.holders ==> p == q && ch.value != 0
  {
    hide Booted, Run, LocksHeld, PlocksHeld, Tested, OpsAllowed, NoneLost, Sleepers;
    BootedInv(n, kinds);
    RunKeepsInv(Booted(n, kinds), turns);
    assert Counts(Run(Booted(n, kinds), turns).chans[c]);
  }

  lemma {:induction false} RunNext(s: State, turns: seq<Turn>, p: nat, ch: Choice)
    requires Shape(Run(s, turns)) && p < |Run(s, turns).pc|
    ensures Run(s, turns + [Turn(p, ch)]) == Step(Run(s, turns), p, ch)
  {
    hide Shape, Step;
    assert (turns + [Turn(p, ch)])[..|turns|] == turns;
  }

  // ---------- Which semaphores can be taken below zero ----------

  lemma TakenValue(c: Chan, p: nat)
    requires c.kind.Sem? && !c.Blocked()
    ensures Taken(c, p).kind.Sem? && Taken(c, p).value == c.value - 1 != -1
  {
  }

  // sem_open changes nothing where the value is not negative.
  lemma ChangedValue(c: Chan, op: Op, p: nat)
    requires c.kind.Sem? && Allowed(c, op, p) && c.value >= 0
    ensures Changed(c, op, p).kind.Sem? && Changed(c, op, p).value >= 0
  {
  }

  lemma StepValue(s: State, p: nat, ch: Choice, c: nat)
    requires Inv(s) && p < |s.pc| && c < |s.chans| && s.chans[c].kind.Sem? && s.chans[c].value >= 0
    ensures |Step(s, p, ch).chans| == |s.chans|
    ensures Step(s, p, ch).chans[c].kind.Sem? && Step(s, p, ch).chans[c].value >= 0
  {
    hide LocksHeld, PlocksHeld, Sleepers, Tested, NoneLost, AllCount;
    if s.pc[p] == Test(c) && !s.chans[c].Blocked() {
      TakenValue(s.chans[c], p);
    }
    if s.pc[p].Change? && s.pc[p].c == c {
      assert Allowed(s.chans[c], s.pc[p].op, p);
      ChangedValue(s.chans[c], s.pc[p].op, p);
    }
    hide Taken, Changed, Allowed;
  }

  lemma {:induction false} ValueStays(s: State, turns: seq<Turn>, c: nat)
    requires Inv(s) && c < |s.chans| && s.chans[c].kind.Sem? && s.chans[c].value >= 0
    ensures var chans := Run(s, turns).chans; |chans| == |s.chans| && chans[c].kind.Sem? && chans[c].value >= 0
    decreases |turns|
  {
    hide Inv, Step;
    if turns != [] {
      var last := |turns| - 1;
      ValueStays(s, turns[..last], c);
      RunKeepsInv(s, turns[..last]);
      var r, t := Run(s, turns[..last]), turns[last];
      if Shape(r) && t.p < |r.pc| {
        StepValue(r, t.p, t.ch, c);
      }
    }
  }

  // After the turns, semaphore `c` is not below zero.
  predicate UpAfter(s: State, turns: seq<Turn>, c: nat) {
    var chans := Run(s, turns).chans;
    c < |chans| && chans[c].value >= 0
  }

  /**
   No continuation takes a semaphore below zero, whatever is opened and closed in it, if and
   only if its value is not negative now.
   */
  lemma NeverBelowZero(s: State, c: nat)
    requires Inv(s) && c < |s.chans| && s.chans[c].kind.Sem?
    ensures s.chans[c].value >= 0 <==> forall turns :: UpAfter(s, turns, c)
  {
    hide Inv;
    assert UpAfter(s, [], c) <==> s.chans[c].value >= 0;
    if s.chans[c].value >= 0 {
      forall turns
        ensures UpAfter(s, turns, c)
      {
        ValueStays(s, turns, c);
      }
    }
  }

  /**
   sem_open takes effect at -1 only: a semaphore that is not negative, as after sem_close, which
   leaves 0, is never opened again.
   */
  lemma NeverOpenedAgain(s: State, turns: seq<Turn>, c: nat, n: int, p: nat)
    requires Inv(s) && c < |s.chans| && s.chans[c].kind.Sem? && s.chans[c].value >= 0
    ensures var chans := Run(s, turns).chans; |chans| == |s.chans| && Changed(chans[c], Open(n), p) == chans[c]
  {
    hide Inv, Run;
    ValueStays(s, turns, c);
  }

  /**
   The loop test of sem_down: it waits exactly when the value is zero, and otherwise takes one
   from it.  A semaphore below zero makes no one wait.
   */
  lemma DownWaits(s: State, p: nat, ch: Choice, c: nat)
    requires Inv(s) && p < |s.pc| && s.pc[p] == Test(c) && s.chans[c].kind.Sem?
    ensures var t := Step(s, p, ch);
            && |t.pc| == |s.pc| && |t.chans| == |s.chans|
            && (t.pc[p] == Sleep1(c) <==> s.chans[c].value == 0)
            && t.chans[c].value == (if s.chans[c].value == 0 then 0 else s.chans[c].value - 1)
            && (s.chans[c].value < 0 ==> t.chans[c].value < 0 && t.pc[p] == Leave(c))
  {
    hide LocksHeld, PlocksHeld, Sleepers, Tested, NoneLost, AllCount, OpsAllowed;
  }

  // One process and one semaphore.
  function Alone(pc: Pc, c: Chan): State {
    State([pc], [false], [-1], [-1], [c])
  }

  function Unopened(): Chan {
    Chan(Sem, -1, -1, false, -1, 0, 0, {})
  }

  lemma BootedAlone()
    ensures Booted(1, [Sem]) == Alone(Idle, Unopened())
  {
    var s := Booted(1, [Sem]);
    assert s.pc == [Idle] && s.sleeping == [false] && s.chan == [-1] && s.plock == [-1] && s.chans == [Unopened()];
  }

  lemma AloneCalls(c: Chan, ch: Choice)
    requires c.kind.Sem? && (ch == Take(0) || ch == Do(0, Up))
    ensures Shape(Alone(Idle, c))
    ensures Step(Alone(Idle, c), 0, ch) == Alone(if ch.Take? then Want(0) else Begin(0, Up), c)
  {
    assert [Idle][0 := if ch.Take? then Want(0) else Begin(0, Up)] == [if ch.Take? then Want(0) else Begin(0, Up)];
  }

  lemma AloneAcquires(pc: Pc, c: Chan, next: Pc)
    requires c.owner == -1 && ((pc == Want(0) && next == Test(0)) || (pc == Begin(0, Up) && next == Change(0, Up)))
    ensures Shape(Alone(pc, c)) && Step(Alone(pc, c), 0, Found) == Alone(next, c.(owner := 0))
  {
    assert [pc][0 := next] == [next] && [c][0 := c.(owner := 0)] == [c.(owner := 0)];
  }

  lemma AloneTakes(c: Chan)
    requires c.kind.Sem? && c.value != 0
    ensures Shape(Alone(Test(0), c)) && Step(Alone(Test(0), c), 0, Found) == Alone(Leave(0), Taken(c, 0))
  {
    assert [Test(0)][0 := Leave(0)] == [Leave(0)] && [c][0 := Taken(c, 0)] == [Taken(c, 0)];
  }

  lemma AloneGoesUp(c: Chan)
    ensures Shape(Alone(Change(0, Up), c))
    ensures Step(Alone(Change(0, Up), c), 0, Found) == Alone(Scan(0, 0), Changed(c, Up, 0))
  {
    assert [Change(0, Up)][0 := Scan(0, 0)] == [Scan(0, 0)] && [c][0 := Changed(c, Up, 0)] == [Changed(c, Up, 0)];
  }

  /** A semaphore that was never opened does not block: its value, -1, just goes down. */
  lemma DownBeforeOpen() returns (turns: seq<Turn>)
    ensures var chans := Run(Booted(1, [Sem]), turns).chans; |chans| == 1 && chans[0].value == -2
  {
    var s0, c := Alone(Idle, Unopened()), Unopened();
    BootedAlone();
    AloneCalls(c, Take(0));
    AloneAcquires(Want(0), c, Test(0));
    AloneTakes(c.(owner := 0));
    assert Run(s0, []) == s0;
    hide Run, Step, Shape;
    RunNext(s0, [], 0, Take(0));
    RunNext(s0, [] + [Turn(0, Take(0))], 0, Found);
    RunNext(s0, [] + [Turn(0, Take(0))] + [Turn(0, Found)], 0, Found);
    turns := [] + [Turn(0, Take(0))] + [Turn(0, Found)] + [Turn(0, Found)];
  }

  // sem_up of the first semaphore, before any sem_open.
  function UpTurns(): seq<Turn> {
    [] + [Turn(0, Do(0, Up))] + [Turn(0, Found)] + [Turn(0, Found)]
  }

  lemma UpOnce()
    ensures var s := Run(Booted(1, [Sem]), UpTurns());
            |s.chans| == 1 && s.chans[0].kind.Sem? && s.chans[0].start == -1 && s.chans[0].value == 0
  {
    var s0, c := Alone(Idle, Unopened()), Unopened();
    BootedAlone();
    AloneCalls(c, Do(0, Up));
    AloneAcquires(Begin(0, Up), c, Change(0, Up));
    AloneGoesUp(c.(owner := 0));
    assert Run(s0, []) == s0;
    hide Run, Step, Shape;
    RunNext(s0, [], 0, Do(0, Up));
    RunNext(s0, [] + [Turn(0, Do(0, Up))], 0, Found);
    RunNext(s0, [] + [Turn(0, Do(0, Up))] + [Turn(0, Found)], 0, Found);
  }

  /**
   A semaphore that was never opened but went up once has the value 0: from then on no
   continuation takes it below zero, although it started from -1.
   */
  lemma UpBeforeOpen(more: seq<Turn>)
    ensures var s := Run(Booted(1, [Sem]), UpTurns());
            |s.chans| == 1 && s.chans[0].start == -1 && s.chans[0].value == 0 && UpAfter(s, more, 0)
  {
    hide Run, Inv, UpTurns, UpAfter, Booted;
    UpOnce();
    BootedInv(1, [Sem]);
    RunKeepsInv(Booted(1, [Sem]), UpTurns());
    NeverBelowZero(Run(Booted(1, [Sem]), UpTurns()), 0);
  }
}
