/** The scheduler, sleep and wakeup, sleep locks, fork, exit, wait and kill of kernel/proc.c
    and kernel/sleeplock.c as a transition system: any number of CPUs, one step per lock
    operation together with what is done under the lock until the next one, and one step
    per half of swtch(). A timer interrupt can make a thread yield wherever it holds no lock.

    A CPU runs either its scheduler loop or the kernel thread of one process. swtch() away
    from a process is two steps: one saves its registers in p->context, the next loads the
    scheduler's. */
module Scheduler {
  import opened Common

  type Opt = Option<nat>

  datatype PState = Unused | Sleeping | Runnable | Running | Zombie

  datatype Chan = NoChan | OnLock(l: nat) | OnProc(p: nat)

  /** What a process goes on with when it is switched back in. */
  datatype Resume = AfterYield(next: Pc) | AfterSleep(l: nat) | AfterWait | Never(op: nat)

  /** What a process's kernel thread does next. Names in -Acq and -Lock take a lock; Release
      and ReleaseL give back a process lock and the spinlock of a sleep lock. */
  datatype Pc =
    | Run | Forkret | Saving(r: Resume) | Leaving(r: Resume) | Resumed(r: Resume)
    | Release(i: nat, next: Pc) | ReleaseL(l: nat, next: Pc)
    | YieldAcq(next: Pc)
    | LockAcq(l: nat) | LockOwn(l: nat) | LockSleep(l: nat)
    | FreeAcq(l: nat) | WakeAcq(l: nat, j: nat)
    | InitAcq | SelfAcq | ParentAcq(op: nat) | SelfAgain(op: nat) | Orphans(op: nat, j: nat)
    | OrphanAcq(op: nat, j: nat) | Die(op: nat)
    | WaitAcq | WaitScan(j: nat, kids: bool) | WaitLock(j: nat)
    | ForkAcq(j: nat) | KillAcq(j: nat)

  /** The fields of struct proc, where its thread is, the CPU it is on, and the CPU that
      holds p->lock. `saved` says that p->context holds all of the thread's registers. */
  datatype Proc = Proc(state: PState, chan: Chan, parent: Opt, killed: bool, saved: bool, pc: Pc, on: Opt, lock: Opt)

  /** Where a CPU is: in the scheduler loop at process i, or on a process's thread. */
  datatype Where = Scan(i: nat) | Test(i: nat) | Enter(i: nat) | On(p: nat) | Back(i: nat) | Drop(i: nat)

  /** A CPU; `proc` is c->proc. */
  datatype Cpu = Cpu(at: Where, proc: Opt)

  /** A sleep lock, with the CPU that holds its spinlock; `owner` is lk->pid. */
  datatype SleepLock = SleepLock(holder: Opt, locked: bool, owner: Opt)

  /** `held` is history: (p, l) from the moment acquiresleep(l) lets p through until
      releasesleep(l) by p has taken the spinlock. */
  datatype State = State(procs: seq<Proc>, cpus: seq<Cpu>, locks: seq<SleepLock>, held: set<(nat, nat)>)

  /** What a running process does next; Stay is also a failure of copyout() in wait(), of
      memory in fork(), and another pid in kill(). */
  datatype Choice = Stay | Yield | Acquire(l: nat) | Free(l: nat) | Exit | Wait | Fork | Kill(j: nat)

  const INIT: nat := 0

  // ------------------------------------------------------------------------ steps

  function Put(s: State, p: nat, x: Proc): (r: State)
    requires p < |s.procs|
  {
    s.(procs := s.procs[p := x])
  }

  function Goto(s: State, p: nat, pc: Pc): (r: State)
    requires p < |s.procs|
  {
    Put(s, p, s.procs[p].(pc := pc))
  }

  /** Process i, whose lock CPU c has just taken, becomes y, and p goes on at pc. */
  function Locked(s: State, c: nat, p: nat, i: nat, y: Proc, pc: Pc): (r: State)
    requires p < |s.procs| && i < |s.procs|
  {
    Goto(Put(s, i, y.(lock := Some(c))), p, pc)
  }

  predicate IsFree(s: State, i: nat) { i < |s.procs| && s.procs[i].lock == None }

  function SetL(s: State, l: nat, x: SleepLock): (r: State)
    requires l < |s.locks|
  {
    s.(locks := s.locks[l := x])
  }

  predicate IsFreeL(s: State, l: nat) { l < |s.locks| && s.locks[l].holder == None }

  /** acquiresleep() lets p through. */
  function LetIn(s: State, c: nat, p: nat, l: nat): (r: State)
    requires l < |s.locks|
  {
    SetL(s, l, SleepLock(Some(c), true, Some(p))).(held := s.held + {(p, l)})
  }

  /** releasesleep() by p clears the lock. */
  function Cleared(s: State, c: nat, p: nat, l: nat): (r: State)
    requires l < |s.locks|
  {
    SetL(s, l, SleepLock(Some(c), false, None)).(held := s.held - {(p, l)})
  }

  /** holdingsleep(). */
  predicate HoldingSleep(s: State, p: nat, l: nat) { l < |s.locks| && s.locks[l].locked && s.locks[l].owner == Some(p) }

  /** A process that sleeps on the channel becomes runnable. */
  function Woken(x: Proc, ch: Chan): (r: Proc)
  {
    if x.state == Sleeping && x.chan == ch then x.(state := Runnable) else x
  }

  function Reaped(x: Proc): (r: Proc) { x.(state := Unused, chan := NoChan, parent := None, killed := false) }

  function Child(x: Proc, p: nat): (r: Proc)
  {
    x.(state := Runnable, chan := NoChan, parent := Some(p), saved := true, pc := Forkret)
  }

  function Killed(x: Proc): (r: Proc) { x.(killed := true, state := if x.state == Sleeping then Runnable else x.state) }

  /** yield(), acquiresleep() and releasesleep(), with the sleep() and wakeup() in them. */
  function Sync(s: State, c: nat, p: nat): (r: State)
    requires p < |s.procs|
  {
    var x := s.procs[p];
    var pc := x.pc;
    if pc.YieldAcq? then
      (if IsFree(s, p) then Locked(s, c, p, p, x.(state := Runnable), Saving(AfterYield(pc.next))) else s)
    else if pc.LockAcq? then (
      if !IsFreeL(s, pc.l) then s
      else if s.locks[pc.l].locked then Goto(SetL(s, pc.l, s.locks[pc.l].(holder := Some(c))), p, LockOwn(pc.l))
      else Goto(LetIn(s, c, p, pc.l), p, ReleaseL(pc.l, Run)))
    else if pc.LockOwn? then (if IsFree(s, p) then Locked(s, c, p, p, x, ReleaseL(pc.l, LockSleep(pc.l))) else s)
    else if pc.LockSleep? then Put(s, p, x.(chan := OnLock(pc.l), state := Sleeping, pc := Saving(AfterSleep(pc.l))))
    else if pc.FreeAcq? then
      (if IsFreeL(s, pc.l) then Goto(Cleared(s, c, p, pc.l), p, WakeAcq(pc.l, 0)) else s)
    else if pc.WakeAcq? then (
      if pc.j >= |s.procs| then Goto(s, p, ReleaseL(pc.l, Run))
      else if IsFree(s, pc.j) then
        Locked(s, c, p, pc.j, Woken(s.procs[pc.j], OnLock(pc.l)), Release(pc.j, WakeAcq(pc.l, pc.j + 1)))
      else s)
    else s
  }

  /** exit(). */
  function Exiting(s: State, c: nat, p: nat): (r: State)
    requires p < |s.procs|
  {
    var x := s.procs[p];
    var pc := x.pc;
    if pc.InitAcq? then (if IsFree(s, INIT) then Locked(s, c, p, INIT, Woken(s.procs[INIT], OnProc(INIT)),
      Release(INIT, SelfAcq)) else s)
    else if pc.SelfAcq? then
      (if IsFree(s, p) && x.parent.Some? then Locked(s, c, p, p, x, Release(p, ParentAcq(x.parent.value))) else s)
    else if pc.ParentAcq? then
      (if IsFree(s, pc.op) then Locked(s, c, p, pc.op, s.procs[pc.op], SelfAgain(pc.op)) else s)
    else if pc.SelfAgain? then (if IsFree(s, p) then Locked(s, c, p, p, x, Orphans(pc.op, 0)) else s)
    else if pc.Orphans? then (
      if pc.j >= |s.procs| then Goto(s, p, Die(pc.op))
      else if s.procs[pc.j].parent == Some(p) then Goto(s, p, OrphanAcq(pc.op, pc.j))
      else Goto(s, p, Orphans(pc.op, pc.j + 1)))
    else if pc.OrphanAcq? then (
      if IsFree(s, pc.j) then Locked(s, c, p, pc.j, s.procs[pc.j].(parent := Some(INIT)),
        Release(pc.j, Orphans(pc.op, pc.j + 1))) else s)
    else if pc.Die? then (
      if pc.op >= |s.procs| || pc.op == p then s
      else Put(Put(s, pc.op, Woken(s.procs[pc.op], OnProc(pc.op))), p,
        x.(state := Zombie, pc := Release(pc.op, Saving(Never(pc.op))))))
    else s
  }

  /** wait() with the sleep() in it, fork() as far as the process table goes, and kill(). */
  function Family(s: State, c: nat, p: nat, a: Choice): (r: State)
    requires p < |s.procs|
  {
    var x := s.procs[p];
    var pc := x.pc;
    if pc.WaitAcq? then (if IsFree(s, p) then Locked(s, c, p, p, x, WaitScan(0, false)) else s)
    else if pc.WaitScan? then (
      if pc.j < |s.procs| then
        Goto(s, p, if s.procs[pc.j].parent == Some(p) then WaitLock(pc.j) else WaitScan(pc.j + 1, pc.kids))
      else if !pc.kids || x.killed then Goto(s, p, Release(p, Run))
      else Put(s, p, x.(chan := OnProc(p), state := Sleeping, pc := Saving(AfterWait))))
    else if pc.WaitLock? then (
      if !IsFree(s, pc.j) then s
      else if s.procs[pc.j].state != Zombie then
        Locked(s, c, p, pc.j, s.procs[pc.j], Release(pc.j, WaitScan(pc.j + 1, true)))
      else Locked(s, c, p, pc.j, if a.Stay? then s.procs[pc.j]
        else Reaped(s.procs[pc.j]), Release(pc.j, Release(p, Run))))
    else if pc.ForkAcq? then (
      if pc.j >= |s.procs| then Goto(s, p, Run)
      else if !IsFree(s, pc.j) then s
      else if s.procs[pc.j].state != Unused then Locked(s, c, p, pc.j, s.procs[pc.j], Release(pc.j, ForkAcq(pc.j + 1)))
      else Locked(s, c, p, pc.j, if a.Stay? then s.procs[pc.j] else Child(s.procs[pc.j], p), Release(pc.j, Run)))
    else if pc.KillAcq? then (
      if IsFree(s, pc.j) then Locked(s, c, p, pc.j, if a.Stay? then s.procs[pc.j]
        else Killed(s.procs[pc.j]), Release(pc.j, Run)) else s)
    else s
  }

  /** What a running process turns to; init does not exit, a sleep lock is given back by who
      holds it, and exit() comes with none held. */
  function Begins(s: State, p: nat, a: Choice): (pc: Pc)
  {
    match a
    case Stay => Run
    case Yield => YieldAcq(Run)
    case Acquire(l) => LockAcq(l)
    case Free(l) => if HoldingSleep(s, p, l) then FreeAcq(l) else Run
    case Exit => if p == INIT || exists l: nat :: l < |s.locks| && HoldingSleep(s, p, l) then Run else InitAcq
    case Wait => WaitAcq
    case Fork => ForkAcq(0)
    case Kill(j) => KillAcq(j)
  }

  /** Releasing locks, going on after being switched in, and starting something new. */
  function Plain(s: State, p: nat, a: Choice): (r: State)
    requires p < |s.procs|
  {
    var x := s.procs[p];
    var pc := x.pc;
    if pc.Release? then (if pc.i < |s.procs| then Goto(Put(s, pc.i, s.procs[pc.i].(lock := None)), p, pc.next) else s)
    else if pc.ReleaseL? then
      (if pc.l < |s.locks| then Goto(SetL(s, pc.l, s.locks[pc.l].(holder := None)), p, pc.next) else s)
    else if pc.Run? then Goto(s, p, Begins(s, p, a))
    else if pc.Forkret? then Goto(s, p, Release(p, Run))
    else if pc.Resumed? && pc.r.AfterYield? then Goto(s, p, Release(p, pc.r.next))
    else if pc == Resumed(AfterWait) then Put(s, p, x.(chan := NoChan, pc := WaitScan(0, false)))
    else if pc.Resumed? && pc.r.AfterSleep? then Put(s, p, x.(chan := NoChan, pc := Release(p, LockAcq(pc.r.l))))
    else s
  }

  predicate IsSync(pc: Pc) { pc.YieldAcq? || pc.LockAcq? || pc.LockOwn? || pc.LockSleep? || pc.FreeAcq? || pc.WakeAcq? }

  predicate IsExit(pc: Pc)
  {
    pc.InitAcq? || pc.SelfAcq? || pc.ParentAcq? || pc.SelfAgain? || pc.Orphans? || pc.OrphanAcq? || pc.Die?
  }

  predicate IsFamily(pc: Pc) { pc.WaitAcq? || pc.WaitScan? || pc.WaitLock? || pc.ForkAcq? || pc.KillAcq? }

  /** Places where a thread holds no lock, so that interrupts are on. */
  predicate Preemptible(pc: Pc)
  {
    || pc.Run? || pc.LockAcq? || pc.FreeAcq? || pc.InitAcq? || pc.SelfAcq? || pc.ParentAcq? || pc.WaitAcq?
    || pc.ForkAcq? || pc.KillAcq?
  }

  /** A step of the thread of p on CPU c that does not leave it. */
  function Thread(s: State, c: nat, p: nat, a: Choice): (r: State)
    requires p < |s.procs|
  {
    var pc := s.procs[p].pc;
    if a.Yield? && Preemptible(pc) then Goto(s, p, YieldAcq(pc))
    else if IsSync(pc) then Sync(s, c, p) else if IsExit(pc) then Exiting(s, c, p)
      else if IsFamily(pc) then Family(s, c, p, a) else Plain(s, p, a)
  }

  function SetCpu(s: State, c: nat, x: Cpu): (r: State)
    requires c < |s.cpus|
  {
    s.(cpus := s.cpus[c := x])
  }

  /** A step of CPU c: of its scheduler loop, of swtch(), or of the thread it is on. */
  function Step(s: State, c: nat, a: Choice): (r: State)
    requires c < |s.cpus|
  {
    match s.cpus[c].at
    case Scan(i) =>
      if i >= |s.procs| then SetCpu(s, c, s.cpus[c].(at := Scan(0)))
      else if IsFree(s, i) then SetCpu(Put(s, i, s.procs[i].(lock := Some(c))), c, s.cpus[c].(at := Test(i))) else s
    case Test(i) =>
      if i >= |s.procs| then s
      else if s.procs[i].state == Runnable then
        SetCpu(Put(s, i, s.procs[i].(state := Running, on := Some(c))), c, Cpu(Enter(i), Some(i)))
      else SetCpu(s, c, s.cpus[c].(at := Drop(i)))
    case Enter(i) =>
      if i < |s.procs| then SetCpu(Put(s, i, s.procs[i].(saved := false)), c, s.cpus[c].(at := On(i))) else s
    case Back(i) => SetCpu(s, c, Cpu(Drop(i), None))
    case Drop(i) =>
      if i < |s.procs| then SetCpu(Put(s, i, s.procs[i].(lock := None)), c, s.cpus[c].(at := Scan(i + 1))) else s
    case On(p) =>
      if p >= |s.procs| then s
      else if s.procs[p].pc.Saving? then Put(s, p, s.procs[p].(saved := true, pc := Leaving(s.procs[p].pc.r)))
      else if s.procs[p].pc.Leaving? then
        SetCpu(Put(s, p, s.procs[p].(pc := Resumed(s.procs[p].pc.r), on := None)), c, s.cpus[c].(at := Back(p)))
      else Thread(s, c, p, a)
  }

  // ------------------------------------------------------------ the hand-off invariant

  /** At a place the thread of p needs to hold the lock of process k. */
  predicate Needs(p: nat, pc: Pc, k: nat)
  {
    if pc.Release? then k == pc.i || Needs(p, pc.next, k)
    else if pc.ReleaseL? then Needs(p, pc.next, k)
    else if k == p && NeedsOwn(pc) then true
    else (pc.SelfAgain? || pc.Orphans? || pc.OrphanAcq? || pc.Die?) && k == pc.op
  }

  predicate NeedsOwn(pc: Pc)
  {
    || pc.Saving? || pc.Leaving? || pc.Resumed? || pc.Forkret? || pc.LockSleep?
    || pc.Orphans? || pc.OrphanAcq? || pc.Die? || pc.WaitScan? || pc.WaitLock?
  }

  /** A lock to be released is not needed afterwards. */
  predicate WellPlaced(p: nat, pc: Pc)
  {
    if pc.Release? then !Needs(p, pc.next, pc.i) && !pc.next.Leaving? && WellPlaced(p, pc.next)
    else if pc.ReleaseL? then !pc.next.Leaving? && WellPlaced(p, pc.next)
    else PausedWell(pc)
  }

  /** A thread that was interrupted goes on where it held no lock. */
  predicate PausedWell(pc: Pc)
  {
    && (pc.YieldAcq? ==> Preemptible(pc.next))
    && ((pc.Saving? || pc.Leaving? || pc.Resumed?) && pc.r.AfterYield? ==> Preemptible(pc.r.next))
  }

  /** The state a process has while a CPU is on its thread at a place. */
  function Want(pc: Pc): (s: PState)
  {
    if pc.Release? || pc.ReleaseL? then Want(pc.next)
    else if pc.Saving? || pc.Leaving? then
      (if pc.r.AfterYield? then Runnable else if pc.r.Never? then Zombie else Sleeping)
    else Running
  }

  /** Places a thread can be switched back in at. */
  predicate Resumable(pc: Pc) { (pc.Forkret? || (pc.Resumed? && !pc.r.Never?)) && PausedWell(pc) }

  ghost predicate Entering(x: Proc) { x.state == Running && x.saved && Resumable(x.pc) }

  /** p is at a place of its thread, in the state that goes with it. */
  ghost predicate OnThread(p: nat, x: Proc)
  {
    x.state == Want(x.pc) && (x.saved <==> x.pc.Leaving?) && WellPlaced(p, x.pc)
  }

  /** A process on no CPU has its registers saved. */
  ghost predicate Off(x: Proc)
  {
    x.saved && x.state != Running && (x.state == Runnable || x.state == Sleeping ==> Resumable(x.pc))
  }

  ghost predicate HoldsAll(s: State, c: nat, p: nat)
    requires p < |s.procs|
  {
    forall k: nat :: Needs(p, s.procs[p].pc, k) ==> k < |s.procs| && s.procs[k].lock == Some(c)
  }

  /** CPU c and what it is on agree. */
  ghost predicate CpuOk(s: State, c: nat)
    requires c < |s.cpus|
  {
    var x := s.cpus[c];
    match x.at
    case Scan(_) => x.proc == None
    case Test(i) => i < |s.procs| && x.proc == None && s.procs[i].lock == Some(c)
    case Drop(i) => i < |s.procs| && x.proc == None && s.procs[i].lock == Some(c)
    case Back(i) => i < |s.procs| && x.proc == Some(i) && s.procs[i].lock == Some(c) && s.procs[i].on == None
    case Enter(i) => i < |s.procs| && x.proc == Some(i) && s.procs[i].lock == Some(c) && s.procs[i].on == Some(c)
      && Entering(s.procs[i])
    case On(p) =>
      p < |s.procs| && x.proc == Some(p) && s.procs[p].on == Some(c) && OnThread(p, s.procs[p]) && HoldsAll(s, c, p)
  }

  /** A process is on the CPU that is on it, or on none with its registers saved. */
  ghost predicate ProcOk(s: State, i: nat)
    requires i < |s.procs|
  {
    var x := s.procs[i];
    if x.on.Some? then x.on.value < |s.cpus| && (s.cpus[x.on.value].at == On(i)
      || s.cpus[x.on.value].at == Enter(i)) else Off(x)
  }

  ghost predicate HandOff(s: State)
  {
    (forall c: nat :: c < |s.cpus| ==> CpuOk(s, c)) && (forall i: nat :: i < |s.procs| ==> ProcOk(s, i))
  }

  /** A process is current on at most one CPU. */
  lemma OneCpu(s: State, c: nat, d: nat, p: nat)
    requires HandOff(s) && c < |s.cpus| && d < |s.cpus| && s.cpus[c].proc == Some(p) && s.cpus[d].proc == Some(p)
    ensures c == d
  {
    assert CpuOk(s, c) && CpuOk(s, d);
  }

  /** No CPU loads a context before it has been saved, or while another is on it. */
  lemma LoadsSaved(s: State, c: nat)
    requires HandOff(s) && c < |s.cpus| && s.cpus[c].at.Enter?
    ensures s.cpus[c].at.i < |s.procs| && s.procs[s.cpus[c].at.i].saved
    ensures forall d: nat :: d < |s.cpus| ==> s.cpus[d].at != On(s.cpus[c].at.i)
  {
    assert CpuOk(s, c);
    forall d: nat | d < |s.cpus| ensures s.cpus[d].at != On(s.cpus[c].at.i) { assert CpuOk(s, d); }
  }

  lemma {:induction false} NotRunningNeedsOwn(p: nat, pc: Pc)
    ensures Want(pc) != Running ==> Needs(p, pc, p)
  {
    if pc.Release? || pc.ReleaseL? { NotRunningNeedsOwn(p, pc.next); }
  }

  /** A process that is not RUNNING and whose lock is free is on no CPU: what wait() frees,
      fork() reuses, wakeup() and kill() make runnable. */
  lemma IdleWhenFree(s: State, j: nat)
    requires HandOff(s) && IsFree(s, j) && s.procs[j].state != Running
    ensures s.procs[j].on == None && Off(s.procs[j])
    ensures forall d: nat :: d < |s.cpus| ==> s.cpus[d].at != On(j) && s.cpus[d].at != Enter(j)
  {
    assert ProcOk(s, j);
    if s.procs[j].on.Some? {
      assert CpuOk(s, s.procs[j].on.value);
      NotRunningNeedsOwn(j, s.procs[j].pc);
    }
    forall d: nat | d < |s.cpus| ensures s.cpus[d].at != On(j) && s.cpus[d].at != Enter(j) { assert CpuOk(s, d); }
  }

  // --------------------------------------------------------- steps keep the hand-off

  /** CPU c is on the thread of p. */
  ghost predicate At(s: State, c: nat, p: nat)
  {
    HandOff(s) && c < |s.cpus| && s.cpus[c].at == On(p) && p < |s.procs|
  }

  /** Another process is left alone while it is on a CPU, and resumable while it is not. */
  ghost predicate OtherStep(x: Proc, y: Proc)
  {
    y.on == x.on && (if x.on.Some? then y.state == x.state && y.saved == x.saved && y.pc == x.pc else Off(y))
  }

  /** A lock stays, is taken by CPU c, or is given back by it. */
  predicate LockStep(a: Opt, b: Opt, c: nat) { b == a || (a == None && b == Some(c)) || (a == Some(c) && b == None) }

  /** What a step of p's thread on CPU c may do. */
  ghost predicate ThreadStep(s: State, t: State, c: nat, p: nat)
    requires p < |s.procs|
  {
    && t.cpus == s.cpus && |t.procs| == |s.procs| && t.procs[p].on == s.procs[p].on && OnThread(p, t.procs[p])
    && HoldsAll(t, c, p)
    && (forall j: nat :: j < |s.procs| && j != p ==> OtherStep(s.procs[j], t.procs[j]))
    && (forall j: nat :: j < |s.procs| ==> LockStep(s.procs[j].lock, t.procs[j].lock, c))
  }

  lemma ThreadKeeps(s: State, t: State, c: nat, p: nat)
    requires At(s, c, p) && ThreadStep(s, t, c, p)
    ensures HandOff(t)
  {
    hide Needs, Want, WellPlaced, Resumable;
    assert CpuOk(s, c);
    forall d: nat | d < |t.cpus| ensures CpuOk(t, d) {
      assert CpuOk(s, d);
      match s.cpus[d].at {
        case Scan(_) =>
        case Test(i) => assert LockStep(s.procs[i].lock, t.procs[i].lock, c);
        case Drop(i) => assert LockStep(s.procs[i].lock, t.procs[i].lock, c);
        case Back(i) => assert LockStep(s.procs[i].lock, t.procs[i].lock, c);
        case Enter(i) => assert LockStep(s.procs[i].lock, t.procs[i].lock, c) && OtherStep(s.procs[i], t.procs[i]);
        case On(q) =>
          if q != p {
            assert OtherStep(s.procs[q], t.procs[q]);
            forall k: nat | Needs(q, t.procs[q].pc, k) ensures k < |t.procs| && t.procs[k].lock == Some(d) {
              assert LockStep(s.procs[k].lock, t.procs[k].lock, c);
            }
          }
      }
    }
    forall i: nat | i < |t.procs| ensures ProcOk(t, i) {
      assert ProcOk(s, i);
      if i != p { assert OtherStep(s.procs[i], t.procs[i]); }
    }
  }

  lemma AtFacts(s: State, c: nat, p: nat)
    requires At(s, c, p)
    ensures p < |s.procs| && c < |s.cpus| && s.procs[p].on == Some(c) && OnThread(p, s.procs[p]) && HoldsAll(s, c, p)
    ensures forall i: nat :: i < |s.procs| && s.procs[i].on == None ==> Off(s.procs[i])
  {
    hide Needs, Want, WellPlaced, Resumable, Off;
    assert CpuOk(s, c);
    forall i: nat | i < |s.procs| && s.procs[i].on == None ensures Off(s.procs[i]) { assert ProcOk(s, i); }
  }

  /** From place a to place b no lock is needed that was not, but for k. */
  ghost predicate Covers(p: nat, a: Pc, b: Pc, k: nat) { forall i: nat :: Needs(p, b, i) ==> i == k || Needs(p, a, i) }

  /** A place like any other: the process is RUNNING. */
  predicate Easy(p: nat, pc: Pc) { Want(pc) == Running && !pc.Leaving? && WellPlaced(p, pc) }

  /** The kinds of steps a thread takes: to another place and its own fields, */
  lemma OwnStep(s: State, c: nat, p: nat, y: Proc, u: State)
    requires At(s, c, p) && OnThread(p, y) && y.on == s.procs[p].on && y.lock == s.procs[p].lock
    requires (forall i: nat :: Needs(p, y.pc, i) ==> Needs(p, s.procs[p].pc, i))
      && u.procs == s.procs && u.cpus == s.cpus
    ensures ThreadStep(s, Put(u, p, y), c, p)
  {
    hide At, Needs, Want, WellPlaced, Resumable;
    AtFacts(s, c, p);
    var t := Put(u, p, y);
    forall k: nat | Needs(p, t.procs[p].pc, k) ensures k < |t.procs| && t.procs[k].lock == Some(c) {
      assert Needs(p, s.procs[p].pc, k);
    }
  }

  /** taking its own lock, */
  lemma LockOwnStep(s: State, c: nat, p: nat, y: Proc, pc: Pc)
    requires At(s, c, p) && IsFree(s, p) && OnThread(p, y.(pc := pc)) && y.on == s.procs[p].on
      && Covers(p, s.procs[p].pc, pc, p)
    ensures ThreadStep(s, Locked(s, c, p, p, y, pc), c, p)
  {
    hide At, Needs, Want, WellPlaced, Resumable;
    AtFacts(s, c, p);
  }

  /** taking another's and changing its fields, */
  lemma LockOtherStep(s: State, c: nat, p: nat, i: nat, y: Proc, pc: Pc)
    requires At(s, c, p) && IsFree(s, i) && i != p && OtherStep(s.procs[i], y) && OnThread(p, s.procs[p].(pc := pc))
      && Covers(p, s.procs[p].pc, pc, i)
    ensures ThreadStep(s, Locked(s, c, p, i, y, pc), c, p)
  {
    hide At, Needs, Want, WellPlaced, Resumable;
    AtFacts(s, c, p);
    var t := Locked(s, c, p, i, y, pc);
    assert t.procs[p] == s.procs[p].(pc := pc) && t.procs[i] == y.(lock := Some(c));
    forall k: nat | Needs(p, t.procs[p].pc, k) ensures k < |t.procs| && t.procs[k].lock == Some(c) {
      assert k == i || Needs(p, s.procs[p].pc, k);
    }
  }

  /** and giving one back. */
  lemma ReleaseStep(s: State, c: nat, p: nat, a: Choice)
    requires At(s, c, p) && s.procs[p].pc.Release?
    ensures ThreadStep(s, Plain(s, p, a), c, p)
  {
    AtFacts(s, c, p);
    var i, next := s.procs[p].pc.i, s.procs[p].pc.next;
    assert Needs(p, s.procs[p].pc, i) && forall k: nat :: Needs(p, next, k) ==> k != i && Needs(p, s.procs[p].pc, k);
    assert Want(next) == Want(s.procs[p].pc) && WellPlaced(p, next);
    hide At, Needs, Want, WellPlaced, Resumable;
  }

  lemma StayStep(s: State, c: nat, p: nat)
    requires At(s, c, p)
    ensures ThreadStep(s, s, c, p)
  {
    hide At, Needs, Want, WellPlaced, Resumable;
    AtFacts(s, c, p);
  }

  lemma AtState(s: State, c: nat, p: nat)
    requires At(s, c, p)
    ensures p < |s.procs| && c < |s.cpus| && s.procs[p].on == Some(c) && OnThread(p, s.procs[p])
  {
    assert CpuOk(s, c);
  }

  lemma GotoStep(s: State, c: nat, p: nat, pc: Pc, u: State)
    requires At(s, c, p) && Easy(p, s.procs[p].pc) && Easy(p, pc)
      && (forall i: nat :: Needs(p, pc, i) ==> Needs(p, s.procs[p].pc, i)) && u.procs == s.procs && u.cpus == s.cpus
    ensures ThreadStep(s, Goto(u, p, pc), c, p)
  {
    AtState(s, c, p);
    hide At, Needs, WellPlaced, ThreadStep, Want;
    OwnStep(s, c, p, s.procs[p].(pc := pc), u);
  }

  /** Taking a free lock and then holding it only to give it back. */
  lemma VisitStep(s: State, c: nat, p: nat, i: nat, y: Proc, next: Pc)
    requires At(s, c, p) && IsFree(s, i) && Easy(p, s.procs[p].pc) && Easy(p, next) && !Needs(p, next, i)
    requires forall k: nat :: Needs(p, next, k) ==> Needs(p, s.procs[p].pc, k)
    requires if i == p then y == s.procs[p] || y == Killed(s.procs[p]) else OtherStep(s.procs[i], y)
    ensures ThreadStep(s, Locked(s, c, p, i, y, Release(i, next)), c, p)
  {
    AtState(s, c, p);
    var pc := Release(i, next);
    assert Easy(p, pc) && Covers(p, s.procs[p].pc, pc, i);
    hide At, Needs, WellPlaced, ThreadStep, Want;
    if i == p { LockOwnStep(s, c, p, y, pc); } else { LockOtherStep(s, c, p, i, y, pc); }
  }

  /** A lock that a thread needs is not free. */
  lemma NeededNotFree(s: State, c: nat, p: nat, i: nat)
    requires At(s, c, p) && IsFree(s, i)
    ensures !Needs(p, s.procs[p].pc, i)
  {
    hide Needs;
    AtFacts(s, c, p);
  }

  /** What wakeup(), kill(), wait() and fork() do to another process is harmless to it. */
  lemma OtherOk(s: State, c: nat, p: nat, j: nat, y: Proc)
    requires At(s, c, p) && IsFree(s, j) && j != p
    requires var x := s.procs[j];
      || y == x || (exists o: Opt :: y == x.(parent := o)) || (exists ch: Chan :: y == Woken(x, ch)) || y == Killed(x)
      || (x.state == Zombie && y == Reaped(x)) || (x.state == Unused && y == Child(x, p))
    ensures OtherStep(s.procs[j], y)
  {
    AtFacts(s, c, p);
    if s.procs[j].state != Running { IdleWhenFree(s, j); }
    hide At;
  }

  /** Places that first release a lock. */
  lemma ReleasePlace(p: nat, i: nat, next: Pc)
    requires !Needs(p, next, i) && !next.Leaving? && WellPlaced(p, next)
    ensures WellPlaced(p, Release(i, next)) && Want(Release(i, next)) == Want(next)
    ensures forall k: nat :: Needs(p, Release(i, next), k) <==> k == i || Needs(p, next, k)
  {}

  lemma ReleaseLPlace(p: nat, l: nat, next: Pc)
    requires !next.Leaving? && WellPlaced(p, next)
    ensures WellPlaced(p, ReleaseL(l, next)) && Want(ReleaseL(l, next)) == Want(next)
    ensures forall k: nat :: Needs(p, ReleaseL(l, next), k) <==> Needs(p, next, k)
  {}

  lemma SyncKeeps(s: State, c: nat, p: nat)
    requires At(s, c, p) && IsSync(s.procs[p].pc)
    ensures ThreadStep(s, Sync(s, c, p), c, p)
  {
    AtState(s, c, p);
    StayStep(s, c, p);
    var x, pc := s.procs[p], s.procs[p].pc;
    hide At, ThreadStep;
    if pc.YieldAcq? {
      if IsFree(s, p) { LockOwnStep(s, c, p, x.(state := Runnable), Saving(AfterYield(pc.next))); }
    } else if pc.LockAcq? {
      if IsFreeL(s, pc.l) {
        ReleaseLPlace(p, pc.l, Run);
        if s.locks[pc.l].locked {
          GotoStep(s, c, p, LockOwn(pc.l), SetL(s, pc.l, s.locks[pc.l].(holder := Some(c))));
        } else {
          GotoStep(s, c, p, ReleaseL(pc.l, Run), LetIn(s, c, p, pc.l));
        }
      }
    } else if pc.LockOwn? {
      ReleaseLPlace(p, pc.l, LockSleep(pc.l));
      if IsFree(s, p) { LockOwnStep(s, c, p, x, ReleaseL(pc.l, LockSleep(pc.l))); }
    } else if pc.LockSleep? {
      OwnStep(s, c, p, x.(chan := OnLock(pc.l), state := Sleeping, pc := Saving(AfterSleep(pc.l))), s);
    } else if pc.FreeAcq? {
      if IsFreeL(s, pc.l) { GotoStep(s, c, p, WakeAcq(pc.l, 0), Cleared(s, c, p, pc.l)); }
    } else {
      WakeStep(s, c, p);
    }
  }

  lemma WakeStep(s: State, c: nat, p: nat)
    requires At(s, c, p) && s.procs[p].pc.WakeAcq?
    ensures ThreadStep(s, Sync(s, c, p), c, p)
  {
    hide At, ThreadStep;
    AtState(s, c, p);
    StayStep(s, c, p);
    var pc := s.procs[p].pc;
    if pc.j >= |s.procs| {
      ReleaseLPlace(p, pc.l, Run);
      GotoStep(s, c, p, ReleaseL(pc.l, Run), s);
    } else if IsFree(s, pc.j) {
      if pc.j != p { OtherOk(s, c, p, pc.j, Woken(s.procs[pc.j], OnLock(pc.l))); }
      VisitStep(s, c, p, pc.j, Woken(s.procs[pc.j], OnLock(pc.l)), WakeAcq(pc.l, pc.j + 1));
    }
  }

  lemma ExitingKeeps(s: State, c: nat, p: nat)
    requires At(s, c, p) && IsExit(s.procs[p].pc)
    ensures ThreadStep(s, Exiting(s, c, p), c, p)
  {
    AtState(s, c, p);
    StayStep(s, c, p);
    var x, pc := s.procs[p], s.procs[p].pc;
    hide At, ThreadStep;
    if pc.InitAcq? {
      if IsFree(s, INIT) {
        if INIT != p { OtherOk(s, c, p, INIT, Woken(s.procs[INIT], OnProc(INIT))); }
        VisitStep(s, c, p, INIT, Woken(s.procs[INIT], OnProc(INIT)), SelfAcq);
      }
    } else if pc.SelfAcq? {
      if IsFree(s, p) && x.parent.Some? { VisitStep(s, c, p, p, x, ParentAcq(x.parent.value)); }
    } else if pc.ParentAcq? {
      if IsFree(s, pc.op) { ParentStep(s, c, p); }
    } else if pc.SelfAgain? {
      if IsFree(s, p) { LockOwnStep(s, c, p, x, Orphans(pc.op, 0)); }
    } else if pc.Orphans? {
      GotoStep(s, c, p, if pc.j >= |s.procs| then Die(pc.op)
        else if s.procs[pc.j].parent == Some(p) then OrphanAcq(pc.op, pc.j) else Orphans(pc.op, pc.j + 1), s);
    } else if pc.OrphanAcq? {
      if IsFree(s, pc.j) { OrphanStep(s, c, p); }
    } else if pc.op < |s.procs| && pc.op != p {
      DieStep(s, c, p);
    }
  }

  lemma ParentStep(s: State, c: nat, p: nat)
    requires At(s, c, p) && s.procs[p].pc.ParentAcq? && IsFree(s, s.procs[p].pc.op)
    ensures ThreadStep(s, Exiting(s, c, p), c, p)
  {
    AtState(s, c, p);
    hide At, ThreadStep;
    var op := s.procs[p].pc.op;
    if op == p {
      LockOwnStep(s, c, p, s.procs[p], SelfAgain(op));
    } else {
      OtherOk(s, c, p, op, s.procs[op]);
      LockOtherStep(s, c, p, op, s.procs[op], SelfAgain(op));
    }
  }

  lemma OrphanStep(s: State, c: nat, p: nat)
    requires At(s, c, p) && s.procs[p].pc.OrphanAcq? && IsFree(s, s.procs[p].pc.j)
    ensures ThreadStep(s, Exiting(s, c, p), c, p)
  {
    AtState(s, c, p);
    var j := s.procs[p].pc.j;
    NeededNotFree(s, c, p, j);
    hide At, ThreadStep;
    OtherOk(s, c, p, j, s.procs[j].(parent := Some(INIT)));
    VisitStep(s, c, p, j, s.procs[j].(parent := Some(INIT)), Orphans(s.procs[p].pc.op, j + 1));
  }

  lemma DieStep(s: State, c: nat, p: nat)
    requires At(s, c, p) && s.procs[p].pc.Die? && s.procs[p].pc.op != p
    ensures ThreadStep(s, Exiting(s, c, p), c, p)
  {
    AtFacts(s, c, p);
    var op := s.procs[p].pc.op;
    assert Needs(p, s.procs[p].pc, op) && Needs(p, s.procs[p].pc, p);
    WokenHeld(s, c, p, op);
    ReleasePlace(p, op, Saving(Never(op)));
    var t := Exiting(s, c, p);
    hide At, Woken;
    assert t.procs[op] == Woken(s.procs[op], OnProc(op)) && t.procs[op].lock == s.procs[op].lock by {
      WokenLock(s.procs[op], OnProc(op));
    }
  }

  lemma WokenLock(x: Proc, ch: Chan)
    ensures Woken(x, ch).lock == x.lock
  {}

  lemma WokenHeld(s: State, c: nat, p: nat, j: nat)
    requires At(s, c, p) && j < |s.procs| && j != p && s.procs[j].lock == Some(c)
    ensures OtherStep(s.procs[j], Woken(s.procs[j], OnProc(j)))
  {
    AtFacts(s, c, p);
    assert ProcOk(s, j);
    if s.procs[j].on.Some? && s.procs[j].state == Sleeping {
      assert CpuOk(s, s.procs[j].on.value);
      NotRunningNeedsOwn(j, s.procs[j].pc);
    }
  }

  lemma FamilyKeeps(s: State, c: nat, p: nat, a: Choice)
    requires At(s, c, p) && IsFamily(s.procs[p].pc)
    ensures ThreadStep(s, Family(s, c, p, a), c, p)
  {
    AtState(s, c, p);
    StayStep(s, c, p);
    var x, pc := s.procs[p], s.procs[p].pc;
    hide At, ThreadStep;
    if pc.WaitAcq? {
      if IsFree(s, p) { LockOwnStep(s, c, p, x, WaitScan(0, false)); }
    } else if pc.WaitScan? {
      if pc.j < |s.procs| {
        GotoStep(s, c, p, if s.procs[pc.j].parent == Some(p) then WaitLock(pc.j)
          else WaitScan(pc.j + 1, pc.kids), s);
      }
      else if !pc.kids || x.killed { ReleasePlace(p, p, Run); GotoStep(s, c, p, Release(p, Run), s); }
      else { OwnStep(s, c, p, x.(chan := OnProc(p), state := Sleeping, pc := Saving(AfterWait)), s); }
    } else if pc.WaitLock? {
      if IsFree(s, pc.j) { WaitStep(s, c, p, a); }
    } else if pc.ForkAcq? {
      if pc.j >= |s.procs| { GotoStep(s, c, p, Run, s); } else if IsFree(s, pc.j) { ForkStep(s, c, p, a); }
    } else if IsFree(s, pc.j) {
      if pc.j != p { OtherOk(s, c, p, pc.j, if a.Stay? then s.procs[pc.j] else Killed(s.procs[pc.j])); }
      VisitStep(s, c, p, pc.j, if a.Stay? then s.procs[pc.j] else Killed(s.procs[pc.j]), Run);
    }
  }

  lemma WaitStep(s: State, c: nat, p: nat, a: Choice)
    requires At(s, c, p) && s.procs[p].pc.WaitLock? && IsFree(s, s.procs[p].pc.j)
    ensures ThreadStep(s, Family(s, c, p, a), c, p)
  {
    hide At, ThreadStep;
    AtState(s, c, p);
    var j := s.procs[p].pc.j;
    NeededNotFree(s, c, p, j);
    if s.procs[j].state != Zombie {
      OtherOk(s, c, p, j, s.procs[j]);
      VisitStep(s, c, p, j, s.procs[j], WaitScan(j + 1, true));
    } else {
      var y := if a.Stay? then s.procs[j] else Reaped(s.procs[j]);
      OtherOk(s, c, p, j, y);
      ReleasePlace(p, p, Run);
      VisitStep(s, c, p, j, y, Release(p, Run));
    }
  }

  lemma ForkStep(s: State, c: nat, p: nat, a: Choice)
    requires At(s, c, p) && s.procs[p].pc.ForkAcq? && IsFree(s, s.procs[p].pc.j)
    ensures ThreadStep(s, Family(s, c, p, a), c, p)
  {
    AtState(s, c, p);
    var j := s.procs[p].pc.j;
    hide At, ThreadStep;
    if s.procs[j].state != Unused {
      if j != p { OtherOk(s, c, p, j, s.procs[j]); }
      VisitStep(s, c, p, j, s.procs[j], ForkAcq(j + 1));
    } else {
      var y := if a.Stay? then s.procs[j] else Child(s.procs[j], p);
      OtherOk(s, c, p, j, y);
      VisitStep(s, c, p, j, y, Run);
    }
  }

  /** A place where no lock is held. */
  lemma PausedPlace(p: nat, pc: Pc)
    requires Preemptible(pc)
    ensures Easy(p, pc) && Lockless(pc) && forall k: nat :: !Needs(p, pc, k)
    ensures Scanned(pc) == 0 && (ToWake(pc).Some? <==> pc.ParentAcq?) && (pc.ParentAcq? ==> ToWake(pc) == Some(pc.op))
  {}

  /** The interrupt itself. */
  lemma PauseKeeps(s: State, c: nat, p: nat)
    requires At(s, c, p) && Preemptible(s.procs[p].pc)
    ensures ThreadStep(s, Goto(s, p, YieldAcq(s.procs[p].pc)), c, p)
  {
    AtState(s, c, p);
    var pc := s.procs[p].pc;
    PausedPlace(p, pc);
    assert Easy(p, YieldAcq(pc)) && forall k: nat :: !Needs(p, YieldAcq(pc), k);
    hide At, ThreadStep;
    GotoStep(s, c, p, YieldAcq(pc), s);
  }

  lemma PlainKeeps(s: State, c: nat, p: nat, a: Choice)
    requires At(s, c, p) && !IsSync(s.procs[p].pc) && !IsExit(s.procs[p].pc) && !IsFamily(s.procs[p].pc)
      && !s.procs[p].pc.Saving? && !s.procs[p].pc.Leaving?
    ensures ThreadStep(s, Plain(s, p, a), c, p)
  {
    AtState(s, c, p);
    StayStep(s, c, p);
    var x, pc := s.procs[p], s.procs[p].pc;
    if pc.Release? {
      ReleaseStep(s, c, p, a);
    } else {
      hide At, ThreadStep;
      if pc.ReleaseL? {
        if pc.l < |s.locks| { OwnStep(s, c, p, x.(pc := pc.next), SetL(s, pc.l, s.locks[pc.l].(holder := None))); }
      } else if pc.Run? { GotoStep(s, c, p, Begins(s, p, a), s); }
      else if pc.Forkret? {
        ReleasePlace(p, p, Run);
        GotoStep(s, c, p, Release(p, Run), s);
      }
      else if pc.r.AfterYield? {
        PausedPlace(p, pc.r.next);
        ReleasePlace(p, p, pc.r.next);
        GotoStep(s, c, p, Release(p, pc.r.next), s);
      }
      else if pc.r == AfterWait { OwnStep(s, c, p, x.(chan := NoChan, pc := WaitScan(0, false)), s); }
      else if pc.r.AfterSleep? {
        ReleasePlace(p, p, LockAcq(pc.r.l));
        OwnStep(s, c, p, x.(chan := NoChan, pc := Release(p, LockAcq(pc.r.l))), s);
      }
    }
  }

  /** A step of the scheduler loop or of swtch(): CPU c and process i only. */
  lemma SwitchKeeps(s: State, t: State, c: nat, i: nat)
    requires HandOff(s) && c < |s.cpus| && i < |s.procs|
    requires |t.cpus| == |s.cpus| && |t.procs| == |s.procs| && CpuOk(t, c) && ProcOk(t, i)
    requires forall d: nat :: d < |s.cpus| && d != c ==> t.cpus[d] == s.cpus[d]
    requires forall j: nat :: j < |s.procs| && j != i ==> t.procs[j] == s.procs[j]
    requires LockStep(s.procs[i].lock, t.procs[i].lock, c)
    requires forall j: nat :: j < |s.procs| && j != i ==> s.procs[j].on != Some(c)
    requires s.procs[i].on.Some? && s.procs[i].on.value != c ==> t.procs[i] == s.procs[i].(lock := t.procs[i].lock)
    requires forall d: nat :: d < |s.cpus| && d != c && s.cpus[d].at == Back(i) ==> t.procs[i].on == None
    ensures HandOff(t)
  {
    hide Needs, Want, WellPlaced, Resumable;
    forall d: nat | d < |t.cpus| ensures CpuOk(t, d) {
      assert CpuOk(s, d);
    }
    forall j: nat | j < |t.procs| ensures ProcOk(t, j) {
      assert ProcOk(s, j);
    }
  }

  /** Every step of every CPU keeps the hand-off. */
  lemma StepKeepsHandOff(s: State, c: nat, a: Choice)
    requires HandOff(s) && c < |s.cpus|
    ensures HandOff(Step(s, c, a))
  {
    assert CpuOk(s, c);
    var at := s.cpus[c].at;
    if at.On? {
      if !s.procs[at.p].pc.Saving? && !s.procs[at.p].pc.Leaving? {
        ThreadKeepsHandOff(s, c, at.p, a);
      } else {
        LeaveKeeps(s, c, at.p, a);
      }
    } else if at.Scan? && at.i >= |s.procs| {
      WrapKeeps(s, c, a);
    } else {
      LoopKeeps(s, c, at.i, a);
    }
  }

  lemma ThreadKeepsHandOff(s: State, c: nat, p: nat, a: Choice)
    requires At(s, c, p) && !s.procs[p].pc.Saving? && !s.procs[p].pc.Leaving?
    ensures ThreadStep(s, Thread(s, c, p, a), c, p) && HandOff(Thread(s, c, p, a))
  {
    hide ThreadStep, HandOff, Sync, Exiting, Family, Plain;
    var pc := s.procs[p].pc;
    if a.Yield? && Preemptible(pc) { PauseKeeps(s, c, p); }
    else if IsSync(pc) { SyncKeeps(s, c, p); }
    else if IsExit(pc) { ExitingKeeps(s, c, p); }
    else if IsFamily(pc) { FamilyKeeps(s, c, p, a); }
    else { PlainKeeps(s, c, p, a); }
    ThreadKeeps(s, Thread(s, c, p, a), c, p);
  }

  lemma WrapKeeps(s: State, c: nat, a: Choice)
    requires HandOff(s) && c < |s.cpus| && s.cpus[c].at.Scan? && s.cpus[c].at.i >= |s.procs|
    ensures HandOff(Step(s, c, a))
  {
    hide Needs, Want, WellPlaced, Resumable;
    var t := Step(s, c, a);
    forall d: nat | d < |t.cpus| ensures CpuOk(t, d) { assert CpuOk(s, d); }
    forall j: nat | j < |t.procs| ensures ProcOk(t, j) { assert ProcOk(s, j); }
  }

  /** A process that is not RUNNING and whose lock CPU c holds in its scheduler loop is on no
      CPU. */
  lemma IdleWhenHeld(s: State, c: nat, i: nat)
    requires HandOff(s) && c < |s.cpus| && i < |s.procs| && s.procs[i].lock == Some(c) && s.procs[i].state != Running
    requires s.cpus[c].at != On(i) && s.cpus[c].at != Enter(i)
    ensures s.procs[i].on == None && Off(s.procs[i])
  {
    assert ProcOk(s, i);
    if s.procs[i].on.Some? {
      assert CpuOk(s, s.procs[i].on.value);
      NotRunningNeedsOwn(i, s.procs[i].pc);
    }
  }

  lemma LoopKeeps(s: State, c: nat, i: nat, a: Choice)
    requires HandOff(s) && c < |s.cpus| && !s.cpus[c].at.On? && s.cpus[c].at.i == i < |s.procs|
    ensures HandOff(Step(s, c, a))
  {
    hide Thread;
    assert CpuOk(s, c) && ProcOk(s, i);
    var at, t := s.cpus[c].at, Step(s, c, a);
    forall j: nat | j < |s.procs| && j != i ensures s.procs[j].on != Some(c) { assert ProcOk(s, j); }
    forall d: nat | d < |s.cpus| && d != c && s.cpus[d].at == Back(i) ensures t.procs[i].on == None {
      assert CpuOk(s, d);
    }
    if at.Test? && s.procs[i].state == Runnable { IdleWhenHeld(s, c, i); }
    if t != s { SwitchKeeps(s, t, c, i); }
  }

  /** Both halves of swtch() away from a process. */
  lemma LeaveKeeps(s: State, c: nat, p: nat, a: Choice)
    requires At(s, c, p) && (s.procs[p].pc.Saving? || s.procs[p].pc.Leaving?)
    ensures HandOff(Step(s, c, a))
  {
    AtFacts(s, c, p);
    assert CpuOk(s, c);
    var t := Step(s, c, a);
    forall j: nat | j < |s.procs| && j != p ensures s.procs[j].on != Some(c) { assert ProcOk(s, j); }
    forall d: nat | d < |s.cpus| && d != c && s.cpus[d].at == Back(p) ensures t.procs[p].on == None {
      assert CpuOk(s, d);
    }
    assert Needs(p, s.procs[p].pc, p);
    SwitchKeeps(s, t, c, p);
  }

  // -------------------------------------------------- no lost wakeup on a sleep lock

  /** At a place the thread needs to hold the spinlock of sleep lock l. */
  predicate NeedsL(pc: Pc, l: nat)
  {
    if pc.Release? then NeedsL(pc.next, l)
    else if pc.ReleaseL? then l == pc.l || NeedsL(pc.next, l)
    else (pc.LockOwn? || pc.WakeAcq?) && l == pc.l
  }

  predicate WellL(pc: Pc)
  {
    if pc.Release? then WellL(pc.next) && !SawLocked(pc.next) && !pc.next.LockSleep?
    else if pc.ReleaseL? then
      !NeedsL(pc.next, pc.l) && WellL(pc.next) && !SawLocked(pc.next) && (pc.next.LockSleep? ==> pc.next.l == pc.l)
    else true
  }

  /** Places where the thread, holding the spinlock, has found sleep lock pc.l locked. */
  predicate SawLocked(pc: Pc) { pc.LockOwn? || (pc.ReleaseL? && pc.next == LockSleep(pc.l)) }

  ghost predicate LockPlaceOk(s: State, c: nat, pc: Pc)
  {
    && WellL(pc) && (forall l: nat :: NeedsL(pc, l) ==> l < |s.locks| && s.locks[l].holder == Some(c))
    && (SawLocked(pc) ==> pc.l < |s.locks| && s.locks[pc.l].locked)
  }

  /** A process that sleeps on l, or is bound to without looking at l again. */
  ghost predicate Asleep(x: Proc, l: nat)
  {
    (x.state == Sleeping && x.chan == OnLock(l)) || (x.on.Some? && x.pc == LockSleep(l))
  }

  /** A thread in wakeup(l) that has not passed process p yet. */
  predicate WakesLater(pc: Pc, l: nat, p: nat)
  {
    (pc.WakeAcq? && pc.l == l && pc.j <= p) || (pc.Release? && pc.next.WakeAcq? && pc.next.l == l && pc.next.j <= p)
  }

  /** The holder of l's spinlock is such a thread. */
  ghost predicate Pending(s: State, l: nat, p: nat)
    requires l < |s.locks|
  {
    && s.locks[l].holder.Some? && s.locks[l].holder.value < |s.cpus|
    && var at := s.cpus[s.locks[l].holder.value].at;
       at.On? && at.p < |s.procs| && WakesLater(s.procs[at.p].pc, l, p)
  }

  ghost predicate NoLost(s: State, p: nat, l: nat)
    requires p < |s.procs| && l < |s.locks|
  {
    Asleep(s.procs[p], l) && !s.locks[l].locked ==> Pending(s, l, p)
  }

  ghost predicate SleepInv(s: State)
  {
    && (forall c: nat ::
      c < |s.cpus| && s.cpus[c].at.On? && s.cpus[c].at.p < |s.procs| ==> LockPlaceOk(s, c, s.procs[s.cpus[c].at.p].pc))
    && (forall p: nat, l: nat :: p < |s.procs| && l < |s.locks| ==> NoLost(s, p, l))
  }

  /** A process asleep on a sleep lock whose spinlock is free: the sleep lock is held. */
  lemma NoLostWakeup(s: State, p: nat, l: nat)
    requires SleepInv(s) && p < |s.procs| && l < |s.locks| && s.procs[p].state == Sleeping
      && s.procs[p].chan == OnLock(l) && s.locks[l].holder == None
    ensures s.locks[l].locked
  {
    assert NoLost(s, p, l);
  }

  /** What a step of p's thread may do to sleep lock l. */
  ghost predicate SpinStep(a: SleepLock, b: SleepLock, c: nat, pc: Pc, l: nat)
  {
    LockStep(a.holder, b.holder, c) && (b.locked == a.locked || (a.holder == None && b.locked)
      || (b.holder == Some(c) && pc == WakeAcq(l, 0)))
  }

  ghost predicate SleepStep(s: State, t: State, c: nat, p: nat)
    requires p < |s.procs|
  {
    && t.cpus == s.cpus && |t.procs| == |s.procs| && |t.locks| == |s.locks| && LockPlaceOk(t, c, t.procs[p].pc)
    && (forall l: nat :: l < |s.locks| ==> SpinStep(s.locks[l], t.locks[l], c, t.procs[p].pc, l))
    && (forall q: nat, l: nat ::
      q < |s.procs| && Asleep(t.procs[q], l) ==>
      Asleep(s.procs[q], l) || (q == p && s.procs[p].pc == ReleaseL(l, LockSleep(l))))
    && (forall q: nat :: q < |s.procs| && q != p && s.procs[q].on.Some? ==> t.procs[q].pc == s.procs[q].pc)
    && (forall q: nat, l: nat ::
      q < |s.procs| && WakesLater(s.procs[p].pc, l, q) && Asleep(t.procs[q], l) ==> WakesLater(t.procs[p].pc, l, q))
  }

  lemma SleepKeeps(s: State, t: State, c: nat, p: nat)
    requires At(s, c, p) && SleepInv(s) && SleepStep(s, t, c, p)
    ensures SleepInv(t)
  {
    AtState(s, c, p);
    assert LockPlaceOk(s, c, s.procs[p].pc);
    hide NeedsL, WellL, SawLocked, Asleep, WakesLater, OnThread;
    forall d: nat | d < |t.cpus| && t.cpus[d].at.On? && t.cpus[d].at.p < |t.procs|
      ensures LockPlaceOk(t, d, t.procs[t.cpus[d].at.p].pc) {
      var q := s.cpus[d].at.p;
      assert CpuOk(s, d);
      if d != c {
        assert LockPlaceOk(s, d, s.procs[q].pc);
        OtherPlace(s, t, c, p, d, s.procs[q].pc);
      }
    }
    forall q: nat, l: nat | q < |t.procs| && l < |t.locks| ensures NoLost(t, q, l) {
      assert NoLost(s, q, l);
      KeepsNoLost(s, t, c, p, q, l);
    }
  }

  lemma OtherPlace(s: State, t: State, c: nat, p: nat, d: nat, pc: Pc)
    requires p < |s.procs| == |t.procs| && c != d && LockPlaceOk(s, d, pc) && |t.locks| == |s.locks|
    requires forall l: nat :: l < |s.locks| ==> SpinStep(s.locks[l], t.locks[l], c, t.procs[p].pc, l)
    ensures LockPlaceOk(t, d, pc)
  {
    if SawLocked(pc) {
      assert NeedsL(pc, pc.l);
      assert SpinStep(s.locks[pc.l], t.locks[pc.l], c, t.procs[p].pc, pc.l);
    }
    forall l: nat | NeedsL(pc, l) ensures t.locks[l].holder == Some(d) {
      assert SpinStep(s.locks[l], t.locks[l], c, t.procs[p].pc, l);
    }
  }

  lemma KeepsNoLost(s: State, t: State, c: nat, p: nat, q: nat, l: nat)
    requires At(s, c, p) && SleepInv(s) && SleepStep(s, t, c, p) && q < |s.procs| && l < |s.locks| && NoLost(s, q, l)
    ensures NoLost(t, q, l)
  {
    AtState(s, c, p);
    assert LockPlaceOk(s, c, s.procs[p].pc);
    hide NeedsL, WellL, Asleep, OnThread;
    if Asleep(t.procs[q], l) && !t.locks[l].locked {
      assert SpinStep(s.locks[l], t.locks[l], c, t.procs[p].pc, l);
      if t.locks[l].holder == Some(c) && t.procs[p].pc == WakeAcq(l, 0) {
      } else {
        assert !s.locks[l].locked;
        assert s.procs[p].pc == ReleaseL(l, LockSleep(l)) ==> SawLocked(s.procs[p].pc);
        assert Asleep(s.procs[q], l);
        assert Pending(s, l, q);
        PendingKept(s, t, c, p, q, l);
      }
    }
  }

  lemma PendingKept(s: State, t: State, c: nat, p: nat, q: nat, l: nat)
    requires At(s, c, p) && SleepInv(s) && SleepStep(s, t, c, p) && q < |s.procs| && l < |s.locks|
      && Pending(s, l, q) && Asleep(t.procs[q], l)
    ensures Pending(t, l, q)
  {
    AtState(s, c, p);
    var d := s.locks[l].holder.value;
    var r := s.cpus[d].at.p;
    assert SpinStep(s.locks[l], t.locks[l], c, t.procs[p].pc, l) && CpuOk(s, d);
    if d == c {
      assert WakesLater(t.procs[p].pc, l, q);
      assert LockPlaceOk(t, c, t.procs[p].pc) && NeedsL(t.procs[p].pc, l);
    }
  }

  lemma SleepStay(s: State, c: nat, p: nat)
    requires At(s, c, p) && SleepInv(s)
    ensures SleepStep(s, s, c, p)
  {
    assert LockPlaceOk(s, c, s.procs[p].pc);
  }

  /** Places that have nothing to do with sleep locks. */
  predicate Lockless(pc: Pc)
  {
    if pc.Release? then Lockless(pc.next) else !pc.ReleaseL? && !pc.LockOwn? && !pc.WakeAcq? && !pc.LockSleep?
  }

  lemma {:induction false} LocklessFacts(pc: Pc, l: nat, q: nat)
    requires Lockless(pc)
    ensures !NeedsL(pc, l) && WellL(pc) && !SawLocked(pc) && pc != LockSleep(l) && !WakesLater(pc, l, q)
  {
    if pc.Release? { LocklessFacts(pc.next, l, q); }
  }

  /** y sleeps on a sleep lock only if x did. */
  ghost predicate StillAsleep(x: Proc, y: Proc)
  {
    y.state == Sleeping && y.chan.OnLock? ==> x.state == Sleeping && x.chan == y.chan
  }

  /** Steps between such places that send no one to sleep. */
  lemma LocklessStep(s: State, t: State, c: nat, p: nat)
    requires At(s, c, p) && SleepInv(s) && ThreadStep(s, t, c, p) && t.locks == s.locks && Lockless(s.procs[p].pc)
      && Lockless(t.procs[p].pc)
    requires forall q: nat :: q < |s.procs| ==> StillAsleep(s.procs[q], t.procs[q])
    ensures SleepStep(s, t, c, p)
  {
    LocklessFacts(t.procs[p].pc, 0, 0);
    forall l: nat ensures !NeedsL(t.procs[p].pc, l) { LocklessFacts(t.procs[p].pc, l, 0); }
    forall l: nat, q: nat ensures !WakesLater(s.procs[p].pc, l, q) { LocklessFacts(s.procs[p].pc, l, q); }
    assert !t.procs[p].pc.LockSleep?;
    hide At, NeedsL, WellL, SawLocked, WakesLater, Lockless, OnThread, Off, HoldsAll;
    forall q: nat, l: nat | q < |s.procs| && Asleep(t.procs[q], l) ensures Asleep(s.procs[q], l) {
      assert StillAsleep(s.procs[q], t.procs[q]);
      if q != p { assert OtherStep(s.procs[q], t.procs[q]); }
    }
    forall q: nat | q < |s.procs| && q != p && s.procs[q].on.Some? ensures t.procs[q].pc == s.procs[q].pc {
      assert OtherStep(s.procs[q], t.procs[q]);
    }
  }

  lemma ExitingLockless(s: State, c: nat, p: nat, q: nat)
    requires p < |s.procs| && q < |s.procs| && IsExit(s.procs[p].pc)
    ensures var t := Exiting(s, c, p);
      t.locks == s.locks && |t.procs| == |s.procs| && Lockless(t.procs[p].pc) && StillAsleep(s.procs[q], t.procs[q])
  {
    assert Lockless(SelfAcq) && forall op: nat :: Lockless(Saving(Never(op)));
  }

  lemma ExitingSleeps(s: State, c: nat, p: nat)
    requires At(s, c, p) && SleepInv(s) && IsExit(s.procs[p].pc)
    ensures SleepStep(s, Exiting(s, c, p), c, p)
  {
    AtState(s, c, p);
    ExitingKeeps(s, c, p);
    hide At, SleepInv, SleepStep, ThreadStep, Exiting, StillAsleep, OnThread;
    ExitingLockless(s, c, p, p);
    forall q: nat | q < |s.procs| ensures StillAsleep(s.procs[q], Exiting(s, c, p).procs[q]) {
      ExitingLockless(s, c, p, q);
    }
    LocklessStep(s, Exiting(s, c, p), c, p);
  }

  lemma FamilyLockless(s: State, c: nat, p: nat, a: Choice, q: nat)
    requires p < |s.procs| && q < |s.procs| && IsFamily(s.procs[p].pc)
    ensures var t := Family(s, c, p, a);
      t.locks == s.locks && |t.procs| == |s.procs| && Lockless(t.procs[p].pc) && StillAsleep(s.procs[q], t.procs[q])
  {
    hide Family, Lockless, StillAsleep;
    if s.procs[p].pc.ForkAcq? || s.procs[p].pc.KillAcq? {
      ForkLockless(s, c, p, a, q);
    } else {
      WaitLockless(s, c, p, a, q);
    }
  }

  lemma ForkLockless(s: State, c: nat, p: nat, a: Choice, q: nat)
    requires p < |s.procs| && q < |s.procs| && (s.procs[p].pc.ForkAcq? || s.procs[p].pc.KillAcq?)
    ensures var t := Family(s, c, p, a);
      t.locks == s.locks && |t.procs| == |s.procs| && Lockless(t.procs[p].pc) && StillAsleep(s.procs[q], t.procs[q])
  {
    assert Lockless(Run);
  }

  lemma WaitLockless(s: State, c: nat, p: nat, a: Choice, q: nat)
    requires p < |s.procs| && q < |s.procs|
      && (s.procs[p].pc.WaitAcq? || s.procs[p].pc.WaitScan? || s.procs[p].pc.WaitLock?)
    ensures var t := Family(s, c, p, a);
      t.locks == s.locks && |t.procs| == |s.procs| && Lockless(t.procs[p].pc) && StillAsleep(s.procs[q], t.procs[q])
  {
    assert Lockless(Run) && Lockless(Release(p, Run));
  }

  lemma FamilySleeps(s: State, c: nat, p: nat, a: Choice)
    requires At(s, c, p) && SleepInv(s) && IsFamily(s.procs[p].pc)
    ensures SleepStep(s, Family(s, c, p, a), c, p)
  {
    AtState(s, c, p);
    FamilyKeeps(s, c, p, a);
    hide At, SleepInv, SleepStep, ThreadStep, Family, StillAsleep, OnThread;
    FamilyLockless(s, c, p, a, p);
    forall q: nat | q < |s.procs| ensures StillAsleep(s.procs[q], Family(s, c, p, a).procs[q]) {
      FamilyLockless(s, c, p, a, q);
    }
    LocklessStep(s, Family(s, c, p, a), c, p);
  }

  /** Steps that change only the process's own place, its lock, and sleep lock l. */
  lemma SpinSleeps(s: State, t: State, c: nat, p: nat, l: nat)
    requires At(s, c, p) && SleepInv(s) && l < |s.locks| && t.cpus == s.cpus && |t.procs| == |s.procs|
      && |t.locks| == |s.locks|
    requires forall k: nat :: k < |s.locks| && k != l ==> t.locks[k] == s.locks[k]
    requires forall q: nat :: q < |s.procs| && q != p ==> t.procs[q] == s.procs[q]
    requires LockPlaceOk(t, c, t.procs[p].pc) && SpinStep(s.locks[l], t.locks[l], c, t.procs[p].pc, l)
    requires forall k: nat ::
      Asleep(t.procs[p], k) ==> Asleep(s.procs[p], k) || s.procs[p].pc == ReleaseL(k, LockSleep(k))
    requires forall q: nat, k: nat :: !WakesLater(s.procs[p].pc, k, q)
    ensures SleepStep(s, t, c, p)
  {
    hide At, LockPlaceOk, Asleep, WakesLater;
  }

  lemma OwnAsleep(s: State, t: State, p: nat)
    requires p < |s.procs| == |t.procs| && !t.procs[p].pc.LockSleep?
    requires t.procs[p].state == Sleeping && t.procs[p].chan.OnLock? ==>
      s.procs[p].state == Sleeping && t.procs[p].chan == s.procs[p].chan
    ensures forall k: nat :: Asleep(t.procs[p], k) ==> Asleep(s.procs[p], k)
  {}

  lemma LockAcqSleeps(s: State, c: nat, p: nat)
    requires At(s, c, p) && SleepInv(s) && s.procs[p].pc.LockAcq? && IsFreeL(s, s.procs[p].pc.l)
    ensures SleepStep(s, Sync(s, c, p), c, p)
  {
    AtState(s, c, p);
    var t, l := Sync(s, c, p), s.procs[p].pc.l;
    assert !NeedsL(Run, l) && WellL(Run) && !SawLocked(Run);
    assert forall k: nat :: NeedsL(ReleaseL(l, Run), k) <==> k == l;
    OwnAsleep(s, t, p);
    hide At, SleepInv, SleepStep, Asleep;
    SpinSleeps(s, t, c, p, l);
  }

  lemma LockOwnSleeps(s: State, c: nat, p: nat)
    requires At(s, c, p) && SleepInv(s) && s.procs[p].pc.LockOwn? && IsFree(s, p)
    ensures SleepStep(s, Sync(s, c, p), c, p)
  {
    AtState(s, c, p);
    var t, l := Sync(s, c, p), s.procs[p].pc.l;
    assert LockPlaceOk(s, c, s.procs[p].pc);
    assert NeedsL(s.procs[p].pc, l);
    assert !NeedsL(LockSleep(l), l) && WellL(LockSleep(l)) && !SawLocked(LockSleep(l));
    assert forall k: nat :: NeedsL(ReleaseL(l, LockSleep(l)), k) <==> k == l;
    OwnAsleep(s, t, p);
    hide At, SleepInv, SleepStep, Asleep;
    SpinSleeps(s, t, c, p, l);
  }

  lemma LockSleepSleeps(s: State, c: nat, p: nat)
    requires At(s, c, p) && SleepInv(s) && s.procs[p].pc.LockSleep?
    ensures SleepStep(s, Sync(s, c, p), c, p)
  {
    AtState(s, c, p);
    assert LockPlaceOk(s, c, s.procs[p].pc);
  }

  lemma FreeAcqSleeps(s: State, c: nat, p: nat)
    requires At(s, c, p) && SleepInv(s) && s.procs[p].pc.FreeAcq? && IsFreeL(s, s.procs[p].pc.l)
    ensures SleepStep(s, Sync(s, c, p), c, p)
  {
    AtState(s, c, p);
    var t, l := Sync(s, c, p), s.procs[p].pc.l;
    OwnAsleep(s, t, p);
    hide At, SleepInv, SleepStep, Asleep;
    SpinSleeps(s, t, c, p, l);
  }

  /** wakeup() at process j: whoever sleeps there is asleep no longer. */
  lemma WakeSleeps(s: State, c: nat, p: nat)
    requires At(s, c, p) && SleepInv(s) && s.procs[p].pc.WakeAcq?
    ensures SleepStep(s, Sync(s, c, p), c, p)
  {
    AtState(s, c, p);
    SleepStay(s, c, p);
    var l, j := s.procs[p].pc.l, s.procs[p].pc.j;
    assert LockPlaceOk(s, c, s.procs[p].pc);
    assert NeedsL(s.procs[p].pc, l);
    if j >= |s.procs| {
      WakeEndSleeps(s, c, p, l, j);
    } else if IsFree(s, j) {
      WakeOneSleeps(s, c, p, l, j);
    }
  }

  lemma WakeEndSleeps(s: State, c: nat, p: nat, l: nat, j: nat)
    requires At(s, c, p) && s.procs[p].pc == WakeAcq(l, j) && j >= |s.procs| && l < |s.locks|
      && s.locks[l].holder == Some(c) && Want(s.procs[p].pc) == s.procs[p].state
    ensures SleepStep(s, Goto(s, p, ReleaseL(l, Run)), c, p)
  {
    var t := Goto(s, p, ReleaseL(l, Run));
    hide At;
    assert !NeedsL(Run, l) && WellL(Run) && !SawLocked(Run);
    assert forall k: nat :: NeedsL(ReleaseL(l, Run), k) <==> k == l;
    OwnAsleep(s, t, p);
    hide Asleep;
  }

  lemma WakeOneSleeps(s: State, c: nat, p: nat, l: nat, j: nat)
    requires At(s, c, p) && s.procs[p].pc == WakeAcq(l, j) && IsFree(s, j) && l < |s.locks|
      && s.locks[l].holder == Some(c) && Want(s.procs[p].pc) == s.procs[p].state
    ensures SleepStep(s, Locked(s, c, p, j, Woken(s.procs[j], OnLock(l)), Release(j, WakeAcq(l, j + 1))), c, p)
  {
    var next := Release(j, WakeAcq(l, j + 1));
    var t := Locked(s, c, p, j, Woken(s.procs[j], OnLock(l)), next);
    NotBound(s, c, p, j, l);
    hide At;
    var wake := WakeAcq(l, j + 1);
    assert WellL(wake) && !SawLocked(wake) && forall k: nat :: NeedsL(wake, k) <==> k == l;
    assert forall k: nat :: NeedsL(next, k) <==> k == l;
    forall q: nat, k: nat | q < |s.procs| && Asleep(t.procs[q], k)
      ensures Asleep(s.procs[q], k) && !(q == j && k == l) {}
  }

  lemma NotBound(s: State, c: nat, p: nat, j: nat, l: nat)
    requires At(s, c, p) && IsFree(s, j) && s.procs[p].pc == WakeAcq(l, j)
    ensures !Asleep(Woken(s.procs[j], OnLock(l)), l)
  {
    assert ProcOk(s, j);
    if s.procs[j].on.Some? { assert CpuOk(s, s.procs[j].on.value); }
    assert s.procs[j].pc == LockSleep(l) ==> Needs(j, s.procs[j].pc, j);
  }

  lemma SyncSleeps(s: State, c: nat, p: nat)
    requires At(s, c, p) && SleepInv(s) && IsSync(s.procs[p].pc)
    ensures SleepStep(s, Sync(s, c, p), c, p)
  {
    SleepStay(s, c, p);
    hide SleepInv, SleepStep, HandOff;
    var pc := s.procs[p].pc;
    if pc.YieldAcq? { YieldSleeps(s, c, p); }
    else if pc.LockAcq? { if IsFreeL(s, pc.l) { LockAcqSleeps(s, c, p); } }
    else if pc.LockOwn? { if IsFree(s, p) { LockOwnSleeps(s, c, p); } }
    else if pc.LockSleep? { LockSleepSleeps(s, c, p); }
    else if pc.FreeAcq? { if IsFreeL(s, pc.l) { FreeAcqSleeps(s, c, p); } }
    else { WakeSleeps(s, c, p); }
  }

  lemma YieldSleeps(s: State, c: nat, p: nat)
    requires At(s, c, p) && SleepInv(s) && s.procs[p].pc.YieldAcq?
    ensures SleepStep(s, Sync(s, c, p), c, p)
  {
    AtState(s, c, p);
    SyncKeeps(s, c, p);
    hide At, SleepInv, SleepStep, ThreadStep;
    LocklessStep(s, Sync(s, c, p), c, p);
  }

  lemma ReleaseSleeps(s: State, c: nat, p: nat, a: Choice)
    requires At(s, c, p) && SleepInv(s) && s.procs[p].pc.Release?
    ensures SleepStep(s, Plain(s, p, a), c, p)
  {
    AtState(s, c, p);
    ReleaseStep(s, c, p, a);
    var t, pc := Plain(s, p, a), s.procs[p].pc;
    assert LockPlaceOk(s, c, pc);
    assert forall k: nat :: NeedsL(pc.next, k) <==> NeedsL(pc, k);
    assert WellL(pc.next) && !SawLocked(pc.next) && !pc.next.LockSleep?;
    HeldHere(s, c, p, pc.i);
    assert forall q: nat, k: nat :: WakesLater(pc, k, q) ==> WakesLater(pc.next, k, q);
    hide At, SleepInv, NeedsL, WellL, SawLocked, WakesLater, ThreadStep;
    forall q: nat, k: nat | q < |s.procs| && Asleep(t.procs[q], k) ensures Asleep(s.procs[q], k) {}
  }

  lemma HeldHere(s: State, c: nat, p: nat, i: nat)
    requires At(s, c, p) && Needs(p, s.procs[p].pc, i)
    ensures i < |s.procs| && s.procs[i].lock == Some(c)
  {
    AtFacts(s, c, p);
  }

  lemma ReleaseLSleeps(s: State, c: nat, p: nat, a: Choice)
    requires At(s, c, p) && SleepInv(s) && s.procs[p].pc.ReleaseL?
    ensures SleepStep(s, Plain(s, p, a), c, p)
  {
    AtState(s, c, p);
    var t, pc := Plain(s, p, a), s.procs[p].pc;
    assert LockPlaceOk(s, c, pc);
    assert NeedsL(pc, pc.l) && forall k: nat :: NeedsL(pc.next, k) ==> k != pc.l && NeedsL(pc, k);
    assert WellL(pc.next) && !SawLocked(pc.next) && (pc.next.LockSleep? ==>
      pc == ReleaseL(pc.next.l, LockSleep(pc.next.l)));
    hide At, SleepInv, NeedsL, WellL, SawLocked;
    forall k: nat | Asleep(t.procs[p], k) ensures Asleep(s.procs[p], k) || pc == ReleaseL(k, LockSleep(k)) {}
    assert forall q: nat, k: nat :: !WakesLater(pc, k, q);
    hide Asleep, WakesLater;
    SpinSleeps(s, t, c, p, pc.l);
  }

  lemma PlainSleeps(s: State, c: nat, p: nat, a: Choice)
    requires At(s, c, p) && SleepInv(s) && !IsSync(s.procs[p].pc) && !IsExit(s.procs[p].pc)
      && !IsFamily(s.procs[p].pc) && !s.procs[p].pc.Saving? && !s.procs[p].pc.Leaving?
    ensures SleepStep(s, Plain(s, p, a), c, p)
  {
    var pc := s.procs[p].pc;
    if pc.Release? { ReleaseSleeps(s, c, p, a); }
    else if pc.ReleaseL? { ReleaseLSleeps(s, c, p, a); }
    else {
      AtState(s, c, p);
      PlainKeeps(s, c, p, a);
      assert Lockless(Run) && forall l: nat :: Lockless(LockAcq(l));
      if pc.Resumed? && pc.r.AfterYield? { PausedPlace(p, pc.r.next); }
      hide At, SleepInv, SleepStep, ThreadStep;
      LocklessStep(s, Plain(s, p, a), c, p);
    }
  }

  lemma PauseSleeps(s: State, c: nat, p: nat)
    requires At(s, c, p) && SleepInv(s) && Preemptible(s.procs[p].pc)
    ensures SleepStep(s, Goto(s, p, YieldAcq(s.procs[p].pc)), c, p)
  {
    AtState(s, c, p);
    PauseKeeps(s, c, p);
    PausedPlace(p, s.procs[p].pc);
    assert Lockless(YieldAcq(s.procs[p].pc));
    hide At, SleepInv, SleepStep, ThreadStep, Lockless;
    LocklessStep(s, Goto(s, p, YieldAcq(s.procs[p].pc)), c, p);
  }

  lemma ThreadSleeps(s: State, c: nat, p: nat, a: Choice)
    requires At(s, c, p) && SleepInv(s) && !s.procs[p].pc.Saving? && !s.procs[p].pc.Leaving?
    ensures SleepInv(Thread(s, c, p, a))
  {
    hide HandOff, SleepInv, SleepStep, Sync, Exiting, Family, Plain;
    var pc := s.procs[p].pc;
    if a.Yield? && Preemptible(pc) { PauseSleeps(s, c, p); }
    else if IsSync(pc) { SyncSleeps(s, c, p); }
    else if IsExit(pc) { ExitingSleeps(s, c, p); }
    else if IsFamily(pc) { FamilySleeps(s, c, p, a); }
    else { PlainSleeps(s, c, p, a); }
    SleepKeeps(s, Thread(s, c, p, a), c, p);
  }

  /** The scheduler loop and swtch() wake no one and put no one to sleep. */
  lemma SwitchSleeps(s: State, c: nat, a: Choice)
    requires HandOff(s) && SleepInv(s) && c < |s.cpus|
    requires !s.cpus[c].at.On? || (s.cpus[c].at.p < |s.procs|
      && (s.procs[s.cpus[c].at.p].pc.Saving? || s.procs[s.cpus[c].at.p].pc.Leaving?))
    ensures SleepInv(Step(s, c, a))
  {
    assert CpuOk(s, c);
    var t := Step(s, c, a);
    forall d: nat | d < |t.cpus| && t.cpus[d].at.On? && t.cpus[d].at.p < |t.procs|
      ensures LockPlaceOk(t, d, t.procs[t.cpus[d].at.p].pc) {
      assert CpuOk(s, d);
      if d != c { assert LockPlaceOk(s, d, s.procs[s.cpus[d].at.p].pc); }
    }
    forall q: nat, l: nat | q < |t.procs| && l < |t.locks| ensures NoLost(t, q, l) {
      assert NoLost(s, q, l);
      SwitchNoLost(s, c, a, q, l);
    }
  }

  lemma SwitchNoLost(s: State, c: nat, a: Choice, q: nat, l: nat)
    requires HandOff(s) && SleepInv(s) && c < |s.cpus| && q < |s.procs| && l < |s.locks| && NoLost(s, q, l)
      && CpuOk(s, c)
    requires !s.cpus[c].at.On? || (s.cpus[c].at.p < |s.procs|
      && (s.procs[s.cpus[c].at.p].pc.Saving? || s.procs[s.cpus[c].at.p].pc.Leaving?))
    ensures var t := Step(s, c, a); q < |t.procs| && l < |t.locks| && NoLost(t, q, l)
  {
    SwitchAsleep(s, c, a, q, l);
    var t := Step(s, c, a);
    hide Asleep;
    if Asleep(t.procs[q], l) && !t.locks[l].locked {
      assert Pending(s, l, q);
      assert CpuOk(s, s.locks[l].holder.value);
    }
  }

  lemma SwitchAsleep(s: State, c: nat, a: Choice, q: nat, l: nat)
    requires HandOff(s) && c < |s.cpus| && q < |s.procs| && CpuOk(s, c)
    requires !s.cpus[c].at.On? || (s.cpus[c].at.p < |s.procs|
      && (s.procs[s.cpus[c].at.p].pc.Saving? || s.procs[s.cpus[c].at.p].pc.Leaving?))
    ensures var t := Step(s, c, a);
      t.locks == s.locks && |t.procs| == |s.procs| && (Asleep(t.procs[q], l) ==> Asleep(s.procs[q], l))
  {
    var at := s.cpus[c].at;
    if at.Test? && s.procs[at.i].state == Runnable { IdleWhenHeld(s, c, at.i); }
  }

  /** Every step of every CPU keeps the sleep-lock invariant. */
  lemma StepKeepsSleep(s: State, c: nat, a: Choice)
    requires HandOff(s) && SleepInv(s) && c < |s.cpus|
    ensures SleepInv(Step(s, c, a))
  {
    assert CpuOk(s, c);
    var at := s.cpus[c].at;
    hide SleepInv, HandOff;
    if at.On? && !s.procs[at.p].pc.Saving? && !s.procs[at.p].pc.Leaving? {
      ThreadSleeps(s, c, at.p, a);
    } else {
      SwitchSleeps(s, c, a);
    }
  }

  // -------------------------------------------------------- no lost wakeup in wait()

  /** How far a scan in wait() has come. */
  function Scanned(pc: Pc): (n: nat)
  {
    if pc.Release? || pc.ReleaseL? then Scanned(pc.next) else if pc.WaitScan? || pc.WaitLock? then pc.j else 0
  }

  /** The parent that exit() has noted, until its process is reaped. */
  function ToWake(pc: Pc): (o: Opt)
  {
    if pc.Release? || pc.ReleaseL? || pc.YieldAcq? then ToWake(pc.next)
    else if pc.Saving? || pc.Leaving? || pc.Resumed? then
      (if pc.r.AfterYield? then ToWake(pc.r.next) else if pc.r.Never? then Some(pc.r.op) else None)
    else if pc.ParentAcq? || pc.SelfAgain? || pc.Orphans? || pc.OrphanAcq? || pc.Die? then Some(pc.op)
    else None
  }

  /** q is a zombie child of p that took p's lock, as its parent's, when it exited. */
  ghost predicate DiedUnder(x: Proc, p: nat)
  {
    x.state == Zombie && x.parent == Some(p) && ToWake(x.pc) == Some(p)
  }

  /** None of the first n processes is such a zombie. */
  ghost predicate KidsOk(s: State, p: nat, n: nat)
  {
    forall q: nat :: q < |s.procs| && q < n ==> !DiedUnder(s.procs[q], p)
  }

  /** A process asleep in wait() has no such child, and one that scans has none where it has
      looked. */
  ghost predicate WaitOk(s: State, p: nat)
    requires p < |s.procs|
  {
    var x := s.procs[p];
    && (x.state == Sleeping && x.chan == OnProc(p) ==> KidsOk(s, p, |s.procs|))
    && (x.on.Some? ==> KidsOk(s, p, Scanned(x.pc)))
  }

  /** What exit() has noted is the parent, unless the process was given to init meanwhile. */
  ghost predicate ExitOk(x: Proc)
  {
    && (x.state != Unused && ToWake(x.pc).Some? ==> x.parent == ToWake(x.pc) || x.parent == Some(INIT))
    && (x.state == Zombie ==> ToWake(x.pc).Some?)
  }

  ghost predicate WaitInv(s: State)
  {
    forall p: nat :: p < |s.procs| ==> WaitOk(s, p) && ExitOk(s.procs[p])
  }

  /** A parent asleep in wait() has no zombie child, but for init and children that were
      exiting when they were given to it. */
  lemma NoZombieMissed(s: State, p: nat, q: nat)
    requires WaitInv(s) && p < |s.procs| && q < |s.procs| && s.procs[p].state == Sleeping
      && s.procs[p].chan == OnProc(p)
    requires s.procs[q].parent == Some(p) && s.procs[q].state == Zombie
    ensures p == INIT && ToWake(s.procs[q].pc).Some? && ToWake(s.procs[q].pc) != Some(INIT)
  {
    assert WaitOk(s, p) && ExitOk(s.procs[q]);
    assert !DiedUnder(s.procs[q], p);
  }

  /** What happens to process q when another process, or a scheduler, takes a step: it does
      not become a zombie, nor start to wait, nor get a new parent but init. */
  ghost predicate CalmStep(x: Proc, y: Proc)
  {
    && (y.state == Zombie ==> x.state == Zombie)
    && (y.state != Unused && ToWake(y.pc).Some? ==>
          x.state != Unused && ToWake(y.pc) == ToWake(x.pc) && (y.parent == x.parent || y.parent == Some(INIT)))
    && (y.state == Zombie ==> ToWake(y.pc) == ToWake(x.pc))
    && (y.state == Sleeping && y.chan.OnProc? ==> x.state == Sleeping && y.chan == x.chan)
    && (y.on.Some? && Scanned(y.pc) > 0 ==> x.on.Some? && y.pc == x.pc)
  }

  lemma KidsKept(s: State, t: State, r: nat, n: nat)
    requires KidsOk(s, r, n) && |t.procs| == |s.procs|
    requires forall q: nat :: q < |s.procs| ==> ExitOk(s.procs[q])
    requires forall q: nat :: q < |s.procs| && t.procs[q].state == Zombie ==>
      s.procs[q].state == Zombie && ToWake(t.procs[q].pc) == ToWake(s.procs[q].pc)
        && (t.procs[q].parent == s.procs[q].parent || t.procs[q].parent == Some(INIT))
    ensures KidsOk(t, r, n)
  {
    hide ToWake;
    forall q: nat | q < |s.procs| && q < n ensures !DiedUnder(t.procs[q], r) {
      assert !DiedUnder(s.procs[q], r) && ExitOk(s.procs[q]);
    }
  }

  /** Steps that make no zombie keep the invariant if they do for the process that moves. */
  lemma CalmKeeps(s: State, t: State, p: nat)
    requires WaitInv(s) && p < |s.procs| == |t.procs| && (forall q: nat ::
      q < |s.procs| && q != p ==> CalmStep(s.procs[q], t.procs[q]))
    requires t.procs[p].state == Zombie ==>
      s.procs[p].state == Zombie && t.procs[p].parent == s.procs[p].parent
      && ToWake(t.procs[p].pc) == ToWake(s.procs[p].pc)
    requires WaitOk(t, p) && ExitOk(t.procs[p])
    ensures WaitInv(t)
  {
    hide KidsOk, Scanned, ToWake;
    forall r: nat | r < |t.procs| ensures WaitOk(t, r) && ExitOk(t.procs[r]) {
      if r != p {
        assert WaitOk(s, r) && ExitOk(s.procs[r]) && CalmStep(s.procs[r], t.procs[r]);
        OtherWaits(s, t, p, r);
      }
    }
  }

  /** The zombies there are were there before. */
  lemma ZombiesKept(s: State, t: State, p: nat)
    requires WaitInv(s) && p < |s.procs| == |t.procs|
    requires forall q: nat :: q < |s.procs| && q != p ==> CalmStep(s.procs[q], t.procs[q])
    requires t.procs[p].state == Zombie ==>
      s.procs[p].state == Zombie && t.procs[p].parent == s.procs[p].parent
      && ToWake(t.procs[p].pc) == ToWake(s.procs[p].pc)
    ensures forall q: nat :: q < |s.procs| ==> ExitOk(s.procs[q])
    ensures forall q: nat :: q < |s.procs| && t.procs[q].state == Zombie ==>
      s.procs[q].state == Zombie && ToWake(t.procs[q].pc) == ToWake(s.procs[q].pc)
        && (t.procs[q].parent == s.procs[q].parent || t.procs[q].parent == Some(INIT))
  {
    hide KidsOk, Scanned, ToWake;
    forall q: nat | q < |s.procs| ensures ExitOk(s.procs[q]) { assert WaitOk(s, q); }
    forall q: nat | q < |s.procs| && t.procs[q].state == Zombie
      ensures s.procs[q].state == Zombie && ToWake(t.procs[q].pc) == ToWake(s.procs[q].pc)
        && (t.procs[q].parent == s.procs[q].parent || t.procs[q].parent == Some(INIT)) {
      assert ExitOk(s.procs[q]);
      if q != p { assert CalmStep(s.procs[q], t.procs[q]); }
    }
  }

  lemma OtherWaits(s: State, t: State, p: nat, r: nat)
    requires WaitInv(s) && p < |s.procs| == |t.procs| && r < |s.procs| && r != p
    requires forall q: nat :: q < |s.procs| && q != p ==> CalmStep(s.procs[q], t.procs[q])
    requires t.procs[p].state == Zombie ==>
      s.procs[p].state == Zombie && t.procs[p].parent == s.procs[p].parent
      && ToWake(t.procs[p].pc) == ToWake(s.procs[p].pc)
    ensures WaitOk(t, r) && ExitOk(t.procs[r])
  {
    ZombiesKept(s, t, p);
    assert WaitOk(s, r) && ExitOk(s.procs[r]);
    assert CalmStep(s.procs[r], t.procs[r]);
    hide WaitInv, KidsOk, ToWake;
    if t.procs[r].state == Sleeping && t.procs[r].chan == OnProc(r) { KidsKept(s, t, r, |s.procs|); }
    if t.procs[r].on.Some? && Scanned(t.procs[r].pc) > 0 { KidsKept(s, t, r, Scanned(s.procs[r].pc)); }
    if Scanned(t.procs[r].pc) == 0 { NoKidsYet(t, r); }
  }

  lemma NoKidsYet(t: State, r: nat)
    ensures KidsOk(t, r, 0)
  {}

  lemma SameCalm(x: Proc)
    ensures CalmStep(x, x)
  {}

  /** The process that moves, when it does not scan and has noted no new parent. */
  lemma IdleKeeps(s: State, t: State, p: nat)
    requires WaitInv(s) && p < |s.procs| == |t.procs| && (forall q: nat ::
      q < |s.procs| && q != p ==> CalmStep(s.procs[q], t.procs[q]))
    requires t.procs[p].state != Zombie && Scanned(t.procs[p].pc) == 0
      && !(t.procs[p].state == Sleeping && t.procs[p].chan.OnProc?)
    requires ToWake(t.procs[p].pc) == None || (ToWake(t.procs[p].pc) == ToWake(s.procs[p].pc)
      && t.procs[p].parent == s.procs[p].parent && s.procs[p].state != Unused)
    ensures WaitInv(t)
  {
    hide CalmStep, ToWake;
    assert ExitOk(s.procs[p]) && ExitOk(t.procs[p]);
    CalmKeeps(s, t, p);
  }

  lemma SyncWaits(s: State, c: nat, p: nat)
    requires At(s, c, p) && WaitInv(s) && IsSync(s.procs[p].pc)
    ensures WaitInv(Sync(s, c, p))
  {
    AtState(s, c, p);
    hide At, WaitInv;
    var t := Sync(s, c, p);
    if t != s {
      forall q: nat | q < |s.procs| && q != p ensures CalmStep(s.procs[q], t.procs[q]) {}
      SyncPlace(s, c, p);
      hide CalmStep, Scanned, ToWake, Sync;
      IdleKeeps(s, t, p);
    }
  }

  lemma SyncPlace(s: State, c: nat, p: nat)
    requires p < |s.procs| && IsSync(s.procs[p].pc) && OnThread(p, s.procs[p])
    ensures var t := Sync(s, c, p);
      && |t.procs| == |s.procs| && Scanned(t.procs[p].pc) == 0 && t.procs[p].parent == s.procs[p].parent
      && t.procs[p].state != Zombie && s.procs[p].state != Unused
      && (ToWake(t.procs[p].pc) == None || ToWake(t.procs[p].pc) == ToWake(s.procs[p].pc))
      && (t != s ==> !(t.procs[p].state == Sleeping && t.procs[p].chan.OnProc?))
  {
    var pc := s.procs[p].pc;
    assert Scanned(Run) == 0 && ToWake(Run) == None;
    if pc.WakeAcq? {
      var wake := WakeAcq(pc.l, pc.j + 1);
      assert Scanned(wake) == 0 && ToWake(wake) == None;
    } else if pc.LockOwn? {
      var next := LockSleep(pc.l);
      assert Scanned(next) == 0 && ToWake(next) == None;
    }
  }

  /** Everything else in exit() goes on with the same parent in mind. */
  lemma OwnWait(s: State, p: nat)
    requires WaitInv(s) && p < |s.procs|
    ensures WaitOk(s, p) && ExitOk(s.procs[p])
  {
    hide WaitOk, ExitOk;
  }

  lemma NotWaiting(s: State, p: nat)
    requires p < |s.procs| && s.procs[p].state == Running && Scanned(s.procs[p].pc) == 0
    ensures WaitOk(s, p)
  {}

  lemma ExitPlace(s: State, c: nat, p: nat)
    requires p < |s.procs| && IsExit(s.procs[p].pc) && !s.procs[p].pc.Die? && ExitOk(s.procs[p])
      && s.procs[p].on.Some? && s.procs[p].state == Running
    requires s.procs[p].pc.OrphanAcq? && IsFree(s, s.procs[p].pc.j) ==> s.procs[p].pc.j != p
    ensures var t := Exiting(s, c, p);
      |t.procs| == |s.procs| && Scanned(t.procs[p].pc) == 0 && t.procs[p].state == Running && ExitOk(t.procs[p])
  {
    var pc := s.procs[p].pc;
    assert Scanned(SelfAcq) == 0 && ToWake(SelfAcq) == None;
    if pc.SelfAcq? && s.procs[p].parent.Some? {
      var next := ParentAcq(s.procs[p].parent.value);
      assert Scanned(next) == 0 && ToWake(next) == s.procs[p].parent;
    } else if pc.OrphanAcq? {
      var next := Orphans(pc.op, pc.j + 1);
      assert Scanned(next) == 0 && ToWake(next) == Some(pc.op);
    }
  }

  lemma ExitingWaits(s: State, c: nat, p: nat)
    requires At(s, c, p) && WaitInv(s) && IsExit(s.procs[p].pc) && !s.procs[p].pc.Die?
    ensures WaitInv(Exiting(s, c, p))
  {
    hide At, WaitInv, ExitOk, WaitOk;
    AtState(s, c, p);
    OwnWait(s, p);
    if s.procs[p].pc.OrphanAcq? && IsFree(s, s.procs[p].pc.j) { NeededNotFree(s, c, p, s.procs[p].pc.j); }
    ExitPlace(s, c, p);
    var t := Exiting(s, c, p);
    if t != s {
      NotWaiting(t, p);
      forall q: nat | q < |s.procs| && q != p ensures CalmStep(s.procs[q], t.procs[q]) {}
      hide CalmStep, Exiting;
      CalmKeeps(s, t, p);
    }
  }

  lemma {:induction false} ScanNeedsOwn(p: nat, pc: Pc)
    ensures Scanned(pc) > 0 ==> Needs(p, pc, p)
  {
    if pc.Release? || pc.ReleaseL? { ScanNeedsOwn(p, pc.next); }
  }

  /** A thread's own lock is not in the hands of another CPU while it scans. */
  lemma NotScanning(s: State, c: nat, p: nat, r: nat)
    requires At(s, c, p) && r < |s.procs| && r != p && s.procs[r].lock == Some(c) && s.procs[r].on.Some?
    ensures Scanned(s.procs[r].pc) == 0
  {
    assert ProcOk(s, r);
    var d := s.procs[r].on.value;
    assert CpuOk(s, d) && CpuOk(s, c);
    ScanNeedsOwn(r, s.procs[r].pc);
  }

  /** The parent is woken before its child becomes a zombie, under the parent's lock. */
  lemma DyingWaits(s: State, c: nat, p: nat)
    requires At(s, c, p) && WaitInv(s) && s.procs[p].pc.Die?
    ensures WaitInv(Exiting(s, c, p))
  {
    AtFacts(s, c, p);
    var op, t := s.procs[p].pc.op, Exiting(s, c, p);
    assert Needs(p, s.procs[p].pc, op);
    assert ExitOk(s.procs[p]);
    if t != s {
      assert t.procs[op] == Woken(s.procs[op], OnProc(op)) && t.procs[p].pc == Release(op, Saving(Never(op)))
        && t.procs[p].parent == s.procs[p].parent;
      assert forall q: nat :: q < |s.procs| && q != p && q != op ==> t.procs[q] == s.procs[q];
      if s.procs[op].on.Some? { NotScanning(s, c, p, op); }
      assert Scanned(Saving(Never(op))) == 0 && ToWake(Saving(Never(op))) == Some(op);
      hide At, Scanned, ToWake, Exiting;
      forall r: nat | r < |t.procs| ensures WaitOk(t, r) && ExitOk(t.procs[r]) {
        assert WaitOk(s, r) && ExitOk(s.procs[r]);
        DyingOther(s, t, p, op, r);
      }
    }
  }

  lemma DyingOther(s: State, t: State, p: nat, op: nat, r: nat)
    requires p < |s.procs| == |t.procs| && op < |s.procs| && op != p && r < |s.procs| && WaitOk(s, r)
      && ExitOk(s.procs[r])
    requires t.procs[op] == Woken(s.procs[op], OnProc(op))
      && (forall q: nat :: q < |s.procs| && q != p && q != op ==> t.procs[q] == s.procs[q])
    requires t.procs[p].state == Zombie && t.procs[p].parent == s.procs[p].parent && Scanned(t.procs[p].pc) == 0
      && ToWake(t.procs[p].pc) == Some(op)
    requires s.procs[p].parent == Some(op) || s.procs[p].parent == Some(INIT)
    requires s.procs[op].on.Some? ==> Scanned(s.procs[op].pc) == 0
    ensures WaitOk(t, r) && ExitOk(t.procs[r])
  {
    hide Scanned, ToWake;
    if r != p && r != op {
      forall n: nat | KidsOk(s, r, n) ensures KidsOk(t, r, n) {
        forall q: nat | q < |t.procs| && q < n ensures !DiedUnder(t.procs[q], r) { assert !DiedUnder(s.procs[q], r); }
      }
    }
  }

  /** What wait(), fork() and kill() do to the others. */
  lemma FamilyCalm(s: State, c: nat, p: nat, a: Choice, q: nat)
    requires At(s, c, p) && IsFamily(s.procs[p].pc) && q < |s.procs| && q != p
    ensures var t := Family(s, c, p, a); |t.procs| == |s.procs| && CalmStep(s.procs[q], t.procs[q])
  {
    hide At, CalmStep, Reaped, Child, Killed, Family;
    AtState(s, c, p);
    var pc, x := s.procs[p].pc, s.procs[q];
    SameCalm(x);
    LockCalm(x, Some(c));
    if (pc.WaitLock? || pc.ForkAcq? || pc.KillAcq?) && pc.j == q && IsFree(s, q) {
      FreeAt(s, c, p, q);
      VisitCalm(x, p, c);
    }
    if pc.ForkAcq? || pc.KillAcq? { ForkOthers(s, c, p, a, q); } else { WaitOthers(s, c, p, a, q); }
  }

  lemma FreeAt(s: State, c: nat, p: nat, q: nat)
    requires At(s, c, p) && IsFree(s, q)
    ensures s.procs[q].state != Running ==> s.procs[q].on == None
  {
    if s.procs[q].state != Running { IdleWhenFree(s, q); }
  }

  /** What fork and kill do to another process. */
  lemma ForkOthers(s: State, c: nat, p: nat, a: Choice, q: nat)
    requires p < |s.procs| && q < |s.procs| && q != p && (s.procs[p].pc.ForkAcq? || s.procs[p].pc.KillAcq?)
    ensures var t, x := Family(s, c, p, a), s.procs[q];
      && |t.procs| == |s.procs|
      && (t.procs[q] == x || t.procs[q] == x.(lock := Some(c))
          || (IsFree(s, q) && s.procs[p].pc.j == q
              && (t.procs[q] == Killed(x).(lock := Some(c))
                  || (x.state == Unused && t.procs[q] == Child(x, p).(lock := Some(c))))))
  {
    hide Child, Killed;
  }

  /** What wait does to another process. */
  lemma WaitOthers(s: State, c: nat, p: nat, a: Choice, q: nat)
    requires p < |s.procs| && q < |s.procs| && q != p
      && (s.procs[p].pc.WaitAcq? || s.procs[p].pc.WaitScan? || s.procs[p].pc.WaitLock?)
    ensures var t, x := Family(s, c, p, a), s.procs[q];
      && |t.procs| == |s.procs|
      && (t.procs[q] == x || t.procs[q] == x.(lock := Some(c))
          || (IsFree(s, q) && s.procs[p].pc.WaitLock? && s.procs[p].pc.j == q && x.state == Zombie
              && t.procs[q] == Reaped(x).(lock := Some(c))))
  {
    hide Reaped;
  }

  lemma LockCalm(x: Proc, o: Opt)
    ensures CalmStep(x, x.(lock := o))
  {}

  lemma VisitCalm(x: Proc, p: nat, c: nat)
    requires x.state != Running ==> x.on == None
    ensures CalmStep(x, Killed(x).(lock := Some(c)))
    ensures x.state == Zombie ==> CalmStep(x, Reaped(x).(lock := Some(c)))
    ensures x.state == Unused ==> CalmStep(x, Child(x, p).(lock := Some(c)))
  {}

  lemma FamilyWaits(s: State, c: nat, p: nat, a: Choice)
    requires At(s, c, p) && WaitInv(s) && IsFamily(s.procs[p].pc)
    ensures WaitInv(Family(s, c, p, a))
  {
    AtState(s, c, p);
    var t := Family(s, c, p, a);
    if t != s {
      forall q: nat | q < |s.procs| && q != p ensures CalmStep(s.procs[q], t.procs[q]) { FamilyCalm(s, c, p, a, q); }
      FamilyOwn(s, c, p, a);
      hide At, WaitInv, CalmStep, Family, WaitOk, ExitOk;
      CalmKeeps(s, t, p);
    }
  }

  /** The scan itself. */
  lemma FamilyOwn(s: State, c: nat, p: nat, a: Choice)
    requires At(s, c, p) && WaitInv(s) && IsFamily(s.procs[p].pc)
    ensures var t := Family(s, c, p, a);
      |t.procs| == |s.procs| && (t != s ==> WaitOk(t, p) && ExitOk(t.procs[p]) && t.procs[p].state != Zombie)
  {
    AtState(s, c, p);
    assert WaitOk(s, p);
    var pc, t := s.procs[p].pc, Family(s, c, p, a);
    if pc.ForkAcq? || pc.KillAcq? || pc.WaitAcq? {
      FamilyPlaces(s, c, p, a);
    } else if t != s {
      FamilyPlaces(s, c, p, a);
      if pc.WaitLock? { NeededNotFree(s, c, p, pc.j); }
      forall q: nat | q < |s.procs| && q != p ensures CalmStep(s.procs[q], t.procs[q]) { FamilyCalm(s, c, p, a, q); }
      ScanOwn(s, t, p, c, a);
    }
  }

  lemma FamilyPlaces(s: State, c: nat, p: nat, a: Choice)
    requires p < |s.procs| && IsFamily(s.procs[p].pc)
    ensures var t, pc := Family(s, c, p, a), s.procs[p].pc;
      && |t.procs| == |s.procs| && ToWake(t.procs[p].pc) == None
      && (pc.ForkAcq? || pc.KillAcq? || pc.WaitAcq? ==> Scanned(t.procs[p].pc) == 0)
  {
    hide Family;
    if s.procs[p].pc.ForkAcq? || s.procs[p].pc.KillAcq? {
      ForkPlaces(s, c, p, a);
    } else {
      WaitPlaces(s, c, p, a);
    }
  }

  lemma ForkPlaces(s: State, c: nat, p: nat, a: Choice)
    requires p < |s.procs| && (s.procs[p].pc.ForkAcq? || s.procs[p].pc.KillAcq?)
    ensures var t := Family(s, c, p, a);
      |t.procs| == |s.procs| && ToWake(t.procs[p].pc) == None && Scanned(t.procs[p].pc) == 0
  {
    var pc := s.procs[p].pc;
    assert Scanned(Run) == 0 && ToWake(Run) == None;
    if pc.ForkAcq? { var next := ForkAcq(pc.j + 1); assert Scanned(next) == 0 && ToWake(next) == None; }
  }

  lemma WaitPlaces(s: State, c: nat, p: nat, a: Choice)
    requires p < |s.procs| && (s.procs[p].pc.WaitAcq? || s.procs[p].pc.WaitScan? || s.procs[p].pc.WaitLock?)
    ensures var t := Family(s, c, p, a);
      && |t.procs| == |s.procs| && ToWake(t.procs[p].pc) == None
      && (s.procs[p].pc.WaitAcq? ==> Scanned(t.procs[p].pc) == 0)
  {
    var pc := s.procs[p].pc;
    assert Scanned(Run) == 0 && ToWake(Run) == None;
    if pc.WaitLock? {
      var next := WaitScan(pc.j + 1, true);
      assert ToWake(next) == None;
      assert ToWake(Release(p, Run)) == None;
    }
  }

  lemma ScanOwn(s: State, t: State, p: nat, c: nat, a: Choice)
    requires p < |s.procs| && (s.procs[p].pc.WaitScan? || s.procs[p].pc.WaitLock?) && t == Family(s, c, p, a) && t != s
    requires WaitInv(s) && WaitOk(s, p) && s.procs[p].on.Some? && s.procs[p].state == Running && |t.procs| == |s.procs|
      && ToWake(t.procs[p].pc) == None
    requires s.procs[p].pc.WaitLock? ==> s.procs[p].pc.j != p
    requires forall q: nat :: q < |s.procs| && q != p ==> CalmStep(s.procs[q], t.procs[q])
    ensures WaitOk(t, p) && ExitOk(t.procs[p]) && t.procs[p].state != Zombie
  {
    hide CalmStep, ToWake;
    var pc := s.procs[p].pc;
    assert t.procs[p].state != Zombie;
    ZombiesKept(s, t, p);
    hide WaitInv;
    KidsKept(s, t, p, pc.j);
    if pc.WaitLock? { ScanLocked(s, t, p, c, a); } else { ScanFree(s, t, p, c, a); }
  }

  lemma ScanLocked(s: State, t: State, p: nat, c: nat, a: Choice)
    requires p < |s.procs| && s.procs[p].pc.WaitLock? && s.procs[p].pc.j != p && t == Family(s, c, p, a) && t != s
      && KidsOk(t, p, s.procs[p].pc.j) && s.procs[p].state == Running
    ensures p < |t.procs| && t.procs[p].state == Running && KidsOk(t, p, Scanned(t.procs[p].pc))
  {
    var next := WaitScan(s.procs[p].pc.j + 1, true);
    assert Scanned(next) == s.procs[p].pc.j + 1 && Scanned(Run) == 0 && Scanned(Release(p, Run)) == 0;
  }

  lemma ScanFree(s: State, t: State, p: nat, c: nat, a: Choice)
    requires p < |s.procs| && s.procs[p].pc.WaitScan? && t == Family(s, c, p, a) && KidsOk(t, p, s.procs[p].pc.j)
      && s.procs[p].state == Running
    ensures p < |t.procs| && KidsOk(t, p, Scanned(t.procs[p].pc))
      && (t.procs[p].state == Sleeping ==> KidsOk(t, p, |t.procs|))
  {
    assert Scanned(Run) == 0;
  }

  lemma PlainWaits(s: State, c: nat, p: nat, a: Choice)
    requires At(s, c, p) && WaitInv(s) && !IsSync(s.procs[p].pc) && !IsExit(s.procs[p].pc)
      && !IsFamily(s.procs[p].pc) && !s.procs[p].pc.Saving? && !s.procs[p].pc.Leaving?
    ensures WaitInv(Plain(s, p, a))
  {
    AtState(s, c, p);
    assert WaitOk(s, p) && ExitOk(s.procs[p]);
    var t, pc := Plain(s, p, a), s.procs[p].pc;
    hide At;
    if t != s {
      forall q: nat | q < |s.procs| && q != p ensures CalmStep(s.procs[q], t.procs[q]) {}
      if pc.Release? || pc.ReleaseL? {
        ReleaseWaits(s, t, p);
      } else {
        PlainPlace(s, p, a);
        hide CalmStep, Plain, ToWake, Scanned, WaitInv;
        IdleKeeps(s, t, p);
      }
    }
  }

  lemma ReleaseWaits(s: State, t: State, p: nat)
    requires WaitInv(s) && p < |s.procs| == |t.procs| && (s.procs[p].pc.Release? || s.procs[p].pc.ReleaseL?)
      && s.procs[p].on.Some? && t.procs[p] == s.procs[p].(pc := s.procs[p].pc.next, lock := t.procs[p].lock)
    requires forall q: nat :: q < |s.procs| && q != p ==> CalmStep(s.procs[q], t.procs[q])
    ensures WaitInv(t)
  {
    assert WaitOk(s, p) && ExitOk(s.procs[p]);
    assert ToWake(t.procs[p].pc) == ToWake(s.procs[p].pc) && Scanned(t.procs[p].pc) == Scanned(s.procs[p].pc);
    hide ToWake, Scanned, CalmStep;
    ZombiesKept(s, t, p);
    if s.procs[p].state == Sleeping && s.procs[p].chan == OnProc(p) { KidsKept(s, t, p, |s.procs|); }
    KidsKept(s, t, p, Scanned(s.procs[p].pc));
    CalmKeeps(s, t, p);
  }

  lemma PlainPlace(s: State, p: nat, a: Choice)
    requires p < |s.procs| && !IsSync(s.procs[p].pc) && !IsExit(s.procs[p].pc) && !IsFamily(s.procs[p].pc)
      && !s.procs[p].pc.Saving? && !s.procs[p].pc.Leaving? && OnThread(p, s.procs[p])
    requires !s.procs[p].pc.Release? && !s.procs[p].pc.ReleaseL?
    ensures var t := Plain(s, p, a);
      && |t.procs| == |s.procs| && t.procs[p].parent == s.procs[p].parent && s.procs[p].state == Running
      && (t != s ==> Scanned(t.procs[p].pc) == 0 && t.procs[p].state == Running)
      && (t != s ==> ToWake(t.procs[p].pc) == None || ToWake(t.procs[p].pc) == ToWake(s.procs[p].pc))
  {
    assert Scanned(Run) == 0 && ToWake(Run) == None;
    assert forall l: nat :: Scanned(LockAcq(l)) == 0 && ToWake(LockAcq(l)) == None;
    var pc := s.procs[p].pc;
    if pc.Resumed? && pc.r.AfterYield? { PausedPlace(p, pc.r.next); }
  }

  lemma PauseWaits(s: State, c: nat, p: nat)
    requires At(s, c, p) && WaitInv(s) && Preemptible(s.procs[p].pc)
    ensures WaitInv(Goto(s, p, YieldAcq(s.procs[p].pc)))
  {
    AtState(s, c, p);
    var t := Goto(s, p, YieldAcq(s.procs[p].pc));
    PausedPlace(p, s.procs[p].pc);
    forall q: nat | q < |s.procs| && q != p ensures CalmStep(s.procs[q], t.procs[q]) { SameCalm(s.procs[q]); }
    assert ToWake(t.procs[p].pc) == ToWake(s.procs[p].pc) && Scanned(t.procs[p].pc) == 0;
    hide CalmStep, ToWake, Scanned, WaitInv, At;
    IdleKeeps(s, t, p);
  }

  lemma ThreadWaits(s: State, c: nat, p: nat, a: Choice)
    requires At(s, c, p) && WaitInv(s) && !s.procs[p].pc.Saving? && !s.procs[p].pc.Leaving?
    ensures WaitInv(Thread(s, c, p, a))
  {
    hide HandOff, WaitInv, Sync, Exiting, Family, Plain;
    var pc := s.procs[p].pc;
    if a.Yield? && Preemptible(pc) { PauseWaits(s, c, p); }
    else if IsSync(pc) { SyncWaits(s, c, p); }
    else if IsExit(pc) { if pc.Die? { DyingWaits(s, c, p); } else { ExitingWaits(s, c, p); } }
    else if IsFamily(pc) { FamilyWaits(s, c, p, a); }
    else { PlainWaits(s, c, p, a); }
  }

  /** The scheduler loop and swtch() are calm towards everyone. */
  lemma SwitchCalm(s: State, c: nat, a: Choice, q: nat)
    requires HandOff(s) && c < |s.cpus| && CpuOk(s, c) && q < |s.procs|
    requires !s.cpus[c].at.On? || (s.cpus[c].at.p < |s.procs|
      && (s.procs[s.cpus[c].at.p].pc.Saving? || s.procs[s.cpus[c].at.p].pc.Leaving?))
    ensures var t := Step(s, c, a); |t.procs| == |s.procs| && CalmStep(s.procs[q], t.procs[q])
  {
    var at := s.cpus[c].at;
    if at.Test? && s.procs[at.i].state == Runnable { IdleWhenHeld(s, c, at.i); }
  }

  lemma SwitchWaits(s: State, c: nat, a: Choice)
    requires HandOff(s) && WaitInv(s) && c < |s.cpus|
    requires !s.cpus[c].at.On? || (s.cpus[c].at.p < |s.procs|
      && (s.procs[s.cpus[c].at.p].pc.Saving? || s.procs[s.cpus[c].at.p].pc.Leaving?))
    ensures WaitInv(Step(s, c, a))
  {
    assert CpuOk(s, c);
    var t := Step(s, c, a);
    assert |t.procs| == |s.procs|;
    hide Step, HandOff;
    forall q: nat | q < |s.procs| ensures CalmStep(s.procs[q], t.procs[q]) { SwitchCalm(s, c, a, q); }
    forall r: nat | r < |t.procs| ensures WaitOk(t, r) && ExitOk(t.procs[r]) { CalmWaits(s, t, r); }
  }

  lemma CalmWaits(s: State, t: State, r: nat)
    requires WaitInv(s) && |t.procs| == |s.procs| && r < |s.procs|
    requires forall q: nat :: q < |s.procs| ==> CalmStep(s.procs[q], t.procs[q])
    ensures WaitOk(t, r) && ExitOk(t.procs[r])
  {
    hide KidsOk, Scanned, ToWake;
    assert WaitOk(s, r) && ExitOk(s.procs[r]) && CalmStep(s.procs[r], t.procs[r]);
    forall q: nat | q < |s.procs| ensures ExitOk(s.procs[q]) { assert WaitOk(s, q); }
    forall q: nat | q < |s.procs| && t.procs[q].state == Zombie
      ensures s.procs[q].state == Zombie && ToWake(t.procs[q].pc) == ToWake(s.procs[q].pc)
        && (t.procs[q].parent == s.procs[q].parent || t.procs[q].parent == Some(INIT)) {
      assert ExitOk(s.procs[q]) && CalmStep(s.procs[q], t.procs[q]);
    }
    if t.procs[r].state == Sleeping && t.procs[r].chan == OnProc(r) { KidsKept(s, t, r, |s.procs|); }
    if t.procs[r].on.Some? && Scanned(t.procs[r].pc) > 0 { KidsKept(s, t, r, Scanned(s.procs[r].pc)); }
    if Scanned(t.procs[r].pc) == 0 { NoKidsYet(t, r); }
  }

  /** Every step of every CPU keeps the wait invariant. */
  lemma StepKeepsWait(s: State, c: nat, a: Choice)
    requires HandOff(s) && WaitInv(s) && c < |s.cpus|
    ensures WaitInv(Step(s, c, a))
  {
    assert CpuOk(s, c);
    var at := s.cpus[c].at;
    hide WaitInv, HandOff;
    if at.On? && !s.procs[at.p].pc.Saving? && !s.procs[at.p].pc.Leaving? {
      ThreadWaits(s, c, at.p, a);
    } else {
      SwitchWaits(s, c, a);
    }
  }

  // ------------------------------------------------------------------------- runs

  /** After userinit(): init is runnable, nothing else exists, and all CPUs enter
      scheduler(). */
  ghost predicate Booted(s: State)
  {
    && |s.procs| > 0 && s.procs[INIT] == Proc(Runnable, NoChan, None, false, true, Forkret, None, None)
    && (forall i: nat :: 0 < i < |s.procs| ==> s.procs[i] == Proc(Unused, NoChan, None, false, true, Run, None, None))
    && (forall c: nat :: c < |s.cpus| ==> s.cpus[c] == Cpu(Scan(0), None))
    && (forall l: nat :: l < |s.locks| ==> s.locks[l] == SleepLock(None, false, None)) && s.held == {}
  }

  ghost predicate Inv(s: State) { HandOff(s) && SleepInv(s) && WaitInv(s) }

  lemma BootedInv(s: State)
    requires Booted(s)
    ensures Inv(s)
  {
    assert Scanned(Run) == 0 && Scanned(Forkret) == 0;
  }

  /** A run: any CPUs in any order, with any choices. */
  function Runs(s: State, steps: seq<(nat, Choice)>): (r: State)
    requires forall k :: 0 <= k < |steps| ==> steps[k].0 < |s.cpus|
    ensures |r.cpus| == |s.cpus|
  {
    if steps == [] then s else Step(Runs(s, steps[..|steps| - 1]), steps[|steps| - 1].0, steps[|steps| - 1].1)
  }

  /** In every reachable state of every interleaving, all three invariants hold. */
  lemma {:induction false} RunInv(s: State, steps: seq<(nat, Choice)>)
    requires Booted(s) && forall k :: 0 <= k < |steps| ==> steps[k].0 < |s.cpus|
    ensures Inv(Runs(s, steps))
    decreases |steps|
  {
    if steps == [] {
      BootedInv(s);
    } else {
      var t, c, a := Runs(s, steps[..|steps| - 1]), steps[|steps| - 1].0, steps[|steps| - 1].1;
      RunInv(s, steps[..|steps| - 1]);
      hide HandOff, SleepInv, WaitInv, Step;
      StepKeepsHandOff(t, c, a);
      StepKeepsSleep(t, c, a);
      StepKeepsWait(t, c, a);
    }
  }

  // ------------------------------------------------- when init misses a zombie
  //
  // A process that has noted its parent in exit() can be interrupted before it takes the
  // parent's lock. If the parent exits meanwhile and is reaped, the process later wakes a
  // slot that is nobody's, while init, its parent by then, sleeps on. One CPU is enough.

  ghost predicate Reaches(s: State, t: State)
  {
    exists steps: seq<(nat, Choice)> :: (forall k :: 0 <= k < |steps| ==> steps[k].0 < |s.cpus|) && Runs(s, steps) == t
  }

  lemma ReachesSelf(s: State)
    ensures Reaches(s, s)
  {
    assert Runs(s, []) == s;
  }

  /** One more step, of CPU 0. */
  lemma Go(s0: State, s: State, a: Choice) returns (t: State)
    requires Reaches(s0, s) && |s.cpus| > 0
    ensures Reaches(s0, t) && t == Step(s, 0, a)
  {
    hide Step;
    var steps: seq<(nat, Choice)> :| (forall k :: 0 <= k < |steps| ==> steps[k].0 < |s0.cpus|) && Runs(s0, steps) == s;
    t := Step(s, 0, a);
    RunsOn(s0, steps, 0, a);
  }

  lemma RunsOn(s0: State, steps: seq<(nat, Choice)>, c: nat, a: Choice)
    requires c < |s0.cpus| && forall k :: 0 <= k < |steps| ==> steps[k].0 < |s0.cpus|
    ensures var more := steps + [(c, a)];
      (forall k :: 0 <= k < |more| ==> more[k].0 < |s0.cpus|) && Runs(s0, more) == Step(Runs(s0, steps), c, a)
  {
    hide Step;
    var more := steps + [(c, a)];
    assert more[..|more| - 1] == steps && more[|more| - 1] == (c, a);
  }

  /** A thread on CPU 0 that holds nothing. */
  function Awake(parent: Opt, pc: Pc): (x: Proc) { Proc(Running, NoChan, parent, false, false, pc, Some(0), None) }

  function Newborn(parent: Opt): (x: Proc) { Proc(Runnable, NoChan, parent, false, true, Forkret, None, None) }

  /** A thread that was interrupted. */
  function Paused(parent: Opt, pc: Pc): (x: Proc)
  {
    Proc(Runnable, NoChan, parent, false, true, Resumed(AfterYield(pc)), None, None)
  }

  function Blank(): (x: Proc) { Proc(Unused, NoChan, None, false, true, Run, None, None) }

  function Dead(parent: Opt, op: nat): (x: Proc)
  {
    Proc(Zombie, NoChan, parent, false, true, Resumed(Never(op)), None, None)
  }

  /** init in sleep(), called by wait(). */
  function InWait(state: PState): (x: Proc)
  {
    Proc(state, OnProc(INIT), None, false, true, Resumed(AfterWait), None, None)
  }

  predicate NoneLocked(locks: seq<SleepLock>) { forall l: nat :: l < |locks| ==> !locks[l].locked }

  predicate Scans(s: State, i: nat)
  {
    |s.cpus| > 0 && |s.procs| >= 3 && s.cpus[0] == Cpu(Scan(i), None) && NoneLocked(s.locks)
  }

  predicate Here(s: State, p: nat, pc: Pc)
  {
    && |s.cpus| > 0 && |s.procs| >= 3 && p < |s.procs| && s.cpus[0] == Cpu(On(p), Some(p))
    && s.procs[p] == Awake(s.procs[p].parent, pc) && NoneLocked(s.locks)
  }

  function ScanFrom(s: State, i: nat): (t: State)
    requires |s.cpus| > 0
  {
    SetCpu(s, 0, Cpu(Scan(i), None))
  }

  function OnIt(s: State, p: nat): (t: State)
    requires |s.cpus| > 0
  {
    SetCpu(s, 0, Cpu(On(p), Some(p)))
  }

  /** Nothing to run at process i. */
  lemma Pass(s0: State, s: State, i: nat) returns (t: State)
    requires Reaches(s0, s) && Scans(s, i) && IsFree(s, i) && s.procs[i].state != Runnable
    ensures Reaches(s0, t) && t == ScanFrom(s, i + 1)
  {
    hide Reaches;
    t := Go(s0, s, Stay);
    t := Go(s0, t, Stay);
    t := Go(s0, t, Stay);
    assert t.procs == s.procs;
  }

  /** Nor from there to the end. */
  lemma {:induction false} Around(s0: State, s: State, i: nat) returns (t: State)
    requires Reaches(s0, s) && Scans(s, i) && i <= |s.procs|
    requires forall k: nat :: i <= k < |s.procs| ==> IsFree(s, k) && s.procs[k].state != Runnable
    ensures Reaches(s0, t) && t == ScanFrom(s, 0)
    decreases |s.procs| - i
  {
    hide Reaches;
    if i == |s.procs| {
      t := Go(s0, s, Stay);
    } else {
      var s1 := Pass(s0, s, i);
      hide Step;
      t := Around(s0, s1, i + 1);
      assert t.cpus == ScanFrom(s, 0).cpus;
    }
  }

  /** A new process starts. */
  lemma Start(s0: State, s: State, i: nat) returns (t: State)
    requires Reaches(s0, s) && Scans(s, i) && i < |s.procs| && s.procs[i] == Newborn(s.procs[i].parent)
    ensures Reaches(s0, t) && t == OnIt(Put(s, i, Awake(s.procs[i].parent, Run)), i)
  {
    hide Reaches;
    t := Enters(s0, s, i);
    t := Go(s0, t, Stay);
    t := Go(s0, t, Stay);
    var u := OnIt(Put(s, i, Awake(s.procs[i].parent, Run)), i);
    assert t.procs == u.procs && t.cpus == u.cpus;
  }

  lemma Enters(s0: State, s: State, i: nat) returns (t: State)
    requires Reaches(s0, s) && Scans(s, i) && i < |s.procs| && s.procs[i] == Newborn(s.procs[i].parent)
    ensures Reaches(s0, t) && t == OnIt(Put(s, i, Awake(s.procs[i].parent, Forkret).(lock := Some(0))), i)
  {
    hide Reaches;
    t := Go(s0, s, Stay);
    t := Go(s0, t, Stay);
    t := Go(s0, t, Stay);
    var u := OnIt(Put(s, i, Awake(s.procs[i].parent, Forkret).(lock := Some(0))), i);
    assert t.procs == u.procs && t.cpus == u.cpus;
  }

  /** One that was interrupted goes on. */
  lemma Continue(s0: State, s: State, i: nat, pc: Pc) returns (t: State)
    requires Reaches(s0, s) && Scans(s, i) && i < |s.procs| && s.procs[i] == Paused(s.procs[i].parent, pc)
    ensures Reaches(s0, t) && t == OnIt(Put(s, i, Awake(s.procs[i].parent, pc)), i)
  {
    hide Reaches;
    t := Go(s0, s, Stay);
    t := Go(s0, t, Stay);
    t := Go(s0, t, Stay);
    t := Go(s0, t, Stay);
    t := Go(s0, t, Stay);
    var u := OnIt(Put(s, i, Awake(s.procs[i].parent, pc)), i);
    assert t.procs == u.procs && t.cpus == u.cpus;
  }

  /** A timer interrupt. */
  lemma Interrupt(s0: State, s: State, p: nat, pc: Pc) returns (t: State)
    requires Reaches(s0, s) && Here(s, p, pc) && Preemptible(pc)
    ensures Reaches(s0, t) && t == ScanFrom(Put(s, p, Paused(s.procs[p].parent, pc)), p + 1)
  {
    hide Reaches;
    t := Go(s0, s, Yield);
    t := Go(s0, t, Stay);
    assert t == Put(s, p, s.procs[p].(state := Runnable, lock := Some(0), pc := Saving(AfterYield(pc))));
    t := SwitchAway(s0, t, p);
    assert t.procs == Put(s, p, Paused(s.procs[p].parent, pc)).procs;
  }

  /** The thread of p leaves the CPU. */
  lemma SwitchAway(s0: State, s: State, p: nat) returns (t: State)
    requires Reaches(s0, s) && |s.cpus| > 0 && p < |s.procs| && s.cpus[0] == Cpu(On(p), Some(p))
      && s.procs[p].pc.Saving? && s.procs[p].lock == Some(0)
    ensures Reaches(s0, t)
    ensures t == ScanFrom(Put(s, p, s.procs[p].(saved := true, pc := Resumed(s.procs[p].pc.r), on := None,
      lock := None)),
      p + 1)
  {
    hide Reaches;
    t := Go(s0, s, Stay);
    t := Go(s0, t, Stay);
    t := Go(s0, t, Stay);
    t := Go(s0, t, Stay);
    var u := ScanFrom(Put(s, p, s.procs[p].(saved := true, pc := Resumed(s.procs[p].pc.r), on := None, lock := None)),
      p + 1);
    assert t.procs == u.procs && t.cpus == u.cpus;
  }

  lemma ForkSkips(s0: State, s: State, p: nat, k: nat) returns (t: State)
    requires Reaches(s0, s) && Here(s, p, ForkAcq(k)) && IsFree(s, k) && s.procs[k].state != Unused
    ensures Reaches(s0, t) && t == Goto(s, p, ForkAcq(k + 1))
  {
    hide Reaches;
    t := Go(s0, s, Stay);
    t := Go(s0, t, Stay);
    assert t.procs == Goto(s, p, ForkAcq(k + 1)).procs;
  }

  lemma ForkTakes(s0: State, s: State, p: nat, j: nat) returns (t: State)
    requires Reaches(s0, s) && p != j && Here(s, p, ForkAcq(j)) && j < |s.procs| && s.procs[j] == Blank()
    ensures Reaches(s0, t) && t == Goto(Put(s, j, Newborn(Some(p))), p, Run)
  {
    hide Reaches;
    t := Go(s0, s, Fork);
    t := Go(s0, t, Stay);
    assert t.procs == Goto(Put(s, j, Newborn(Some(p))), p, Run).procs;
  }

  /** init forks process 1. */
  lemma ForksFirst(s0: State, s: State) returns (t: State)
    requires Reaches(s0, s) && Here(s, 0, Run) && s.procs[1] == Blank()
    ensures Reaches(s0, t) && t == Put(s, 1, Newborn(Some(0)))
  {
    hide Reaches;
    t := Go(s0, s, Fork);
    assert t == Goto(s, 0, ForkAcq(0));
    hide Step;
    t := ForkSkips(s0, t, 0, 0);
    t := ForkTakes(s0, t, 0, 1);
    assert t.procs == Put(s, 1, Newborn(Some(0))).procs;
  }

  /** Process 1 forks process 2. */
  lemma ForksSecond(s0: State, s: State) returns (t: State)
    requires Reaches(s0, s) && Here(s, 1, Run) && s.procs[2] == Blank() && IsFree(s, 0) && s.procs[0].state != Unused
    ensures Reaches(s0, t) && t == Put(s, 2, Newborn(Some(1)))
  {
    hide Reaches;
    t := Go(s0, s, Fork);
    assert t == Goto(s, 1, ForkAcq(0));
    hide Step;
    t := ForkSkips(s0, t, 1, 0);
    t := ForkSkips(s0, t, 1, 1);
    t := ForkTakes(s0, t, 1, 2);
    assert t.procs == Put(s, 2, Newborn(Some(1))).procs;
  }

  /** exit() up to where the parent is noted; init is woken if it sleeps. */
  lemma ExitNotes(s0: State, s: State, p: nat, op: nat) returns (t: State)
    requires Reaches(s0, s) && 0 < p && Here(s, p, Run) && IsFree(s, INIT) && s.procs[p].parent == Some(op)
    ensures Reaches(s0, t) && t == Goto(Put(s, INIT, Woken(s.procs[INIT], OnProc(INIT))), p, ParentAcq(op))
  {
    hide Reaches;
    t := ExitWakesInit(s0, s, p);
    var u := t;
    t := Go(s0, t, Stay);
    t := Go(s0, t, Stay);
    assert t.procs == Goto(u, p, ParentAcq(op)).procs;
    assert t.procs == Goto(Put(s, INIT, Woken(s.procs[INIT], OnProc(INIT))), p, ParentAcq(op)).procs;
  }

  lemma ExitWakesInit(s0: State, s: State, p: nat) returns (t: State)
    requires Reaches(s0, s) && 0 < p && Here(s, p, Run) && IsFree(s, INIT)
    ensures Reaches(s0, t) && t == Goto(Put(s, INIT, Woken(s.procs[INIT], OnProc(INIT))), p, SelfAcq)
  {
    hide Reaches;
    t := Go(s0, s, Exit);
    t := Go(s0, t, Stay);
    t := Go(s0, t, Stay);
    assert t.procs == Goto(Put(s, INIT, Woken(s.procs[INIT], OnProc(INIT))), p, SelfAcq).procs;
  }

  /** p in exit(), holding its own lock. */
  function Exits(parent: Opt, pc: Pc): (x: Proc) { Awake(parent, pc).(lock := Some(0)) }

  predicate Exiting0(s: State, p: nat, op: nat, j: nat)
  {
    && |s.cpus| > 0 && p < |s.procs| && op < |s.procs| && op != p && s.cpus[0] == Cpu(On(p), Some(p))
    && s.procs[p] == Exits(s.procs[p].parent, Orphans(op, j)) && s.procs[op].lock == Some(0)
  }

  lemma ExitLocks(s0: State, s: State, p: nat, op: nat) returns (t: State)
    requires Reaches(s0, s) && Here(s, p, ParentAcq(op)) && IsFree(s, op) && op != p
    ensures Reaches(s0, t) && Exiting0(t, p, op, 0)
    ensures t == Put(Put(s, op, s.procs[op].(lock := Some(0))), p, Exits(s.procs[p].parent, Orphans(op, 0)))
  {
    hide Reaches;
    t := Go(s0, s, Stay);
    t := Go(s0, t, Stay);
    assert t.procs == Put(Put(s, op, s.procs[op].(lock := Some(0))), p, Exits(s.procs[p].parent, Orphans(op, 0))).procs;
  }

  lemma OrphanSkips(s0: State, s: State, p: nat, op: nat, k: nat) returns (t: State)
    requires Reaches(s0, s) && Exiting0(s, p, op, k) && k < |s.procs| && s.procs[k].parent != Some(p)
    ensures Reaches(s0, t) && t == Goto(s, p, Orphans(op, k + 1))
  {
    hide Reaches;
    t := Go(s0, s, Stay);
  }

  /** No child among the next. */
  lemma {:induction false} OrphansTo(s0: State, s: State, p: nat, op: nat, k: nat, n: nat) returns (t: State)
    requires Reaches(s0, s) && Exiting0(s, p, op, k) && k <= n <= |s.procs|
    requires forall i: nat :: k <= i < n ==> s.procs[i].parent != Some(p)
    ensures Reaches(s0, t) && t == Goto(s, p, Orphans(op, n))
    decreases n - k
  {
    hide Reaches, Step;
    if k == n {
      t := s;
      assert t.procs == s.procs[p := s.procs[p]];
    } else {
      var s1 := OrphanSkips(s0, s, p, op, k);
      t := OrphansTo(s0, s1, p, op, k + 1, n);
      assert t.procs == Goto(s, p, Orphans(op, n)).procs;
    }
  }

  /** A child is given to init. */
  lemma OrphanGiven(s0: State, s: State, p: nat, op: nat, k: nat) returns (t: State)
    requires Reaches(s0, s) && Exiting0(s, p, op, k) && IsFree(s, k) && s.procs[k].parent == Some(p)
    ensures Reaches(s0, t) && t == Goto(Put(s, k, s.procs[k].(parent := Some(INIT))), p, Orphans(op, k + 1))
  {
    hide Reaches;
    t := Go(s0, s, Stay);
    t := Go(s0, t, Stay);
    t := Go(s0, t, Stay);
    assert t.procs == Goto(Put(s, k, s.procs[k].(parent := Some(INIT))), p, Orphans(op, k + 1)).procs;
  }

  /** p becomes a zombie. */
  lemma ExitEnds(s0: State, s: State, p: nat, op: nat) returns (t: State)
    requires Reaches(s0, s) && Exiting0(s, p, op, |s.procs|)
    ensures Reaches(s0, t) && t == ScanFrom(Put(Put(s, op, Woken(s.procs[op], OnProc(op)).(lock := None)), p,
      Dead(s.procs[p].parent, op)), p + 1)
  {
    hide Reaches;
    t := Go(s0, s, Stay);
    t := Go(s0, t, Stay);
    t := Go(s0, t, Stay);
    var u := Put(Put(s, op, Woken(s.procs[op], OnProc(op)).(lock := None)), p,
      s.procs[p].(state := Zombie, pc := Saving(Never(op))));
    assert t.procs == u.procs;
    hide Step;
    t := SwitchAway(s0, t, p);
    assert t.procs == Put(u, p, Dead(s.procs[p].parent, op)).procs;
  }

  /** init in wait(), holding its own lock. */
  predicate Waiting(s: State, j: nat, kids: bool)
  {
    && |s.cpus| > 0 && |s.procs| >= 3 && s.cpus[0] == Cpu(On(0), Some(0))
    && s.procs[0] == Awake(None, WaitScan(j, kids)).(lock := Some(0))
  }

  lemma WaitSkips(s0: State, s: State, k: nat, kids: bool) returns (t: State)
    requires Reaches(s0, s) && Waiting(s, k, kids) && k < |s.procs| && s.procs[k].parent != Some(0)
    ensures Reaches(s0, t) && t == Goto(s, 0, WaitScan(k + 1, kids))
  {
    hide Reaches;
    t := Go(s0, s, Stay);
  }

  lemma {:induction false} WaitTo(s0: State, s: State, k: nat, kids: bool, n: nat) returns (t: State)
    requires Reaches(s0, s) && Waiting(s, k, kids) && k <= n <= |s.procs|
    requires forall i: nat :: k <= i < n ==> s.procs[i].parent != Some(0)
    ensures Reaches(s0, t) && t == Goto(s, 0, WaitScan(n, kids))
    decreases n - k
  {
    hide Reaches, Step;
    if k == n {
      t := s;
      assert t.procs == s.procs[0 := s.procs[0]];
    } else {
      var s1 := WaitSkips(s0, s, k, kids);
      t := WaitTo(s0, s1, k + 1, kids, n);
      assert t.procs == Goto(s, 0, WaitScan(n, kids)).procs;
    }
  }

  /** A child that is alive. */
  lemma WaitSees(s0: State, s: State, k: nat) returns (t: State)
    requires Reaches(s0, s) && Waiting(s, k, false) && 0 < k && IsFree(s, k) && s.procs[k].parent == Some(0)
      && s.procs[k].state != Zombie
    ensures Reaches(s0, t) && t == Goto(s, 0, WaitScan(k + 1, true))
  {
    hide Reaches;
    t := Go(s0, s, Stay);
    t := Go(s0, t, Stay);
    t := Go(s0, t, Stay);
    assert t.procs == Goto(s, 0, WaitScan(k + 1, true)).procs;
  }

  /** init waits for its one child k, and sleeps. */
  lemma WaitSleeps(s0: State, s: State, k: nat) returns (t: State)
    requires Reaches(s0, s) && Here(s, 0, Run) && s.procs[0].parent == None && 0 < k && IsFree(s, k)
      && s.procs[k].state != Zombie && forall i: nat :: i < |s.procs| ==> (s.procs[i].parent == Some(0) <==> i == k)
    ensures Reaches(s0, t) && t == ScanFrom(Put(s, 0, InWait(Sleeping)), 1)
  {
    hide Reaches;
    t := Go(s0, s, Wait);
    t := Go(s0, t, Stay);
    assert t == Put(s, 0, Awake(None, WaitScan(0, false)).(lock := Some(0)));
    t := WaitTo(s0, t, 0, false, k);
    t := WaitSees(s0, t, k);
    t := WaitTo(s0, t, k + 1, true, |s.procs|);
    assert t.procs == Put(s, 0, Awake(None, WaitScan(|s.procs|, true)).(lock := Some(0))).procs;
    t := Go(s0, t, Stay);
    hide Step;
    t := SwitchAway(s0, t, 0);
    assert t.procs == Put(s, 0, InWait(Sleeping)).procs;
  }

  /** init was woken: it reaps process 1 and returns from wait(). */
  lemma Reaps(s0: State, s: State) returns (t: State)
    requires Reaches(s0, s) && Scans(s, 0) && s.procs[0] == InWait(Runnable) && s.procs[1] == Dead(Some(0), 0)
    ensures Reaches(s0, t) && t == OnIt(Put(Put(s, 1, Reaped(s.procs[1])), 0, Awake(None, Run)), 0)
  {
    hide Reaches;
    t := Wakes(s0, s);
    t := WaitSkips(s0, t, 0, false);
    t := Go(s0, t, Stay);
    t := Go(s0, t, Wait);
    t := Go(s0, t, Stay);
    t := Go(s0, t, Stay);
    var u := OnIt(Put(Put(s, 1, Reaped(s.procs[1])), 0, Awake(None, Run)), 0);
    assert t.procs == u.procs && t.cpus == u.cpus;
  }

  lemma Wakes(s0: State, s: State) returns (t: State)
    requires Reaches(s0, s) && Scans(s, 0) && s.procs[0] == InWait(Runnable)
    ensures Reaches(s0, t) && t == OnIt(Put(s, 0, Awake(None, WaitScan(0, false)).(lock := Some(0))), 0)
  {
    hide Reaches;
    t := Go(s0, s, Stay);
    t := Go(s0, t, Stay);
    t := Go(s0, t, Stay);
    t := Go(s0, t, Stay);
    var u := OnIt(Put(s, 0, Awake(None, WaitScan(0, false)).(lock := Some(0))), 0);
    assert t.procs == u.procs && t.cpus == u.cpus;
  }

  predicate Rest(s: State) { |s.procs| >= 3 && forall i: nat :: 3 <= i < |s.procs| ==> s.procs[i] == Blank() }

  /** init, its child 1, and 1's child 2, which has noted its parent in exit(). */
  lemma Stage1(s0: State) returns (t: State)
    requires Booted(s0) && |s0.procs| >= 3 && |s0.cpus| > 0
    ensures Reaches(s0, t) && Scans(t, 0) && Rest(t)
    ensures t.procs[0] == Paused(None, Run) && t.procs[1] == Paused(Some(0), Run)
      && t.procs[2] == Paused(Some(1), ParentAcq(1))
  {
    ReachesSelf(s0);
    hide Reaches, Step;
    t := Start(s0, s0, 0);
    t := ForksFirst(s0, t);
    t := Interrupt(s0, t, 0, Run);
    t := Start(s0, t, 1);
    t := ForksSecond(s0, t);
    t := Interrupt(s0, t, 1, Run);
    t := Start(s0, t, 2);
    t := ExitNotes(s0, t, 2, 1);
    t := Interrupt(s0, t, 2, ParentAcq(1));
    t := Around(s0, t, 3);
  }

  /** init sleeps, and 1 exits. */
  lemma Stage2(s0: State, s: State) returns (t: State)
    requires Reaches(s0, s) && Scans(s, 0) && Rest(s)
    requires s.procs[0] == Paused(None, Run) && s.procs[1] == Paused(Some(0), Run)
      && s.procs[2] == Paused(Some(1), ParentAcq(1))
    ensures Reaches(s0, t) && Scans(t, 2) && Rest(t)
    ensures t.procs[0] == InWait(Runnable) && t.procs[1] == Dead(Some(0), 0)
      && t.procs[2] == Paused(Some(0), ParentAcq(1))
  {
    hide Reaches, Step;
    t := Continue(s0, s, 0, Run);
    t := WaitSleeps(s0, t, 1);
    t := Continue(s0, t, 1, Run);
    t := ExitNotes(s0, t, 1, 0);
    t := ExitLocks(s0, t, 1, 0);
    t := OrphansTo(s0, t, 1, 0, 0, 2);
    t := OrphanGiven(s0, t, 1, 0, 2);
    t := OrphansTo(s0, t, 1, 0, 3, |t.procs|);
    t := ExitEnds(s0, t, 1, 0);
  }

  /** init reaps 1 and sleeps again, and 2 goes on. */
  lemma Stage3(s0: State, s: State) returns (t: State)
    requires Reaches(s0, s) && Scans(s, 2) && Rest(s)
    requires s.procs[0] == InWait(Runnable) && s.procs[1] == Dead(Some(0), 0)
      && s.procs[2] == Paused(Some(0), ParentAcq(1))
    ensures Reaches(s0, t) && Here(t, 2, ParentAcq(1)) && Rest(t)
    ensures t.procs[0] == InWait(Sleeping) && t.procs[1] == Reaped(Dead(Some(0), 0)) && t.procs[2].parent == Some(0)
  {
    hide Reaches, Step;
    t := Continue(s0, s, 2, ParentAcq(1));
    t := Interrupt(s0, t, 2, ParentAcq(1));
    t := Around(s0, t, 3);
    t := Reaps(s0, t);
    t := WaitSleeps(s0, t, 2);
    t := Pass(s0, t, 1);
    t := Continue(s0, t, 2, ParentAcq(1));
  }

  /** init sleeps in wait(), nobody holds the lock of it or of q, and q is its zombie child. */
  ghost predicate Misses(s: State, q: nat)
  {
    && 0 < |s.procs| && q < |s.procs| && IsFree(s, INIT) && IsFree(s, q)
    && s.procs[INIT].state == Sleeping && s.procs[INIT].chan == OnProc(INIT)
    && s.procs[q].state == Zombie && s.procs[q].parent == Some(INIT)
  }

  lemma MissesRun(s0: State) returns (t: State)
    requires Booted(s0) && |s0.procs| >= 3 && |s0.cpus| > 0
    ensures Reaches(s0, t) && Misses(t, 2)
  {
    hide Reaches, Step;
    t := Stage1(s0);
    t := Stage2(s0, t);
    t := Stage3(s0, t);
    t := ExitLocks(s0, t, 2, 1);
    t := OrphansTo(s0, t, 2, 1, 0, |t.procs|);
    t := ExitEnds(s0, t, 2, 1);
  }

  // With two processes the only parent there is to note is init.

  /** A place from which exit() is not under way. */
  predicate NoExit(pc: Pc)
  {
    if pc.Release? || pc.ReleaseL? || pc.YieldAcq? then NoExit(pc.next)
    else if pc.Saving? || pc.Leaving? || pc.Resumed? then
      (if pc.r.AfterYield? then NoExit(pc.r.next) else !pc.r.Never?)
    else !IsExit(pc)
  }

  predicate NoneOrInit(o: Opt) { o == None || o == Some(INIT) }

  /** init does not exit, and the other process has no other parent. */
  ghost predicate Fit(q: nat, x: Proc)
  {
    if q == INIT then NoExit(x.pc) && x.state != Unused && x.state != Zombie
    else NoneOrInit(x.parent) && NoneOrInit(ToWake(x.pc))
  }

  ghost predicate Small(s: State) { 0 < |s.procs| <= 2 && forall q: nat :: q < |s.procs| ==> Fit(q, s.procs[q]) }

  /** What a thread does to another process. */
  lemma OtherFit(q: nat, x: Proc, p: nat, o: Opt)
    requires Fit(q, x)
    ensures Fit(q, x.(lock := o)) && Fit(q, Killed(x).(lock := o)) && Fit(q, x.(parent := Some(INIT), lock := o))
    ensures forall ch: Chan :: Fit(q, Woken(x, ch)) && Fit(q, Woken(x, ch).(lock := o))
    ensures x.state == Zombie ==> Fit(q, Reaped(x).(lock := o))
    ensures x.state == Unused && p == INIT ==> Fit(q, Child(x, p).(lock := o))
  {
    assert ToWake(Forkret) == None;
  }

  /** A place that has nothing to do with exit(). */
  predicate Innocent(pc: Pc) { NoExit(pc) && ToWake(pc) == None }

  lemma InnocentNext(p: nat, i: nat, pc: Pc)
    requires Innocent(pc)
    ensures Innocent(Release(i, pc)) && Innocent(ReleaseL(i, pc)) && Innocent(Release(i, Release(p, pc)))
  {
    assert ToWake(Release(p, pc)) == None && NoExit(Release(p, pc));
  }

  lemma SyncSmall(s: State, c: nat, p: nat, q: nat)
    requires At(s, c, p) && Small(s) && IsSync(s.procs[p].pc) && q < |s.procs|
    ensures var t := Sync(s, c, p); |t.procs| == |s.procs| && Fit(q, t.procs[q])
  {
    AtState(s, c, p);
    var pc := s.procs[p].pc;
    assert Fit(p, s.procs[p]) && Fit(q, s.procs[q]);
    OtherFit(q, s.procs[q], p, Some(c));
    if q == p { SyncGoes(s, c, p); }
    hide At, Small, Fit;
  }

  lemma SyncGoes(s: State, c: nat, p: nat)
    requires p < |s.procs| && IsSync(s.procs[p].pc) && OnThread(p, s.procs[p]) && Fit(p, s.procs[p])
    ensures var t := Sync(s, c, p); |t.procs| == |s.procs| && Fit(p, t.procs[p])
  {
    hide Sync, Fit, OnThread;
    if s.procs[p].pc.YieldAcq? { YieldGoes(s, c, p); }
    else if s.procs[p].pc.WakeAcq? { WakeGoes(s, c, p); }
    else { LocksGo(s, c, p); }
  }

  lemma WakeGoes(s: State, c: nat, p: nat)
    requires p < |s.procs| && s.procs[p].pc.WakeAcq? && OnThread(p, s.procs[p]) && Fit(p, s.procs[p])
    ensures var t := Sync(s, c, p); |t.procs| == |s.procs| && Fit(p, t.procs[p])
  {
    var pc := s.procs[p].pc;
    assert Innocent(Run);
    InnocentNext(p, pc.l, Run);
    assert Innocent(WakeAcq(pc.l, pc.j + 1));
    InnocentNext(p, pc.j, WakeAcq(pc.l, pc.j + 1));
  }

  lemma YieldGoes(s: State, c: nat, p: nat)
    requires p < |s.procs| && s.procs[p].pc.YieldAcq? && OnThread(p, s.procs[p]) && Fit(p, s.procs[p])
    ensures var t := Sync(s, c, p); |t.procs| == |s.procs| && Fit(p, t.procs[p])
  {}

  lemma LocksGo(s: State, c: nat, p: nat)
    requires p < |s.procs| && IsSync(s.procs[p].pc) && !s.procs[p].pc.YieldAcq? && !s.procs[p].pc.WakeAcq?
      && OnThread(p, s.procs[p]) && Fit(p, s.procs[p])
    ensures var t := Sync(s, c, p); |t.procs| == |s.procs| && Fit(p, t.procs[p])
  {
    var pc := s.procs[p].pc;
    assert Innocent(Run);
    InnocentNext(p, pc.l, Run);
    if pc.LockOwn? {
      assert Innocent(LockSleep(pc.l));
      InnocentNext(p, pc.l, LockSleep(pc.l));
    }
  }

  lemma ExitingSmall(s: State, c: nat, p: nat, q: nat)
    requires At(s, c, p) && Small(s) && IsExit(s.procs[p].pc) && q < |s.procs|
    ensures var t := Exiting(s, c, p); |t.procs| == |s.procs| && Fit(q, t.procs[q])
  {
    AtState(s, c, p);
    assert Fit(p, s.procs[p]) && Fit(q, s.procs[q]);
    OtherFit(q, s.procs[q], p, Some(c));
    OtherFit(q, s.procs[q], p, s.procs[q].lock);
    assert NoneOrInit(ToWake(s.procs[p].pc)) && NoneOrInit(s.procs[p].parent) && p != INIT;
    if q == p { ExitGoes(s, c, p); }
    hide At, Small, Fit;
  }

  lemma ExitGoes(s: State, c: nat, p: nat)
    requires p < |s.procs| && IsExit(s.procs[p].pc) && OnThread(p, s.procs[p]) && Fit(p, s.procs[p])
    ensures var t := Exiting(s, c, p); |t.procs| == |s.procs| && Fit(p, t.procs[p])
  {
    var pc := s.procs[p].pc;
    assert ToWake(SelfAcq) == None;
    if pc.SelfAcq? && s.procs[p].parent.Some? {
      assert ToWake(ParentAcq(s.procs[p].parent.value)) == s.procs[p].parent;
    } else if pc.OrphanAcq? {
      assert ToWake(Orphans(pc.op, pc.j + 1)) == Some(pc.op);
    } else if pc.Die? {
      assert ToWake(Saving(Never(pc.op))) == Some(pc.op);
    }
  }

  lemma FamilySmall(s: State, c: nat, p: nat, a: Choice, q: nat)
    requires At(s, c, p) && Small(s) && IsFamily(s.procs[p].pc) && q < |s.procs|
    ensures var t := Family(s, c, p, a); |t.procs| == |s.procs| && Fit(q, t.procs[q])
  {
    AtState(s, c, p);
    assert Fit(p, s.procs[p]) && Fit(q, s.procs[q]) && s.procs[p].state == Running;
    OtherFit(q, s.procs[q], p, Some(c));
    if q == p { FamilyGoes(s, c, p, a); }
    else { assert s.procs[q].state == Unused ==> p == INIT; }
    hide At, Small, Fit;
  }

  lemma FamilyGoes(s: State, c: nat, p: nat, a: Choice)
    requires p < |s.procs| && IsFamily(s.procs[p].pc) && s.procs[p].state == Running && Fit(p, s.procs[p])
    ensures var t := Family(s, c, p, a); |t.procs| == |s.procs| && Fit(p, t.procs[p])
  {
    var pc := s.procs[p].pc;
    assert Innocent(Run) && Innocent(pc);
    InnocentNext(p, p, Run);
    if pc.WaitLock? || pc.ForkAcq? || pc.KillAcq? { InnocentNext(p, pc.j, Run); }
    if pc.WaitLock? {
      assert Innocent(WaitScan(pc.j + 1, true));
      InnocentNext(p, pc.j, WaitScan(pc.j + 1, true));
    } else if pc.ForkAcq? {
      assert Innocent(ForkAcq(pc.j + 1));
      InnocentNext(p, pc.j, ForkAcq(pc.j + 1));
    }
    var t := Family(s, c, p, a);
    FamilyPc(s, c, p, a);
    InnocentFit(p, s.procs[p], t.procs[p]);
  }

  /** What wait(), fork() and kill() make of their own process. */
  lemma FamilyPc(s: State, c: nat, p: nat, a: Choice)
    requires p < |s.procs| && IsFamily(s.procs[p].pc) && s.procs[p].state == Running
    ensures var t := Family(s, c, p, a);
      && |t.procs| == |s.procs| && t.procs[p].parent == s.procs[p].parent
      && (t.procs[p].state == Running || t.procs[p].state == Sleeping)
    ensures var pc, next := s.procs[p].pc, Family(s, c, p, a).procs[p].pc;
      || next == pc || next == Run || next == Release(p, Run) || next == Saving(AfterWait) || next.WaitScan?
      || next.WaitLock? || (pc.WaitLock? && next == Release(pc.j, WaitScan(pc.j + 1, true)))
      || (pc.WaitLock? && next == Release(pc.j, Release(p, Run)))
      || (pc.ForkAcq? && next == Release(pc.j, ForkAcq(pc.j + 1)))
      || ((pc.ForkAcq? || pc.KillAcq?) && next == Release(pc.j, Run))
  {}

  lemma InnocentFit(p: nat, x: Proc, y: Proc)
    requires Fit(p, x) && y.parent == x.parent && (y.state == Running || y.state == Sleeping) && Innocent(y.pc)
    ensures Fit(p, y)
  {}

  lemma PlainSmall(s: State, c: nat, p: nat, a: Choice, q: nat)
    requires At(s, c, p) && Small(s) && !IsSync(s.procs[p].pc) && !IsExit(s.procs[p].pc) && q < |s.procs|
      && !IsFamily(s.procs[p].pc) && !s.procs[p].pc.Saving? && !s.procs[p].pc.Leaving?
    ensures var t := Plain(s, p, a); |t.procs| == |s.procs| && Fit(q, t.procs[q])
  {
    AtState(s, c, p);
    assert Fit(p, s.procs[p]) && Fit(q, s.procs[q]);
    OtherFit(q, s.procs[q], p, None);
    if q == p { PlainGoes(s, p, a); }
    hide At, Small, Fit;
  }

  lemma PlainGoes(s: State, p: nat, a: Choice)
    requires p < |s.procs| && !IsSync(s.procs[p].pc) && !IsExit(s.procs[p].pc) && !IsFamily(s.procs[p].pc)
      && !s.procs[p].pc.Saving? && !s.procs[p].pc.Leaving? && Fit(p, s.procs[p])
    ensures var t := Plain(s, p, a); |t.procs| == |s.procs| && Fit(p, t.procs[p])
  {
    hide Plain, Fit;
    var pc := s.procs[p].pc;
    if pc.Release? || pc.ReleaseL? {
      ReleaseGoes(s, p, a);
    } else if pc.Resumed? {
      ResumeGoes(s, p, a);
    } else {
      RunGoes(s, p, a);
    }
  }

  lemma ReleaseGoes(s: State, p: nat, a: Choice)
    requires p < |s.procs| && (s.procs[p].pc.Release? || s.procs[p].pc.ReleaseL?) && Fit(p, s.procs[p])
    ensures var t := Plain(s, p, a); |t.procs| == |s.procs| && Fit(p, t.procs[p])
  {}

  lemma ResumeGoes(s: State, p: nat, a: Choice)
    requires p < |s.procs| && s.procs[p].pc.Resumed? && Fit(p, s.procs[p])
    ensures var t := Plain(s, p, a); |t.procs| == |s.procs| && Fit(p, t.procs[p])
  {
    var pc := s.procs[p].pc;
    if pc.r.AfterSleep? {
      assert Innocent(LockAcq(pc.r.l));
      InnocentNext(p, p, LockAcq(pc.r.l));
    }
  }

  lemma RunGoes(s: State, p: nat, a: Choice)
    requires p < |s.procs| && (s.procs[p].pc.Run? || s.procs[p].pc.Forkret? || Plain(s, p, a) == s)
      && Fit(p, s.procs[p])
    ensures var t := Plain(s, p, a); |t.procs| == |s.procs| && Fit(p, t.procs[p])
  {
    assert Innocent(Run);
    InnocentNext(p, p, Run);
  }

  lemma StepSmall(s: State, c: nat, a: Choice)
    requires HandOff(s) && c < |s.cpus| && Small(s)
    ensures Small(Step(s, c, a))
  {
    assert CpuOk(s, c);
    var at, t := s.cpus[c].at, Step(s, c, a);
    assert 0 < |s.procs| <= 2 && |t.procs| == |s.procs| by { StepSize(s, c, a); }
    forall q: nat | q < |t.procs| ensures Fit(q, t.procs[q]) {
      if at.On? && !s.procs[at.p].pc.Saving? && !s.procs[at.p].pc.Leaving? {
        ThreadSmall(s, c, at.p, a, q);
      } else {
        assert Fit(q, s.procs[q]);
      }
    }
  }

  lemma StepSize(s: State, c: nat, a: Choice)
    requires c < |s.cpus|
    ensures |Step(s, c, a).procs| == |s.procs|
  {
    var at := s.cpus[c].at;
    if at.On? && at.p < |s.procs| { ThreadSize(s, c, at.p, a); }
    hide Thread;
  }

  lemma ThreadSize(s: State, c: nat, p: nat, a: Choice)
    requires p < |s.procs|
    ensures |Thread(s, c, p, a).procs| == |s.procs|
  {
    hide Sync, Exiting, Family, Plain;
    SyncSize(s, c, p);
    ExitingSize(s, c, p);
    FamilySize(s, c, p, a);
    PlainSize(s, p, a);
  }

  lemma SyncSize(s: State, c: nat, p: nat)
    requires p < |s.procs|
    ensures |Sync(s, c, p).procs| == |s.procs|
  {}

  lemma ExitingSize(s: State, c: nat, p: nat)
    requires p < |s.procs|
    ensures |Exiting(s, c, p).procs| == |s.procs|
  {}

  lemma FamilySize(s: State, c: nat, p: nat, a: Choice)
    requires p < |s.procs|
    ensures |Family(s, c, p, a).procs| == |s.procs|
  {}

  lemma PlainSize(s: State, p: nat, a: Choice)
    requires p < |s.procs|
    ensures |Plain(s, p, a).procs| == |s.procs|
  {}

  lemma ThreadSmall(s: State, c: nat, p: nat, a: Choice, q: nat)
    requires At(s, c, p) && Small(s) && !s.procs[p].pc.Saving? && !s.procs[p].pc.Leaving? && q < |s.procs|
    ensures var t := Thread(s, c, p, a); q < |t.procs| && Fit(q, t.procs[q])
  {
    AtState(s, c, p);
    hide At, Sync, Exiting, Family, Plain;
    var pc := s.procs[p].pc;
    if a.Yield? && Preemptible(pc) { assert Fit(q, s.procs[q]); }
    else if IsSync(pc) { SyncSmall(s, c, p, q); }
    else if IsExit(pc) { ExitingSmall(s, c, p, q); }
    else if IsFamily(pc) { FamilySmall(s, c, p, a, q); }
    else { PlainSmall(s, c, p, a, q); }
  }

  lemma {:induction false} RunSmall(s: State, steps: seq<(nat, Choice)>)
    requires Booted(s) && |s.procs| <= 2 && forall k :: 0 <= k < |steps| ==> steps[k].0 < |s.cpus|
    ensures Small(Runs(s, steps))
    decreases |steps|
  {
    if steps == [] {
      assert NoExit(Forkret) && ToWake(Run) == None;
    } else {
      var n := |steps| - 1;
      RunSmall(s, steps[..n]);
      RunInv(s, steps[..n]);
      hide Small, Step;
      StepSmall(Runs(s, steps[..n]), steps[n].0, steps[n].1);
    }
  }

  lemma SmallMisses(t: State, q: nat)
    requires Inv(t) && Small(t)
    ensures !Misses(t, q)
  {
    hide HandOff, SleepInv, WaitInv, ToWake;
    if q < |t.procs| { assert Fit(q, t.procs[q]); }
    if Misses(t, q) {
      NoZombieMissed(t, INIT, q);
      assert false;
    }
  }

  lemma NeverMisses(s0: State, t: State, q: nat)
    requires Booted(s0) && (|s0.procs| <= 2 || |s0.cpus| == 0) && Reaches(s0, t)
    ensures !Misses(t, q)
  {
    var steps: seq<(nat, Choice)> :| (forall k :: 0 <= k < |steps| ==> steps[k].0 < |s0.cpus|) && Runs(s0, steps) == t;
    if |s0.cpus| == 0 {
      assert steps == [];
    } else {
      RunSmall(s0, steps);
      RunInv(s0, steps);
      SmallMisses(t, q);
    }
  }

  /** NoZombieMissed stops short of init for a reason: some run from boot leaves init asleep
      in wait() beside a zombie child, with the locks of both free, exactly when there is
      room for three processes and a CPU to run them. */
  lemma InitMissesExactly(s0: State)
    requires Booted(s0)
    ensures (exists t, q :: Reaches(s0, t) && Misses(t, q)) <==> |s0.procs| >= 3 && |s0.cpus| >= 1
  {
    if |s0.procs| >= 3 && |s0.cpus| >= 1 {
      var t := MissesRun(s0);
    } else {
      forall t, q | Reaches(s0, t) ensures !Misses(t, q) { NeverMisses(s0, t, q); }
    }
  }
}
