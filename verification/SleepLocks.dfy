/** Mutual exclusion of the sleep locks of kernel/sleeplock.c, in every run of the scheduler's
    steps. `held` records who acquiresleep() has let through and releasesleep() has not yet
    let go; it is only ever compared with the lock's own fields, never read by a step. */
module SleepLocks {
  import opened Common
  import opened Scheduler

  /** The sleep lock a thread is about to give back. */
  function Freeing(pc: Pc): (o: Opt)
  {
    if pc.Release? || pc.ReleaseL? || pc.YieldAcq? then Freeing(pc.next)
    else if pc.Saving? || pc.Leaving? || pc.Resumed? then
      (if pc.r.AfterYield? then Freeing(pc.r.next) else None)
    else if pc.FreeAcq? then Some(pc.l)
    else None
  }

  predicate Alive(x: Proc) { x.state != Unused && x.state != Zombie && NoExit(x.pc) }

  ghost predicate HeldOk(s: State, p: nat, l: nat)
  {
    p < |s.procs| && Alive(s.procs[p]) && HoldingSleep(s, p, l)
  }

  /** A lock is marked taken exactly while someone holds it, and its owner is that process. */
  ghost predicate MutexInv(s: State)
  {
    && (forall p: nat, l: nat :: (p, l) in s.held ==> HeldOk(s, p, l))
    && (forall l: nat :: l < |s.locks| && s.locks[l].locked ==> OwnerHolds(s, l))
    && (forall p: nat :: p < |s.procs| && Freeing(s.procs[p].pc).Some? ==> (p, Freeing(s.procs[p].pc).value) in s.held)
  }

  ghost predicate OwnerHolds(s: State, l: nat)
    requires l < |s.locks|
  {
    s.locks[l].owner.Some? && (s.locks[l].owner.value, l) in s.held
  }

  /** At most one process is past acquiresleep(l) and not past releasesleep(l), the lock is
      marked exactly when there is one, and no process in exit() or dead is that one. */
  ghost predicate Exclusive(s: State, l: nat)
    requires l < |s.locks|
  {
    && (forall p: nat, q: nat :: (p, l) in s.held && (q, l) in s.held ==> p == q)
    && (s.locks[l].locked <==> exists p: nat :: (p, l) in s.held)
    && (forall p: nat :: (p, l) in s.held ==> p < |s.procs| && Alive(s.procs[p]) && s.locks[l].owner == Some(p))
  }

  lemma OneHolder(s: State, l: nat)
    requires MutexInv(s) && l < |s.locks|
    ensures Exclusive(s, l)
  {
    forall p: nat | (p, l) in s.held ensures HeldOk(s, p, l) {}
    if s.locks[l].locked { assert OwnerHolds(s, l); }
  }

  /** A process at acquiresleep()'s test, with the spinlock free, gets through exactly when no
      one holds the lock. */
  lemma AcquiresExactly(s: State, c: nat, p: nat, a: Choice)
    requires MutexInv(s) && c < |s.cpus| && s.cpus[c].at == On(p) && p < |s.procs| && !a.Yield?
      && s.procs[p].pc.LockAcq? && IsFreeL(s, s.procs[p].pc.l)
    ensures var t, l := Step(s, c, a), s.procs[p].pc.l;
      && (t.held == s.held + {(p, l)} && t.procs[p].pc == ReleaseL(l, Run) <==> forall q: nat :: (q, l) !in s.held)
      && (t.held == s.held && t.procs[p].pc == LockOwn(l) <==> exists q: nat :: (q, l) in s.held)
  {
    var l := s.procs[p].pc.l;
    assert forall q: nat :: (q, l) in s.held ==> HeldOk(s, q, l);
    if s.locks[l].locked { assert OwnerHolds(s, l); }
  }

  /** The holder can start to give it back, nobody else can, and then the lock is no one's. */
  lemma ReleasesExactly(s: State, c: nat, p: nat, l: nat)
    requires MutexInv(s) && c < |s.cpus| && s.cpus[c].at == On(p) && p < |s.procs| && l < |s.locks|
    ensures s.procs[p].pc.Run? ==> (Step(s, c, Free(l)).procs[p].pc == FreeAcq(l) <==> (p, l) in s.held)
    ensures s.procs[p].pc == FreeAcq(l) && IsFreeL(s, l) ==>
      var t := Step(s, c, Stay); t.held == s.held - {(p, l)} && forall q: nat :: (q, l) !in t.held
  {
    if (p, l) in s.held { assert HeldOk(s, p, l); }
    if s.locks[l].locked { assert OwnerHolds(s, l); }
    if s.procs[p].pc == FreeAcq(l) {
      assert Freeing(s.procs[p].pc) == Some(l);
      forall q: nat | (q, l) in s.held ensures HeldOk(s, q, l) {}
    }
  }

  // ------------------------------------------------------- steps that leave the locks alone

  ghost predicate Passes(x: Proc, y: Proc)
  {
    (Freeing(y.pc).Some? ==> Freeing(y.pc) == Freeing(x.pc)) && (Alive(x) ==> Alive(y))
  }

  ghost predicate SameLock(a: SleepLock, b: SleepLock) { a.locked == b.locked && a.owner == b.owner }

  ghost predicate SameHolders(s: State, t: State)
  {
    && |t.procs| == |s.procs| && |t.locks| == |s.locks| && t.held == s.held
    && forall l: nat :: l < |s.locks| ==> SameLock(s.locks[l], t.locks[l])
  }

  lemma PassesKeeps(s: State, t: State)
    requires MutexInv(s) && SameHolders(s, t)
      && forall q: nat :: q < |s.procs| ==> Passes(s.procs[q], t.procs[q])
    ensures MutexInv(t)
  {
    hide Freeing, Alive;
    forall p: nat, l: nat | (p, l) in t.held ensures HeldOk(t, p, l) {
      assert HeldOk(s, p, l) && Passes(s.procs[p], t.procs[p]) && SameLock(s.locks[l], t.locks[l]);
    }
    forall l: nat | l < |t.locks| && t.locks[l].locked ensures OwnerHolds(t, l) {
      assert SameLock(s.locks[l], t.locks[l]) && OwnerHolds(s, l);
    }
    forall p: nat | p < |t.procs| && Freeing(t.procs[p].pc).Some?
      ensures (p, Freeing(t.procs[p].pc).value) in t.held {
      assert Passes(s.procs[p], t.procs[p]);
    }
  }

  lemma SamePasses(x: Proc)
    ensures Passes(x, x) && forall o: Opt :: Passes(x, x.(lock := o))
  {}

  // ------------------------------------------------------------------- a lock changes hands

  lemma LetInKeeps(s: State, c: nat, p: nat, l: nat, t: State)
    requires MutexInv(s) && p < |s.procs| && l < |s.locks| && !s.locks[l].locked && Alive(s.procs[p])
    requires t == Goto(LetIn(s, c, p, l), p, ReleaseL(l, Run)) && Freeing(s.procs[p].pc) == None
    ensures MutexInv(t)
  {
    assert Freeing(ReleaseL(l, Run)) == None && NoExit(ReleaseL(l, Run));
    forall q: nat, k: nat | (q, k) in t.held ensures HeldOk(t, q, k) {
      if (q, k) in s.held { assert HeldOk(s, q, k); }
    }
    forall k: nat | k < |t.locks| && t.locks[k].locked ensures OwnerHolds(t, k) {
      if k != l { assert OwnerHolds(s, k); }
    }
  }

  lemma ClearedKeeps(s: State, c: nat, p: nat, l: nat, t: State)
    requires MutexInv(s) && p < |s.procs| && l < |s.locks| && s.procs[p].pc == FreeAcq(l)
    requires t == Goto(Cleared(s, c, p, l), p, WakeAcq(l, 0))
    ensures MutexInv(t)
  {
    assert Freeing(s.procs[p].pc) == Some(l);
    assert Freeing(WakeAcq(l, 0)) == None && NoExit(WakeAcq(l, 0));
    assert HeldOk(s, p, l);
    forall q: nat, k: nat | (q, k) in t.held ensures HeldOk(t, q, k) {
      assert HeldOk(s, q, k);
    }
    forall k: nat | k < |t.locks| && t.locks[k].locked ensures OwnerHolds(t, k) {
      assert OwnerHolds(s, k);
    }
    forall q: nat | q < |t.procs| && Freeing(t.procs[q].pc).Some?
      ensures (q, Freeing(t.procs[q].pc).value) in t.held {
      assert (q, Freeing(s.procs[q].pc).value) in s.held;
      assert HeldOk(s, q, Freeing(s.procs[q].pc).value);
    }
  }

  // ------------------------------------------------------------------------- every step

  /** acquiresleep(), releasesleep() and yield(). */
  lemma SyncMutex(s: State, c: nat, p: nat)
    requires MutexInv(s) && p < |s.procs| && IsSync(s.procs[p].pc) && s.procs[p].state == Running
    ensures MutexInv(Sync(s, c, p))
  {
    hide MutexInv, Passes, SameHolders;
    var pc, t := s.procs[p].pc, Sync(s, c, p);
    if pc.LockAcq? && IsFreeL(s, pc.l) && !s.locks[pc.l].locked {
      RunningAlive(s.procs[p]);
      LetInKeeps(s, c, p, pc.l, t);
    } else if pc.FreeAcq? && IsFreeL(s, pc.l) {
      ClearedKeeps(s, c, p, pc.l, t);
    } else {
      SyncSame(s, c, p);
      forall q: nat | q < |s.procs| ensures Passes(s.procs[q], t.procs[q]) { SyncPasses(s, c, p, q); }
      PassesKeeps(s, t);
    }
  }

  lemma RunningAlive(x: Proc)
    requires x.state == Running && IsSync(x.pc) && !x.pc.YieldAcq?
    ensures Alive(x)
  {}

  lemma SyncSame(s: State, c: nat, p: nat)
    requires p < |s.procs| && IsSync(s.procs[p].pc)
    requires s.procs[p].pc.LockAcq? && IsFreeL(s, s.procs[p].pc.l) ==> s.locks[s.procs[p].pc.l].locked
    requires s.procs[p].pc.FreeAcq? ==> !IsFreeL(s, s.procs[p].pc.l)
    ensures SameHolders(s, Sync(s, c, p))
  {}

  lemma SyncPasses(s: State, c: nat, p: nat, q: nat)
    requires p < |s.procs| && q < |s.procs| && IsSync(s.procs[p].pc) && s.procs[p].state == Running
    requires s.procs[p].pc.LockAcq? && IsFreeL(s, s.procs[p].pc.l) ==> s.locks[s.procs[p].pc.l].locked
    requires s.procs[p].pc.FreeAcq? ==> !IsFreeL(s, s.procs[p].pc.l)
    ensures |Sync(s, c, p).procs| == |s.procs| && Passes(s.procs[q], Sync(s, c, p).procs[q])
  {
    hide Sync, Passes;
    if s.procs[p].pc.WakeAcq? { WakePasses(s, c, p, q); } else { LockPasses(s, c, p, q); }
  }

  lemma WakePasses(s: State, c: nat, p: nat, q: nat)
    requires p < |s.procs| && q < |s.procs| && s.procs[p].pc.WakeAcq? && s.procs[p].state == Running
    ensures |Sync(s, c, p).procs| == |s.procs| && Passes(s.procs[q], Sync(s, c, p).procs[q])
  {
    var pc := s.procs[p].pc;
    assert NoExit(Run) && Freeing(Run) == None;
    assert NoExit(WakeAcq(pc.l, pc.j + 1)) && Freeing(WakeAcq(pc.l, pc.j + 1)) == None;
  }

  lemma LockPasses(s: State, c: nat, p: nat, q: nat)
    requires p < |s.procs| && q < |s.procs| && IsSync(s.procs[p].pc) && s.procs[p].state == Running
      && !s.procs[p].pc.WakeAcq?
    requires s.procs[p].pc.LockAcq? && IsFreeL(s, s.procs[p].pc.l) ==> s.locks[s.procs[p].pc.l].locked
    requires s.procs[p].pc.FreeAcq? ==> !IsFreeL(s, s.procs[p].pc.l)
    ensures |Sync(s, c, p).procs| == |s.procs| && Passes(s.procs[q], Sync(s, c, p).procs[q])
  {
    var pc := s.procs[p].pc;
    if pc.LockOwn? { assert NoExit(LockSleep(pc.l)) && Freeing(LockSleep(pc.l)) == None; }
  }

  /** exit(): only processes that hold no sleep lock get there. */
  lemma ExitingMutex(s: State, c: nat, p: nat)
    requires MutexInv(s) && p < |s.procs| && IsExit(s.procs[p].pc)
    ensures MutexInv(Exiting(s, c, p))
  {
    hide MutexInv, Passes;
    var t := Exiting(s, c, p);
    forall q: nat | q < |s.procs| ensures |t.procs| == |s.procs| && Passes(s.procs[q], t.procs[q]) {
      ExitingPasses(s, c, p, q);
    }
    PassesKeeps(s, t);
  }

  lemma ExitingPasses(s: State, c: nat, p: nat, q: nat)
    requires p < |s.procs| && q < |s.procs| && IsExit(s.procs[p].pc)
    ensures |Exiting(s, c, p).procs| == |s.procs| && Passes(s.procs[q], Exiting(s, c, p).procs[q])
  {
    var x, pc := s.procs[p], s.procs[p].pc;
    assert !NoExit(pc) && Freeing(SelfAcq) == None;
    if pc.SelfAcq? && x.parent.Some? { assert Freeing(ParentAcq(x.parent.value)) == None; }
    if pc.OrphanAcq? { assert Freeing(Orphans(pc.op, pc.j + 1)) == None; }
  }

  /** wait(), fork() and kill(). */
  lemma FamilyMutex(s: State, c: nat, p: nat, a: Choice)
    requires MutexInv(s) && p < |s.procs| && IsFamily(s.procs[p].pc) && s.procs[p].state == Running
    ensures MutexInv(Family(s, c, p, a))
  {
    hide MutexInv, Passes, Family;
    var t := Family(s, c, p, a);
    FamilySame(s, c, p, a);
    forall q: nat | q < |s.procs| ensures Passes(s.procs[q], t.procs[q]) {
      if q == p { FamilyOwnPasses(s, c, p, a); } else { FamilyOthersPass(s, c, p, a, q); }
    }
    PassesKeeps(s, t);
  }

  lemma FamilySame(s: State, c: nat, p: nat, a: Choice)
    requires p < |s.procs|
    ensures SameHolders(s, Family(s, c, p, a))
  {}

  lemma FamilyOwnPasses(s: State, c: nat, p: nat, a: Choice)
    requires p < |s.procs| && IsFamily(s.procs[p].pc) && s.procs[p].state == Running
    ensures |Family(s, c, p, a).procs| == |s.procs| && Passes(s.procs[p], Family(s, c, p, a).procs[p])
  {
    hide Family;
    var pc := s.procs[p].pc;
    FamilyPc(s, c, p, a);
    assert NoExit(Run) && Freeing(Run) == None && NoExit(Release(p, Run)) && Freeing(Release(p, Run)) == None;
    if pc.WaitLock? {
      assert NoExit(WaitScan(pc.j + 1, true)) && Freeing(WaitScan(pc.j + 1, true)) == None;
    } else if pc.ForkAcq? {
      assert NoExit(ForkAcq(pc.j + 1)) && Freeing(ForkAcq(pc.j + 1)) == None;
    }
  }

  lemma FamilyOthersPass(s: State, c: nat, p: nat, a: Choice, q: nat)
    requires p < |s.procs| && q < |s.procs| && q != p && IsFamily(s.procs[p].pc)
    ensures |Family(s, c, p, a).procs| == |s.procs| && Passes(s.procs[q], Family(s, c, p, a).procs[q])
  {
    hide Family;
    if s.procs[p].pc.ForkAcq? || s.procs[p].pc.KillAcq? {
      ForkOthers(s, c, p, a, q);
    } else {
      WaitOthers(s, c, p, a, q);
    }
  }

  /** Everything else a thread does. */
  lemma PlainMutex(s: State, p: nat, a: Choice)
    requires MutexInv(s) && p < |s.procs|
    ensures MutexInv(Plain(s, p, a))
  {
    var t := Plain(s, p, a);
    if s.procs[p].pc.Run? {
      BeginsMutex(s, p, a);
    } else {
      hide MutexInv, Passes;
      PlainSame(s, p, a);
      forall q: nat | q < |s.procs| ensures Passes(s.procs[q], t.procs[q]) { PlainPasses(s, p, a, q); }
      PassesKeeps(s, t);
    }
  }

  lemma PlainSame(s: State, p: nat, a: Choice)
    requires p < |s.procs|
    ensures SameHolders(s, Plain(s, p, a))
  {}

  lemma PlainPasses(s: State, p: nat, a: Choice, q: nat)
    requires p < |s.procs| && q < |s.procs| && !s.procs[p].pc.Run?
    ensures |Plain(s, p, a).procs| == |s.procs| && Passes(s.procs[q], Plain(s, p, a).procs[q])
  {
    var pc := s.procs[p].pc;
    assert NoExit(Run) && Freeing(Run) == None;
    if pc.Resumed? && pc.r.AfterSleep? {
      assert NoExit(LockAcq(pc.r.l)) && Freeing(LockAcq(pc.r.l)) == None;
    }
  }

  lemma BeginsMutex(s: State, p: nat, a: Choice)
    requires MutexInv(s) && p < |s.procs| && s.procs[p].pc.Run?
    ensures MutexInv(Plain(s, p, a))
  {
    var next := Begins(s, p, a);
    var t := Plain(s, p, a);
    assert t == Goto(s, p, next);
    assert Freeing(next).Some? ==> HoldingSleep(s, p, Freeing(next).value) by {
      assert Freeing(Run) == None;
    }
    assert !NoExit(next) ==> forall l: nat :: !HoldingSleep(s, p, l) by { assert NoExit(Run); }
    hide Freeing, NoExit, Begins;
    forall q: nat, l: nat | (q, l) in t.held ensures HeldOk(t, q, l) {
      assert HeldOk(s, q, l);
    }
    forall l: nat | l < |t.locks| && t.locks[l].locked ensures OwnerHolds(t, l) {
      assert OwnerHolds(s, l);
    }
    forall q: nat | q < |t.procs| && Freeing(t.procs[q].pc).Some?
      ensures (q, Freeing(t.procs[q].pc).value) in t.held {
      if q == p { assert OwnerHolds(s, Freeing(next).value); }
    }
  }

  lemma ThreadMutex(s: State, c: nat, p: nat, a: Choice)
    requires MutexInv(s) && p < |s.procs| && s.procs[p].state == Want(s.procs[p].pc)
      && !s.procs[p].pc.Saving? && !s.procs[p].pc.Leaving?
    ensures MutexInv(Thread(s, c, p, a))
  {
    hide MutexInv, Sync, Exiting, Family, Plain, Passes;
    var pc, t := s.procs[p].pc, Thread(s, c, p, a);
    if a.Yield? && Preemptible(pc) {
      forall q: nat | q < |s.procs| ensures Passes(s.procs[q], t.procs[q]) {
        SamePasses(s.procs[q]);
        if q == p { YieldPasses(s.procs[p]); }
      }
      PassesKeeps(s, t);
    } else if IsSync(pc) {
      SyncMutex(s, c, p);
    } else if IsExit(pc) {
      ExitingMutex(s, c, p);
    } else if IsFamily(pc) {
      FamilyMutex(s, c, p, a);
    } else {
      PlainMutex(s, p, a);
    }
  }

  lemma YieldPasses(x: Proc)
    ensures Passes(x, x.(pc := YieldAcq(x.pc)))
  {}

  /** The scheduler loop and the halves of swtch(). */
  lemma LoopPasses(s: State, c: nat, a: Choice, q: nat)
    requires HandOff(s) && c < |s.cpus| && q < |s.procs|
    requires s.cpus[c].at.On? ==>
      s.cpus[c].at.p < |s.procs| && (s.procs[s.cpus[c].at.p].pc.Saving? || s.procs[s.cpus[c].at.p].pc.Leaving?)
    ensures |Step(s, c, a).procs| == |s.procs| && Passes(s.procs[q], Step(s, c, a).procs[q])
  {
    hide Thread;
    assert CpuOk(s, c);
  }

  lemma LoopSame(s: State, c: nat, a: Choice)
    requires c < |s.cpus|
    requires s.cpus[c].at.On? ==>
      s.cpus[c].at.p < |s.procs| && (s.procs[s.cpus[c].at.p].pc.Saving? || s.procs[s.cpus[c].at.p].pc.Leaving?)
    ensures SameHolders(s, Step(s, c, a))
  {
    hide Thread;
  }

  lemma StepKeepsMutex(s: State, c: nat, a: Choice)
    requires HandOff(s) && MutexInv(s) && c < |s.cpus|
    ensures MutexInv(Step(s, c, a))
  {
    hide MutexInv, Passes, SameHolders, Thread;
    var at, t := s.cpus[c].at, Step(s, c, a);
    if at.On? && at.p < |s.procs| && !s.procs[at.p].pc.Saving? && !s.procs[at.p].pc.Leaving? {
      assert CpuOk(s, c);
      ThreadMutex(s, c, at.p, a);
    } else if !at.On? || at.p < |s.procs| {
      LoopSame(s, c, a);
      forall q: nat | q < |s.procs| ensures |t.procs| == |s.procs| && Passes(s.procs[q], t.procs[q]) {
        LoopPasses(s, c, a, q);
      }
      PassesKeeps(s, t);
    }
  }

  /** In every state of every run from boot: mutual exclusion. */
  lemma {:induction false} MutualExclusion(s: State, steps: seq<(nat, Choice)>)
    requires Booted(s) && forall k :: 0 <= k < |steps| ==> steps[k].0 < |s.cpus|
    ensures var t := Runs(s, steps); MutexInv(t) && forall l: nat :: l < |t.locks| ==> Exclusive(t, l)
    decreases |steps|
  {
    if steps == [] {
      assert Freeing(Run) == None && Freeing(Forkret) == None;
    } else {
      hide MutexInv, HandOff, SleepInv, WaitInv, Step, Exclusive;
      var before, last := steps[..|steps| - 1], steps[|steps| - 1];
      MutualExclusion(s, before);
      RunInv(s, before);
      StepKeepsMutex(Runs(s, before), last.0, last.1);
      var t := Runs(s, steps);
      forall l: nat | l < |t.locks| ensures Exclusive(t, l) { OneHolder(t, l); }
    }
  }
}
