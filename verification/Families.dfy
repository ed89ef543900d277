/** Parents and children in kernel/proc.c, in every run of the scheduler's steps: a process
    asleep in wait() has a child and is not killed, and a process that is dead, or whose slot
    is free, has none. */
module Families {
  import opened Common
  import opened Scheduler

  /** How many slots exit() has gone through in reparent(). */
  function Swept(n: nat, pc: Pc): (k: nat)
  {
    if pc.Release? || pc.ReleaseL? then Swept(n, pc.next)
    else if pc.Orphans? || pc.OrphanAcq? then pc.j
    else if pc.Die? then n
    else if (pc.Saving? || pc.Leaving? || pc.Resumed?) && pc.r.Never? then n
    else 0
  }

  /** The slot a thread is about to lock as one of its children. */
  function Picked(pc: Pc): (o: Opt)
  {
    if pc.Release? || pc.ReleaseL? then Picked(pc.next) else if pc.WaitLock? || pc.OrphanAcq? then Some(pc.j) else None
  }

  /** wait() has seen a child. */
  predicate Sees(pc: Pc)
  {
    if pc.Release? || pc.ReleaseL? then Sees(pc.next)
    else if pc.WaitScan? then pc.kids
    else pc.WaitLock? || ((pc.Saving? || pc.Leaving? || pc.Resumed?) && pc.r.AfterWait?)
  }

  predicate InWait(p: nat, x: Proc) { x.state == Sleeping && x.chan == OnProc(p) }

  ghost predicate Childless(s: State, p: nat, k: nat)
  {
    forall q: nat :: q < |s.procs| && q < k ==> s.procs[q].parent != Some(p)
  }

  ghost predicate HasChild(s: State, p: nat) { exists q: nat :: q < |s.procs| && s.procs[q].parent == Some(p) }

  ghost predicate FamilyOk(s: State, p: nat)
    requires p < |s.procs|
  {
    var x := s.procs[p];
    && (x.state == Unused ==> x.parent == None)
    && (x.state == Unused || x.state == Zombie ==> Childless(s, p, |s.procs|))
    && Childless(s, p, Swept(|s.procs|, x.pc))
    && (Picked(x.pc).Some? ==> IsChild(s, p, Picked(x.pc).value))
    && (Sees(x.pc) ==> HasChild(s, p))
    && (InWait(p, x) ==> !x.killed && Sees(x.pc))
  }

  ghost predicate IsChild(s: State, p: nat, q: nat) { q < |s.procs| && s.procs[q].parent == Some(p) }

  /** init is there and does not exit. */
  ghost predicate InitOk(s: State)
  {
    && |s.procs| > 0 && NoExit(s.procs[INIT].pc)
    && s.procs[INIT].state != Unused && s.procs[INIT].state != Zombie
  }

  ghost predicate ChildInv(s: State) { InitOk(s) && forall p: nat :: p < |s.procs| ==> FamilyOk(s, p) }

  /** What the invariant says: no one waits for nothing or sleeps on after a kill, and no
      process has a dead or missing parent. */
  lemma FamilyLaw(s: State, p: nat)
    requires ChildInv(s) && p < |s.procs|
    ensures InWait(p, s.procs[p]) ==>
      !s.procs[p].killed && exists q: nat :: q < |s.procs| && s.procs[q].parent == Some(p)
    ensures s.procs[p].parent.Some? && s.procs[p].parent.value < |s.procs| ==>
      var op := s.procs[p].parent.value; s.procs[op].state != Unused && s.procs[op].state != Zombie
  {
    assert FamilyOk(s, p);
    if s.procs[p].parent.Some? && s.procs[p].parent.value < |s.procs| {
      assert FamilyOk(s, s.procs[p].parent.value);
    }
  }

  /** kill() that finds its process marks it, and takes it out of any sleep; of no other
      process does the mark, the state or the parent change. */
  lemma KillWakes(s: State, c: nat, p: nat, a: Choice)
    requires c < |s.cpus| && s.cpus[c].at == On(p) && p < |s.procs| && s.procs[p].pc.KillAcq?
      && IsFree(s, s.procs[p].pc.j) && !a.Stay? && !a.Yield?
    ensures var t, j := Step(s, c, a), s.procs[p].pc.j;
      && |t.procs| == |s.procs| && t.procs[j].killed && t.procs[j].state != Sleeping
      && (s.procs[j].state == Sleeping ==> t.procs[j].state == Runnable)
      && (s.procs[j].state != Sleeping ==> t.procs[j].state == s.procs[j].state)
      && forall q: nat :: q < |s.procs| && q != j ==>
        t.procs[q].killed == s.procs[q].killed && t.procs[q].state == s.procs[q].state
        && t.procs[q].parent == s.procs[q].parent
  {}

  // ------------------------------------------------------- steps that change no parent

  /** Another process's slot, as such a step leaves it. */
  ghost predicate Untouched(q: nat, x: Proc, y: Proc)
  {
    && y.pc == x.pc && y.parent == x.parent
    && (y.state == Unused <==> x.state == Unused) && (y.state == Zombie <==> x.state == Zombie)
    && (InWait(q, y) ==> InWait(q, x) && y.killed == x.killed)
  }

  /** The process whose step it is. */
  ghost predicate Moves(s: State, p: nat, y: Proc)
    requires p < |s.procs|
  {
    var x, n := s.procs[p], |s.procs|;
    && y.parent == x.parent && (y.state == Unused ==> x.state == Unused)
    && (y.state == Zombie ==> x.state == Zombie || Swept(n, x.pc) >= n)
    && (Swept(n, y.pc) <= Swept(n, x.pc)
        || (Swept(n, y.pc) == Swept(n, x.pc) + 1 && Swept(n, x.pc) < n && s.procs[Swept(n, x.pc)].parent != Some(p)))
    && (Picked(y.pc).Some? ==> Picked(y.pc) == Picked(x.pc) || IsChild(s, p, Picked(y.pc).value))
    && (Sees(y.pc) ==> Sees(x.pc) || Picked(y.pc).Some?)
    && (InWait(p, y) ==> !y.killed && Sees(y.pc))
    && (p == INIT && NoExit(x.pc) && x.state != Zombie ==> NoExit(y.pc) && y.state != Zombie)
  }

  ghost predicate SameParents(s: State, t: State)
  {
    |t.procs| == |s.procs| && forall q: nat :: q < |s.procs| ==> t.procs[q].parent == s.procs[q].parent
  }

  lemma SameChildren(s: State, t: State, p: nat, k: nat)
    requires SameParents(s, t)
    ensures (Childless(s, p, k) ==> Childless(t, p, k)) && (HasChild(s, p) ==> HasChild(t, p))
    ensures forall q: nat :: IsChild(s, p, q) ==> IsChild(t, p, q)
  {
    if HasChild(s, p) {
      var q: nat :| q < |s.procs| && s.procs[q].parent == Some(p);
      assert t.procs[q].parent == Some(p);
    }
  }

  lemma UntouchedOk(s: State, t: State, q: nat)
    requires SameParents(s, t) && q < |s.procs| && FamilyOk(s, q) && Untouched(q, s.procs[q], t.procs[q])
    ensures FamilyOk(t, q)
  {
    hide Swept, Sees, Picked, Childless, HasChild, IsChild, SameParents;
    SameSize(s, t);
    SameChildren(s, t, q, |s.procs|);
    SameChildren(s, t, q, Swept(|s.procs|, s.procs[q].pc));
  }

  lemma SameSize(s: State, t: State)
    requires SameParents(s, t)
    ensures |t.procs| == |s.procs|
  {}

  lemma MovesOk(s: State, t: State, p: nat)
    requires SameParents(s, t) && p < |s.procs| && FamilyOk(s, p) && Moves(s, p, t.procs[p])
    ensures FamilyOk(t, p)
  {
    hide Sees, Picked, HasChild, IsChild, Swept;
    var n := |s.procs|;
    SameChildren(s, t, p, n);
    SameChildren(s, t, p, Swept(n, s.procs[p].pc));
    var y := t.procs[p];
    if Picked(y.pc).Some? { PickedIsChild(t, p, Picked(y.pc).value); }
  }

  lemma PickedIsChild(t: State, p: nat, q: nat)
    ensures IsChild(t, p, q) ==> HasChild(t, p)
  {}

  lemma QuietKeeps(s: State, t: State, p: nat)
    requires ChildInv(s) && SameParents(s, t) && p < |s.procs| && Moves(s, p, t.procs[p])
    requires forall q: nat :: q < |s.procs| && q != p ==> Untouched(q, s.procs[q], t.procs[q])
    ensures ChildInv(t)
  {
    hide FamilyOk, SameParents;
    SameSize(s, t);
    forall q: nat | q < |t.procs| ensures FamilyOk(t, q) {
      assert FamilyOk(s, q);
      if q == p { MovesOk(s, t, p); } else { UntouchedOk(s, t, q); }
    }
    if p != INIT { assert Untouched(INIT, s.procs[INIT], t.procs[INIT]); }
  }

  // ------------------------------------------------------------ a child comes or goes

  /** Slot j, a child of p or no one's, gets another parent, and p goes on at a place where it
      claims nothing. */
  ghost predicate Resettles(s: State, t: State, p: nat, j: nat)
  {
    && |t.procs| == |s.procs| && p < |s.procs| && j < |s.procs| && j != p
    && (s.procs[j].parent == None || s.procs[j].parent == Some(p))
    && (forall q: nat :: q < |s.procs| && q != j && q != p ==> t.procs[q] == s.procs[q])
    && t.procs[p].parent == s.procs[p].parent && t.procs[p].state == s.procs[p].state == Running
    && Picked(t.procs[p].pc) == None && !Sees(t.procs[p].pc)
    && (p == INIT ==> NoExit(t.procs[p].pc))
  }

  lemma OthersOk(s: State, t: State, p: nat, j: nat, q: nat)
    requires ChildInv(s) && Resettles(s, t, p, j) && q < |s.procs| && q != p && q != j
    requires t.procs[j].parent == Some(q) ==> q == INIT
    ensures FamilyOk(t, q)
  {
    hide Swept, Sees, Picked;
    assert FamilyOk(s, q);
    if t.procs[j].parent == Some(q) { NotSwept(s, q); }
    if HasChild(s, q) {
      var k: nat :| k < |s.procs| && s.procs[k].parent == Some(q);
      assert t.procs[k].parent == Some(q);
    }
  }

  lemma NotSwept(s: State, q: nat)
    requires q < |s.procs| && NoExit(s.procs[q].pc)
    ensures Swept(|s.procs|, s.procs[q].pc) == 0
  {
    NoExitSwept(|s.procs|, s.procs[q].pc);
  }

  lemma {:induction false} NoExitSwept(n: nat, pc: Pc)
    requires NoExit(pc)
    ensures Swept(n, pc) == 0
    decreases pc
  {
    if pc.Release? || pc.ReleaseL? { NoExitSwept(n, pc.next); }
  }

  /** wait() frees a zombie child. */
  lemma ReapKeeps(s: State, c: nat, p: nat, t: State)
    requires ChildInv(s) && p < |s.procs| && s.procs[p].state == Running && s.procs[p].pc.WaitLock?
      && s.procs[p].pc.j != p
    requires var j := s.procs[p].pc.j;
      j < |s.procs| && s.procs[j].state == Zombie
        && t == Locked(s, c, p, j, Reaped(s.procs[j]), Release(j, Release(p, Run)))
    ensures ChildInv(t)
  {
    var j := s.procs[p].pc.j;
    assert FamilyOk(s, p) && FamilyOk(s, j) && IsChild(s, p, j);
    assert NoExit(Run) && Idle(|s.procs|, Run);
    IdleNext(|s.procs|, p, Run);
    IdleNext(|s.procs|, j, Release(p, Run));
    assert NoExit(Release(p, Run)) && NoExit(Release(j, Release(p, Run)));
    assert Resettles(s, t, p, j);
    forall q: nat | q < |t.procs| ensures FamilyOk(t, q) {
      if q != p && q != j { OthersOk(s, t, p, j, q); }
    }
  }

  /** fork() fills a slot. */
  lemma ForkKeeps(s: State, c: nat, p: nat, t: State)
    requires ChildInv(s) && p < |s.procs| && s.procs[p].state == Running && s.procs[p].pc.ForkAcq?
      && s.procs[p].pc.j != p
    requires var j := s.procs[p].pc.j;
      j < |s.procs| && s.procs[j].state == Unused && t == Locked(s, c, p, j, Child(s.procs[j], p), Release(j, Run))
    ensures ChildInv(t)
  {
    var j := s.procs[p].pc.j;
    assert FamilyOk(s, p) && FamilyOk(s, j);
    assert NoExit(Run) && Idle(|s.procs|, Run);
    IdleNext(|s.procs|, j, Run);
    assert NoExit(Release(j, Run));
    assert Resettles(s, t, p, j);
    forall q: nat | q < |t.procs| ensures FamilyOk(t, q) {
      if q != p && q != j { OthersOk(s, t, p, j, q); }
    }
  }

  /** exit() gives a child to init. */
  lemma OrphanKeeps(s: State, c: nat, p: nat, t: State)
    requires ChildInv(s) && 0 < p < |s.procs| && s.procs[p].state == Running && s.procs[p].pc.OrphanAcq?
      && s.procs[p].pc.j != p
    requires var op, j := s.procs[p].pc.op, s.procs[p].pc.j;
      && j < |s.procs|
      && t == Locked(s, c, p, j, s.procs[j].(parent := Some(INIT)), Release(j, Orphans(op, j + 1)))
    ensures ChildInv(t)
  {
    var op, j, n := s.procs[p].pc.op, s.procs[p].pc.j, |s.procs|;
    assert FamilyOk(s, p) && FamilyOk(s, j) && IsChild(s, p, j);
    assert !Sees(Orphans(op, j + 1)) && Swept(n, Orphans(op, j + 1)) == j + 1 && Picked(Orphans(op, j + 1)) == None;
    assert !Sees(Release(j, Orphans(op, j + 1))) && Swept(n, Release(j, Orphans(op, j + 1))) == j + 1;
    assert Resettles(s, t, p, j);
    forall q: nat | q < |t.procs| ensures FamilyOk(t, q) {
      if q == p {
        assert Childless(s, p, j) && Childless(t, p, j + 1);
      } else if q == j {
        OrphanOk(s, t, p, j);
      } else {
        OthersOk(s, t, p, j, q);
      }
    }
  }

  lemma OrphanOk(s: State, t: State, p: nat, j: nat)
    requires ChildInv(s) && Resettles(s, t, p, j) && t.procs[j].parent == Some(INIT) && s.procs[j].parent == Some(p)
    requires t.procs[j] == s.procs[j].(parent := Some(INIT), lock := t.procs[j].lock)
    ensures FamilyOk(t, j)
  {
    hide Swept, Sees, Picked;
    assert FamilyOk(s, j) && FamilyOk(s, INIT);
    if j == INIT { NotSwept(s, INIT); }
    if HasChild(s, j) {
      var k: nat :| k < |s.procs| && s.procs[k].parent == Some(j);
      assert t.procs[k].parent == Some(j);
    }
  }

  // ------------------------------------------------------------------------- every step

  /** A place that claims nothing about children. */
  predicate Idle(n: nat, pc: Pc) { Swept(n, pc) == 0 && Picked(pc) == None && !Sees(pc) }

  lemma IdleNext(n: nat, i: nat, pc: Pc)
    requires Idle(n, pc)
    ensures Idle(n, Release(i, pc)) && Idle(n, ReleaseL(i, pc))
    ensures NoExit(pc) ==> NoExit(Release(i, pc)) && NoExit(ReleaseL(i, pc))
  {}

  lemma SimplePlace(n: nat, pc: Pc)
    requires pc.Run? || pc.LockAcq? || pc.LockOwn? || pc.LockSleep? || pc.WakeAcq? || pc.ForkAcq?
      || pc == WaitScan(0, false) || ((pc.Saving? || pc.Leaving?) && pc.r.AfterSleep?)
    ensures Idle(n, pc) && NoExit(pc)
  {}

  lemma YieldPlace(n: nat, pc: Pc)
    requires pc.YieldAcq?
    ensures Idle(n, Saving(AfterYield(pc.next))) && (NoExit(pc) ==> NoExit(Saving(AfterYield(pc.next))))
  {}

  lemma IdleMoves(s: State, p: nat, y: Proc)
    requires p < |s.procs| && y.parent == s.procs[p].parent && y.state != Unused && y.state != Zombie && !InWait(p, y)
      && Idle(|s.procs|, y.pc) && (p == INIT && NoExit(s.procs[p].pc) ==> NoExit(y.pc))
    ensures Moves(s, p, y)
  {
    hide Swept, Sees, Picked, NoExit;
  }

  lemma SameMoves(s: State, p: nat)
    requires p < |s.procs| && FamilyOk(s, p)
    ensures Moves(s, p, s.procs[p])
  {
    hide Swept, Sees, Picked, NoExit;
  }

  lemma SameUntouched(q: nat, x: Proc)
    ensures Untouched(q, x, x) && forall o: Opt :: Untouched(q, x, x.(lock := o))
    ensures forall ch: Chan, o: Opt :: Untouched(q, x, Woken(x, ch).(lock := o)) && Untouched(q, x, Woken(x, ch))
    ensures forall o: Opt :: Untouched(q, x, Killed(x).(lock := o))
  {
    forall ch: Chan, o: Opt
      ensures Untouched(q, x, Woken(x, ch).(lock := o)) && Untouched(q, x, Woken(x, ch)) {
      WokenUntouched(q, x, ch, o);
    }
  }

  lemma WokenUntouched(q: nat, x: Proc, ch: Chan, o: Opt)
    ensures Untouched(q, x, Woken(x, ch).(lock := o)) && Untouched(q, x, Woken(x, ch))
  {}

  // acquiresleep(), releasesleep() and yield()

  lemma SyncOther(s: State, c: nat, p: nat, q: nat)
    requires p < |s.procs| && q < |s.procs| && q != p && IsSync(s.procs[p].pc)
    ensures |Sync(s, c, p).procs| == |s.procs| && Untouched(q, s.procs[q], Sync(s, c, p).procs[q])
  {
    SameUntouched(q, s.procs[q]);
    hide Untouched, Woken;
  }

  lemma SyncOwn(s: State, c: nat, p: nat)
    requires p < |s.procs| && IsSync(s.procs[p].pc) && s.procs[p].state == Running && FamilyOk(s, p)
    ensures |Sync(s, c, p).procs| == |s.procs| && Moves(s, p, Sync(s, c, p).procs[p])
  {
    hide Moves, FamilyOk, Idle, NoExit;
    SameMoves(s, p);
    var pc, n, y := s.procs[p].pc, |s.procs|, Sync(s, c, p).procs[p];
    if pc.YieldAcq? {
      YieldPlace(n, pc);
    } else {
      SimplePlace(n, Run);
      IdleNext(n, pc.l, Run);
      SimplePlace(n, LockOwn(pc.l));
      SimplePlace(n, WakeAcq(pc.l, 0));
      SimplePlace(n, LockSleep(pc.l));
      IdleNext(n, pc.l, LockSleep(pc.l));
      SimplePlace(n, Saving(AfterSleep(pc.l)));
      if pc.WakeAcq? {
        SimplePlace(n, WakeAcq(pc.l, pc.j + 1));
        IdleNext(n, pc.j, WakeAcq(pc.l, pc.j + 1));
      }
    }
    if y != s.procs[p] { IdleMoves(s, p, y); }
  }

  lemma SyncKept(s: State, c: nat, p: nat)
    requires ChildInv(s) && At(s, c, p) && IsSync(s.procs[p].pc)
    ensures ChildInv(Sync(s, c, p))
  {
    hide ChildInv, FamilyOk, At, Moves, Untouched, Sync;
    AtState(s, c, p);
    ChildOk(s, p);
    SyncOwn(s, c, p);
    var t := Sync(s, c, p);
    forall q: nat | q < |s.procs| && q != p ensures Untouched(q, s.procs[q], t.procs[q]) { SyncOther(s, c, p, q); }
    ParentsSame(s, t, p);
    QuietKeeps(s, t, p);
  }

  lemma ParentsSame(s: State, t: State, p: nat)
    requires p < |s.procs| == |t.procs| && Moves(s, p, t.procs[p])
      && forall q: nat :: q < |s.procs| && q != p ==> Untouched(q, s.procs[q], t.procs[q])
    ensures SameParents(s, t)
  {
    forall q: nat | q < |s.procs| ensures t.procs[q].parent == s.procs[q].parent {
      if q != p { assert Untouched(q, s.procs[q], t.procs[q]); }
    }
  }

  lemma ChildOk(s: State, p: nat)
    requires ChildInv(s) && p < |s.procs|
    ensures FamilyOk(s, p)
  {}

  // exit()

  lemma ExitOther(s: State, c: nat, p: nat, q: nat)
    requires p < |s.procs| && q < |s.procs| && q != p && IsExit(s.procs[p].pc) && !s.procs[p].pc.OrphanAcq?
    ensures |Exiting(s, c, p).procs| == |s.procs| && Untouched(q, s.procs[q], Exiting(s, c, p).procs[q])
  {
    SameUntouched(q, s.procs[q]);
    hide Untouched, Woken;
  }

  lemma ExitOwn(s: State, c: nat, p: nat)
    requires p < |s.procs| && IsExit(s.procs[p].pc) && s.procs[p].state == Running && FamilyOk(s, p)
      && !s.procs[p].pc.OrphanAcq? && p != INIT
    ensures |Exiting(s, c, p).procs| == |s.procs| && Moves(s, p, Exiting(s, c, p).procs[p])
  {
    hide Exiting, FamilyOk, Moves;
    if s.procs[p].pc.Orphans? || s.procs[p].pc.Die? { SweepOwn(s, c, p); } else { LeaveOwn(s, c, p); }
  }

  lemma LeaveOwn(s: State, c: nat, p: nat)
    requires p < |s.procs| && s.procs[p].state == Running && FamilyOk(s, p) && p != INIT && var pc := s.procs[p].pc;
      pc.InitAcq? || pc.SelfAcq? || pc.ParentAcq? || pc.SelfAgain?
    ensures |Exiting(s, c, p).procs| == |s.procs| && Moves(s, p, Exiting(s, c, p).procs[p])
  {
    SameMoves(s, p);
    hide Moves, FamilyOk;
    var x, pc, n, y := s.procs[p], s.procs[p].pc, |s.procs|, Exiting(s, c, p).procs[p];
    assert Idle(n, SelfAcq);
    if pc.SelfAcq? && x.parent.Some? {
      var next := ParentAcq(x.parent.value);
      assert Idle(n, next);
    } else if pc.SelfAgain? {
      assert Idle(n, Orphans(pc.op, 0));
    }
    if y != x { IdleMoves(s, p, y); }
  }

  lemma SweepOwn(s: State, c: nat, p: nat)
    requires p < |s.procs| && s.procs[p].state == Running && FamilyOk(s, p) && p != INIT
      && (s.procs[p].pc.Orphans? || s.procs[p].pc.Die?)
    ensures |Exiting(s, c, p).procs| == |s.procs| && Moves(s, p, Exiting(s, c, p).procs[p])
  {
    var pc, n := s.procs[p].pc, |s.procs|;
    if pc.Die? { assert Swept(n, Saving(Never(pc.op))) == n && !Sees(Saving(Never(pc.op))); }
  }

  lemma ExitKeeps(s: State, c: nat, p: nat)
    requires ChildInv(s) && At(s, c, p) && IsExit(s.procs[p].pc)
    ensures ChildInv(Exiting(s, c, p))
  {
    hide ChildInv, FamilyOk, At, Moves, Untouched;
    AtState(s, c, p);
    ChildOk(s, p);
    NotInit(s, p);
    var pc, t := s.procs[p].pc, Exiting(s, c, p);
    if pc.OrphanAcq? {
      if IsFree(s, pc.j) {
        NeededNotFree(s, c, p, pc.j);
        OrphanKeeps(s, c, p, t);
      }
    } else {
      hide Exiting;
      ExitOwn(s, c, p);
      forall q: nat | q < |s.procs| && q != p ensures Untouched(q, s.procs[q], t.procs[q]) { ExitOther(s, c, p, q); }
      ParentsSame(s, t, p);
      QuietKeeps(s, t, p);
    }
  }

  lemma NotInit(s: State, p: nat)
    requires ChildInv(s) && p < |s.procs| && IsExit(s.procs[p].pc)
    ensures p > 0
  {}

  // wait(), fork() and kill(), but for reaping and filling a slot

  ghost predicate Plainly(s: State, p: nat, a: Choice)
    requires p < |s.procs|
  {
    var pc := s.procs[p].pc;
    && (pc.WaitLock? && IsFree(s, pc.j) ==> a.Stay? || s.procs[pc.j].state != Zombie)
    && (pc.ForkAcq? && IsFree(s, pc.j) ==> a.Stay? || s.procs[pc.j].state != Unused)
  }

  lemma FamilyOther(s: State, c: nat, p: nat, a: Choice, q: nat)
    requires p < |s.procs| && q < |s.procs| && q != p && IsFamily(s.procs[p].pc) && Plainly(s, p, a)
    ensures |Family(s, c, p, a).procs| == |s.procs| && Untouched(q, s.procs[q], Family(s, c, p, a).procs[q])
  {
    SameUntouched(q, s.procs[q]);
    hide Untouched, Killed;
  }

  lemma ForkOwn(s: State, c: nat, p: nat, a: Choice)
    requires p < |s.procs| && s.procs[p].state == Running && FamilyOk(s, p)
      && (s.procs[p].pc.ForkAcq? || s.procs[p].pc.KillAcq? || s.procs[p].pc.WaitAcq?) && Plainly(s, p, a)
    ensures |Family(s, c, p, a).procs| == |s.procs| && Moves(s, p, Family(s, c, p, a).procs[p])
  {
    hide Moves, FamilyOk, Idle, NoExit;
    SameMoves(s, p);
    var pc, n, y := s.procs[p].pc, |s.procs|, Family(s, c, p, a).procs[p];
    SimplePlace(n, Run);
    SimplePlace(n, WaitScan(0, false));
    if !pc.WaitAcq? { IdleNext(n, pc.j, Run); }
    if pc.ForkAcq? {
      SimplePlace(n, ForkAcq(pc.j + 1));
      IdleNext(n, pc.j, ForkAcq(pc.j + 1));
    }
    if y != s.procs[p] { IdleMoves(s, p, y); }
  }

  lemma ScanOwn(s: State, c: nat, p: nat, a: Choice)
    requires p < |s.procs| && s.procs[p].state == Running && FamilyOk(s, p) && s.procs[p].pc.WaitScan?
    ensures |Family(s, c, p, a).procs| == |s.procs| && Moves(s, p, Family(s, c, p, a).procs[p])
  {
    hide FamilyOk, Moves, Idle, NoExit;
    var pc, n, y := s.procs[p].pc, |s.procs|, Family(s, c, p, a).procs[p];
    if pc.j < n {
      ScanMoves(s, p, y);
    } else if !pc.kids || s.procs[p].killed {
      SimplePlace(n, Run);
      IdleNext(n, p, Run);
      IdleMoves(s, p, y);
    } else {
      SleepMoves(s, p, y);
    }
  }

  lemma ScanMoves(s: State, p: nat, y: Proc)
    requires p < |s.procs| && s.procs[p].state == Running && s.procs[p].pc.WaitScan? && s.procs[p].pc.j < |s.procs|
    requires var pc := s.procs[p].pc;
      y == s.procs[p].(pc := if s.procs[pc.j].parent == Some(p) then WaitLock(pc.j) else WaitScan(pc.j + 1, pc.kids))
    ensures Moves(s, p, y)
  {}

  lemma SleepMoves(s: State, p: nat, y: Proc)
    requires p < |s.procs| && s.procs[p].pc.WaitScan? && s.procs[p].pc.kids && !s.procs[p].killed
      && y == s.procs[p].(chan := OnProc(p), state := Sleeping, pc := Saving(AfterWait))
    ensures Moves(s, p, y)
  {}

  lemma PickOwn(s: State, c: nat, p: nat, a: Choice)
    requires p < |s.procs| && s.procs[p].state == Running && FamilyOk(s, p) && s.procs[p].pc.WaitLock?
      && Plainly(s, p, a)
      && s.procs[p].pc.j != p
    ensures |Family(s, c, p, a).procs| == |s.procs| && Moves(s, p, Family(s, c, p, a).procs[p])
  {
    var pc, n := s.procs[p].pc, |s.procs|;
    assert Idle(n, Run) && NoExit(Run);
    assert Idle(n, Release(p, Run)) && NoExit(Release(p, Run));
    var next := WaitScan(pc.j + 1, true);
    assert Swept(n, next) == 0 && NoExit(next) && Picked(next) == None;
  }

  lemma FamilyKept(s: State, c: nat, p: nat, a: Choice)
    requires ChildInv(s) && At(s, c, p) && IsFamily(s.procs[p].pc)
    ensures ChildInv(Family(s, c, p, a))
  {
    hide ChildInv, FamilyOk, At, Moves, Untouched, Reaped, Child;
    AtState(s, c, p);
    ChildOk(s, p);
    var pc, t := s.procs[p].pc, Family(s, c, p, a);
    if pc.WaitLock? && IsFree(s, pc.j) { NeededNotFree(s, c, p, pc.j); }
    if pc.WaitLock? && IsFree(s, pc.j) && !a.Stay? && s.procs[pc.j].state == Zombie {
      ReapKeeps(s, c, p, t);
    } else if pc.ForkAcq? && IsFree(s, pc.j) && !a.Stay? && s.procs[pc.j].state == Unused {
      ForkKeeps(s, c, p, t);
    } else if pc.WaitLock? && !IsFree(s, pc.j) {
      assert t == s;
    } else {
      hide Family;
      if pc.WaitScan? {
        ScanOwn(s, c, p, a);
      } else if pc.WaitLock? {
        PickOwn(s, c, p, a);
      } else {
        ForkOwn(s, c, p, a);
      }
      forall q: nat | q < |s.procs| && q != p ensures Untouched(q, s.procs[q], t.procs[q]) {
        FamilyOther(s, c, p, a, q);
      }
      ParentsSame(s, t, p);
      QuietKeeps(s, t, p);
    }
  }

  // everything else a thread does

  lemma PlainOther(s: State, p: nat, a: Choice, q: nat)
    requires p < |s.procs| && q < |s.procs| && q != p
    ensures |Plain(s, p, a).procs| == |s.procs| && Untouched(q, s.procs[q], Plain(s, p, a).procs[q])
  {
    SameUntouched(q, s.procs[q]);
    hide Untouched;
  }

  lemma PlainOwn(s: State, p: nat, a: Choice)
    requires p < |s.procs| && FamilyOk(s, p) && OnThread(p, s.procs[p])
      && !s.procs[p].pc.Saving? && !s.procs[p].pc.Leaving?
    ensures |Plain(s, p, a).procs| == |s.procs| && Moves(s, p, Plain(s, p, a).procs[p])
  {
    hide Plain, FamilyOk, Moves;
    var pc := s.procs[p].pc;
    if pc.Release? || pc.ReleaseL? { ReleaseOwn(s, p, a); } else { RunOwn(s, p, a); }
  }

  lemma ReleaseOwn(s: State, p: nat, a: Choice)
    requires p < |s.procs| && FamilyOk(s, p) && (s.procs[p].pc.Release? || s.procs[p].pc.ReleaseL?)
    ensures |Plain(s, p, a).procs| == |s.procs| && Moves(s, p, Plain(s, p, a).procs[p])
  {}

  lemma RunOwn(s: State, p: nat, a: Choice)
    requires p < |s.procs| && FamilyOk(s, p) && OnThread(p, s.procs[p]) && var pc := s.procs[p].pc;
      !pc.Saving? && !pc.Leaving? && !pc.Release? && !pc.ReleaseL?
    ensures |Plain(s, p, a).procs| == |s.procs| && Moves(s, p, Plain(s, p, a).procs[p])
  {
    hide Moves, FamilyOk, Idle, NoExit;
    SameMoves(s, p);
    var pc, n, y := s.procs[p].pc, |s.procs|, Plain(s, p, a).procs[p];
    SimplePlace(n, Run);
    IdleNext(n, p, Run);
    SimplePlace(n, WaitScan(0, false));
    if pc.Run? {
      BeginsIdle(n, s, p, a);
    } else if pc.Resumed? && pc.r.AfterSleep? {
      SimplePlace(n, LockAcq(pc.r.l));
      IdleNext(n, p, LockAcq(pc.r.l));
    } else if pc.Resumed? && pc.r.AfterYield? {
      PausedIdle(n, pc.r.next);
      IdleNext(n, p, pc.r.next);
    }
    if y != s.procs[p] { IdleMoves(s, p, y); }
  }

  lemma BeginsIdle(n: nat, s: State, p: nat, a: Choice)
    ensures Idle(n, Begins(s, p, a)) && (p == INIT ==> NoExit(Begins(s, p, a)))
  {
    assert Idle(n, Run) && NoExit(Run);
  }

  lemma PausedIdle(n: nat, pc: Pc)
    requires Preemptible(pc)
    ensures Idle(n, pc) && (NoExit(Resumed(AfterYield(pc))) ==> NoExit(pc))
  {}

  lemma PlainKept(s: State, c: nat, p: nat, a: Choice)
    requires ChildInv(s) && At(s, c, p) && !s.procs[p].pc.Saving? && !s.procs[p].pc.Leaving?
    ensures ChildInv(Plain(s, p, a))
  {
    hide ChildInv, FamilyOk, At, Moves, Untouched, Plain;
    AtState(s, c, p);
    ChildOk(s, p);
    PlainOwn(s, p, a);
    var t := Plain(s, p, a);
    forall q: nat | q < |s.procs| && q != p ensures Untouched(q, s.procs[q], t.procs[q]) { PlainOther(s, p, a, q); }
    ParentsSame(s, t, p);
    QuietKeeps(s, t, p);
  }

  lemma ThreadKept(s: State, c: nat, p: nat, a: Choice)
    requires ChildInv(s) && At(s, c, p) && !s.procs[p].pc.Saving? && !s.procs[p].pc.Leaving?
    ensures ChildInv(Thread(s, c, p, a))
  {
    hide ChildInv, At, Sync, Exiting, Family, Plain;
    AtState(s, c, p);
    var pc := s.procs[p].pc;
    if a.Yield? && Preemptible(pc) {
      YieldKept(s, p);
    } else if IsSync(pc) {
      SyncKept(s, c, p);
    } else if IsExit(pc) {
      ExitKeeps(s, c, p);
    } else if IsFamily(pc) {
      FamilyKept(s, c, p, a);
    } else {
      PlainKept(s, c, p, a);
    }
  }

  lemma YieldKept(s: State, p: nat)
    requires ChildInv(s) && p < |s.procs| && Preemptible(s.procs[p].pc) && s.procs[p].state == Want(s.procs[p].pc)
    ensures ChildInv(Goto(s, p, YieldAcq(s.procs[p].pc)))
  {
    hide ChildInv, FamilyOk;
    var t := Goto(s, p, YieldAcq(s.procs[p].pc));
    ChildOk(s, p);
    IdleMoves(s, p, t.procs[p]);
    forall q: nat | q < |s.procs| && q != p ensures Untouched(q, s.procs[q], t.procs[q]) {
      SameUntouched(q, s.procs[q]);
    }
    hide Moves, Untouched;
    ParentsSame(s, t, p);
    QuietKeeps(s, t, p);
  }

  // the scheduler loop and the halves of swtch()

  lemma LoopOther(s: State, c: nat, a: Choice, q: nat)
    requires c < |s.cpus| && q < |s.procs| && !s.cpus[c].at.On?
    ensures |Step(s, c, a).procs| == |s.procs| && Untouched(q, s.procs[q], Step(s, c, a).procs[q])
  {
    hide Thread;
  }

  lemma SwitchOwn(s: State, p: nat, y: Proc)
    requires p < |s.procs| && FamilyOk(s, p) && y.parent == s.procs[p].parent && y.state == s.procs[p].state
      && y.chan == s.procs[p].chan && y.killed == s.procs[p].killed
    requires (s.procs[p].pc.Saving? && y.pc == Leaving(s.procs[p].pc.r))
      || (s.procs[p].pc.Leaving? && y.pc == Resumed(s.procs[p].pc.r))
    ensures Moves(s, p, y)
  {}

  lemma StepKeepsFamilies(s: State, c: nat, a: Choice)
    requires HandOff(s) && ChildInv(s) && c < |s.cpus|
    ensures ChildInv(Step(s, c, a))
  {
    hide ChildInv, FamilyOk, Moves, Untouched, Thread, HandOff;
    var at, t := s.cpus[c].at, Step(s, c, a);
    if !at.On? {
      forall q: nat | q < |s.procs| ensures |t.procs| == |s.procs| && Untouched(q, s.procs[q], t.procs[q]) {
        LoopOther(s, c, a, q);
      }
      LoopKept(s, t);
    } else if at.p < |s.procs| {
      var p := at.p;
      ChildOk(s, p);
      if s.procs[p].pc.Saving? || s.procs[p].pc.Leaving? {
        SwitchOwn(s, p, t.procs[p]);
        forall q: nat | q < |s.procs| && q != p ensures Untouched(q, s.procs[q], t.procs[q]) {
          SameUntouched(q, s.procs[q]);
        }
        ParentsSame(s, t, p);
        QuietKeeps(s, t, p);
      } else {
        assert At(s, c, p);
        ThreadKept(s, c, p, a);
      }
    }
  }

  lemma LoopKept(s: State, t: State)
    requires ChildInv(s) && |t.procs| == |s.procs|
      && forall q: nat :: q < |s.procs| ==> Untouched(q, s.procs[q], t.procs[q])
    ensures ChildInv(t)
  {
    assert FamilyOk(s, INIT) && Untouched(INIT, s.procs[INIT], t.procs[INIT]);
    hide FamilyOk;
    forall q: nat | q < |t.procs| ensures FamilyOk(t, q) {
      assert FamilyOk(s, q) && Untouched(q, s.procs[q], t.procs[q]);
      assert SameParents(s, t) by {
        forall k: nat | k < |s.procs| ensures t.procs[k].parent == s.procs[k].parent {
          assert Untouched(k, s.procs[k], t.procs[k]);
        }
      }
      UntouchedOk(s, t, q);
    }
  }

  /** In every state of every run from boot. */
  lemma {:induction false} RunFamilies(s: State, steps: seq<(nat, Choice)>)
    requires Booted(s) && forall k :: 0 <= k < |steps| ==> steps[k].0 < |s.cpus|
    ensures ChildInv(Runs(s, steps))
    decreases |steps|
  {
    if steps == [] {
      assert Idle(|s.procs|, Run) && Idle(|s.procs|, Forkret) && NoExit(Forkret);
    } else {
      hide ChildInv, HandOff, SleepInv, WaitInv, Step;
      var before, last := steps[..|steps| - 1], steps[|steps| - 1];
      RunFamilies(s, before);
      RunInv(s, before);
      StepKeepsFamilies(Runs(s, before), last.0, last.1);
    }
  }
}
