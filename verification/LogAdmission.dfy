/** Whom begin_op of kernel/log.c lets in: exactly those for whom the log has a full budget
    left, which is three operations at once and no more. */
module LogAdmission {
  import opened Common
  import opened LogProtocol
  import opened DiskLog

  /** The processes inside an operation. */
  ghost function Running(procs: seq<Phase>): (s: set<nat>) { set p: nat | p < |procs| && procs[p].Active? }

  lemma {:induction false} RunningCount(procs: seq<Phase>)
    ensures ActiveCount(procs) == |Running(procs)| <= |procs|
    decreases |procs|
  {
    if procs == [] {
      assert Running(procs) == {};
    } else {
      var n := |procs| - 1;
      RunningCount(procs[..n]);
      assert Running(procs) == Running(procs[..n]) + if procs[n].Active? then {n} else {};
    }
  }

  /** In every state of every run, begin_op lets a process in exactly when no commit is under
      way and, beside what is logged, ten blocks are left for it and for each of the others. */
  lemma AdmitsExactly(states: seq<Sys>, actions: seq<Action>, n: nat, p: nat, t: Sys)
    requires Run(states, actions) && n < |states| && Step(states[n], BeginOp(p), t)
    ensures p < |t.procs| == |states[n].procs|
    ensures var s := states[n];
      if !SomeCommitter(s.procs) && |s.lh| + 10 * (|Running(s.procs)| + 1) <= 30
      then Running(t.procs) == Running(s.procs) + {p} else t.procs[p].Asleep? && Running(t.procs) == Running(s.procs)
  {
    hide Run, Inv, SomeCommitter, Commitable, Plan;
    RunInvariant(states, actions, n);
    CommitterIs(states[n]);
    RunningCount(states[n].procs);
  }

  lemma CommitterIs(s: Sys)
    requires Inv(s)
    ensures s.committing <==> SomeCommitter(s.procs)
    ensures s.outstanding == ActiveCount(s.procs)
  {
    hide Data, Whole, SleepersWait;
  }

  lemma FewStep(s: Sys, a: Action, t: Sys)
    requires s.outstanding <= 3 && Step(s, a, t)
    ensures t.outstanding <= 3
  {
    hide Commitable, Plan, DiskLog.Readable, DiskLog.RecoverWrites, WakeAll;
  }

  lemma {:induction false} FewRun(states: seq<Sys>, actions: seq<Action>, n: nat)
    requires Run(states, actions) && n < |states|
    ensures states[n].outstanding <= 3 && |states[n].procs| == |states[0].procs|
  {
    if n > 0 {
      FewRun(states, actions, n - 1);
      hide Init;
      assert Step(states[n - 1], actions[n - 1], states[n]);
      SameShape(states[n - 1], actions[n - 1], states[n]);
      FewStep(states[n - 1], actions[n - 1], states[n]);
    }
  }

  /** The first k processes begin an operation each. */
  lemma {:induction false} Begins(s: Sys, k: nat) returns (t: Sys)
    requires Init(s) && k <= 3 && k <= |s.procs|
    ensures ReachedFrom(s, t) && t.mode.Up? && !t.committing && t.lh == [] && t.outstanding == k
    ensures |t.procs| == |s.procs|
    ensures forall p :: 0 <= p < |s.procs| ==> if p < k then t.procs[p].Active? else t.procs[p].Idle?
  {
    if k == 0 {
      t := s;
      assert Run([s], []);
    } else {
      var u := Begins(s, k - 1);
      hide ReachedFrom;
      t := u.(procs := u.procs[k - 1 := Active(u.nextId, 0, false)], outstanding := k, nextId := u.nextId + 1);
      assert Step(u, BeginOp(k - 1), t);
      Extend(s, u, BeginOp(k - 1), t);
    }
  }

  /** As many operations as three can run at once, and never more. */
  lemma ConcurrencyExactly(s: Sys, k: nat)
    requires Init(s)
    ensures (exists t :: ReachedFrom(s, t) && |Running(t.procs)| == k) <==> k <= 3 && k <= |s.procs|
  {
    if k <= 3 && k <= |s.procs| {
      var t := Begins(s, k);
      assert Running(t.procs) == Range(0, k);
      assert ReachedFrom(s, t) && |Running(t.procs)| == k;
    }
    forall t | ReachedFrom(s, t) ensures |Running(t.procs)| <= 3 && |Running(t.procs)| <= |s.procs| {
      var states, actions :| Run(states, actions) && states[0] == s && states[|states| - 1] == t;
      hide Run, Inv;
      FewRun(states, actions, |states| - 1);
      RunInvariant(states, actions, |states| - 1);
      CommitterIs(t);
      RunningCount(t.procs);
    }
  }
}
