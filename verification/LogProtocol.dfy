/** Group commit: any number of processes running begin_op, log_write and end_op of
    kernel/log.c in any interleaving, with crashes anywhere, as a transition system
    whose steps are the stretches of code under log.lock and the single disk writes
    of commit and recovery.

    log_write is two steps because its space test runs before it takes the lock. */
module LogProtocol {
  import opened Common
  import opened Blocks
  import opened DiskLog

  /** Where a process is: outside or retrying begin_op; asleep in begin_op; inside
      operation id having added `spent` new blocks, and past the test of log_write or
      not; or in commit() with k disk writes done. */
  datatype Phase =
    | Idle
    | Asleep
    | Active(id: nat, spent: nat, tested: bool)
    | Committing(k: nat)

  /** Running; replaying the log found on disk `from` with k writes done; or stopped:
      by a panic, or past the end of the log area. */
  datatype Mode = Up | Recovering(from: Image, k: nat) | Panicked | Overrun

  /** One logged block of one operation. */
  datatype Entry = Entry(op: nat, w: Write)

  datatype Sys = Sys(
    l: Layout,
    disk: Image,
    mode: Mode,
    procs: seq<Phase>,
    lh: seq<nat>,
    pending: map<nat, Block>,
    outstanding: int,
    committing: bool,
    base: Image,          // the disk when the running commit began
    d0: Image,            // the disk the run started from
    hist: seq<Entry>,     // every block logged and not lost, oldest first
    start: nat,           // where the current transaction starts in hist
    cut: nat,             // what is committed: hist[..cut]
    nextId: nat)

  datatype Action =
    | BeginOp(p: nat)
    | TestSpace(p: nat)
    | LogWrite(p: nat, b: nat, data: Block)
    | EndOp(p: nat)
    | CommitStep(p: nat)
    | Crash
    | RecoverStep

  // ------------------------------------------------------------------ helpers

  function WakeAll(procs: seq<Phase>): (r: seq<Phase>)
    ensures |r| == |procs|
    ensures forall i :: 0 <= i < |procs| ==> r[i] == if procs[i].Asleep? then Idle else procs[i]
  {
    seq(|procs|, i requires 0 <= i < |procs| => if procs[i].Asleep? then Idle else procs[i])
  }

  /** The test of begin_op that makes it sleep. */
  predicate MustWait(s: Sys) { s.committing || |s.lh| + (s.outstanding + 1) * MAXOPBLOCKS > LOGSIZE }

  ghost function Writes(h: seq<Entry>): (ws: seq<Write>)
    ensures |ws| == |h|
    ensures forall i :: 0 <= i < |h| ==> ws[i] == h[i].w
  {
    seq(|h|, i requires 0 <= i < |h| => h[i].w)
  }

  ghost predicate Commitable(l: Layout, base: Image, lh: seq<nat>, pending: map<nat, Block>)
  {
    l.Fits(base) && ValidHomes(l, base, lh) && forall k :: 0 <= k < |lh| ==> lh[k] in pending
  }

  /** The writes of a commit of the given transaction on disk `base`. */
  ghost function Plan(l: Layout, base: Image, lh: seq<nat>, pending: map<nat, Block>): (ws: seq<Write>)
    requires Commitable(l, base, lh, pending)
    ensures WritesFit(base, ws)
  {
    if lh == [] then [] else CommitWrites(l, base, lh, DataOf(lh, pending))
  }

  // -------------------------------------------------------------------- steps

  predicate Runs(s: Sys, p: nat) { s.mode.Up? && p < |s.procs| }

  ghost predicate BeginOpStep(s: Sys, p: nat, t: Sys)
  {
    && Runs(s, p) && s.procs[p].Idle?
    && t == if MustWait(s) then s.(procs := s.procs[p := Asleep])
            else s.(procs := s.procs[p := Active(s.nextId, 0, false)],
                    outstanding := s.outstanding + 1, nextId := s.nextId + 1)
  }

  ghost predicate TestSpaceStep(s: Sys, p: nat, t: Sys)
  {
    && Runs(s, p) && s.procs[p].Active? && !s.procs[p].tested
    && t == if |s.lh| >= LOGSIZE || |s.lh| >= s.l.size - 1 || s.outstanding < 1 then s.(mode := Panicked)
            else s.(procs := s.procs[p := s.procs[p].(tested := true)])
  }

  /** The locked part of log_write. Operations stay within their budget: one that adds
      a block to the log has added fewer than MAXOPBLOCKS before. */
  ghost predicate LogWriteStep(s: Sys, p: nat, b: nat, data: Block, t: Sys)
  {
    && Runs(s, p) && s.procs[p].Active? && s.procs[p].tested
    && b < |s.disk| && !s.l.InLog(b)
    && (b !in s.lh ==> s.procs[p].spent < MAXOPBLOCKS)
    && t == s.(pending := s.pending[b := data],
               hist := s.hist + [Entry(s.procs[p].id, Write(b, data))],
               lh := if b in s.lh then s.lh else s.lh + [b],
               procs := s.procs[p := Active(s.procs[p].id, s.procs[p].spent + (if b in s.lh then 0 else 1), false)])
  }

  ghost predicate EndOpStep(s: Sys, p: nat, t: Sys)
  {
    && Runs(s, p) && s.procs[p].Active? && !s.procs[p].tested
    && t == if s.committing then s.(mode := Panicked)
            else if s.outstanding - 1 != 0 then
              s.(outstanding := s.outstanding - 1, procs := WakeAll(s.procs[p := Idle]))
            else if |s.lh| >= s.l.size then s.(mode := Overrun)
            else s.(outstanding := 0, committing := true, base := s.disk, procs := s.procs[p := Committing(0)])
  }

  ghost predicate CommitStepStep(s: Sys, p: nat, t: Sys)
  {
    && Runs(s, p) && s.procs[p].Committing? && Commitable(s.l, s.base, s.lh, s.pending) && |s.base| == |s.disk|
    && var k, ws := s.procs[p].k, Plan(s.l, s.base, s.lh, s.pending);
    && k <= |ws|
    && t == if k < |ws| then
              s.(disk := s.disk[ws[k].bno := ws[k].data], procs := s.procs[p := Committing(k + 1)],
                 cut := if k == |s.lh| then |s.hist| else s.cut)
            else
              s.(committing := false, lh := [], pending := map[], start := |s.hist|, cut := |s.hist|,
                 procs := WakeAll(s.procs[p := Idle]))
  }

  /** Power fails: only the disk survives, and with it the committed history. */
  ghost predicate CrashStep(s: Sys, t: Sys)
  {
    && !s.mode.Overrun? && s.cut <= |s.hist|
    && t == s.(mode := Recovering(s.disk, 0), procs := seq(|s.procs|, i => Idle),
               lh := [], pending := map[], outstanding := 0, committing := false,
               hist := s.hist[..s.cut], start := s.cut)
  }

  ghost predicate RecoverStepStep(s: Sys, t: Sys)
  {
    && s.mode.Recovering? && Readable(s.l, s.mode.from) && |s.mode.from| == |s.disk|
    && var k, ws := s.mode.k, RecoverWrites(s.l, s.mode.from);
    && k <= |ws|
    && t == if k < |ws| then s.(disk := s.disk[ws[k].bno := ws[k].data], mode := Recovering(s.mode.from, k + 1))
            else s.(mode := Up)
  }

  ghost predicate Step(s: Sys, a: Action, t: Sys)
  {
    match a
    case BeginOp(p) => BeginOpStep(s, p, t)
    case TestSpace(p) => TestSpaceStep(s, p, t)
    case LogWrite(p, b, data) => LogWriteStep(s, p, b, data, t)
    case EndOp(p) => EndOpStep(s, p, t)
    case CommitStep(p) => CommitStepStep(s, p, t)
    case Crash => CrashStep(s, t)
    case RecoverStep => RecoverStepStep(s, t)
  }

  ghost predicate Init(s: Sys)
  {
    && EmptyLog(s.l, s.disk) && s.d0 == s.disk && s.mode == Up
    && (forall p :: 0 <= p < |s.procs| ==> s.procs[p] == Idle)
    && s.lh == [] && s.pending == map[] && s.outstanding == 0 && !s.committing
    && s.hist == [] && s.start == 0 && s.cut == 0
  }

  ghost predicate Run(states: seq<Sys>, actions: seq<Action>)
  {
    && |states| == |actions| + 1 && Init(states[0])
    && forall i :: 0 <= i < |actions| ==> Step(states[i], actions[i], states[i + 1])
  }

  // -------------------------------------------------------- admission invariant

  function Budget(f: Phase): (n: int) { if f.Active? then MAXOPBLOCKS - f.spent else 0 }

  function ActiveOne(f: Phase): (n: nat) { if f.Active? then 1 else 0 }

  /** Blocks reserved for the operations in progress. */
  function Reserved(procs: seq<Phase>): (n: int)
  {
    if procs == [] then 0 else Reserved(procs[..|procs| - 1]) + Budget(procs[|procs| - 1])
  }

  function ActiveCount(procs: seq<Phase>): (n: nat)
  {
    if procs == [] then 0 else ActiveCount(procs[..|procs| - 1]) + ActiveOne(procs[|procs| - 1])
  }

  lemma {:induction false} ReservedUpdate(procs: seq<Phase>, p: nat, f: Phase)
    requires p < |procs|
    ensures Reserved(procs[p := f]) == Reserved(procs) - Budget(procs[p]) + Budget(f)
    ensures ActiveCount(procs[p := f]) == ActiveCount(procs) - ActiveOne(procs[p]) + ActiveOne(f)
  {
    var n := |procs| - 1;
    if p < n {
      ReservedUpdate(procs[..n], p, f);
      assert procs[p := f][..n] == procs[..n][p := f];
    } else {
      assert procs[p := f][..n] == procs[..n];
    }
  }

  lemma {:induction false} ReservedWake(procs: seq<Phase>)
    ensures Reserved(WakeAll(procs)) == Reserved(procs) && ActiveCount(WakeAll(procs)) == ActiveCount(procs)
    decreases |procs|
  {
    if procs != [] {
      var n := |procs| - 1;
      ReservedWake(procs[..n]);
      assert WakeAll(procs)[..n] == WakeAll(procs[..n]);
    }
  }

  lemma {:induction false} NoneActive(procs: seq<Phase>)
    ensures ActiveCount(procs) == 0 <==> forall p :: 0 <= p < |procs| ==> !procs[p].Active?
    ensures ActiveCount(procs) == 0 ==> Reserved(procs) == 0
    decreases |procs|
  {
    if procs != [] {
      NoneActive(procs[..|procs| - 1]);
    }
  }

  lemma {:induction false} BudgetWithin(procs: seq<Phase>, p: nat)
    requires p < |procs| && forall i :: 0 <= i < |procs| ==> Budget(procs[i]) >= 0
    ensures Budget(procs[p]) <= Reserved(procs)
    decreases |procs|
  {
    var n := |procs| - 1;
    if p < n {
      BudgetWithin(procs[..n], p);
    } else if n > 0 {
      BudgetWithin(procs[..n], n - 1);
    }
  }

  ghost predicate SomeCommitter(procs: seq<Phase>) { exists p :: 0 <= p < |procs| && procs[p].Committing? }

  /** The log never promises more than it has: what is logged and what the running
      operations may still add fit in LOGSIZE. */
  ghost predicate Admission(s: Sys)
  {
    && s.outstanding == ActiveCount(s.procs)
    && |s.lh| + Reserved(s.procs) <= LOGSIZE
    && NoDuplicates(s.lh)
    && (forall p :: 0 <= p < |s.procs| && s.procs[p].Active? ==> s.procs[p].spent <= MAXOPBLOCKS)
    && (s.committing ==> s.outstanding == 0)
    && (forall p :: 0 <= p < |s.procs| && s.procs[p].Committing? ==> s.committing)
    && (s.committing ==> SomeCommitter(s.procs))
    && (forall p, q :: 0 <= p < q < |s.procs| ==> !(s.procs[p].Committing? && s.procs[q].Committing?))
  }

  /** No wakeup is lost: whoever sleeps in begin_op would still have to wait. */
  ghost predicate SleepersWait(s: Sys)
  {
    forall p :: 0 <= p < |s.procs| && s.procs[p].Asleep? ==> MustWait(s)
  }

  /** A process that is not committing moves on: the bookkeeping of Admission. */
  lemma AdmissionMove(s: Sys, p: nat, t: Sys)
    requires Admission(s) && p < |s.procs| && !s.procs[p].Committing?
    requires |t.procs| == |s.procs| && t.procs == s.procs[p := t.procs[p]] && !t.procs[p].Committing?
    requires t.procs[p].Active? ==> t.procs[p].spent <= MAXOPBLOCKS
    requires t.committing == s.committing && NoDuplicates(t.lh)
    requires t.outstanding == s.outstanding + ActiveOne(t.procs[p]) - ActiveOne(s.procs[p])
    requires |t.lh| + Reserved(s.procs) - Budget(s.procs[p]) + Budget(t.procs[p]) <= LOGSIZE
    requires s.committing ==> t.outstanding == 0
    ensures Admission(t)
  {
    ReservedUpdate(s.procs, p, t.procs[p]);
    if s.committing {
      var q :| 0 <= q < |s.procs| && s.procs[q].Committing?;
      assert t.procs[q].Committing?;
    }
  }

  lemma AdmissionWake(s: Sys, t: Sys)
    requires Admission(s) && t == s.(procs := WakeAll(s.procs))
    ensures Admission(t) && forall p :: 0 <= p < |t.procs| ==> !t.procs[p].Asleep?
  {
    ReservedWake(s.procs);
    if s.committing {
      var q :| 0 <= q < |s.procs| && s.procs[q].Committing?;
      assert t.procs[q].Committing?;
    }
  }

  lemma AdmissionBegin(s: Sys, p: nat, t: Sys)
    requires Admission(s) && SleepersWait(s) && BeginOpStep(s, p, t)
    ensures Admission(t) && SleepersWait(t)
  {
    BudgetSum(s.procs);
    AdmissionMove(s, p, t);
  }

  /** Reserved space is at most MAXOPBLOCKS for each operation. */
  lemma {:induction false} BudgetSum(procs: seq<Phase>)
    ensures Reserved(procs) <= MAXOPBLOCKS * ActiveCount(procs)
    decreases |procs|
  {
    if procs != [] {
      BudgetSum(procs[..|procs| - 1]);
    }
  }

  lemma AdmissionLogWrite(s: Sys, p: nat, b: nat, data: Block, t: Sys)
    requires Admission(s) && SleepersWait(s) && LogWriteStep(s, p, b, data, t)
    ensures Admission(t) && SleepersWait(t)
  {
    NoneActive(s.procs);
    AdmissionMove(s, p, t);
  }

  lemma AdmissionEndOp(s: Sys, p: nat, t: Sys)
    requires Admission(s) && SleepersWait(s) && EndOpStep(s, p, t)
    ensures Admission(t) && SleepersWait(t)
  {
    NoneActive(s.procs);
    if t.mode.Up? {
      if t.committing {
        ReservedUpdate(s.procs, p, Committing(0));
        NoneActive(t.procs);
        assert t.procs[p].Committing?;
      } else {
        var u := s.(outstanding := s.outstanding - 1, procs := s.procs[p := Idle]);
        AdmissionMove(s, p, u);
        AdmissionWake(u, t);
      }
    }
  }

  lemma AdmissionCommit(s: Sys, p: nat, t: Sys)
    requires Admission(s) && SleepersWait(s) && CommitStepStep(s, p, t)
    ensures Admission(t) && SleepersWait(t)
  {
    if t.committing {
      ReservedUpdate(s.procs, p, t.procs[p]);
      assert t.procs[p].Committing?;
    } else {
      var u := s.(committing := false, lh := [], pending := map[], start := |s.hist|, cut := |s.hist|,
                  procs := s.procs[p := Idle]);
      ReservedUpdate(s.procs, p, Idle);
      assert forall q :: 0 <= q < |u.procs| ==> !u.procs[q].Committing?;
      AdmissionWake(u, t);
    }
  }

  lemma AdmissionStep(s: Sys, a: Action, t: Sys)
    requires Admission(s) && SleepersWait(s) && Step(s, a, t)
    ensures Admission(t) && SleepersWait(t)
  {
    hide Admission, SleepersWait, BeginOpStep, TestSpaceStep, LogWriteStep, EndOpStep, CommitStepStep, CrashStep,
      RecoverStepStep;
    match a
    case BeginOp(p) => AdmissionBegin(s, p, t);
    case TestSpace(p) => AdmissionTest(s, p, t);
    case LogWrite(p, b, data) => AdmissionLogWrite(s, p, b, data, t);
    case EndOp(p) => AdmissionEndOp(s, p, t);
    case CommitStep(p) => AdmissionCommit(s, p, t);
    case Crash => AdmissionCrash(s, t);
    case RecoverStep => AdmissionRecover(s, t);
  }

  lemma AdmissionTest(s: Sys, p: nat, t: Sys)
    requires Admission(s) && SleepersWait(s) && TestSpaceStep(s, p, t)
    ensures Admission(t) && SleepersWait(t)
  {
    if t.mode.Up? { AdmissionMove(s, p, t); }
  }

  lemma AdmissionCrash(s: Sys, t: Sys)
    requires Admission(s) && CrashStep(s, t)
    ensures Admission(t) && SleepersWait(t)
  {
    NoneActive(t.procs);
  }

  lemma AdmissionRecover(s: Sys, t: Sys)
    requires Admission(s) && SleepersWait(s) && RecoverStepStep(s, t)
    ensures Admission(t) && SleepersWait(t)
  {
    hide DiskLog.Readable, DiskLog.RecoverWrites;
  }

  /** The panic of end_op cannot happen. */
  lemma EndOpNeverPanics(s: Sys, p: nat, t: Sys)
    requires Admission(s) && EndOpStep(s, p, t)
    ensures !t.mode.Panicked?
  {
    NoneActive(s.procs);
  }

  // ------------------------------------------------------------- data invariant

  /** The disk d0 with the first n history entries written to it. */
  ghost function After(d0: Image, hist: seq<Entry>, n: nat): (d: Image)
    requires n <= |hist| && WritesFit(d0, Writes(hist))
    ensures |d| == |d0|
  {
    Apply(d0, Writes(hist[..n]))
  }

  /** The history, the header in memory and the pending blocks tell the same story:
      pending is the effect of the entries since `start`. */
  ghost predicate Story(s: Sys)
  {
    && s.l.Fits(s.d0) && |s.disk| == |s.d0|
    && s.start <= |s.hist| && (s.cut == s.start || s.cut == |s.hist|)
    && WritesFit(s.d0, Writes(s.hist))
    && (s.lh == [] ==> s.start == |s.hist|)
    && (forall k :: 0 <= k < |s.lh| ==> s.lh[k] < |s.d0| && !s.l.InLog(s.lh[k]) && s.lh[k] in s.pending)
    && (forall b :: b in s.pending ==> b in s.lh)
    && (forall b :: 0 <= b < |s.d0| ==>
          After(s.d0, s.hist, |s.hist|)[b] == if b in s.pending then s.pending[b] else After(s.d0, s.hist, s.start)[b])
  }

  /** Between commits the disk holds exactly what was committed. */
  ghost predicate Settled(s: Sys)
    requires Story(s)
  {
    s.cut == s.start && EmptyLog(s.l, s.disk) && SameHomes(s.l, s.disk, After(s.d0, s.hist, s.start))
  }

  /** In a commit with k writes done. */
  ghost predicate Underway(s: Sys, k: nat)
    requires Story(s)
  {
    && |s.lh| < s.l.size && |s.lh| <= LOGSIZE
    && EmptyLog(s.l, s.base) && |s.base| == |s.d0| && SameHomes(s.l, s.base, After(s.d0, s.hist, s.start))
    && Commitable(s.l, s.base, s.lh, s.pending) && k <= |Plan(s.l, s.base, s.lh, s.pending)|
    && s.disk == Apply(s.base, Plan(s.l, s.base, s.lh, s.pending)[..k])
    && s.cut == if |s.lh| < k then |s.hist| else s.start
  }

  /** In recovery: the disk still means what was committed. */
  ghost predicate Replaying(s: Sys, from: Image, k: nat)
    requires Story(s)
  {
    && s.lh == [] && s.cut == |s.hist|
    && |from| == |s.d0| && Readable(s.l, from) && k <= |RecoverWrites(s.l, from)|
    && s.disk == Apply(from, RecoverWrites(s.l, from)[..k])
    && SameHomes(s.l, Meaning(s.l, from), After(s.d0, s.hist, s.cut))
  }

  ghost predicate Data(s: Sys)
  {
    Story(s) &&
    match s.mode
    case Overrun => true
    case Recovering(from, k) => !s.committing && Replaying(s, from, k)
    case _ =>
      && (!s.committing ==> Settled(s))
      && (forall p :: 0 <= p < |s.procs| && s.procs[p].Committing? ==> Underway(s, s.procs[p].k))
  }

  /** No operation has entries on both sides of `start`, and none in progress has any
      before it. */
  ghost predicate Whole(s: Sys)
  {
    && s.start <= |s.hist|
    && (forall i :: 0 <= i < |s.hist| ==> s.hist[i].op < s.nextId)
    && (forall i, j :: 0 <= i < s.start <= j < |s.hist| ==> s.hist[i].op != s.hist[j].op)
    && (forall p, i :: 0 <= p < |s.procs| && s.procs[p].Active? && 0 <= i < s.start ==> s.hist[i].op != s.procs[p].id)
    && (forall p :: 0 <= p < |s.procs| && s.procs[p].Active? ==> s.procs[p].id < s.nextId)
  }

  lemma WholeStep(s: Sys, a: Action, t: Sys)
    requires Whole(s) && Admission(s) && Step(s, a, t)
    ensures Whole(t)
  {
    hide Whole, Admission, BeginOpStep, TestSpaceStep, LogWriteStep, EndOpStep, CommitStepStep, CrashStep,
      RecoverStepStep;
    match a
    case BeginOp(p) => WholeBegin(s, p, t);
    case TestSpace(p) => WholeTest(s, p, t);
    case LogWrite(p, b, data) => WholeLogWrite(s, p, b, data, t);
    case EndOp(p) => WholeEnd(s, p, t);
    case CommitStep(p) => WholeCommit(s, p, t);
    case Crash => WholeCrash(s, t);
    case RecoverStep => WholeRecover(s, t);
  }

  lemma WholeBegin(s: Sys, p: nat, t: Sys)
    requires Whole(s) && BeginOpStep(s, p, t)
    ensures Whole(t)
  {}

  lemma WholeTest(s: Sys, p: nat, t: Sys)
    requires Whole(s) && TestSpaceStep(s, p, t)
    ensures Whole(t)
  {}

  lemma WholeEnd(s: Sys, p: nat, t: Sys)
    requires Whole(s) && EndOpStep(s, p, t)
    ensures Whole(t)
  {}

  lemma WholeCommit(s: Sys, p: nat, t: Sys)
    requires Whole(s) && Admission(s) && CommitStepStep(s, p, t)
    ensures Whole(t)
  {
    hide Commitable, Plan, Reserved;
    NoneActive(s.procs);
  }

  lemma WholeCrash(s: Sys, t: Sys)
    requires Whole(s) && CrashStep(s, t)
    ensures Whole(t)
  {}

  lemma WholeRecover(s: Sys, t: Sys)
    requires Whole(s) && RecoverStepStep(s, t)
    ensures Whole(t)
  {
    hide DiskLog.Readable, DiskLog.RecoverWrites;
  }

  lemma WholeLogWrite(s: Sys, p: nat, b: nat, data: Block, t: Sys)
    requires Whole(s) && LogWriteStep(s, p, b, data, t)
    ensures Whole(t)
  {}

  // Steps that leave disk, history and transaction alone.
  lemma DataQuiet(s: Sys, t: Sys)
    requires Data(s) && !s.mode.Recovering? && !s.mode.Overrun?
    requires t == s.(procs := t.procs, mode := t.mode, outstanding := t.outstanding, nextId := t.nextId)
    requires !t.mode.Recovering?
    requires |t.procs| == |s.procs|
    requires forall p :: 0 <= p < |t.procs| && t.procs[p].Committing? ==> t.procs[p] == s.procs[p]
    ensures Data(t)
  {
    hide Commitable, Plan, After, DiskLog.SameHomes, DiskLog.EmptyLog, Writes;
    forall p | 0 <= p < |t.procs| && t.procs[p].Committing? ensures Underway(t, t.procs[p].k) {
      assert Underway(s, s.procs[p].k);
    }
  }

  lemma AfterPrefix(d0: Image, hist: seq<Entry>, hist': seq<Entry>, n: nat)
    requires n <= |hist| && hist <= hist' && WritesFit(d0, Writes(hist'))
    ensures WritesFit(d0, Writes(hist)) && After(d0, hist, n) == After(d0, hist', n)
  {
    assert forall i :: 0 <= i < |hist| ==> Writes(hist)[i] == Writes(hist')[i];
    assert hist[..n] == hist'[..n];
  }

  lemma AfterSnoc(d0: Image, hist: seq<Entry>, e: Entry)
    requires WritesFit(d0, Writes(hist)) && e.w.bno < |d0|
    ensures WritesFit(d0, Writes(hist + [e]))
    ensures After(d0, hist + [e], |hist| + 1) == After(d0, hist, |hist|)[e.w.bno := e.w.data]
  {
    assert Writes(hist + [e]) == Writes(hist) + [e.w];
    assert (hist + [e])[..|hist| + 1] == hist + [e] && hist[..|hist|] == hist;
    ApplySnoc(d0, Writes(hist), e.w);
  }

  lemma StoryLogWrite(s: Sys, id: nat, b: nat, data: Block, t: Sys)
    requires Story(s) && b < |s.disk| && !s.l.InLog(b)
    requires t == s.(pending := s.pending[b := data], hist := s.hist + [Entry(id, Write(b, data))],
                     lh := if b in s.lh then s.lh else s.lh + [b], procs := t.procs)
    requires s.cut == s.start
    ensures Story(t) && After(t.d0, t.hist, t.start) == After(s.d0, s.hist, s.start)
  {
    hide After, Writes, DiskLog.WritesFit;
    AfterSnoc(s.d0, s.hist, Entry(id, Write(b, data)));
    AfterPrefix(s.d0, s.hist, t.hist, s.start);
  }

  lemma DataLogWrite(s: Sys, p: nat, b: nat, data: Block, t: Sys)
    requires Data(s) && Admission(s) && LogWriteStep(s, p, b, data, t)
    ensures Data(t)
  {
    NoneActive(s.procs);
    StoryLogWrite(s, s.procs[p].id, b, data, t);
  }

  lemma DataEndOp(s: Sys, p: nat, t: Sys)
    requires Data(s) && Admission(s) && EndOpStep(s, p, t)
    ensures Data(t)
  {
    NoneActive(s.procs);
    if t.mode.Up? && t.committing {
      CommitBegins(s, p, t);
    } else if t.mode.Up? {
      DataQuiet(s, t);
    }
  }

  lemma CommitBegins(s: Sys, p: nat, t: Sys)
    requires Story(s) && Settled(s) && |s.lh| < s.l.size && Admission(s) && p < |s.procs|
    requires forall q :: 0 <= q < |s.procs| ==> !s.procs[q].Committing?
    requires t == s.(outstanding := 0, committing := true, base := s.disk, procs := s.procs[p := Committing(0)])
    requires s.mode.Up?
    ensures Data(t)
  {
    hide After, DiskLog.SameHomes, DiskLog.EmptyLog, Writes, Plan, DiskLog.Apply;
    BudgetNonNegative(s.procs);
    assert Plan(t.l, t.base, t.lh, t.pending)[..0] == [];
    EmptyApply(t.base);
  }

  lemma {:induction false} BudgetNonNegative(procs: seq<Phase>)
    requires forall i :: 0 <= i < |procs| && procs[i].Active? ==> procs[i].spent <= MAXOPBLOCKS
    ensures Reserved(procs) >= 0
    decreases |procs|
  {
    if procs != [] {
      BudgetNonNegative(procs[..|procs| - 1]);
    }
  }

  /** The homes a transaction writes, block by block. */
  lemma UpdatedAt(d: Image, lh: seq<nat>, pending: map<nat, Block>, b: nat)
    requires forall k :: 0 <= k < |lh| ==> lh[k] in pending && lh[k] < |d|
    requires b < |d|
    ensures WritesFit(d, HomeWrites(lh, DataOf(lh, pending)))
    ensures Updated(d, lh, DataOf(lh, pending))[b] == if b in lh then pending[b] else d[b]
  {
    var ws := HomeWrites(lh, DataOf(lh, pending));
    ApplyAt(d, ws, b);
    if b in lh {
      var k :| 0 <= k < |lh| && lh[k] == b;
      assert ws[k].bno == b;
    }
  }

  /** Committed on top of what was settled, the transaction is the whole history. */
  lemma UpdatedIsHistory(s: Sys, base: Image)
    requires Story(s) && |base| == |s.d0| && SameHomes(s.l, base, After(s.d0, s.hist, s.start))
    ensures WritesFit(base, HomeWrites(s.lh, DataOf(s.lh, s.pending)))
    ensures SameHomes(s.l, Updated(base, s.lh, DataOf(s.lh, s.pending)), After(s.d0, s.hist, |s.hist|))
  {
    hide After, Writes;
    var u := HomeWrites(s.lh, DataOf(s.lh, s.pending));
    assert WritesFit(base, u);
    forall b | 0 <= b < |base| && !s.l.InLog(b)
      ensures Updated(base, s.lh, DataOf(s.lh, s.pending))[b] == After(s.d0, s.hist, |s.hist|)[b]
    {
      UpdatedAt(base, s.lh, s.pending, b);
    }
  }

  lemma SameHomesTrans(l: Layout, a: Image, b: Image, c: Image)
    requires SameHomes(l, a, b) && SameHomes(l, b, c)
    ensures SameHomes(l, a, c)
  {}

  /** A commit that stops after k writes means the committed history. */
  lemma UnderwayMeaning(s: Sys, k: nat)
    requires Story(s) && Underway(s, k)
    ensures Readable(s.l, s.disk) && SameHomes(s.l, Meaning(s.l, s.disk), After(s.d0, s.hist, s.cut))
  {
    hide After, Writes, DiskLog.Meaning, DiskLog.SameHomes, DiskLog.Apply;
    if s.lh == [] {
      assert Plan(s.l, s.base, s.lh, s.pending)[..k] == [];
      EmptyApply(s.base);
      EmptyLogMeaning(s.l, s.base);
    } else {
      var data := DataOf(s.lh, s.pending);
      CommitPoint(s.l, s.base, s.lh, data, k);
      if k <= |s.lh| {
        SameHomesTrans(s.l, Meaning(s.l, s.disk), s.base, After(s.d0, s.hist, s.cut));
      } else {
        UpdatedIsHistory(s, s.base);
        SameHomesTrans(s.l, Meaning(s.l, s.disk), Updated(s.base, s.lh, data), After(s.d0, s.hist, s.cut));
      }
    }
  }

  lemma ApplyNext(d: Image, ws: seq<Write>, k: nat)
    requires WritesFit(d, ws) && k < |ws|
    ensures Apply(d, ws[..k])[ws[k].bno := ws[k].data] == Apply(d, ws[..k + 1])
  {
    ApplySnoc(d, ws[..k], ws[k]);
    assert ws[..k + 1] == ws[..k] + [ws[k]];
  }

  lemma UnderwayNext(s: Sys, k: nat, t: Sys)
    requires Story(s) && Underway(s, k) && k < |Plan(s.l, s.base, s.lh, s.pending)|
    requires var w := Plan(s.l, s.base, s.lh, s.pending)[k];
      t == s.(disk := s.disk[w.bno := w.data], procs := t.procs, cut := if k == |s.lh| then |s.hist| else s.cut)
    ensures Story(t) && Underway(t, k + 1)
  {
    hide After, Writes, DiskLog.SameHomes, Plan, DiskLog.Apply, DiskLog.EmptyLog;
    ApplyNext(s.base, Plan(s.l, s.base, s.lh, s.pending), k);
  }

  lemma DataCommitWrite(s: Sys, p: nat, t: Sys)
    requires Data(s) && Admission(s) && CommitStepStep(s, p, t)
    requires s.procs[p].k < |Plan(s.l, s.base, s.lh, s.pending)|
    ensures Data(t)
  {
    hide After, Writes, DiskLog.SameHomes, Plan, DiskLog.Apply, Commitable, Underway, Settled;
    UnderwayNext(s, s.procs[p].k, t);
    forall q | 0 <= q < |t.procs| && t.procs[q].Committing? ensures q == p {
      assert s.procs[q].Committing?;
    }
  }

  lemma DataCommitDone(s: Sys, p: nat, t: Sys)
    requires Data(s) && Admission(s) && CommitStepStep(s, p, t)
    requires s.procs[p].k == |Plan(s.l, s.base, s.lh, s.pending)|
    ensures Data(t)
  {
    hide After, Writes, DiskLog.SameHomes, DiskLog.Apply;
    var ws := Plan(s.l, s.base, s.lh, s.pending);
    assert Underway(s, |ws|);
    assert ws[..|ws|] == ws;
    if s.lh == [] {
      EmptyApply(s.base);
    } else {
      var data := DataOf(s.lh, s.pending);
      CommitCompletes(s.l, s.base, s.lh, data);
      UpdatedIsHistory(s, s.base);
      SameHomesTrans(s.l, s.disk, Updated(s.base, s.lh, data), After(s.d0, s.hist, |s.hist|));
    }
  }

  lemma DataCrash(s: Sys, t: Sys)
    requires Data(s) && Admission(s) && CrashStep(s, t)
    ensures Data(t)
  {
    CrashMeaning(s);
    hide After, Writes, DiskLog.SameHomes, DiskLog.Meaning, DiskLog.Readable, DiskLog.RecoverWrites, Underway;
    AfterPrefix(s.d0, t.hist, s.hist, s.cut);
    EmptyApply(s.disk);
    assert RecoverWrites(t.l, s.disk)[..0] == [];
  }

  /** Whatever was going on, the disk means the committed history. */
  lemma CrashMeaning(s: Sys)
    requires Data(s) && Admission(s) && !s.mode.Overrun?
    ensures Readable(s.l, s.disk) && SameHomes(s.l, Meaning(s.l, s.disk), After(s.d0, s.hist, s.cut))
  {
    hide After, Writes, DiskLog.Meaning, DiskLog.Apply;
    if s.mode.Recovering? {
      RecoveryKeepsMeaning(s.l, s.mode.from, s.mode.k);
    } else if s.committing {
      var p :| 0 <= p < |s.procs| && s.procs[p].Committing?;
      UnderwayMeaning(s, s.procs[p].k);
    } else {
      EmptyLogMeaning(s.l, s.disk);
    }
  }

  lemma DataRecover(s: Sys, t: Sys)
    requires Data(s) && Admission(s) && RecoverStepStep(s, t)
    ensures Data(t)
  {
    if s.mode.k < |RecoverWrites(s.l, s.mode.from)| {
      ReplayNext(s, t);
    } else {
      ReplayDone(s, t);
    }
  }

  lemma ReplayNext(s: Sys, t: Sys)
    requires s.mode.Recovering? && Story(s) && Replaying(s, s.mode.from, s.mode.k) && !s.committing
    requires s.mode.k < |RecoverWrites(s.l, s.mode.from)|
    requires var w := RecoverWrites(s.l, s.mode.from)[s.mode.k];
      t == s.(disk := s.disk[w.bno := w.data], mode := Recovering(s.mode.from, s.mode.k + 1))
    ensures Data(t)
  {
    hide After, Writes, DiskLog.Meaning, DiskLog.Apply, DiskLog.RecoverWrites, DiskLog.Readable;
    ApplyNext(s.mode.from, RecoverWrites(s.l, s.mode.from), s.mode.k);
  }

  lemma ReplayDone(s: Sys, t: Sys)
    requires s.mode.Recovering? && Story(s) && Replaying(s, s.mode.from, s.mode.k) && !s.committing
    requires s.mode.k == |RecoverWrites(s.l, s.mode.from)| && t == s.(mode := Up)
    requires forall p :: 0 <= p < |s.procs| ==> !s.procs[p].Committing?
    ensures Data(t)
  {
    var ws := RecoverWrites(s.l, s.mode.from);
    hide After, Writes, DiskLog.Meaning, DiskLog.Apply, DiskLog.RecoverWrites, DiskLog.Readable, DiskLog.SameHomes,
      Underway;
    assert ws[..s.mode.k] == ws;
    RecoveryCompletes(s.l, s.mode.from);
    SameHomesTrans(s.l, s.disk, Meaning(s.l, s.mode.from), After(s.d0, s.hist, s.cut));
  }

  // ------------------------------------------------------------------ all runs

  ghost predicate Inv(s: Sys) { Admission(s) && SleepersWait(s) && Data(s) && Whole(s) }

  lemma DataStep(s: Sys, a: Action, t: Sys)
    requires Data(s) && Admission(s) && Step(s, a, t)
    ensures Data(t)
  {
    hide Story, Settled, Underway, Replaying, Plan, Commitable, Admission;
    match a
    case BeginOp(p) => DataQuiet(s, t);
    case TestSpace(p) => DataQuiet(s, t);
    case LogWrite(p, b, data) => DataLogWrite(s, p, b, data, t);
    case EndOp(p) => DataEndOp(s, p, t);
    case CommitStep(p) =>
      if s.procs[p].k < |Plan(s.l, s.base, s.lh, s.pending)| {
        DataCommitWrite(s, p, t);
      } else {
        DataCommitDone(s, p, t);
      }
    case Crash => DataCrash(s, t);
    case RecoverStep => DataRecover(s, t);
  }

  lemma InitInv(s: Sys)
    requires Init(s)
    ensures Inv(s)
  {
    NoneActive(s.procs);
    assert s.hist[..0] == [] && Writes([]) == [];
  }

  lemma InvStep(s: Sys, a: Action, t: Sys)
    requires Inv(s) && Step(s, a, t)
    ensures Inv(t)
  {
    hide Admission, SleepersWait, Data, Whole, Step;
    AdmissionStep(s, a, t);
    DataStep(s, a, t);
    WholeStep(s, a, t);
  }

  /** Every state of every run satisfies the invariant. */
  lemma {:induction false} RunInvariant(states: seq<Sys>, actions: seq<Action>, n: nat)
    requires Run(states, actions) && n < |states|
    ensures Inv(states[n])
  {
    hide Inv, Step, Init;
    if n == 0 {
      InitInv(states[0]);
    } else {
      RunInvariant(states, actions, n - 1);
      InvStep(states[n - 1], actions[n - 1], states[n]);
    }
  }

  /** Crash consistency of whole operations. Stop any run anywhere, recover with any
      number of interrupted recoveries and one that completes: the disk holds the
      run's first `cut` logged blocks and nothing else, and no operation is split by
      the cut, so each took effect entirely or not at all. */
  lemma CrashConsistency(states: seq<Sys>, actions: seq<Action>, n: nat, cuts: seq<nat>)
    requires Run(states, actions) && n < |states| && !states[n].mode.Overrun?
    ensures var s := states[n];
      && Story(s) && s.cut <= |s.hist| && Readable(s.l, s.disk)
      && var d := CutRecoveries(s.l, s.disk, cuts);
      && Readable(s.l, d)
      && var final := Apply(d, RecoverWrites(s.l, d));
      && EmptyLog(s.l, final)
      && SameHomes(s.l, final, After(s.d0, s.hist, s.cut))
      && forall i, j :: 0 <= i < s.cut <= j < |s.hist| ==> s.hist[i].op != s.hist[j].op
  {
    var s := states[n];
    RunInvariant(states, actions, n);
    CrashMeaning(s);
    hide After, DiskLog.Meaning, DiskLog.Apply, DiskLog.RecoverWrites, Writes, DiskLog.SameHomes;
    CutRecoveriesKeepMeaning(s.l, s.disk, cuts);
    var d := CutRecoveries(s.l, s.disk, cuts);
    RecoveryCompletes(s.l, d);
    var final := Apply(d, RecoverWrites(s.l, d));
    SameHomesTrans(s.l, final, Meaning(s.l, d), Meaning(s.l, s.disk));
    SameHomesTrans(s.l, final, Meaning(s.l, s.disk), After(s.d0, s.hist, s.cut));
  }

  /** The entries h are committed, for good. */
  ghost predicate Kept(h: seq<Entry>, s: Sys) { |h| <= s.cut <= |s.hist| && h <= s.hist[..s.cut] }

  lemma CutWithin(s: Sys)
    requires Inv(s)
    ensures s.cut <= |s.hist|
  {}

  /** A step logs at most one more entry, or drops what is not committed. */
  ghost predicate HistStep(s: Sys, t: Sys)
  {
    && s.cut <= |s.hist| && s.cut <= t.cut <= |t.hist|
    && (t.hist == (if t.cut == s.cut then s.hist[..s.cut] else s.hist)
        || t.hist == s.hist || (|t.hist| > 0 && t.hist == s.hist + [t.hist[|t.hist| - 1]]))
  }

  lemma StepHist(s: Sys, a: Action, t: Sys)
    requires s.cut <= |s.hist| && Step(s, a, t)
    ensures HistStep(s, t)
  {
    hide Plan, Commitable, MustWait;
  }

  lemma KeptStep(h: seq<Entry>, s: Sys, t: Sys)
    requires HistStep(s, t) && Kept(h, s)
    ensures Kept(h, t)
  {
    assert h <= s.hist;
    assert h <= t.hist;
  }

  lemma {:induction false} KeptOn(states: seq<Sys>, actions: seq<Action>, m: nat, n: nat, h: seq<Entry>)
    requires Run(states, actions) && m <= n < |states| && Kept(h, states[m])
    ensures Kept(h, states[n])
    decreases n
  {
    hide Inv, Step, Init, Kept;
    if m < n {
      KeptOn(states, actions, m, n - 1, h);
      RunInvariant(states, actions, n - 1);
      assert Step(states[n - 1], actions[n - 1], states[n]);
      CutWithin(states[n - 1]);
      StepHist(states[n - 1], actions[n - 1], states[n]);
      hide HistStep;
      KeptStep(h, states[n - 1], states[n]);
    }
  }

  /** Durability. Once a commit is over, everything logged up to then survives: at every
      later point of the run, however many crashes and recoveries lie between, a recovery
      that completes leaves a disk on which those writes come first. */
  lemma Durability(states: seq<Sys>, actions: seq<Action>, m: nat, n: nat, cuts: seq<nat>)
    requires Run(states, actions) && 0 < m <= n < |states| && !states[n].mode.Overrun?
    requires actions[m - 1].CommitStep? && !states[m].committing
    ensures states[m].hist == states[m - 1].hist
    ensures var s := states[n];
      && Story(s) && s.cut <= |s.hist| && states[m].hist <= s.hist[..s.cut] && Readable(s.l, s.disk)
      && var d := CutRecoveries(s.l, s.disk, cuts);
      && Readable(s.l, d)
      && SameHomes(s.l, Apply(d, RecoverWrites(s.l, d)), After(s.d0, s.hist, s.cut))
  {
    assert Step(states[m - 1], actions[m - 1], states[m]);
    RunInvariant(states, actions, m - 1);
    CommitOver(states[m - 1], actions[m - 1].p, states[m]);
    hide Inv, Step, Init, Story, After, CutRecoveries;
    KeptOn(states, actions, m, n, states[m].hist);
    CrashConsistency(states, actions, n, cuts);
  }

  lemma CommitOver(s: Sys, p: nat, t: Sys)
    requires Inv(s) && CommitStepStep(s, p, t) && !t.committing
    ensures Kept(t.hist, t) && t.hist == s.hist
  {
    assert s.committing;
    assert t.hist[..t.cut] == t.hist;
  }

  // -------------------------------------------------------------- log capacity

  /** Within budget there is always room for a block number in the header. */
  lemma BudgetHasRoom(s: Sys, p: nat)
    requires Admission(s) && p < |s.procs| && s.procs[p].Active? && s.procs[p].spent < MAXOPBLOCKS
    ensures |s.lh| < LOGSIZE
  {
    assert forall i :: 0 <= i < |s.procs| ==> Budget(s.procs[i]) >= 0;
    BudgetWithin(s.procs, p);
  }

  /** A log area with LOGSIZE data blocks beside the header never overruns, and never
      panics an operation that has budget left. */
  lemma AmpleLogIsSafe(s: Sys, a: Action, t: Sys)
    requires Admission(s) && Step(s, a, t) && s.l.size > LOGSIZE && s.mode.Up?
    ensures !t.mode.Overrun?
    ensures a.TestSpace? && s.procs[a.p].spent < MAXOPBLOCKS ==> t.mode.Up?
    ensures a.EndOp? ==> t.mode.Up?
  {
    NoneActive(s.procs);
    BudgetNonNegative(s.procs);
    if a.TestSpace? && s.procs[a.p].spent < MAXOPBLOCKS {
      BudgetHasRoom(s, a.p);
    }
  }

  // ------------------------------------------- exactly which log areas are too small

  ghost predicate ReachedFrom(s0: Sys, s: Sys)
  {
    exists states, actions :: Run(states, actions) && states[0] == s0 && states[|states| - 1] == s
  }

  lemma Extend(s0: Sys, s: Sys, a: Action, t: Sys)
    requires ReachedFrom(s0, s) && Step(s, a, t)
    ensures ReachedFrom(s0, t)
  {
    hide Init, Step;
    var states, actions :| Run(states, actions) && states[0] == s0 && states[|states| - 1] == s;
    var states', actions' := states + [t], actions + [a];
    forall i | 0 <= i < |actions'| ensures Step(states'[i], actions'[i], states'[i + 1]) {
      if i < |actions| {
        assert Step(states[i], actions[i], states[i + 1]);
      }
    }
    assert Run(states', actions');
  }

  /** No step changes the log area or the number of processes. */
  lemma SameShape(s: Sys, a: Action, t: Sys)
    requires Step(s, a, t)
    ensures t.l == s.l && |t.procs| == |s.procs|
  {
    hide Commitable, Plan, DiskLog.Readable, DiskLog.RecoverWrites, WakeAll, MustWait;
  }

  /** The log stays below its area, also for the blocks of those who passed the test. */
  ghost predicate Below(s: Sys)
  {
    && |s.lh| < s.l.size
    && (forall p :: 0 <= p < |s.procs| && s.procs[p].Active? && s.procs[p].tested ==> |s.lh| + 1 < s.l.size)
  }

  /** One process alone has nothing come between its test and its write; an area with only a
      header lets no one pass the test. */
  lemma BelowStep(s: Sys, a: Action, t: Sys)
    requires Below(s) && Step(s, a, t) && (|s.procs| <= 1 || s.l.size == 1)
    ensures Below(t) && !t.mode.Overrun?
  {
    hide Commitable, Plan, DiskLog.Readable, DiskLog.RecoverWrites;
  }

  lemma {:induction false} BelowRun(states: seq<Sys>, actions: seq<Action>, n: nat)
    requires Run(states, actions) && n < |states| && (|states[0].procs| <= 1 || states[0].l.size == 1)
    ensures Below(states[n]) && !states[n].mode.Overrun? && states[n].l == states[0].l
      && |states[n].procs| == |states[0].procs|
  {
    if n > 0 {
      BelowRun(states, actions, n - 1);
      hide Init, Below;
      assert Step(states[n - 1], actions[n - 1], states[n]);
      SameShape(states[n - 1], actions[n - 1], states[n]);
      BelowStep(states[n - 1], actions[n - 1], states[n]);
    }
  }

  lemma {:induction false} AmpleRun(states: seq<Sys>, actions: seq<Action>, n: nat)
    requires Run(states, actions) && n < |states| && states[0].l.size > LOGSIZE
    ensures !states[n].mode.Overrun? && states[n].l == states[0].l
  {
    if n > 0 {
      AmpleRun(states, actions, n - 1);
      RunInvariant(states, actions, n - 1);
      hide Init, Admission, Data, Whole, SleepersWait;
      assert Step(states[n - 1], actions[n - 1], states[n]);
      SameShape(states[n - 1], actions[n - 1], states[n]);
      if states[n - 1].mode.Up? { AmpleLogIsSafe(states[n - 1], actions[n - 1], states[n]); }
    }
  }

  // Runs that fill the log, by processes 0 and 1.

  ghost function Tested(s: Sys, p: nat): (t: Sys)
    requires p < |s.procs| && s.procs[p].Active?
  {
    var f := Active(s.procs[p].id, s.procs[p].spent, true);
    s.(procs := s.procs[p := f])
  }

  ghost function Logged(s: Sys, p: nat, b: nat, data: Block): (t: Sys)
    requires p < |s.procs| && s.procs[p].Active?
  {
    var f := Active(s.procs[p].id, s.procs[p].spent + 1, false);
    var e := Entry(s.procs[p].id, Write(b, data));
    s.(pending := s.pending[b := data], hist := s.hist + [e], lh := s.lh + [b], procs := s.procs[p := f])
  }

  /** Process p is in an operation and has passed no test. */
  predicate Inside(s: Sys, p: nat) { Runs(s, p) && s.procs[p].Active? && !s.procs[p].tested }

  /** Blocks from b on are free to be logged, n of them. */
  ghost predicate Room(s: Sys, b: nat, n: nat)
  {
    s.l.start + s.l.size <= b && b + n <= |s.disk| && forall x :: x in s.lh ==> x < b
  }

  lemma TestAndWrite(s0: Sys, s: Sys, p: nat, b: nat) returns (t: Sys)
    requires ReachedFrom(s0, s) && Inside(s, p) && s.outstanding >= 1 && s.procs[p].spent < MAXOPBLOCKS
    requires |s.lh| + 1 < s.l.size <= LOGSIZE && Room(s, b, 1)
    ensures ReachedFrom(s0, t) && t == Logged(s, p, b, Zeros)
  {
    hide ReachedFrom;
    var u := Tested(s, p);
    assert Step(s, TestSpace(p), u);
    Extend(s0, s, TestSpace(p), u);
    t := Logged(s, p, b, Zeros);
    assert t == Logged(u, p, b, Zeros);
    assert Step(u, LogWrite(p, b, Zeros), t);
    Extend(s0, u, LogWrite(p, b, Zeros), t);
  }

  /** Process p logs n further blocks, one after the other. */
  lemma {:induction false} WriteBlocks(s0: Sys, s: Sys, p: nat, b: nat, n: nat) returns (t: Sys)
    requires ReachedFrom(s0, s) && Inside(s, p) && s.outstanding >= 1
    requires s.procs[p].spent + n <= MAXOPBLOCKS && |s.lh| + n < s.l.size <= LOGSIZE && Room(s, b, n)
    ensures ReachedFrom(s0, t)
    ensures t == s.(lh := t.lh, pending := t.pending, hist := t.hist,
                    procs := s.procs[p := s.procs[p].(spent := s.procs[p].spent + n)])
    ensures |t.lh| == |s.lh| + n && forall x :: x in t.lh ==> x < b + n
    decreases n
  {
    if n == 0 {
      t := s;
      assert s.procs[p := s.procs[p].(spent := s.procs[p].spent + n)] == s.procs;
    } else {
      hide ReachedFrom;
      var u := WriteBlocks(s0, s, p, b, n - 1);
      t := TestAndWrite(s0, u, p, b + n - 1);
      assert t.procs == s.procs[p := s.procs[p].(spent := s.procs[p].spent + n)];
    }
  }

  /** Everyone but processes 0 and 1 is idle. */
  ghost predicate OthersIdle(s: Sys) { |s.procs| >= 2 && forall p :: 2 <= p < |s.procs| ==> s.procs[p] == Idle }

  /** Processes 0 and 1 are each in an operation with budget left, and n blocks are logged. */
  ghost predicate Ready(s: Sys, n: nat)
  {
    && s.mode.Up? && !s.committing && s.outstanding == 2 && |s.lh| == n && OthersIdle(s)
    && Inside(s, 0) && Inside(s, 1) && s.procs[0].spent < MAXOPBLOCKS && s.procs[1].spent < MAXOPBLOCKS
  }

  lemma BothBegin(s: Sys) returns (t: Sys)
    requires Init(s) && |s.procs| >= 2
    ensures ReachedFrom(s, t) && Ready(t, 0) && t == s.(procs := t.procs, outstanding := 2, nextId := t.nextId)
    ensures t.procs[0].spent == 0 && t.procs[1].spent == 0
  {
    assert Run([s], []);
    assert ReachedFrom(s, s);
    hide ReachedFrom;
    var i := s.nextId;
    var u := s.(procs := s.procs[0 := Active(i, 0, false)], outstanding := 1, nextId := i + 1);
    Extend(s, s, BeginOp(0), u);
    t := u.(procs := u.procs[1 := Active(i + 1, 0, false)], outstanding := 2, nextId := i + 2);
    Extend(s, u, BeginOp(1), t);
  }

  /** Process 0 ends its operation, in which it logged ten blocks, and is admitted again. */
  lemma BeginAgain(s0: Sys, s: Sys) returns (t: Sys)
    requires ReachedFrom(s0, s) && s.mode.Up? && !s.committing && s.outstanding == 2 && |s.lh| == 10 && OthersIdle(s)
    requires Inside(s, 0) && Inside(s, 1)
    ensures ReachedFrom(s0, t) && t == s.(procs := s.procs[0 := Active(s.nextId, 0, false)], nextId := s.nextId + 1)
  {
    hide ReachedFrom;
    var u := s.(outstanding := 1, procs := WakeAll(s.procs[0 := Idle]));
    assert u.procs == s.procs[0 := Idle];
    assert Step(s, EndOp(0), u);
    Extend(s0, s, EndOp(0), u);
    t := u.(procs := u.procs[0 := Active(u.nextId, 0, false)], outstanding := 2, nextId := u.nextId + 1);
    assert Step(u, BeginOp(0), t);
    Extend(s0, u, BeginOp(0), t);
    assert t.procs == s.procs[0 := Active(s.nextId, 0, false)];
  }

  /** Nine blocks of each on top of m, or fewer. */
  lemma FillBoth(s0: Sys, s: Sys, m: nat, n: nat, b: nat) returns (t: Sys)
    requires ReachedFrom(s0, s) && Ready(s, m) && s.procs[0].spent == 0 && s.procs[1].spent == 0
    requires m <= n <= m + 18 && n < s.l.size <= LOGSIZE && Room(s, b, n - m)
    ensures ReachedFrom(s0, t) && Ready(t, n) && t.l == s.l && t.disk == s.disk && Room(t, b + n - m, 0)
  {
    hide ReachedFrom;
    var x := if n - m < 9 then n - m else 9;
    var u := WriteBlocks(s0, s, 0, b, x);
    t := WriteBlocks(s0, u, 1, b + x, n - m - x);
  }

  /** Any log area of at most LOGSIZE blocks can be filled up to two blocks before its end
      with two operations still having budget. */
  lemma Fill(s: Sys, n: nat) returns (t: Sys)
    requires Init(s) && |s.procs| >= 2 && n + 2 == s.l.size <= LOGSIZE && |s.disk| >= s.l.start + 2 * s.l.size
    ensures ReachedFrom(s, t) && Ready(t, n) && t.l == s.l && t.disk == s.disk && Room(t, s.l.start + s.l.size + n, 2)
  {
    var u := BothBegin(s);
    hide ReachedFrom, Init;
    var b := s.l.start + s.l.size;
    if n <= 18 {
      t := FillBoth(s, u, 0, n, b);
    } else {
      u := WriteBlocks(s, u, 0, b, 10);
      u := BeginAgain(s, u);
      t := FillBoth(s, u, 10, n, b + 10);
    }
  }

  /** Both pass the test, then both write, then both end: the log is past its area. */
  lemma Race(s0: Sys, s: Sys, b: nat) returns (t: Sys)
    requires ReachedFrom(s0, s) && 2 <= s.l.size <= LOGSIZE && Ready(s, s.l.size - 2) && Room(s, b, 2)
    ensures ReachedFrom(s0, t) && t.mode.Overrun?
  {
    hide ReachedFrom;
    var u1 := Tested(s, 0);
    assert Step(s, TestSpace(0), u1);
    Extend(s0, s, TestSpace(0), u1);
    var u2 := Tested(u1, 1);
    assert Step(u1, TestSpace(1), u2);
    Extend(s0, u1, TestSpace(1), u2);
    var u3 := Logged(u2, 0, b, Zeros);
    assert Step(u2, LogWrite(0, b, Zeros), u3);
    Extend(s0, u2, LogWrite(0, b, Zeros), u3);
    var u4 := Logged(u3, 1, b + 1, Zeros);
    assert Step(u3, LogWrite(1, b + 1, Zeros), u4);
    Extend(s0, u3, LogWrite(1, b + 1, Zeros), u4);
    t := BothEnd(s0, u4);
  }

  lemma BothEnd(s0: Sys, s: Sys) returns (t: Sys)
    requires ReachedFrom(s0, s) && s.mode.Up? && s.outstanding == 2 && !s.committing && |s.lh| >= s.l.size
    requires OthersIdle(s) && Inside(s, 0) && Inside(s, 1)
    ensures ReachedFrom(s0, t) && t.mode.Overrun?
  {
    hide ReachedFrom;
    var u := s.(outstanding := 1, procs := WakeAll(s.procs[0 := Idle]));
    Extend(s0, s, EndOp(0), u);
    t := u.(mode := Overrun);
    Extend(s0, u, EndOp(1), t);
  }

  /** Some interleaving writes past the log area exactly when there are two processes and the
      area, header included, has at least two and at most LOGSIZE blocks. The area mkfs makes
      has LOGSIZE. */
  lemma OverrunsExactly(s: Sys)
    requires Init(s) && |s.disk| >= s.l.start + 2 * s.l.size
    ensures (exists t :: ReachedFrom(s, t) && t.mode.Overrun?) <==> |s.procs| >= 2 && 2 <= s.l.size <= LOGSIZE
  {
    if |s.procs| >= 2 && 2 <= s.l.size <= LOGSIZE {
      var u := Fill(s, s.l.size - 2);
      var t := Race(s, u, s.l.start + s.l.size + (s.l.size - 2));
    } else {
      forall t | ReachedFrom(s, t) ensures !t.mode.Overrun? {
        var states, actions :| Run(states, actions) && states[0] == s && states[|states| - 1] == t;
        if s.l.size > LOGSIZE {
          AmpleRun(states, actions, |states| - 1);
        } else {
          BelowRun(states, actions, |states| - 1);
        }
      }
    }
  }

  // ------------------------------------------------------ the panic of log_write

  /** Some operation with budget left would panic at the space test. */
  ghost predicate Refuses(s: Sys)
  {
    exists p: nat :: Inside(s, p) && s.procs[p].spent < MAXOPBLOCKS && TestFails(s, p)
  }

  ghost predicate TestFails(s: Sys, p: nat)
    requires Inside(s, p)
  {
    TestSpaceStep(s, p, s.(mode := Panicked))
  }

  lemma TestFailsWhen(s: Sys, p: nat)
    requires Admission(s) && Inside(s, p) && s.procs[p].spent < MAXOPBLOCKS
    ensures TestFails(s, p) <==> |s.lh| + 1 >= s.l.size
    ensures |s.lh| < LOGSIZE
  {
    NoneActive(s.procs);
    BudgetHasRoom(s, p);
  }

  /** A process alone has logged what its operation has spent. */
  ghost predicate Alone(s: Sys)
  {
    && |s.procs| == 1
    && match s.procs[0]
       case Active(_, spent, _) => |s.lh| <= spent && s.outstanding == 1
       case Committing(_) => true
       case _ => s.lh == []
  }

  lemma AloneStep(s: Sys, a: Action, t: Sys)
    requires Alone(s) && Admission(s) && Step(s, a, t)
    ensures Alone(t)
  {
    NoneActive(s.procs);
    hide Commitable, Plan, DiskLog.Readable, DiskLog.RecoverWrites, Reserved;
  }

  lemma {:induction false} AloneRun(states: seq<Sys>, actions: seq<Action>, n: nat)
    requires Run(states, actions) && n < |states| && |states[0].procs| == 1
    ensures Alone(states[n])
  {
    if n > 0 {
      AloneRun(states, actions, n - 1);
      RunInvariant(states, actions, n - 1);
      hide Init, Alone, Admission, Data, Whole, SleepersWait;
      assert Step(states[n - 1], actions[n - 1], states[n]);
      AloneStep(states[n - 1], actions[n - 1], states[n]);
    }
  }

  lemma {:induction false} ShapeRun(states: seq<Sys>, actions: seq<Action>, n: nat)
    requires Run(states, actions) && n < |states|
    ensures states[n].l == states[0].l && |states[n].procs| == |states[0].procs|
  {
    if n > 0 {
      ShapeRun(states, actions, n - 1);
      hide Init;
      assert Step(states[n - 1], actions[n - 1], states[n]);
      SameShape(states[n - 1], actions[n - 1], states[n]);
    }
  }

  /** A process alone, in an area no larger than its budget, gets to the end of it. */
  lemma AloneFills(s: Sys) returns (t: Sys)
    requires Init(s) && |s.procs| >= 1 && s.l.size <= MAXOPBLOCKS && |s.disk| >= s.l.start + 2 * s.l.size
    ensures ReachedFrom(s, t) && Refuses(t)
  {
    assert Run([s], []);
    assert ReachedFrom(s, s);
    hide ReachedFrom;
    var u := s.(procs := s.procs[0 := Active(s.nextId, 0, false)], outstanding := 1, nextId := s.nextId + 1);
    assert Step(s, BeginOp(0), u);
    Extend(s, s, BeginOp(0), u);
    t := WriteBlocks(s, u, 0, s.l.start + s.l.size, s.l.size - 1);
    assert Inside(t, 0) && TestFails(t, 0);
  }

  lemma BothFill(s: Sys) returns (t: Sys)
    requires Init(s) && |s.procs| >= 2 && 2 <= s.l.size <= LOGSIZE && |s.disk| >= s.l.start + 2 * s.l.size
    ensures ReachedFrom(s, t) && Refuses(t)
  {
    hide ReachedFrom, Init;
    var u := Fill(s, s.l.size - 2);
    t := TestAndWrite(s, u, 1, s.l.start + s.l.size + (s.l.size - 2));
    assert Inside(t, 0) && TestFails(t, 0);
  }

  lemma RefusesWhen(states: seq<Sys>, actions: seq<Action>)
    requires Run(states, actions) && Refuses(states[|states| - 1])
    ensures var s := states[0];
      |s.procs| >= 1 && (s.l.size <= MAXOPBLOCKS || (|s.procs| >= 2 && s.l.size <= LOGSIZE))
  {
    var n := |states| - 1;
    var t := states[n];
    var p: nat :| Inside(t, p) && t.procs[p].spent < MAXOPBLOCKS && TestFails(t, p);
    RunInvariant(states, actions, n);
    TestFailsWhen(t, p);
    ShapeRun(states, actions, n);
    if |states[0].procs| == 1 { AloneRun(states, actions, n); }
  }

  /** Some interleaving panics an operation that has budget left exactly when one operation's
      budget reaches the end of the log area, or two processes together do. */
  lemma RefusesExactly(s: Sys)
    requires Init(s) && |s.disk| >= s.l.start + 2 * s.l.size
    ensures (exists t :: ReachedFrom(s, t) && Refuses(t))
       <==> |s.procs| >= 1 && (s.l.size <= MAXOPBLOCKS || (|s.procs| >= 2 && s.l.size <= LOGSIZE))
  {
    if |s.procs| >= 1 && s.l.size <= MAXOPBLOCKS {
      var t := AloneFills(s);
    } else if |s.procs| >= 2 && s.l.size <= LOGSIZE {
      var t := BothFill(s);
    } else {
      forall t | ReachedFrom(s, t) ensures !Refuses(t) {
        var states, actions :| Run(states, actions) && states[0] == s && states[|states| - 1] == t;
        if Refuses(t) {
          RefusesWhen(states, actions);
          assert false;
        }
      }
    }
  }
}
