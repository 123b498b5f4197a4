/** What holds over every run of the MigrationCheck reconciler. */
module MigrationRuns {
  import opened Text
  import opened ApiServer
  import opened MigrationApi
  import opened MigrationClone
  import opened MigrationPass
  import opened MigrationInvariants
  import opened MigrationProtocol
  import Jobs
  import LogDetail

  /** Every finite run has some bound on the time its passes take between two readings. */
  lemma {:induction false} SomeSkew(events: seq<Event>) returns (skew: int)
    ensures SkewAtMost(events, skew)
  {
    if events == [] { return 0; }
    var n := |events| - 1;
    skew := SomeSkew(events[..n]);
    var last := if events[n].Reconcile? then events[n].inputs.clock.stamp - events[n].inputs.clock.test else skew;
    forall i | 0 <= i < n && events[i].Reconcile?
      ensures events[i].inputs.clock.stamp - events[i].inputs.clock.test <= skew
    {
      assert events[..n][i] == events[i];
    }
    skew := if last > skew then last else skew;
  }

  lemma {:induction false} HistoryGrows(run: seq<System>, events: seq<Event>, i: nat, j: nat)
    requires IsRun(run, events) && i <= j < |run|
    ensures run[i].history <= run[j].history
    decreases j
  {
    if i < j {
      HistoryGrows(run, events, i, j - 1);
      hide Next, Enabled, Initial;
      assert Enabled(run[j - 1], events[j - 1]) && run[j - 1 + 1] == Next(run[j - 1], events[j - 1]);
      NextKeepsSpec(run[j - 1], events[j - 1]);
    }
  }

  lemma {:induction false} SoundFacts(s: System, skew: int)
    requires Sound(s, skew)
    ensures s.history != [] && Chained(s.spec, s.history, skew) && LogGood(s.history, s.log)
    ensures Good(s.spec, s.Newest().status, skew)
  {
    hide Good;
  }

  /** A check never goes back and forgets nothing it recorded: start, clone, Secret, probe
      and deadlines stay as first written.  A stored verdict, with its reason, message and times,
      stays for ever; only the record of its report may still be added.  A check run once
      remembered is never exchanged for another. */
  lemma {:induction false} VerdictStands(run: seq<System>, events: seq<Event>, i: nat, j: nat)
    requires IsRun(run, events) && i <= j < |run|
    ensures run[i].history != [] && run[j].history != []
    ensures var st, later := run[i].Newest().status, run[j].Newest().status;
      && st.phase.Rank() <= later.phase.Rank() && Remembers(st, later)
      && (st.phase.IsTerminal() ==> later == st.(checkRun := later.checkRun, reported := later.reported))
      && (st.checkRun != 0 ==> later.checkRun == st.checkRun)
      && (st.reported.IsTerminal() ==> later.reported == st.phase)
  {
    var skew := SomeSkew(events);
    hide Sound, Chained, LogGood, Good;
    RunIsSound(run, events, skew, i);
    SoundFacts(run[i], skew);
    RunIsSound(run, events, skew, j);
    SoundFacts(run[j], skew);
    HistoryGrows(run, events, i, j);
    ChainKeeps(run[j].spec, run[j].history, skew, |run[i].history| - 1, |run[j].history| - 1);
    if run[i].Newest().status.reported.IsTerminal() { ReportedIsThePhase(run[i].spec, run[i].Newest().status, skew); }
  }

  lemma {:induction false} ReportedIsThePhase(spec: Spec, st: Status, skew: int)
    requires Good(spec, st, skew) && st.reported.IsTerminal()
    ensures st.reported == st.phase
  {
    hide NamesGood, ProbeGood, VerdictTable;
  }

  // ---- The forge ----

  /** Check runs created on the forge, whether the operator came to know of them or not. */
  function Creations(log: seq<Entry>): nat {
    if log == [] then 0 else Creations(log[..|log| - 1]) + if log[|log| - 1].call.Creates() then 1 else 0
  }

  lemma {:induction false} CreationsSplit(log: seq<Entry>)
    ensures Creations(log) == Count(log, true) + Count(log, false)
  {
    if log != [] { CreationsSplit(log[..|log| - 1]); }
  }

  /** The check runs on the forge are the one the status remembers and those whose answer or
      recording write was lost: never more than one plus the losses. */
  lemma {:induction false} CreatesAreConserved(run: seq<System>, events: seq<Event>, i: nat)
    requires IsRun(run, events) && i < |run|
    ensures run[i].history != []
    ensures Creations(run[i].log) == Count(run[i].log, false) + if run[i].Newest().status.checkRun != 0 then 1 else 0
    ensures Creations(run[i].log) <= 1 + Count(run[i].log, false)
  {
    var skew := SomeSkew(events);
    RunIsSound(run, events, skew, i);
    hide Chained;
    CreationsSplit(run[i].log);
  }

  /** Every phase told to the forge had been stored before the call, and a cancellation is
      only sent for a check already marked for deletion. */
  lemma {:induction false} ReportedWasStored(run: seq<System>, events: seq<Event>, i: nat, n: nat)
    requires IsRun(run, events) && i < |run| && n < |run[i].log|
    ensures StoredBefore(run[i].history, run[i].log[n])
  {
    var skew := SomeSkew(events);
    RunIsSound(run, events, skew, i);
    hide Chained, StoredBefore;
  }

  /** Once the forge has been told that a check is over it is never told that it is in
      progress again, although passes may read versions from before the verdict. */
  lemma {:induction false} NoProgressAfterCompletion(run: seq<System>, events: seq<Event>, i: nat, m: nat, n: nat)
    requires IsRun(run, events) && i < |run| && m <= n < |run[i].log|
    ensures run[i].log[m].call.Completed() ==> run[i].log[n].call.Completed()
  {
    var skew := SomeSkew(events);
    RunIsSound(run, events, skew, i);
    hide Chained, StoredBefore;
  }

  /** A verdict told to the forge and recorded is never told over by a cancellation. */
  lemma {:induction false} RecordedVerdictIsNotCancelled(run: seq<System>, events: seq<Event>, i: nat, m: nat, n: nat)
    requires IsRun(run, events) && i < |run| && m < n < |run[i].log|
    requires IsVerdict(run[i].log[m].call) && run[i].log[n].call.cancelled
    ensures !run[i].log[m].call.recorded
  {
    var skew := SomeSkew(events);
    RunIsSound(run, events, skew, i);
    hide Chained, StoredBefore;
  }

  /** Where a pass leaves the status. */
  function After(st: Status, landed: seq<Status>): Status {
    if landed == [] then st else landed[|landed| - 1]
  }

  /** Whenever a pass sends a verdict to the forge, whether or not that reaches it or is
      answered, the deletion that finds the status the pass left tells a cancellation to the
      same check run exactly when that run was known before and the report was not recorded:
      because its answer was an error, or because the write that records it was refused. */
  lemma {:induction false} CancelledOverVerdictExactly(spec: Spec, cr: CR, a: Inputs, b: Inputs, skew: int)
    requires SaneSpec(spec) && Good(spec, cr.status, skew) && a.clock.stamp - a.clock.test <= skew
    requires a.report.Reported? ==> a.report.id != 0
    requires var w := Pass(spec, cr, a).0; |w.calls| == 1 && IsVerdict(w.calls[0])
    ensures var w := Pass(spec, cr, a).0;
      var later := Pass(spec, CR(After(cr.status, w.landed), true, true), b).0;
      (later.calls != [] && later.calls[0].cancelled && later.calls[0].existing == w.calls[0].existing)
      <==> cr.status.checkRun != 0 && (a.report.ReportFailed? || a.write2.Refused?)
  {
    if spec.probe.Some? { JobOutlivesBudget(spec.probe.value); }
    assert spec.reporting by { CallsNeedReporting(spec, cr, a); }
    hide Pass, Explained, NamesGood, ProbeGood, VerdictTable, ProbeBudget;
    var w := Pass(spec, cr, a).0;
    PassHasShape(spec, cr, a, skew);
    hide PassShape, Good;
    AfterVerdict(spec, cr, a, skew, w);
    DeletionPass(spec, After(cr.status, w.landed), b);
  }

  lemma {:induction false} AfterVerdict(spec: Spec, cr: CR, a: Inputs, skew: int, w: Work)
    requires PassShape(spec, cr, a, skew, w) && Good(spec, cr.status, skew)
    requires |w.calls| == 1 && IsVerdict(w.calls[0])
    ensures w.calls[0].existing == cr.status.checkRun
    ensures var st := After(cr.status, w.landed);
      && (st.checkRun != 0 && !st.reported.IsTerminal() <==>
            cr.status.checkRun != 0 && (a.report.ReportFailed? || a.write2.Refused?))
      && (cr.status.checkRun != 0 ==> st.checkRun == cr.status.checkRun)
  {
    hide Explained, Remembers, NamesGood, ProbeGood, VerdictTable;
  }

  lemma {:induction false} CallsNeedReporting(spec: Spec, cr: CR, a: Inputs)
    ensures Pass(spec, cr, a).0.calls != [] ==> spec.reporting
  {
    hide Clone, ResolveSource, CloneState, EnsureProbeJob, WaitingFailure, Jobs.JobOutcome, Tailed, Teardown,
      TTLExpired, ReadyDeadlinePassed, ProbeDeadlinePassed, Remaining, ProbeBudget, RequestFor,
      LogDetail.TruncateMigrationMessage;
  }

  lemma {:induction false} DeletionPass(spec: Spec, st: Status, b: Inputs)
    ensures var later := Pass(spec, CR(st, true, true), b).0;
      later.calls != [] && later.calls[0].cancelled <==> spec.reporting && st.checkRun != 0 && !st.reported.IsTerminal()
    ensures var later := Pass(spec, CR(st, true, true), b).0;
      later.calls != [] ==> later.calls[0].cancelled && later.calls[0].existing == st.checkRun
  {
    hide Teardown;
  }

  /** Either loss is enough.  Here the recording write is refused: a deletion right after it
      tells the forge that the check was cancelled, over the verdict it was told before. */
  lemma {:induction false} LostRecordIsCancelled(spec: Spec, cr: CR, a: Inputs, b: Inputs)
    requires spec.reporting && cr.finalizer && !cr.deleting && !TTLExpired(spec, a.clock.guard)
    requires cr.status.phase.Running? && spec.probe.Some? && cr.status.checkRun != 0 && cr.status.reported.Running?
    requires JobIs(a, Jobs.JobSucceeded) && a.write1.Acknowledged? && a.report.Reported? && a.write2.Refused?
    ensures var w := Pass(spec, cr, a).0;
      && |w.landed| == 1 && w.landed[0].phase.Passed?
      && |w.calls| == 1 && IsVerdict(w.calls[0]) && w.calls[0].answer.Reported?
      && var later := Pass(spec, CR(w.landed[0], true, true), b).0;
      && |later.calls| == 1 && later.calls[0].cancelled && later.calls[0].existing == cr.status.checkRun
  {
    hide Jobs.JobOutcome, Tailed, Teardown, TTLExpired, LogDetail.TruncateMigrationMessage;
  }

  /** Here no write is lost at all: the report reaches the forge and its answer does not
      come back, so nothing is recorded, and the deletion cancels over the verdict. */
  lemma {:induction false} UnansweredReportIsCancelled(spec: Spec, cr: CR, a: Inputs, b: Inputs)
    requires spec.reporting && cr.finalizer && !cr.deleting && !TTLExpired(spec, a.clock.guard)
    requires cr.status.phase.Running? && spec.probe.Some? && cr.status.checkRun != 0 && cr.status.reported.Running?
    requires JobIs(a, Jobs.JobSucceeded) && a.write1.Acknowledged? && a.write2.Acknowledged?
    requires a.report == ReportFailed(true)
    ensures var w := Pass(spec, cr, a).0;
      && |w.landed| == 1 && w.landed[0].phase.Passed?
      && |w.calls| == 1 && IsVerdict(w.calls[0]) && w.calls[0].answer.reached
      && var later := Pass(spec, CR(w.landed[0], true, true), b).0;
      && |later.calls| == 1 && later.calls[0].cancelled && later.calls[0].existing == cr.status.checkRun
  {
    hide Jobs.JobOutcome, Tailed, Teardown, TTLExpired, LogDetail.TruncateMigrationMessage;
  }

  // ---- Where a verdict comes from ----

  /** The write by which a check first got into a phase. */
  lemma {:induction false} PhaseOrigin(s: System, skew: int, j: nat) returns (k: nat)
    requires Sound(s, skew) && j < |s.history|
    requires s.history[j].cr.status.phase != s.history[0].cr.status.phase
    ensures 0 < k <= j && s.history[k].cause.ByPass?
    ensures s.history[k].cr.status.phase == s.history[j].cr.status.phase != s.history[k - 1].cr.status.phase
    ensures Advances(s.spec, s.history[k - 1].cr.status, s.history[k].cause.inputs, s.history[k].cr.status)
    decreases j
  {
    hide LogGood, Good, Explained;
    assert Follows(s.spec, s.history[j - 1], s.history[j - 1 + 1]);
    if s.history[j - 1].cr.status.phase == s.history[j].cr.status.phase {
      k := PhaseOrigin(s, skew, j - 1);
    } else {
      k := j;
    }
  }

  lemma {:induction false} StartsUnset(run: seq<System>, events: seq<Event>, i: nat)
    requires IsRun(run, events) && i < |run|
    ensures run[i].history != [] && run[i].history[0].cr.status == EmptyStatus
  {
    HistoryGrows(run, events, 0, i);
  }

  /** What each change of phase was told. */
  ghost predicate CameFrom(spec: Spec, st: Status, a: Inputs, to: Status)
    requires spec.probe.Some?
  {
    match to.phase
    case Ready => st.phase.Provisioning? && CloneState(a).Accepting? && !a.secretCreate.CreateError?
    case Running =>
      && st.phase.Ready? && to.probeStartedAt == Some(a.clock.stamp) && EnsureProbeJob(a).GotProbeJob?
      && Remaining(spec, a.clock.test) >= ProbeBudget(spec.probe.value)
    case Passed => st.phase.Running? && JobIs(a, Jobs.JobSucceeded)
    case Failed => st.phase.Running? && JobIs(a, Jobs.JobFailed) && WaitingFailure(a).None?
    case _ => true
  }

  lemma {:induction false} AdvanceCameFrom(spec: Spec, st: Status, a: Inputs, to: Status)
    requires Advances(spec, st, a, to) && spec.probe.Some? && to.phase != st.phase
    ensures CameFrom(spec, st, a, to)
  {
    hide CloneState, EnsureProbeJob, JobIs, WaitingFailure, Remaining, ProbeBudget, NeverJudged;
  }

  lemma {:induction false} PhaseCameFrom(s: System, skew: int, j: nat) returns (k: nat)
    requires Sound(s, skew) && j < |s.history| && s.spec.probe.Some?
    requires s.history[j].cr.status.phase != s.history[0].cr.status.phase
    ensures 0 < k <= j && s.history[k].cause.ByPass? && s.history[k].cr.status.phase == s.history[j].cr.status.phase
    ensures CameFrom(s.spec, s.history[k - 1].cr.status, s.history[k].cause.inputs, s.history[k].cr.status)
  {
    hide Sound, CameFrom, Advances;
    k := PhaseOrigin(s, skew, j);
    AdvanceCameFrom(s.spec, s.history[k - 1].cr.status, s.history[k].cause.inputs, s.history[k].cr.status);
  }

  lemma {:induction false} JudgedKnowsItsSecret(spec: Spec, st: Status, skew: int)
    requires Good(spec, st, skew) && spec.probe.Some? && (st.phase.Passed? || st.phase.Failed?)
    ensures st.connectionSecret == SecretName(spec)
  {
    hide ProbeGood, VerdictTable, SecretName, CloneNamespace, ProbeJobName;
  }

  /** A probe was judged, one way or the other, only by three writes of the run: one that
      made a provisioning check Ready, with its Secret, by a pass that saw the clone accept
      connections; one that made a Ready check Running, with its Job, by a pass that saw
      enough TTL left and got that Job; and one that ended a Running check by a pass that
      read the Job's outcome.  A bad one counts only when no container of its pod was seen
      waiting for image or configuration. */
  lemma {:induction false} JudgementWasEarned(run: seq<System>, events: seq<Event>, i: nat)
      returns (ready: nat, started: nat, judged: nat)
    requires IsRun(run, events) && i < |run| && run[i].spec.probe.Some?
    requires run[i].history != [] && (run[i].Newest().status.phase.Passed? || run[i].Newest().status.phase.Failed?)
    ensures var h := run[i].history; var probe := run[i].spec.probe.value;
      && 0 < ready < started < judged < |h|
      && h[ready].cause.ByPass? && h[started].cause.ByPass? && h[judged].cause.ByPass?
      && h[ready - 1].cr.status.phase.Provisioning? && h[ready].cr.status.phase.Ready?
      && h[ready].cr.status.connectionSecret == SecretName(run[i].spec)
      && h[started - 1].cr.status.phase.Ready? && h[started].cr.status.phase.Running?
      && h[started].cr.status.probeJob == ProbeJobName(run[i].spec)
      && h[started].cr.status.probeStartedAt == Some(h[started].cause.inputs.clock.stamp)
      && h[judged - 1].cr.status.phase.Running?
      && CloneState(h[ready].cause.inputs).Accepting? && !h[ready].cause.inputs.secretCreate.CreateError?
      && EnsureProbeJob(h[started].cause.inputs).GotProbeJob?
      && Remaining(run[i].spec, h[started].cause.inputs.clock.test) >= ProbeBudget(probe)
      && h[judged].cr.status.phase == run[i].Newest().status.phase
      && (if h[judged].cr.status.phase.Passed? then JobIs(h[judged].cause.inputs, Jobs.JobSucceeded)
          else JobIs(h[judged].cause.inputs, Jobs.JobFailed) && WaitingFailure(h[judged].cause.inputs).None?)
      && run[i].Newest().status.connectionSecret == SecretName(run[i].spec)
  {
    var skew := SomeSkew(events);
    hide CloneState, EnsureProbeJob, JobIs, WaitingFailure, Remaining, ProbeBudget, Sound, Good, Chained, LogGood;
    RunIsSound(run, events, skew, i);
    StartsUnset(run, events, i);
    var s := run[i];
    SoundFacts(s, skew);
    JudgedKnowsItsSecret(s.spec, s.Newest().status, skew);
    judged := PhaseCameFrom(s, skew, |s.history| - 1);
    started := PhaseCameFrom(s, skew, judged - 1);
    ready := PhaseCameFrom(s, skew, started - 1);
    ChainIsGood(s.spec, s.history, skew, started);
    ChainIsGood(s.spec, s.history, skew, ready);
    RecordedByPhase(s.spec, s.history[started].cr.status, skew);
    RecordedByPhase(s.spec, s.history[ready].cr.status, skew);
  }

  lemma {:induction false} ChainIsGood(spec: Spec, h: seq<Version>, skew: int, i: nat)
    requires Chained(spec, h, skew) && i < |h|
    ensures Good(spec, h[i].cr.status, skew)
  {
    hide Good, Follows;
  }

  /** A Ready check has its Secret, a Running one its Job too. */
  lemma {:induction false} RecordedByPhase(spec: Spec, st: Status, skew: int)
    requires Good(spec, st, skew)
    ensures st.phase.Ready? || st.phase.Running? ==> st.connectionSecret == SecretName(spec)
    ensures st.phase.Running? ==> st.probeJob == ProbeJobName(spec)
  {
    hide VerdictTable, ReportGood, CloneNamespace, ProbeBudget, Deadline;
  }

  /** A check that ends without a judgement says why, and the pass that ended it was told
      so: the clone could not be made, the ready timeout ran out on a clone not accepting
      connections, too little TTL was left, a container was seen waiting for image or
      configuration, or the probe's Job vanished or ran past its budget. */
  lemma {:induction false} ExpiryWasExplained(run: seq<System>, events: seq<Event>, i: nat) returns (k: nat)
    requires IsRun(run, events) && i < |run|
    requires run[i].history != [] && run[i].Newest().status.phase.Expired?
    ensures var h := run[i].history;
      && 0 < k < |h| && h[k].cause.ByPass? && run[i].spec.probe.Some?
      && h[k].cr.status.reason == run[i].Newest().status.reason
      && NeverJudged(run[i].spec, h[k - 1].cr.status, h[k].cause.inputs, h[k].cr.status.reason)
  {
    var skew := SomeSkew(events);
    hide Sound, Good, Chained, LogGood, NeverJudged;
    RunIsSound(run, events, skew, i);
    StartsUnset(run, events, i);
    SoundFacts(run[i], skew);
    k := PhaseOrigin(run[i], skew, |run[i].history| - 1);
    ChainKeeps(run[i].spec, run[i].history, skew, k, |run[i].history| - 1);
  }

  /** Without a probe a check is never Running, Passed or Expired: it is Ready, or its
      clone could not be made. */
  lemma {:induction false} WithoutProbe(run: seq<System>, events: seq<Event>, i: nat)
    requires IsRun(run, events) && i < |run| && run[i].spec.probe.None?
    ensures run[i].history != []
    ensures var st := run[i].Newest().status;
      && !st.phase.Running? && !st.phase.Passed? && !st.phase.Expired?
      && (st.phase.Failed? ==> st.reason.CloneFailed?)
  {
    var skew := SomeSkew(events);
    hide Sound, Chained, LogGood;
    RunIsSound(run, events, skew, i);
    SoundFacts(run[i], skew);
  }

  /** Every verdict is one of the table, and its message is bounded, log tail and all. */
  lemma {:induction false} VerdictIsInTable(run: seq<System>, events: seq<Event>, i: nat)
    requires IsRun(run, events) && i < |run|
    requires run[i].history != [] && run[i].Newest().status.phase.IsTerminal()
    ensures var st := run[i].Newest().status;
      VerdictTable(run[i].spec, st.phase, st.reason) && st.completedAt.Some? && |st.message| <= 4100
  {
    var skew := SomeSkew(events);
    hide Sound, Chained, LogGood, VerdictTable;
    RunIsSound(run, events, skew, i);
    SoundFacts(run[i], skew);
  }

  /** A check at work: under its finalizer, not being deleted, its TTL not reached. */
  predicate AtWork(spec: Spec, cr: CR, a: Inputs) {
    cr.finalizer && !cr.deleting && !TTLExpired(spec, a.clock.guard)
  }

  /** A pass over an undecided check with a probe lands Failed exactly when the check is
      Running, its Job failed, no stuck container was seen and the write was not refused. */
  lemma {:induction false} FailedExactly(spec: Spec, cr: CR, a: Inputs, skew: int)
    requires SaneSpec(spec) && spec.probe.Some? && Good(spec, cr.status, skew) && a.clock.stamp - a.clock.test <= skew
    requires !cr.status.phase.IsTerminal() && (a.report.Reported? ==> a.report.id != 0)
    ensures var w := Pass(spec, cr, a).0;
      (w.landed != [] && w.landed[0].phase.Failed?) <==>
        && AtWork(spec, cr, a) && cr.status.phase.Running? && !a.write1.Refused?
        && JobIs(a, Jobs.JobFailed) && WaitingFailure(a).None?
  {
    JobOutlivesBudget(spec.probe.value);
    PassHasShape(spec, cr, a, skew);
    WorkingPass(spec, cr, a);
    if AtWork(spec, cr, a) && cr.status.phase.Running? && !a.write1.Refused?
       && JobIs(a, Jobs.JobFailed) && WaitingFailure(a).None? {
      FailureLands(spec, Begin(cr), a);
    }
    hide Pass, Good, WaitingFailure, JobIs, Remembers, NeverJudged, CheckProbe, ProbeBudget, TTLExpired;
  }

  /** Off work, or read back, a pass lands nothing; at work it does what its phase says. */
  lemma {:induction false} WorkingPass(spec: Spec, cr: CR, a: Inputs)
    ensures !AtWork(spec, cr, a) ==> Pass(spec, cr, a).0.landed == []
    ensures AtWork(spec, cr, a) ==> Pass(spec, cr, a) == (Advance(spec, Begin(cr), a), NoMeta)
  {
    hide Advance, Teardown, TTLExpired;
  }

  lemma {:induction false} FailureLands(spec: Spec, w: Work, a: Inputs)
    requires spec.probe.Some? && w.landed == [] && !a.write1.Refused?
    requires JobIs(a, Jobs.JobFailed) && WaitingFailure(a).None?
    ensures |CheckProbe(spec, w, a).landed| >= 1 && CheckProbe(spec, w, a).landed[0].phase.Failed?
  {
    hide Jobs.JobOutcome, Tailed, StuckPod, LogDetail.TruncateMigrationMessage;
  }

  /** Failed does not prove that the app ran.  Whatever the pods of a failed Job really look
      like, the check lands Failed over a pod that never started exactly when there is such
      a pod and the pods could not be listed. */
  lemma {:induction false} FailedWithoutLooking(spec: Spec, cr: CR, a: Inputs, actual: seq<Pod>, skew: int)
    requires SaneSpec(spec) && spec.probe.Some? && Good(spec, cr.status, skew) && a.clock.stamp - a.clock.test <= skew
    requires a.report.Reported? ==> a.report.id != 0
    requires AtWork(spec, cr, a) && cr.status.phase.Running? && JobIs(a, Jobs.JobFailed) && !a.write1.Refused?
    requires a.pods.None? || a.pods == Some(actual)
    ensures var w := Pass(spec, cr, a).0;
      && w.landed != []
      && (w.landed[0].phase.Failed? && StuckPod(actual).Some? <==> StuckPod(actual).Some? && a.pods.None?)
  {
    FailedExactly(spec, cr, a, skew);
    WorkingPass(spec, cr, a);
    hide Pass, Good, StuckPod, AtWork;
    FailedJobDecides(spec, Begin(cr), a);
  }

  lemma {:induction false} FailedJobDecides(spec: Spec, w: Work, a: Inputs)
    requires spec.probe.Some? && w.landed == [] && !a.write1.Refused? && JobIs(a, Jobs.JobFailed)
    ensures |CheckProbe(spec, w, a).landed| >= 1
  {
    hide Jobs.JobOutcome, Tailed, StuckPod, LogDetail.TruncateMigrationMessage;
  }

  /** A Job its own deadline killed, whatever its pods had got to. */
  predicate KilledByDeadline(job: Jobs.Job) {
    exists i | 0 <= i < |job.conditions| ::
      && Jobs.Decides(job.conditions, i) && job.conditions[i].kind.FailedCondition?
      && job.conditions[i].reason == "DeadlineExceeded"
  }

  /** Nor that it was given its time: the reason a Job failed for is not looked at, so one
      killed by its own deadline counts against the change too, unless a stuck container
      was seen; and read before the reconciler's own deadline or after makes no difference. */
  lemma {:induction false} DeadlineCountsAsFailed(spec: Spec, cr: CR, a: Inputs, skew: int)
    requires SaneSpec(spec) && spec.probe.Some? && Good(spec, cr.status, skew) && a.clock.stamp - a.clock.test <= skew
    requires a.report.Reported? ==> a.report.id != 0
    requires AtWork(spec, cr, a) && cr.status.phase.Running? && !a.write1.Refused?
    requires a.job.JobRead? && KilledByDeadline(a.job.job)
    ensures var w := Pass(spec, cr, a).0;
      (w.landed != [] && w.landed[0].phase.Failed?) <==> WaitingFailure(a).None?
  {
    Jobs.JobOutcomeExactly(a.job.job);
    hide Pass, Good, WaitingFailure, Jobs.JobOutcome, Jobs.Decides, AtWork;
    FailedExactly(spec, cr, a, skew);
  }

  // ---- Deadlines ----

  /** When the TTL reaps a check whose probe is running, the probe has had its whole
      budget, but for the time between two clock readings of the pass that started it. */
  lemma {:induction false} ProbeHadItsBudget(run: seq<System>, events: seq<Event>, i: nat, skew: int, now: Time)
    requires IsRun(run, events) && i < |run| && SkewAtMost(events, skew)
    requires run[i].history != [] && run[i].Newest().status.phase.Running? && TTLExpired(run[i].spec, now)
    ensures run[i].spec.probe.Some? && run[i].Newest().status.probeStartedAt.Some?
    ensures now + skew >= run[i].Newest().status.probeStartedAt.value + ProbeBudget(run[i].spec.probe.value)
  {
    hide Sound, Chained, LogGood, ProbeBudget, Deadline;
    RunIsSound(run, events, skew, i);
    SoundFacts(run[i], skew);
  }
}
