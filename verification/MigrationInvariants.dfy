/** What every reachable MigrationCheck status satisfies, and how one pass moves it. */
module MigrationInvariants {
  import opened Text
  import opened ApiServer
  import opened MigrationApi
  import opened MigrationClone
  import opened MigrationPass
  import Jobs
  import LogDetail

  /** The verdicts a check can carry: with a probe only the probe's own failure is Failed,
      without one only a clone that could not be made. */
  predicate VerdictTable(spec: Spec, phase: Phase, reason: Reason) {
    match phase
    case Passed => spec.probe.Some? && reason.ProbePassed?
    case Failed => if spec.probe.Some? then reason.ProbeFailed? else reason.CloneFailed?
    case Expired =>
      spec.probe.Some?
      && reason in {CloneFailed, CloneNotReady, TTLTooShort, ImageUnavailable, PodNotStarted, DeadlineExceeded}
    case _ => false
  }

  predicate NamesGood(spec: Spec, st: Status) {
    && st.cloneNamespace in {"", CloneNamespace(spec)}
    && st.probeJob in {"", ProbeJobName(spec)}
    && st.connectionSecret in {"", SecretName(spec)}
    && (st.phase in {Provisioning, Ready, Running, Passed} ==> st.cloneNamespace != "")
    && (st.phase in {Ready, Running, Passed} ==> st.connectionSecret != "")
    && (st.phase.Failed? && spec.probe.Some? ==> st.connectionSecret != "" && st.probeJob != "")
  }

  /** `skew` bounds how far apart the two clock readings of one pass may be. */
  predicate ProbeGood(spec: Spec, st: Status, skew: int) {
    && (spec.probe.None? ==> !st.phase.Running? && !st.phase.Passed? && !st.phase.Expired? && st.probeJob == "")
    && (st.probeJob != "" <==> st.probeStartedAt.Some?)
    && (st.phase.Running? || st.phase.Passed? ==> st.probeJob != "")
    && (st.phase.Rank() < 3 ==> st.probeJob == "")
    && (st.probeStartedAt.Some? && spec.probe.Some? ==>
          st.probeStartedAt.value + ProbeBudget(spec.probe.value) <= Deadline(spec) + skew)
  }

  predicate ReportGood(st: Status) {
    && (st.checkRun == 0 ==> st.reported.Unset?)
    && st.reported.Rank() <= st.phase.Rank()
    && (st.reported.IsTerminal() ==> st.reported == st.phase)
  }

  predicate Good(spec: Spec, st: Status, skew: int) {
    && NamesGood(spec, st) && ProbeGood(spec, st, skew) && ReportGood(st)
    && (st.phase.IsTerminal() <==> st.completedAt.Some?)
    && (st.phase.Unset? || st.phase.Pending? || st.startedAt.Some?)
    && (if st.cloneNamespace == "" then st.expiresAt.None? else st.expiresAt == Some(Deadline(spec)))
    && (st.phase.IsTerminal() ==> VerdictTable(spec, st.phase, st.reason) && |st.message| <= 4100)
  }

  lemma FreshIsGood(spec: Spec, skew: int)
    ensures Good(spec, EmptyStatus, skew)
  {
  }

  // ---- How a status moves ----

  predicate JobIs(a: Inputs, phase: Jobs.JobPhase) { a.job.JobRead? && Jobs.JobOutcome(a.job.job) == phase }

  predicate OnlyMessage(st: Status, to: Status) { to == st.(message := to.message) }

  /** What a pass was told when it moved a check without a verdict from `st` to `to`. */
  predicate Explained(spec: Spec, st: Status, a: Inputs, to: Status) {
    match to.phase
    case Unset | Pending => false
    case Provisioning => st.phase.Rank() == 0
    case Ready =>
      || (st.phase.Provisioning? && CloneState(a).Accepting? && !a.secretCreate.CreateError?)
      || (st.phase.Ready? && OnlyMessage(st, to))
    case Running =>
      || (st.phase.Ready? && spec.probe.Some? && EnsureProbeJob(a).GotProbeJob?
          && Remaining(spec, a.clock.test) >= ProbeBudget(spec.probe.value) && to.probeStartedAt == Some(a.clock.stamp))
      || (st.phase.Running? && OnlyMessage(st, to))
    case Passed => st.phase.Running? && JobIs(a, Jobs.JobSucceeded)
    case Failed =>
      if spec.probe.Some? then st.phase.Running? && JobIs(a, Jobs.JobFailed) && WaitingFailure(a).None?
      else st.phase.Rank() == 0
    case Expired => spec.probe.Some? && NeverJudged(spec, st, a, to.reason)
  }

  /** Why a check with a probe ends without a judgement of the change. */
  predicate NeverJudged(spec: Spec, st: Status, a: Inputs, reason: Reason)
    requires spec.probe.Some?
  {
    match reason
    case CloneFailed => st.phase.Rank() == 0
    case CloneNotReady => st.phase.Provisioning? && CloneState(a).NotYet? && ReadyDeadlinePassed(spec, st, a.clock.test)
    case TTLTooShort => st.phase.Ready? && Remaining(spec, a.clock.test) < ProbeBudget(spec.probe.value)
    case ImageUnavailable | PodNotStarted =>
      && st.phase.Running? && WaitingFailure(a) == Some(reason)
      && (JobIs(a, Jobs.JobFailed) || ProbeDeadlinePassed(spec, st, a.clock.test))
    case DeadlineExceeded =>
      && st.phase.Running?
      && (a.job.JobMissing? || (JobIs(a, Jobs.JobRunning) && ProbeDeadlinePassed(spec, st, a.clock.test)))
    case _ => false
  }

  /** What was recorded once stays recorded. */
  predicate Remembers(st: Status, to: Status) {
    && (st.startedAt.Some? ==> to.startedAt == st.startedAt)
    && (st.cloneNamespace != "" ==> to.cloneNamespace == st.cloneNamespace && to.expiresAt == st.expiresAt)
    && (st.connectionSecret != "" ==> to.connectionSecret == st.connectionSecret)
    && (st.probeStartedAt.Some? ==> to.probeStartedAt == st.probeStartedAt && to.probeJob == st.probeJob)
  }

  /** The write that moves a check: explained, never backwards, and no report in it. */
  predicate Advances(spec: Spec, st: Status, a: Inputs, to: Status) {
    && !st.phase.IsTerminal() && st.phase.Rank() <= to.phase.Rank()
    && Explained(spec, st, a, to)
    && to.checkRun == st.checkRun && to.reported == st.reported
    && Remembers(st, to)
  }

  /** The write that records a report: it touches nothing but the report. */
  predicate Records(st: Status, a: Inputs, to: Status) {
    && st.reported != st.phase && a.report.Reported?
    && to == st.(checkRun := if st.checkRun == 0 then a.report.id else st.checkRun, reported := st.phase)
  }

  // ---- The shape of a pass ----

  ghost predicate Silent(w: Work) { w.landed == [] && w.calls == [] }

  /** One call was made about `st`, after `at` writes; it is recorded or nothing follows. */
  ghost predicate Sent(st: Status, at: nat, a: Inputs, w: Work) {
    && |w.calls| == 1
    && st.reported != st.phase
    && w.calls[0] == ForgeCall(st.checkRun, st.phase, false, a.report, a.report.Reported? && !a.write2.Refused?, at)
    && |w.landed| == at + (if w.calls[0].recorded then 1 else 0)
    && (w.calls[0].recorded ==> Records(st, a, w.landed[at]))
  }

  ghost predicate Cancels(cr: CR, a: Inputs, w: Work) {
    && cr.deleting && w.landed == []
    && w.calls == [ForgeCall(cr.status.checkRun, cr.status.phase, true, a.report, false, 0)]
    && cr.status.checkRun != 0 && !cr.status.reported.IsTerminal()
  }

  ghost predicate Republishes(cr: CR, a: Inputs, w: Work) {
    && !cr.deleting && cr.status.phase.IsTerminal() && Sent(cr.status, 0, a, w)
  }

  ghost predicate Moves(spec: Spec, cr: CR, a: Inputs, w: Work) {
    && !cr.deleting && |w.landed| >= 1 && !a.write1.Refused?
    && Advances(spec, cr.status, a, w.landed[0])
    && (Sent(w.landed[0], 1, a, w) || (w.calls == [] && |w.landed| == 1))
  }

  lemma {:induction false} PublishShape(spec: Spec, w: Work, a: Inputs)
    requires w.calls == []
    ensures var r := PublishReport(spec, w, a);
      && (r == w || (Sent(w.status, |w.landed|, a, r) && spec.reporting && w.landed <= r.landed))
      && r.created == w.created
  {
  }

  lemma {:induction false} StoreShape(spec: Spec, w: Work, to: Status, a: Inputs, reports: bool)
    requires w.landed == [] && w.calls == []
    ensures var r := if reports then StoreAndReport(spec, w, to, a) else Store(w, to, a);
      && r.created == w.created
      && (Silent(r) || (|r.landed| >= 1 && r.landed[0] == to && !a.write1.Refused?
                         && (Sent(to, 1, a, r) || (r.calls == [] && |r.landed| == 1))))
  {
    hide PublishReport, Sent;
    PublishShape(spec, Store(w, to, a), a);
  }

  // ---- Each phase of the pass ----

  /** A move of a good status that lands in a good one. */
  predicate GoodMove(spec: Spec, st: Status, a: Inputs, to: Status, skew: int) {
    Advances(spec, st, a, to) && Good(spec, to, skew)
  }

  /** What a phase function leaves behind. */
  ghost predicate Leaves(spec: Spec, st: Status, a: Inputs, skew: int, w: Work) {
    || Silent(w)
    || (|w.landed| >= 1 && !a.write1.Refused? && GoodMove(spec, st, a, w.landed[0], skew)
        && (Sent(w.landed[0], 1, a, w) || (w.calls == [] && |w.landed| == 1)))
  }

  lemma {:induction false} MoveLeaves(spec: Spec, st: Status, w: Work, to: Status, a: Inputs, reports: bool, skew: int)
    requires w.landed == [] && w.calls == [] && GoodMove(spec, st, a, to, skew)
    ensures Leaves(spec, st, a, skew, if reports then StoreAndReport(spec, w, to, a) else Store(w, to, a))
  {
    hide GoodMove, StoreAndReport, Store, Sent;
    StoreShape(spec, w, to, a, reports);
  }

  function Finished(st: Status, phase: Phase, reason: Reason, message: string, a: Inputs): Status {
    st.(phase := phase, reason := reason, completedAt := Some(a.clock.stamp),
        message := LogDetail.TruncateMigrationMessage(message))
  }

  lemma {:induction false} FinishLeaves(spec: Spec, st: Status, w: Work, phase: Phase, reason: Reason, message: string,
                                        a: Inputs, skew: int)
    requires w.landed == [] && w.calls == [] && phase.IsTerminal()
    requires GoodMove(spec, st, a, Finished(w.status, phase, reason, message, a), skew)
    ensures Leaves(spec, st, a, skew, Finish(spec, w, phase, reason, message, a))
  {
    hide GoodMove, StoreAndReport, LogDetail.TruncateMigrationMessage;
    MoveLeaves(spec, st, w, Finished(w.status, phase, reason, message, a), a, true, skew);
  }

  /** A verdict on a good status is a good move when it is in the table and explained. */
  lemma {:induction false} VerdictMove(
      spec: Spec, st: Status, from: Status, phase: Phase, reason: Reason, message: string, a: Inputs, skew: int)
    requires Good(spec, st, skew) && !st.phase.IsTerminal() && phase.IsTerminal()
    requires from == st.(startedAt := from.startedAt) && (from.startedAt.Some? || (from == st && st.phase.Rank() > 0))
    requires st.startedAt.Some? ==> from.startedAt == st.startedAt
    requires VerdictTable(spec, phase, reason)
    requires Explained(spec, st, a, Finished(from, phase, reason, message, a))
    ensures GoodMove(spec, st, a, Finished(from, phase, reason, message, a), skew)
  {
    hide NeverJudged, JobIs, WaitingFailure, CloneState, EnsureProbeJob, Deadline, LogDetail.TruncateMigrationMessage;
    LogDetail.Bounds("", message);
  }

  lemma {:induction false} ProvisionLeaves(spec: Spec, w: Work, a: Inputs, skew: int)
    requires Silent(w) && Good(spec, w.status, skew) && w.status.phase.Rank() == 0
    ensures Leaves(spec, w.status, a, skew, Provision(spec, w, a))
  {
    var st := w.status;
    var from := st.(startedAt := if st.startedAt.None? then Some(a.clock.test) else st.startedAt);
    var phase := if spec.probe.Some? then Expired else Failed;
    VerdictMove(spec, st, from, phase, CloneFailed, a.headline, a, skew);
    var to := from.(phase := Provisioning, reason := CloneProvisioning, message := "clone provisioning",
                    cloneNamespace := CloneNamespace(spec), expiresAt := Some(Deadline(spec)));
    assert GoodMove(spec, st, a, to, skew);
    var w1 := w.(status := from);
    var w2 := w1.(created := w1.created + {NamespaceObj(CloneNamespace(spec))});
    hide GoodMove, Finish, StoreAndReport, Finished, Clone, RequestFor, Leaves;
    FinishLeaves(spec, st, w1, phase, CloneFailed, a.headline, a, skew);
    var source := ResolveSource(spec, a.prod);
    SilentLeaves(spec, st, a, skew, w2);
    if source.Some? {
      var w3 := w2.(created := w2.created + Clone(RequestFor(spec, source.value), a.clone).created);
      FinishLeaves(spec, st, w3, phase, CloneFailed, a.headline, a, skew);
      MoveLeaves(spec, st, w3, to, a, true, skew);
    }
  }

  lemma {:induction false} SilentLeaves(spec: Spec, st: Status, a: Inputs, skew: int, w: Work)
    requires Silent(w)
    ensures Leaves(spec, st, a, skew, w)
  {
  }

  lemma {:induction false} ReadyLeaves(spec: Spec, w: Work, a: Inputs, skew: int)
    requires Silent(w) && Good(spec, w.status, skew) && w.status.phase.Provisioning?
    ensures Leaves(spec, w.status, a, skew, CheckReady(spec, w, a))
  {
    var st := w.status;
    var to := st.(phase := Ready, reason := CloneReady, message := "clone ready", connectionSecret := SecretName(spec));
    var w1 := w.(created := w.created + {SecretObj(spec.namespace, SecretName(spec))});
    if CloneState(a).NotYet? && spec.probe.Some? && ReadyDeadlinePassed(spec, st, a.clock.test) {
      VerdictMove(spec, st, st, Expired, CloneNotReady, a.headline, a, skew);
    }
    if CloneState(a).Accepting? && !a.secretCreate.CreateError? { assert GoodMove(spec, st, a, to, skew); }
    hide GoodMove, Finish, Store, Finished, Leaves, CloneState, ReadyDeadlinePassed;
    SilentLeaves(spec, st, a, skew, w);
    SilentLeaves(spec, st, a, skew, w1);
    if CloneState(a).NotYet? && spec.probe.Some? && ReadyDeadlinePassed(spec, st, a.clock.test) {
      FinishLeaves(spec, st, w, Expired, CloneNotReady, a.headline, a, skew);
    }
    if CloneState(a).Accepting? && !a.secretCreate.CreateError? { MoveLeaves(spec, st, w1, to, a, false, skew); }
  }

  /** The status that says a probe has been started. */
  function Started(spec: Spec, st: Status, a: Inputs): Status {
    st.(phase := Running, reason := ProbeRunning, message := a.headline, probeJob := ProbeJobName(spec),
        probeStartedAt := if st.probeStartedAt.None? then Some(a.clock.stamp) else st.probeStartedAt)
  }

  lemma {:induction false} StartedMove(spec: Spec, st: Status, a: Inputs, skew: int)
    requires Good(spec, st, skew) && st.phase.Ready? && spec.probe.Some? && a.clock.stamp - a.clock.test <= skew
    requires EnsureProbeJob(a).GotProbeJob? && Remaining(spec, a.clock.test) >= ProbeBudget(spec.probe.value)
    requires ProbeBudget(spec.probe.value) > 0
    ensures GoodMove(spec, st, a, Started(spec, st, a), skew)
  {
    hide EnsureProbeJob, ProbeBudget, Deadline;
  }

  lemma {:induction false} MessageMove(spec: Spec, st: Status, a: Inputs, message: string, skew: int)
    requires Good(spec, st, skew) && (st.phase.Ready? || st.phase.Running?)
    ensures GoodMove(spec, st, a, st.(message := message), skew)
  {
  }

  lemma {:induction false} StartLeaves(spec: Spec, w: Work, a: Inputs, skew: int)
    requires Silent(w) && Good(spec, w.status, skew) && w.status.phase.Ready? && spec.probe.Some?
    requires a.clock.stamp - a.clock.test <= skew && ProbeBudget(spec.probe.value) > 0
    ensures Leaves(spec, w.status, a, skew, StartProbe(spec, w, a))
  {
    var st := w.status;
    var w1 := w.(created := w.created + {JobObj(spec.namespace, ProbeJobName(spec))});
    var asked := if JobRequested(a) then w1 else w;
    hide Good, GoodMove, Finish, StoreAndReport, Store, Finished, Leaves, EnsureProbeJob, JobRequested, ProbeBudget,
      Remaining;
    SilentLeaves(spec, st, a, skew, asked);
    if Remaining(spec, a.clock.test) < ProbeBudget(spec.probe.value) {
      TooShortMove(spec, st, a, skew);
      FinishLeaves(spec, st, w, Expired, TTLTooShort, a.headline, a, skew);
    } else {
      var e := EnsureProbeJob(a);
      match e {
        case EnsureError =>
        case WaitForJob(message) =>
          MessageMove(spec, st, a, message, skew);
          MoveLeaves(spec, st, asked, st.(message := message), a, false, skew);
        case GotProbeJob =>
          StartedMove(spec, st, a, skew);
          MoveLeaves(spec, st, asked, Started(spec, st, a), a, true, skew);
      }
    }
  }

  lemma {:induction false} TooShortMove(spec: Spec, st: Status, a: Inputs, skew: int)
    requires Good(spec, st, skew) && st.phase.Ready? && spec.probe.Some?
    requires Remaining(spec, a.clock.test) < ProbeBudget(spec.probe.value)
    ensures GoodMove(spec, st, a, Finished(st, Expired, TTLTooShort, a.headline, a), skew)
  {
    hide Good, GoodMove, Remaining, ProbeBudget;
    VerdictMove(spec, st, st, Expired, TTLTooShort, a.headline, a, skew);
  }

  /** A verdict on a running probe, when the answers explain it. */
  lemma {:induction false} ProbeVerdict(
      spec: Spec, w: Work, a: Inputs, phase: Phase, reason: Reason, message: string, skew: int)
    requires Silent(w) && Good(spec, w.status, skew) && w.status.phase.Running? && phase.IsTerminal()
    requires VerdictTable(spec, phase, reason)
    requires phase.Passed? ==> JobIs(a, Jobs.JobSucceeded)
    requires phase.Failed? ==> spec.probe.Some? && JobIs(a, Jobs.JobFailed) && WaitingFailure(a).None?
    requires phase.Expired? ==> spec.probe.Some? && NeverJudged(spec, w.status, a, reason)
    ensures Leaves(spec, w.status, a, skew, Finish(spec, w, phase, reason, message, a))
  {
    hide Good, GoodMove, Leaves, Finish, NeverJudged, JobIs, WaitingFailure, VerdictTable;
    VerdictMove(spec, w.status, w.status, phase, reason, message, a, skew);
    FinishLeaves(spec, w.status, w, phase, reason, message, a, skew);
  }

  lemma {:induction false} StuckReasons(cs: seq<Container>)
    ensures StuckContainer(cs).Some? ==> StuckContainer(cs).value in {ImageUnavailable, PodNotStarted}
  {
    if cs != [] { StuckReasons(cs[1..]); }
  }

  lemma {:induction false} StuckPodReasons(pods: seq<Pod>)
    ensures StuckPod(pods).Some? ==> StuckPod(pods).value in {ImageUnavailable, PodNotStarted}
  {
    if pods != [] {
      StuckReasons(pods[0].init + pods[0].main);
      StuckPodReasons(pods[1..]);
    }
  }

  lemma {:induction false} RunningLeaves(spec: Spec, w: Work, a: Inputs, skew: int)
    requires Silent(w) && Good(spec, w.status, skew) && w.status.phase.Running? && spec.probe.Some?
    requires JobIs(a, Jobs.JobRunning)
    ensures Leaves(spec, w.status, a, skew, CheckProbe(spec, w, a))
  {
    var st, stuck := w.status, WaitingFailure(a);
    if a.pods.Some? { StuckPodReasons(a.pods.value); }
    hide Good, GoodMove, Leaves, Finish, Store, StuckPod, Jobs.JobOutcome, ProbeDeadlinePassed, Tailed, Silent;
    SilentLeaves(spec, st, a, skew, w);
    var late := ProbeDeadlinePassed(spec, st, a.clock.test);
    if stuck.Some? && late {
      ProbeVerdict(spec, w, a, Expired, stuck.value, a.headline, skew);
    } else if stuck.Some? {
      var message := "waiting for the probe pod: " + a.waitText;
      MessageMove(spec, st, a, message, skew);
      MoveLeaves(spec, st, w, st.(message := message), a, false, skew);
    } else if late {
      ProbeVerdict(spec, w, a, Expired, DeadlineExceeded, Tailed(a), skew);
    }
  }

  lemma {:induction false} JudgedLeaves(spec: Spec, w: Work, a: Inputs, skew: int)
    requires Silent(w) && Good(spec, w.status, skew) && w.status.phase.Running? && spec.probe.Some?
    requires JobIs(a, Jobs.JobSucceeded) || JobIs(a, Jobs.JobFailed)
    ensures Leaves(spec, w.status, a, skew, CheckProbe(spec, w, a))
  {
    var stuck := WaitingFailure(a);
    if a.pods.Some? { StuckPodReasons(a.pods.value); }
    hide Good, Leaves, Finish, Store, StuckPod, Jobs.JobOutcome, Tailed, Silent, ProbeDeadlinePassed;
    if JobIs(a, Jobs.JobSucceeded) {
      ProbeVerdict(spec, w, a, Passed, ProbePassed, Tailed(a), skew);
    } else if stuck.Some? {
      ProbeVerdict(spec, w, a, Expired, stuck.value, Tailed(a), skew);
    } else {
      ProbeVerdict(spec, w, a, Failed, ProbeFailed, Tailed(a), skew);
    }
  }

  lemma {:induction false} UnreadJobLeaves(spec: Spec, w: Work, a: Inputs, skew: int)
    requires Silent(w) && Good(spec, w.status, skew) && w.status.phase.Running? && spec.probe.Some?
    requires !a.job.JobRead?
    ensures Leaves(spec, w.status, a, skew, CheckProbe(spec, w, a))
  {
    hide Good, Leaves, Finish, Store, WaitingFailure, Silent;
    SilentLeaves(spec, w.status, a, skew, w);
    if a.job.JobMissing? { ProbeVerdict(spec, w, a, Expired, DeadlineExceeded, a.headline, skew); }
  }

  lemma {:induction false} ProbeLeaves(spec: Spec, w: Work, a: Inputs, skew: int)
    requires Silent(w) && Good(spec, w.status, skew) && w.status.phase.Running? && spec.probe.Some?
    ensures Leaves(spec, w.status, a, skew, CheckProbe(spec, w, a))
  {
    hide Good, Leaves, CheckProbe, Silent, Jobs.JobOutcome;
    if !a.job.JobRead? { UnreadJobLeaves(spec, w, a, skew); }
    else if JobIs(a, Jobs.JobRunning) { RunningLeaves(spec, w, a, skew); }
    else { JudgedLeaves(spec, w, a, skew); }
  }

  // ---- The whole pass ----

  /** The statuses of a pass's landed writes are good, and its writes and its one call to
      the forge have one of four shapes. */
  ghost predicate PassShape(spec: Spec, cr: CR, a: Inputs, skew: int, w: Work) {
    && (Silent(w) || Cancels(cr, a, w) || Republishes(cr, a, w) || Moves(spec, cr, a, w))
    && forall st | st in w.landed :: Good(spec, st, skew)
  }

  lemma {:induction false} RecordIsGood(spec: Spec, st: Status, a: Inputs, to: Status, skew: int)
    requires Good(spec, st, skew) && Records(st, a, to) && (a.report.Reported? ==> a.report.id != 0)
    ensures Good(spec, to, skew)
  {
    hide VerdictTable, Deadline, ProbeBudget;
  }

  lemma {:induction false} SentIsGood(spec: Spec, st: Status, at: nat, a: Inputs, w: Work, skew: int)
    requires Good(spec, st, skew) && Sent(st, at, a, w) && (a.report.Reported? ==> a.report.id != 0)
    ensures |w.landed| == at || (|w.landed| == at + 1 && Good(spec, w.landed[at], skew))
  {
    hide Good, Records;
    if w.calls[0].recorded { RecordIsGood(spec, st, a, w.landed[at], skew); }
  }

  lemma {:induction false} LeavesShape(spec: Spec, cr: CR, a: Inputs, skew: int, w: Work)
    requires Leaves(spec, cr.status, a, skew, w) && !cr.deleting && (a.report.Reported? ==> a.report.id != 0)
    ensures PassShape(spec, cr, a, skew, w)
  {
    hide Good, Advances, Sent;
    if !Silent(w) {
      if Sent(w.landed[0], 1, a, w) { SentIsGood(spec, w.landed[0], 1, a, w, skew); }
    }
  }

  /** Each pass has that shape. */
  lemma {:induction false} PassHasShape(spec: Spec, cr: CR, a: Inputs, skew: int)
    requires Good(spec, cr.status, skew) && a.clock.stamp - a.clock.test <= skew
    requires a.report.Reported? ==> a.report.id != 0
    requires spec.probe.Some? ==> ProbeBudget(spec.probe.value) > 0
    ensures PassShape(spec, cr, a, skew, Pass(spec, cr, a).0)
    ensures Pass(spec, cr, a).1 != NoMeta ==> Pass(spec, cr, a).0.landed == []
  {
    var w := Begin(cr);
    hide Good, PublishReport, Provision, CheckReady, StartProbe, CheckProbe, Teardown, TTLExpired, Moves, Records,
      Leaves;
    if cr.deleting || !cr.finalizer || TTLExpired(spec, a.clock.guard) {
    } else {
      if cr.status.phase.IsTerminal() {
        PublishShape(spec, w, a);
        if PublishReport(spec, w, a) != w { SentIsGood(spec, cr.status, 0, a, PublishReport(spec, w, a), skew); }
      } else {
        AdvanceLeaves(spec, w, a, skew);
        LeavesShape(spec, cr, a, skew, Advance(spec, w, a));
      }
    }
  }

  lemma {:induction false} AdvanceLeaves(spec: Spec, w: Work, a: Inputs, skew: int)
    requires Silent(w) && Good(spec, w.status, skew) && !w.status.phase.IsTerminal()
    requires a.clock.stamp - a.clock.test <= skew
    requires spec.probe.Some? ==> ProbeBudget(spec.probe.value) > 0
    ensures Leaves(spec, w.status, a, skew, Advance(spec, w, a))
  {
    hide Good, Leaves, PublishReport, Provision, CheckReady, StartProbe, CheckProbe;
    SilentLeaves(spec, w.status, a, skew, w);
    match w.status.phase {
      case Unset | Pending => ProvisionLeaves(spec, w, a, skew);
      case Provisioning => ReadyLeaves(spec, w, a, skew);
      case Ready => if spec.probe.Some? { StartLeaves(spec, w, a, skew); }
      case Running => if spec.probe.Some? { ProbeLeaves(spec, w, a, skew); }
      case Passed | Failed | Expired =>
    }
  }

  // ---- What the answers mean ----

  /** The clone's cluster has settled. */
  predicate ClusterUp(a: Inputs) {
    a.cluster.ClusterRead? && a.cluster.readyInstances >= 1 && a.cluster.phase == "Cluster in healthy state"
  }

  /** Its service has a ready address. */
  predicate ServiceUp(a: Inputs) { a.endpoints.EndpointsRead? && exists n | n in a.endpoints.subsets :: n > 0 }

  predicate Accepts(a: Inputs) {
    ClusterUp(a) && ServiceUp(a) && a.superuser.SuperuserRead? && a.superuser.user != "" && a.superuser.password != ""
  }

  /** A clone accepts connections exactly when its cluster is settled, its service has a
      ready address and its superuser is known; a read that fails counts as one exactly
      where those before it were good. */
  lemma CloneAcceptsExactly(a: Inputs)
    ensures CloneState(a).Accepting? <==> Accepts(a)
    ensures CloneState(a).ReadError? <==>
      || a.cluster.ClusterError? || (ClusterUp(a) && a.endpoints.EndpointsError?)
      || (ClusterUp(a) && ServiceUp(a) && a.superuser.SuperuserError?)
  {
  }

  /** The Job is there and not terminating, just made, or the winner of a race to make it. */
  predicate JobObtained(a: Inputs) {
    && a.labelled == Some(true)
    && (|| (a.existing.JobRead? && !a.existing.terminating)
        || (a.existing.JobMissing? && (a.jobCreate.JobMade? || a.jobCreate == JobExists(true))))
  }

  /** What there is to wait for instead: the end of an old Job, or quota. */
  predicate JobAwaited(a: Inputs) {
    && a.labelled == Some(true)
    && ((a.existing.JobRead? && a.existing.terminating) || (a.existing.JobMissing? && a.jobCreate.JobQuota?))
  }

  /** A probe Job is got only in a namespace that opted in. */
  lemma ProbeJobExactly(a: Inputs)
    ensures EnsureProbeJob(a).GotProbeJob? <==> JobObtained(a)
    ensures EnsureProbeJob(a).WaitForJob? <==> JobAwaited(a)
    ensures JobRequested(a) <==> a.labelled == Some(true) && a.existing.JobMissing?
  {
  }

  predicate Stuck(c: Container) { c.waiting.Some? && WaitingReason(c.waiting.value).Some? }

  lemma {:induction false} StuckContainerExactly(cs: seq<Container>)
    ensures StuckContainer(cs).Some? <==> exists c | c in cs :: Stuck(c)
  {
    hide WaitingReason;
    if cs != [] {
      var rest := cs[1..];
      StuckContainerExactly(rest);
      assert cs == [cs[0]] + rest && cs[0] in cs;
      assert forall c | c in rest :: c in cs;
      assert Stuck(cs[0]) <==> cs[0].waiting.Some? && WaitingReason(cs[0].waiting.value).Some?;
    }
  }

  /** A probe is known to be stuck exactly when its pods could be listed and some container
      of one, init or not, waits for an image or a configuration. */
  lemma {:induction false} StuckPodExactly(pods: seq<Pod>)
    ensures StuckPod(pods).Some? <==> exists p | p in pods :: exists c | c in p.init + p.main :: Stuck(c)
  {
    hide Stuck, StuckContainer;
    if pods != [] {
      StuckContainerExactly(pods[0].init + pods[0].main);
      StuckPodExactly(pods[1..]);
      assert pods == [pods[0]] + pods[1..];
    }
  }

  /** The spec's own source wins, the production namespace fills in what it leaves open,
      and there is no source exactly when the cluster's name stays open, or the namespace
      had to be read and could not be. */
  lemma SourceResolvedExactly(spec: Spec, prod: NamespaceRead)
    ensures var r := ResolveSource(spec, prod);
      && (r.None? <==>
            || (spec.clusterName == "" && (prod.ProdReadError? || prod.clusterName == ""))
            || (spec.clusterNamespace == "" && prod.ProdReadError?))
      && (r.Some? && spec.clusterName != "" ==> r.value.0 == spec.clusterName)
      && (r.Some? && spec.clusterName == "" ==> prod.ProdRead? && r.value.0 == prod.clusterName)
      && (r.Some? && spec.clusterNamespace != "" ==> r.value.1 == spec.clusterNamespace)
      && (r.Some? && spec.clusterNamespace == "" ==>
            prod.ProdRead? && r.value.1 == if prod.clusterNamespace != "" then prod.clusterNamespace else "postgres")
      && (r.Some? ==> r.value.0 != "" && r.value.1 != "")
  {
  }
}
