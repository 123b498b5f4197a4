/** What one pass over a MigrationCheck at work lands, reports and asks for: exact conditions
    on what it was answered, phase by phase. */
module MigrationTable {
  import opened Text
  import opened ApiServer
  import opened MigrationApi
  import opened MigrationClone
  import opened MigrationPass
  import opened MigrationInvariants
  import opened MigrationRuns
  import D = MigrationDeadlines
  import O = MigrationObjects
  import Jobs
  import LogDetail

  // ---- What a pass was told ----

  /** The database to clone has a name, and its namespace was read where the spec needs it. */
  predicate SourceKnown(spec: Spec, a: Inputs) {
    && (spec.clusterName != "" || (a.prod.ProdRead? && a.prod.clusterName != ""))
    && (spec.clusterNamespace != "" || a.prod.ProdRead?)
  }

  predicate Cloned(spec: Spec, a: Inputs) {
    var source := ResolveSource(spec, a.prod);
    && source.Some? && SourceReady(RequestFor(spec, source.value), a.clone)
    && a.clone.contentOk && a.clone.restoreOk && a.clone.clusterOk
  }

  /** A read on which readiness depends, in order, failed. */
  predicate ReadinessUnread(a: Inputs) {
    || a.cluster.ClusterError? || (ClusterUp(a) && a.endpoints.EndpointsError?)
    || (ClusterUp(a) && ServiceUp(a) && a.superuser.SuperuserError?)
  }

  /** There is TTL left for a whole probe. */
  predicate TimeForProbe(spec: Spec, a: Inputs)
    requires spec.probe.Some?
  {
    Remaining(spec, a.clock.test) >= ProbeBudget(spec.probe.value)
  }

  /** The pods could be listed, and some container of one waits for image or configuration. */
  ghost predicate SeenStuck(a: Inputs) {
    a.pods.Some? && exists p | p in a.pods.value :: exists c | c in p.init + p.main :: Stuck(c)
  }

  lemma StuckIsSeen(a: Inputs)
    ensures WaitingFailure(a).Some? <==> SeenStuck(a)
  {
    if a.pods.Some? { StuckPodExactly(a.pods.value); }
  }

  /** The pass landed a status as its first write. */
  predicate Lands(spec: Spec, cr: CR, a: Inputs, to: Status) {
    var landed := Pass(spec, cr, a).0.landed;
    landed != [] && landed[0] == to
  }

  predicate LandsNothing(spec: Spec, cr: CR, a: Inputs) { Pass(spec, cr, a).0.landed == [] }

  lemma {:induction false} LandsStored(spec: Spec, w: Work, to: Status, a: Inputs)
    requires w.landed == []
    ensures var stored, reported := Store(w, to, a).landed, StoreAndReport(spec, w, to, a).landed;
      if a.write1.Refused? then stored == reported == []
      else stored != [] && stored[0] == to && reported != [] && reported[0] == to
  {
    D.FirstLanded(spec, w, to, a);
  }

  lemma {:induction false} LandsFinished(
      spec: Spec, w: Work, phase: Phase, reason: Reason, message: string, a: Inputs)
    requires w.landed == []
    ensures var landed := Finish(spec, w, phase, reason, message, a).landed;
      if a.write1.Refused? then landed == []
      else landed != [] && landed[0] == Finished(w.status, phase, reason, message, a)
  {
    hide StoreAndReport, LogDetail.TruncateMigrationMessage;
    D.FirstLanded(spec, w, Finished(w.status, phase, reason, message, a), a);
  }

  /** What a pass does to the resource itself. */
  lemma {:induction false} UpkeepExactly(spec: Spec, cr: CR, a: Inputs)
    ensures var meta := Pass(spec, cr, a).1;
      && (meta.AddFinalizer? <==> !cr.deleting && !cr.finalizer)
      && (meta.DeleteSelf? <==> !cr.deleting && cr.finalizer && a.clock.guard >= Deadline(spec))
      && (meta.RemoveFinalizer? <==> cr.deleting && cr.finalizer && Teardown(spec, cr.status, a).ok)
  {
    hide Advance, Teardown, Deadline;
  }

  // ---- Provisioning ----

  /** Checks of one database share its warm snapshot, whatever app they belong to, and no
      others do; it is looked for beside the database and kept for half a day. */
  lemma WarmIsSharedExactly(s: Spec, t: Spec, here: (string, string), there: (string, string))
    ensures SourceName(RequestFor(s, here)) == SourceName(RequestFor(t, there)) <==> here.0 == there.0
    ensures RequestFor(s, here).sourceNS == here.1 && RequestFor(s, here).warmMaxAge == 43_200_000_000_000
    ensures RequestFor(s, here).targetNS == CloneNamespace(s)
  {
    assert WarmName(here.0)[14..] == here.0 && WarmName(there.0)[14..] == there.0;
    hide CloneNamespace, CloneName, ContentName;
  }

  /** A check that has no clone yet gets one, recorded with its deadline, exactly when its
      source is known, the clone's namespace was made and the clone succeeded.  It ends at once
      when there is no source or the clone failed; only a namespace that could not be made
      leaves it where it is. */
  lemma {:induction false} ProvisionExactly(spec: Spec, cr: CR, a: Inputs)
    requires AtWork(spec, cr, a) && (cr.status.phase.Unset? || cr.status.phase.Pending?)
    ensures var begun := cr.status.(
        startedAt := if cr.status.startedAt.None? then Some(a.clock.test) else cr.status.startedAt);
      if a.write1.Refused? || (SourceKnown(spec, a) && a.namespaceCreate.CreateError?) then LandsNothing(spec, cr, a)
      else if Cloned(spec, a) then
        Lands(spec, cr, a, begun.(
          phase := Provisioning, reason := CloneProvisioning, message := "clone provisioning",
          cloneNamespace := CloneNamespace(spec), expiresAt := Some(Deadline(spec))))
      else
        Lands(spec, cr, a, Finished(begun, if spec.probe.Some? then Expired else Failed, CloneFailed, a.headline, a))
    ensures NamespaceObj(CloneNamespace(spec)) in Pass(spec, cr, a).0.created <==> SourceKnown(spec, a)
  {
    SourceResolvedExactly(spec, a.prod);
    WorkingPass(spec, cr, a);
    var w := Begin(cr);
    var w1 := w.(status := w.status.(
      startedAt := if w.status.startedAt.None? then Some(a.clock.test) else w.status.startedAt));
    var source := ResolveSource(spec, a.prod);
    var phase := if spec.probe.Some? then Expired else Failed;
    var obj := NamespaceObj(CloneNamespace(spec));
    LandsFinished(spec, w1, phase, CloneFailed, a.headline, a);
    O.FinishCreatesNothing(spec, w1, phase, CloneFailed, a.headline, a);
    hide Pass, Finish, StoreAndReport, Clone, RequestFor, ResolveSource, Deadline, CloneNamespace, Finished, AtWork,
      SourceReady;
    if source.Some? {
      var w2 := w1.(created := w1.created + {obj});
      ClonedExactly(spec, a);
      var w3 := w2.(created := w2.created + Clone(RequestFor(spec, source.value), a.clone).created);
      LandsFinished(spec, w3, phase, CloneFailed, a.headline, a);
      O.FinishCreatesNothing(spec, w3, phase, CloneFailed, a.headline, a);
      var to := w3.status.(
            phase := Provisioning, reason := CloneProvisioning, message := "clone provisioning",
            cloneNamespace := CloneNamespace(spec), expiresAt := Some(Deadline(spec)));
      LandsStored(spec, w3, to, a);
      O.StoringCreatesNothing(spec, w3, to, a);
    }
  }

  lemma {:induction false} ClonedExactly(spec: Spec, a: Inputs)
    requires ResolveSource(spec, a.prod).Some?
    ensures Clone(RequestFor(spec, ResolveSource(spec, a.prod).value), a.clone).ok <==> Cloned(spec, a)
  {
    hide CloneNamespace, CloneName, ContentName, WarmName, ResolveSource;
    CloneOkExactly(RequestFor(spec, ResolveSource(spec, a.prod).value), a.clone);
  }

  // ---- Waiting for the clone ----

  /** A provisioning check turns Ready exactly when the clone accepts connections and its
      Secret is there, however late that is; one not yet accepting ends exactly past its
      timeout, and only with a probe. */
  lemma {:induction false} ReadyExactly(spec: Spec, cr: CR, a: Inputs)
    requires AtWork(spec, cr, a) && cr.status.phase.Provisioning?
    ensures
      var st := cr.status;
      if a.write1.Refused? || ReadinessUnread(a) || (Accepts(a) && a.secretCreate.CreateError?) then
        LandsNothing(spec, cr, a)
      else if Accepts(a) then
        Lands(spec, cr, a, st.(phase := Ready, reason := CloneReady, message := "clone ready",
                               connectionSecret := SecretName(spec)))
      else if spec.probe.Some? && ReadyDeadlinePassed(spec, st, a.clock.test) then
        Lands(spec, cr, a, Finished(st, Expired, CloneNotReady, a.headline, a))
      else LandsNothing(spec, cr, a)
    ensures Pass(spec, cr, a).0.created == if Accepts(a) then {SecretObj(spec.namespace, SecretName(spec))} else {}
  {
    CloneAcceptsExactly(a);
    WorkingPass(spec, cr, a);
    var w := Begin(cr);
    LandsFinished(spec, w, Expired, CloneNotReady, a.headline, a);
    O.FinishCreatesNothing(spec, w, Expired, CloneNotReady, a.headline, a);
    var w1 := w.(created := w.created + {SecretObj(spec.namespace, SecretName(spec))});
    LandsStored(spec, w1, w1.status.(phase := Ready, reason := CloneReady, message := "clone ready",
                                         connectionSecret := SecretName(spec)), a);
    hide Pass, Finish, CloneState, ReadyDeadlinePassed, SecretName, Finished, AtWork, Accepts, ReadinessUnread;
    UnreadExactly(a);
  }

  lemma UnreadExactly(a: Inputs)
    ensures CloneState(a).ReadError? <==> ReadinessUnread(a)
    ensures !(Accepts(a) && ReadinessUnread(a))
  {
    CloneAcceptsExactly(a);
  }

  // ---- Starting the probe ----

  /** A Ready check with a probe starts it exactly when there is TTL left for all of it and
      its Job was obtained, and then records which Job and when; with too little TTL it ends
      instead, and with an old Job or quota in the way it says so and waits. */
  lemma {:induction false} StartExactly(spec: Spec, cr: CR, a: Inputs)
    requires AtWork(spec, cr, a) && cr.status.phase.Ready? && spec.probe.Some?
    ensures
      var st := cr.status;
      if a.write1.Refused? then LandsNothing(spec, cr, a)
      else if !TimeForProbe(spec, a) then Lands(spec, cr, a, Finished(st, Expired, TTLTooShort, a.headline, a))
      else if JobObtained(a) then
        Lands(spec, cr, a, st.(
          phase := Running, reason := ProbeRunning, message := a.headline, probeJob := ProbeJobName(spec),
          probeStartedAt := if st.probeStartedAt.None? then Some(a.clock.stamp) else st.probeStartedAt))
      else if JobAwaited(a) then
        Lands(spec, cr, a, st.(message := if a.existing.JobRead?
                                          then "waiting for the previous probe job to finish terminating"
                                          else "quota refused the probe job: " + a.waitText))
      else LandsNothing(spec, cr, a)
    ensures Pass(spec, cr, a).0.created ==
      if TimeForProbe(spec, a) && a.labelled == Some(true) && a.existing.JobMissing?
      then {JobObj(spec.namespace, ProbeJobName(spec))} else {}
  {
    ProbeJobExactly(a);
    WorkingPass(spec, cr, a);
    var w := Begin(cr);
    var job := {JobObj(spec.namespace, ProbeJobName(spec))};
    var asked := if JobRequested(a) then w.(created := w.created + job) else w;
    LandsFinished(spec, w, Expired, TTLTooShort, a.headline, a);
    O.FinishCreatesNothing(spec, w, Expired, TTLTooShort, a.headline, a);
    LandsStored(spec, asked, Started(spec, asked.status, a), a);
    O.StoringCreatesNothing(spec, asked, Started(spec, asked.status, a), a);
    var e := EnsureProbeJob(a);
    if e.WaitForJob? { LandsStored(spec, asked, asked.status.(message := e.message), a); }
    hide Pass, Finish, StoreAndReport, Remaining, ProbeBudget, ProbeJobName, Finished, AtWork;
  }

  /** A probe that can run is recorded as running: the rule of the step between getting the
      Job and judging it. */
  lemma {:induction false} ProbeStartsExactly(spec: Spec, cr: CR, a: Inputs)
    requires AtWork(spec, cr, a) && cr.status.phase.Ready? && spec.probe.Some?
    ensures var landed := Pass(spec, cr, a).0.landed;
      && (landed != [] && landed[0].phase.Running? <==>
            TimeForProbe(spec, a) && JobObtained(a) && !a.write1.Refused?)
      && (landed != [] && landed[0].phase.Running? ==>
            landed[0].probeJob == ProbeJobName(spec)
            && (cr.status.probeStartedAt.None? ==> landed[0].probeStartedAt == Some(a.clock.stamp)))
  {
    StartExactly(spec, cr, a);
    hide Pass, Remaining, ProbeBudget, ProbeJobName, LogDetail.TruncateMigrationMessage, AtWork, JobObtained,
      JobAwaited, TimeForProbe;
  }

  // ---- Judging the probe ----

  /** What becomes of a Running check with a probe, if anything. */
  ghost function Judgement(spec: Spec, st: Status, a: Inputs): Option<Status> {
    var late := ProbeDeadlinePassed(spec, st, a.clock.test);
    var waiting := "waiting for the probe pod: " + a.waitText;
    if a.job.JobError? then None
    else if a.job.JobMissing? then Some(Finished(st, Expired, DeadlineExceeded, a.headline, a))
    else if JobIs(a, Jobs.JobSucceeded) then Some(Finished(st, Passed, ProbePassed, Tailed(a), a))
    else if JobIs(a, Jobs.JobFailed) then
      Some(if SeenStuck(a) then Finished(st, Expired, StuckFor(a), Tailed(a), a)
           else Finished(st, Failed, ProbeFailed, Tailed(a), a))
    else if late then
      Some(if SeenStuck(a) then Finished(st, Expired, StuckFor(a), a.headline, a)
           else Finished(st, Expired, DeadlineExceeded, Tailed(a), a))
    else if SeenStuck(a) && st.message != waiting then Some(st.(message := waiting))
    else None
  }

  /** What the stuck container waits for. */
  function StuckFor(a: Inputs): Reason {
    if WaitingFailure(a).Some? then WaitingFailure(a).value else DeadlineExceeded
  }

  /** What its Job and its pods say, and past the budget what time says, decide a Running
      check in full; a failed read of the Job decides nothing. */
  lemma {:induction false} JudgeExactly(spec: Spec, cr: CR, a: Inputs)
    requires AtWork(spec, cr, a) && cr.status.phase.Running? && spec.probe.Some?
    ensures var to := Judgement(spec, cr.status, a);
      if a.write1.Refused? || to.None? then LandsNothing(spec, cr, a) else Lands(spec, cr, a, to.value)
  {
    RunningAdvances(spec, cr, a);
    var w := Begin(cr);
    hide Pass, CheckProbe, Judgement, AtWork, Begin;
    if a.job.JobRead? && !JobIs(a, Jobs.JobSucceeded) && !JobIs(a, Jobs.JobFailed) {
      RunningProbeLands(spec, w, a);
    } else {
      EndedProbeLands(spec, w, a);
    }
  }

  ghost predicate Leaves(landed: seq<Status>, to: Option<Status>, a: Inputs) {
    if a.write1.Refused? || to.None? then landed == [] else landed != [] && landed[0] == to.value
  }

  /** A Job that is gone, has succeeded or has failed, or could not be read. */
  lemma {:induction false} EndedProbeLands(spec: Spec, w: Work, a: Inputs)
    requires spec.probe.Some? && w.landed == []
    requires !a.job.JobRead? || JobIs(a, Jobs.JobSucceeded) || JobIs(a, Jobs.JobFailed)
    ensures Leaves(CheckProbe(spec, w, a).landed, Judgement(spec, w.status, a), a)
  {
    StuckIsSeen(a);
    LandsFinished(spec, w, Expired, DeadlineExceeded, a.headline, a);
    LandsFinished(spec, w, Passed, ProbePassed, Tailed(a), a);
    LandsFinished(spec, w, Failed, ProbeFailed, Tailed(a), a);
    LandsFinished(spec, w, Expired, StuckFor(a), Tailed(a), a);
    hide Finish, ProbeDeadlinePassed, WaitingFailure, SeenStuck, Jobs.JobOutcome, Tailed, Finished;
  }

  /** One that still runs. */
  lemma {:induction false} RunningProbeLands(spec: Spec, w: Work, a: Inputs)
    requires spec.probe.Some? && w.landed == []
    requires a.job.JobRead? && !JobIs(a, Jobs.JobSucceeded) && !JobIs(a, Jobs.JobFailed)
    ensures Leaves(CheckProbe(spec, w, a).landed, Judgement(spec, w.status, a), a)
  {
    StuckIsSeen(a);
    LandsFinished(spec, w, Expired, DeadlineExceeded, Tailed(a), a);
    LandsFinished(spec, w, Expired, StuckFor(a), a.headline, a);
    LandsStored(spec, w, w.status.(message := "waiting for the probe pod: " + a.waitText), a);
    hide Finish, Store, ProbeDeadlinePassed, WaitingFailure, SeenStuck, Jobs.JobOutcome, Tailed, Finished;
  }

  lemma {:induction false} RunningAdvances(spec: Spec, cr: CR, a: Inputs)
    requires AtWork(spec, cr, a) && cr.status.phase.Running? && spec.probe.Some?
    ensures Begin(cr).status == cr.status && Begin(cr).landed == []
    ensures Pass(spec, cr, a).0 == CheckProbe(spec, Begin(cr), a)
  {
    WorkingPass(spec, cr, a);
    hide Pass, CheckProbe, AtWork;
  }

  /** The forge can tell what the log said: from the verdict's message headline and log tail
      are recovered exactly when, joined, they fit. */
  lemma {:induction false} VerdictTellsTheLog(spec: Spec, cr: CR, a: Inputs)
    requires AtWork(spec, cr, a) && cr.status.phase.Running? && spec.probe.Some? && !a.write1.Refused?
    requires JobIs(a, Jobs.JobSucceeded) || JobIs(a, Jobs.JobFailed)
    requires LogDetail.IsHeadline(a.headline)
    ensures var landed, tail := Pass(spec, cr, a).0.landed, LogDetail.TailProbe(a.log);
      && landed != []
      && (LogDetail.SplitDetail(landed[0].message) == (a.headline, tail)
          <==> |a.headline| + (if tail == "" then 0 else 1 + |tail|) <= 4096)
  {
    JudgedMessage(spec, cr, a);
    LogDetail.DetailRecovered(a.headline, a.log);
    hide Pass, AtWork, JobIs, LogDetail.SplitDetail, LogDetail.TailProbe, LogDetail.TruncateMigrationMessage,
      LogDetail.IsHeadline;
  }

  lemma {:induction false} JudgedMessage(spec: Spec, cr: CR, a: Inputs)
    requires AtWork(spec, cr, a) && cr.status.phase.Running? && spec.probe.Some? && !a.write1.Refused?
    requires JobIs(a, Jobs.JobSucceeded) || JobIs(a, Jobs.JobFailed)
    ensures var landed := Pass(spec, cr, a).0.landed;
      landed != [] && landed[0].message == LogDetail.TruncateMigrationMessage(Tailed(a))
  {
    JudgeExactly(spec, cr, a);
    OneJobOutcome(a);
    hide Pass, AtWork, JobIs, SeenStuck, Tailed, LogDetail.TruncateMigrationMessage, ProbeDeadlinePassed, StuckFor;
  }

  /** Which reason a stuck container gives: that of the first stuck container of the first
      stuck pod, image before configuration by what it waits for. */
  lemma {:induction false} StuckReasonExactly(pods: seq<Pod>, i: nat, j: nat)
    requires i < |pods| && j < |pods[i].init + pods[i].main|
    requires Stuck((pods[i].init + pods[i].main)[j])
    requires forall k | 0 <= k < i :: forall c | c in pods[k].init + pods[k].main :: !Stuck(c)
    requires forall k | 0 <= k < j :: !Stuck((pods[i].init + pods[i].main)[k])
    ensures var why := (pods[i].init + pods[i].main)[j].waiting.value;
      StuckPod(pods) == Some(
        if why in {"ImagePullBackOff", "ErrImagePull", "InvalidImageName", "ErrImageNeverPull"}
        then ImageUnavailable else PodNotStarted)
    decreases i
  {
    var cs := pods[0].init + pods[0].main;
    if i == 0 {
      FirstStuck(cs, j);
    } else {
      StuckContainerExactly(cs);
      StuckReasonExactly(pods[1..], i - 1, j);
    }
  }

  lemma {:induction false} FirstStuck(cs: seq<Container>, j: nat)
    requires j < |cs| && Stuck(cs[j]) && forall k | 0 <= k < j :: !Stuck(cs[k])
    ensures StuckContainer(cs) == Some(
      if cs[j].waiting.value in {"ImagePullBackOff", "ErrImagePull", "InvalidImageName", "ErrImageNeverPull"}
      then ImageUnavailable else PodNotStarted)
  {
    if j > 0 {
      assert !Stuck(cs[0]);
      FirstStuck(cs[1..], j - 1);
    }
  }

  /** The waiting reasons that say a container never started. */
  lemma StuckExactly(c: Container)
    ensures Stuck(c) <==>
      && c.waiting.Some?
      && c.waiting.value in {"ImagePullBackOff", "ErrImagePull", "InvalidImageName", "ErrImageNeverPull",
                             "CreateContainerConfigError", "CreateContainerError"}
  {
  }

  // ---- How a check ends ----

  /** A check without a verdict passes exactly when its running probe's Job succeeded; it
      fails exactly when that Job failed and nothing was seen stuck, or, without a probe, when
      it could not be cloned. */
  lemma {:induction false} JudgedExactly(spec: Spec, cr: CR, a: Inputs)
    requires !cr.status.phase.IsTerminal()
    ensures var landed := Pass(spec, cr, a).0.landed;
      var judging := AtWork(spec, cr, a) && cr.status.phase.Running? && spec.probe.Some? && !a.write1.Refused?;
      && (landed != [] && landed[0].phase.Passed? <==> judging && JobIs(a, Jobs.JobSucceeded))
      && (landed != [] && landed[0].phase.Failed? <==>
            || (judging && JobIs(a, Jobs.JobFailed) && !SeenStuck(a))
            || (Uncloned(spec, cr, a) && spec.probe.None?))
  {
    LandedByPhase(spec, cr, a);
    OneJobOutcome(a);
    hide Pass, AtWork, JobIs, SeenStuck, Uncloned, ProbeDeadlinePassed, Finished;
    FinishedPhases();
  }

  /** It expires, always with a probe, exactly when it could not be cloned, was not ready in
      time, had too little TTL left, or was started and never got to be judged. */
  lemma {:induction false} ExpiredExactly(spec: Spec, cr: CR, a: Inputs)
    requires !cr.status.phase.IsTerminal()
    ensures var landed := Pass(spec, cr, a).0.landed;
      landed != [] && landed[0].phase.Expired? <==>
        && spec.probe.Some?
        && (|| Uncloned(spec, cr, a)
            || (AtWork(spec, cr, a) && !a.write1.Refused? &&
                match cr.status.phase
                case Provisioning =>
                  && !Accepts(a) && !ReadinessUnread(a) && ReadyDeadlinePassed(spec, cr.status, a.clock.test)
                case Ready => !TimeForProbe(spec, a)
                case Running =>
                  || a.job.JobMissing?
                  || (JobIs(a, Jobs.JobFailed) && SeenStuck(a))
                  || (JobIs(a, Jobs.JobRunning) && ProbeDeadlinePassed(spec, cr.status, a.clock.test))
                case _ => false))
  {
    LandedByPhase(spec, cr, a);
    OneJobOutcome(a);
    hide Pass, AtWork, JobIs, SeenStuck, Uncloned, ProbeDeadlinePassed, Finished, ReadyDeadlinePassed, Accepts,
      ReadinessUnread, TimeForProbe, JobObtained, JobAwaited;
    FinishedPhases();
  }

  /** A verdict is dated by the pass that gives it, after it looked, and leaves what was
      recorded of clone, Secret, probe and report. */
  lemma {:induction false} VerdictIsDated(spec: Spec, cr: CR, a: Inputs)
    requires !cr.status.phase.IsTerminal()
    ensures var landed, st := Pass(spec, cr, a).0.landed, cr.status;
      landed != [] && landed[0].phase.IsTerminal() ==>
        && landed[0].completedAt == Some(a.clock.stamp)
        && landed[0] == st.(phase := landed[0].phase, reason := landed[0].reason, message := landed[0].message,
                            completedAt := landed[0].completedAt, startedAt := landed[0].startedAt)
        && landed[0].startedAt == if st.startedAt.None? && st.phase in {Unset, Pending} then Some(a.clock.test)
                                  else st.startedAt
  {
    WorkingPass(spec, cr, a);
    FinishedPhases();
    if AtWork(spec, cr, a) {
      match cr.status.phase {
        case Unset | Pending => ProvisionExactly(spec, cr, a);
        case Provisioning => ReadyExactly(spec, cr, a);
        case Ready => if spec.probe.Some? { StartExactly(spec, cr, a); }
        case Running => if spec.probe.Some? { JudgeExactly(spec, cr, a); JudgementIsDated(spec, cr.status, a); }
        case _ =>
      }
    }
    hide Pass, AtWork, Judgement, SourceKnown, Cloned, Accepts, ReadinessUnread, TimeForProbe, JobObtained, JobAwaited,
      ReadyDeadlinePassed, ProbeDeadlinePassed, Provision, CheckReady, StartProbe, CheckProbe, SecretName,
      ProbeJobName, CloneNamespace, Deadline, SeenStuck, StuckFor, Tailed, JobIs, LogDetail.TruncateMigrationMessage;
  }

  lemma {:induction false} JudgementIsDated(spec: Spec, st: Status, a: Inputs)
    ensures var to := Judgement(spec, st, a);
      to.Some? && to.value.phase.IsTerminal() && !st.phase.IsTerminal() ==>
        to.value == st.(phase := to.value.phase, reason := to.value.reason, message := to.value.message,
                        completedAt := Some(a.clock.stamp))
  {
    hide SeenStuck, StuckFor, Tailed, JobIs, LogDetail.TruncateMigrationMessage, ProbeDeadlinePassed;
  }

  /** A check at work has no clone and gets none. */
  predicate Uncloned(spec: Spec, cr: CR, a: Inputs) {
    && AtWork(spec, cr, a) && (cr.status.phase.Unset? || cr.status.phase.Pending?) && !a.write1.Refused?
    && (!SourceKnown(spec, a) || (!a.namespaceCreate.CreateError? && !Cloned(spec, a)))
  }

  lemma FinishedPhases()
    ensures forall st, phase, reason, message, a :: Finished(st, phase, reason, message, a).phase == phase
  {
  }

  lemma OneJobOutcome(a: Inputs)
    ensures JobIs(a, Jobs.JobSucceeded) ==> !JobIs(a, Jobs.JobFailed) && !JobIs(a, Jobs.JobRunning)
    ensures JobIs(a, Jobs.JobFailed) ==> !JobIs(a, Jobs.JobRunning)
    ensures a.job.JobRead? <==> JobIs(a, Jobs.JobSucceeded) || JobIs(a, Jobs.JobFailed) || JobIs(a, Jobs.JobRunning)
  {
    hide Jobs.JobOutcome;
  }

  /** The first landing of a pass over a check without a verdict, if there is one. */
  ghost function Landing(spec: Spec, cr: CR, a: Inputs): Option<Phase> {
    if !AtWork(spec, cr, a) || a.write1.Refused? then None
    else match cr.status.phase
      case Unset | Pending =>
        if Uncloned(spec, cr, a) then Some(if spec.probe.Some? then Expired else Failed)
        else if SourceKnown(spec, a) && a.namespaceCreate.CreateError? then None else Some(Provisioning)
      case Provisioning =>
        if ReadinessUnread(a) || (Accepts(a) && a.secretCreate.CreateError?) then None
        else if Accepts(a) then Some(Ready)
        else if spec.probe.Some? && ReadyDeadlinePassed(spec, cr.status, a.clock.test) then Some(Expired) else None
      case Ready =>
        if spec.probe.None? then None
        else if !TimeForProbe(spec, a) then Some(Expired)
        else if JobObtained(a) then Some(Running)
        else if JobAwaited(a) then Some(Ready) else None
      case Running =>
        if spec.probe.None? || Judgement(spec, cr.status, a).None? then None
        else Some(Judgement(spec, cr.status, a).value.phase)
      case _ => None
  }

  lemma {:induction false} LandedByPhase(spec: Spec, cr: CR, a: Inputs)
    requires !cr.status.phase.IsTerminal()
    ensures var landed := Pass(spec, cr, a).0.landed;
      Landing(spec, cr, a) == if landed == [] then None else Some(landed[0].phase)
  {
    WorkingPass(spec, cr, a);
    FinishedPhases();
    UnreadExactly(a);
    if AtWork(spec, cr, a) {
      match cr.status.phase {
        case Unset | Pending =>
          ProvisionExactly(spec, cr, a);
          ClonedNeedsSource(spec, a);
        case Provisioning => ReadyExactly(spec, cr, a);
        case Ready => if spec.probe.Some? { StartExactly(spec, cr, a); }
        case Running => if spec.probe.Some? { JudgeExactly(spec, cr, a); }
        case _ =>
      }
    }
    hide Pass, AtWork, Judgement, Finished, SourceKnown, Cloned, Accepts, ReadinessUnread, TimeForProbe, JobObtained,
      JobAwaited, ReadyDeadlinePassed, Provision, CheckReady, StartProbe, CheckProbe, SecretName, ProbeJobName,
      CloneNamespace, Deadline;
  }

  lemma ClonedNeedsSource(spec: Spec, a: Inputs)
    ensures Cloned(spec, a) ==> SourceKnown(spec, a)
  {
    SourceResolvedExactly(spec, a.prod);
    hide SourceReady, RequestFor, ResolveSource;
  }

  // ---- What the forge is told ----

  /** The pass told the forge exactly when its first write is known to have landed, moved the
      check on, though not to Ready, and was not told already. */
  ghost predicate Tells(spec: Spec, st: Status, a: Inputs, w: Work) {
    w.calls != [] <==>
      && spec.reporting && a.write1.Acknowledged? && w.landed != []
      && w.landed[0].phase != st.phase && !w.landed[0].phase.Ready? && w.landed[0].reported != w.landed[0].phase
  }

  lemma {:induction false} StoringTells(spec: Spec, st: Status, w: Work, to: Status, a: Inputs)
    requires w.landed == [] && w.calls == []
    ensures to.phase != st.phase && !to.phase.Ready? ==> Tells(spec, st, a, StoreAndReport(spec, w, to, a))
    ensures to.phase == st.phase || to.phase.Ready? ==> Tells(spec, st, a, Store(w, to, a))
  {
  }

  lemma {:induction false} FinishTells(
      spec: Spec, st: Status, w: Work, phase: Phase, reason: Reason, message: string, a: Inputs)
    requires w.landed == [] && w.calls == [] && phase.IsTerminal() && !st.phase.IsTerminal()
    ensures Tells(spec, st, a, Finish(spec, w, phase, reason, message, a))
  {
    hide StoreAndReport, LogDetail.TruncateMigrationMessage;
    StoringTells(spec, st, w, Finished(w.status, phase, reason, message, a), a);
  }

  lemma {:induction false} SilenceTells(spec: Spec, st: Status, w: Work, a: Inputs)
    requires w.landed == [] && w.calls == []
    ensures Tells(spec, st, a, w)
  {
  }

  lemma {:induction false} ProvisionTells(spec: Spec, w: Work, a: Inputs)
    requires w.landed == [] && w.calls == [] && w.status.phase.Rank() == 0
    ensures Tells(spec, w.status, a, Provision(spec, w, a))
  {
    var st := w.status;
    var w1 := w.(status := w.status.(
      startedAt := if w.status.startedAt.None? then Some(a.clock.test) else w.status.startedAt));
    var phase := if spec.probe.Some? then Expired else Failed;
    FinishTells(spec, st, w1, phase, CloneFailed, a.headline, a);
    var w2 := w1.(created := w1.created + {NamespaceObj(CloneNamespace(spec))});
    SilenceTells(spec, st, w2, a);
    var source := ResolveSource(spec, a.prod);
    hide Tells, Finish, StoreAndReport, Clone, RequestFor, ResolveSource, Deadline, CloneNamespace;
    if source.Some? {
      var w3 := w2.(created := w2.created + Clone(RequestFor(spec, source.value), a.clone).created);
      FinishTells(spec, st, w3, phase, CloneFailed, a.headline, a);
      StoringTells(spec, st, w3, w3.status.(
            phase := Provisioning, reason := CloneProvisioning, message := "clone provisioning",
            cloneNamespace := CloneNamespace(spec), expiresAt := Some(Deadline(spec))), a);
    }
  }

  lemma {:induction false} ReadyTells(spec: Spec, w: Work, a: Inputs)
    requires w.landed == [] && w.calls == [] && w.status.phase.Provisioning?
    ensures Tells(spec, w.status, a, CheckReady(spec, w, a))
  {
    SilenceTells(spec, w.status, w, a);
    FinishTells(spec, w.status, w, Expired, CloneNotReady, a.headline, a);
    var w1 := w.(created := w.created + {SecretObj(spec.namespace, SecretName(spec))});
    SilenceTells(spec, w.status, w1, a);
    StoringTells(spec, w.status, w1, w1.status.(phase := Ready, reason := CloneReady, message := "clone ready",
                                                connectionSecret := SecretName(spec)), a);
    hide Tells, Finish, Store, CloneState, ReadyDeadlinePassed, SecretName;
  }

  lemma {:induction false} StartTells(spec: Spec, w: Work, a: Inputs)
    requires w.landed == [] && w.calls == [] && w.status.phase.Ready? && spec.probe.Some?
    ensures Tells(spec, w.status, a, StartProbe(spec, w, a))
  {
    var w1 := w.(created := w.created + {JobObj(spec.namespace, ProbeJobName(spec))});
    var asked := if JobRequested(a) then w1 else w;
    FinishTells(spec, w.status, w, Expired, TTLTooShort, a.headline, a);
    SilenceTells(spec, w.status, asked, a);
    StoringTells(spec, w.status, asked, Started(spec, asked.status, a), a);
    var e := EnsureProbeJob(a);
    if e.WaitForJob? { StoringTells(spec, w.status, asked, asked.status.(message := e.message), a); }
    hide Tells, Finish, StoreAndReport, Store, Remaining, ProbeBudget, ProbeJobName, EnsureProbeJob, JobRequested;
  }

  lemma {:induction false} EndedProbeTells(spec: Spec, w: Work, a: Inputs)
    requires w.landed == [] && w.calls == [] && w.status.phase.Running? && spec.probe.Some?
    requires !a.job.JobRead? || JobIs(a, Jobs.JobSucceeded) || JobIs(a, Jobs.JobFailed)
    ensures Tells(spec, w.status, a, CheckProbe(spec, w, a))
  {
    var st := w.status;
    SilenceTells(spec, st, w, a);
    FinishTells(spec, st, w, Expired, DeadlineExceeded, a.headline, a);
    FinishTells(spec, st, w, Passed, ProbePassed, Tailed(a), a);
    FinishTells(spec, st, w, Failed, ProbeFailed, Tailed(a), a);
    FinishTells(spec, st, w, Expired, StuckFor(a), Tailed(a), a);
    hide Tells, Finish, Store, ProbeDeadlinePassed, WaitingFailure, Jobs.JobOutcome, Tailed;
  }

  lemma {:induction false} RunningProbeTells(spec: Spec, w: Work, a: Inputs)
    requires w.landed == [] && w.calls == [] && w.status.phase.Running? && spec.probe.Some?
    requires a.job.JobRead? && !JobIs(a, Jobs.JobSucceeded) && !JobIs(a, Jobs.JobFailed)
    ensures Tells(spec, w.status, a, CheckProbe(spec, w, a))
  {
    var st := w.status;
    SilenceTells(spec, st, w, a);
    FinishTells(spec, st, w, Expired, DeadlineExceeded, Tailed(a), a);
    FinishTells(spec, st, w, Expired, StuckFor(a), a.headline, a);
    StoringTells(spec, st, w, st.(message := "waiting for the probe pod: " + a.waitText), a);
    hide Tells, Finish, Store, ProbeDeadlinePassed, WaitingFailure, Jobs.JobOutcome, Tailed;
  }

  lemma {:induction false} ProbeTells(spec: Spec, w: Work, a: Inputs)
    requires w.landed == [] && w.calls == [] && w.status.phase.Running? && spec.probe.Some?
    ensures Tells(spec, w.status, a, CheckProbe(spec, w, a))
  {
    hide Tells, CheckProbe, JobIs;
    if a.job.JobRead? && !JobIs(a, Jobs.JobSucceeded) && !JobIs(a, Jobs.JobFailed) {
      RunningProbeTells(spec, w, a);
    } else {
      EndedProbeTells(spec, w, a);
    }
  }

  /** When the forge is told: of every move but the one to Ready, as soon as it is known to
      be stored; of a stored verdict not told yet, by every pass until it is; and of the end of
      an open check run, by the deletion. */
  lemma {:induction false} ReportsExactly(spec: Spec, cr: CR, a: Inputs)
    ensures var w, st := Pass(spec, cr, a).0, cr.status;
      if cr.deleting then
        w.calls != [] <==> cr.finalizer && spec.reporting && st.checkRun != 0 && !st.reported.IsTerminal()
      else if !AtWork(spec, cr, a) then w.calls == []
      else if st.phase.IsTerminal() then w.calls != [] <==> spec.reporting && st.reported != st.phase
      else Tells(spec, st, a, w)
  {
    var w := Begin(cr);
    SilenceTells(spec, cr.status, w, a);
    hide Tells, Provision, CheckReady, StartProbe, CheckProbe, Teardown, TTLExpired;
    if AtWork(spec, cr, a) {
      match cr.status.phase {
        case Unset | Pending => ProvisionTells(spec, w, a);
        case Provisioning => ReadyTells(spec, w, a);
        case Ready => if spec.probe.Some? { StartTells(spec, w, a); }
        case Running => if spec.probe.Some? { ProbeTells(spec, w, a); }
        case _ =>
      }
    }
  }
}
