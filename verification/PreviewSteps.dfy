/** What each check makes of what it is answered: when it clears the change, condemns it,
    waits or could not look, and the reason it gives. */
module PreviewSteps {
  import opened Text
  import opened PreviewApi
  import opened PreviewChecks
  import opened Jobs
  import ImageRef
  import Exploitability
  import Enrichment

  // ---- Check Jobs ----

  /** The Job could be neither read nor made, for no fault of the preview's. */
  predicate JobUnread(a: CheckAnswers) {
    || a.get.GetError?
    || (a.get.Missing? && a.create.CreateError?)
    || (a.get.Missing? && a.create.AlreadyExists? && (a.create.again.Missing? || a.create.again.GetError?))
  }

  /** Its Job runs, or an old one is still going away. */
  predicate JobBusy(a: CheckAnswers) {
    || a.get.Terminating?
    || (a.get.Missing? && a.create == AlreadyExists(Terminating))
    || JobEnds(true, a, JobRunning)
  }

  predicate QuotaRefuses(a: CheckAnswers) { a.get.Missing? && a.create.QuotaRefused? }

  predicate NamespaceRefuses(a: CheckAnswers) { a.get.Missing? && a.create.NamespaceTerminating? }

  /** Every step a Job check can take, each exactly where it is due. */
  lemma JobStepExactly(a: CheckAnswers, failed: Reason)
    ensures var s := JobStep(EnsureJob(true, a.get, a.create), failed);
      && (s.None? <==> JobUnread(a))
      && (s == Outcome(CheckPassed, NoReason) <==> JobEnds(true, a, JobSucceeded))
      && (s == Outcome(CheckFailed, failed) <==> JobEnds(true, a, JobFailed))
      && (s == GoneStep <==> NamespaceRefuses(a))
      && (s == Outcome(CheckRunning, NoReason) <==> JobBusy(a))
      && (s == Outcome(CheckRunning, QuotaExceeded) <==> QuotaRefuses(a))
  {
    NewJobRuns();
    hide JobOutcome;
  }

  // ---- The image, its scan, its intelligence ----

  /** The image the trivy check judges: the one the spec names, else the one that runs. */
  predicate Judges(spec: Spec, a: CheckAnswers, image: string) {
    image != "" && (spec.image == image || (spec.image == "" && a.workloadImage == Some(image)))
  }

  ghost predicate ScanFound(a: CheckAnswers, image: string) {
    a.reports.ReportsListed? && exists r | r in a.reports.items :: ImageRef.MatchesImage(r.artifact, image)
  }

  /** Some scan about the image found a CVE. */
  ghost predicate CVEFound(a: CheckAnswers, image: string) {
    && a.reports.ReportsListed?
    && exists r, id | r in a.reports.items && id in r.ids ::
         ImageRef.MatchesImage(r.artifact, image) && Exploitability.IsCVE(TrimSpace(id))
  }

  lemma CVEFoundExactly(a: CheckAnswers, image: string)
    requires a.reports.ReportsListed?
    ensures Exploitability.CVEs(Findings(a.reports.items, image)) != [] <==> CVEFound(a, image)
  {
    hide Exploitability.CVEs, Exploitability.IsCVE, ImageRef.MatchesImage, Findings;
    var ids := Findings(a.reports.items, image);
    var cves := Exploitability.CVEs(ids);
    if cves != [] {
      Exploitability.CVEsExactly(ids, cves[0]);
      assert cves[0] in cves;
      var k :| 0 <= k < |ids| && TrimSpace(ids[k]) == cves[0];
      FindingsExactly(a.reports.items, image, ids[k]);
      assert ids[k] in ids;
    }
    if CVEFound(a, image) {
      var r, id :| r in a.reports.items && id in r.ids
                   && ImageRef.MatchesImage(r.artifact, image) && Exploitability.IsCVE(TrimSpace(id));
      FindingsExactly(a.reports.items, image, id);
      Exploitability.CVEsExactly(ids, TrimSpace(id));
      EmptyIsNoCVE();
    }
  }

  lemma EmptyIsNoCVE()
    ensures !Exploitability.IsCVE("")
  {
  }

  /** The endpoint refused the request itself. */
  predicate Refused4xx(a: CheckAnswers) {
    && a.lookup.LookedUp? && a.lookup.result.LookupFailed?
    && a.lookup.result.error.Rejected? && 400 <= a.lookup.result.error.code < 500
  }

  /** A fresh answer from a loaded cache. */
  predicate Intelligence(a: CheckAnswers) {
    && a.lookup.LookedUp? && a.lookup.result.Enriched?
    && !a.lookup.result.resp.stale && a.lookup.result.resp.kevTotal > 0
  }

  predicate ManyKnownExploited(spec: Spec, a: CheckAnswers)
    requires spec.kevMax.Some? && Intelligence(a)
  {
    |Exploitability.KnownExploited(a.lookup.result.resp.results)| > spec.kevMax.value
  }

  predicate SomeTooLikely(spec: Spec, a: CheckAnswers)
    requires spec.epssMaxPermille.Some? && Intelligence(a)
  {
    Exploitability.TooLikely(a.lookup.result.resp.results, spec.epssMaxPermille.value)
  }

  /** Every step the trivy check can take over a known image, each exactly where it is due. */
  lemma TrivyExactly(spec: Spec, resolved: string, a: CheckAnswers, image: string)
    requires spec.kevMax.Some? && spec.epssMaxPermille.Some? && Judges(spec, a, image)
    ensures CheckTrivy(spec, resolved, a).resolvedImage == image && !CheckTrivy(spec, resolved, a).requested
    ensures var s := CheckTrivy(spec, resolved, a).step;
      && (s.None? <==> a.reports.ReportsError?)
      && (s == GoneStep <==> a.reports.ReportsGone?)
      && (s == Outcome(CheckRunning, ScanPending) <==> a.reports.ReportsListed? && !ScanFound(a, image))
      && (s == Outcome(CheckPassed, NoReason) <==>
            && ScanFound(a, image)
            && (CVEFound(a, image) ==>
                  Intelligence(a) && !ManyKnownExploited(spec, a) && !SomeTooLikely(spec, a)))
      && (s == Outcome(CheckFailed, KEVExceeded) <==>
            CVEFound(a, image) && Intelligence(a) && ManyKnownExploited(spec, a))
      && (s == Outcome(CheckFailed, EPSSExceeded) <==>
            && CVEFound(a, image) && Intelligence(a)
            && !ManyKnownExploited(spec, a) && SomeTooLikely(spec, a))
      && (s == Some(Step(CheckFailed, EnrichmentUnavailable, Some(Expired))) <==>
            CVEFound(a, image) && a.lookup.NoEnricher?)
      && (s == Some(Step(CheckFailed, EnrichmentUnavailable, Some(Failed))) <==> CVEFound(a, image) && Refused4xx(a))
      && (s == Outcome(CheckRunning, EnrichmentUnavailable) <==>
            CVEFound(a, image) && !a.lookup.NoEnricher? && !Refused4xx(a) && !Intelligence(a))
  {
    hide Exploitability.CVEs, ImageRef.MatchesImage, Findings, Matched, CVEFound, Exploitability.Judge,
      Exploitability.KnownExploited, Exploitability.TooLikely;
    if a.reports.ReportsListed? {
      MatchedExactly(a.reports.items, image);
      CVEFoundExactly(a, image);
    }
    FoundMeansScanned(a, image);
    if Intelligence(a) {
      Exploitability.JudgedExactly(a.lookup.result.resp.results, spec.kevMax.value, spec.epssMaxPermille.value);
    }
  }

  lemma FoundMeansScanned(a: CheckAnswers, image: string)
    ensures CVEFound(a, image) ==> ScanFound(a, image) && a.reports.ReportsListed?
  {
  }

  /** Without an image there is nothing to judge yet, unless it could not be looked up. */
  lemma NoImageExactly(spec: Spec, resolved: string, a: CheckAnswers)
    requires forall image :: !Judges(spec, a, image)
    ensures CheckTrivy(spec, resolved, a).resolvedImage == resolved && !CheckTrivy(spec, resolved, a).requested
    ensures spec.image == "" && a.workloadImage in {None, Some("")}
    ensures CheckTrivy(spec, resolved, a).step
         == if a.workloadImage.None? then None else Outcome(CheckRunning, TargetUnresolved)
  {
    assert spec.image == "" by { assert !Judges(spec, a, spec.image); }
    if a.workloadImage.Some? { assert !Judges(spec, a, a.workloadImage.value); }
  }

  // ---- What one check says ----

  /** A check that runs a Job got as far as asking for it. */
  predicate Aimed(name: CheckName, a: CheckAnswers) {
    a.target.TargetFound? && (name.Http? || (name.Smoke? && a.smoke.SmokeDeclared?))
  }

  /** The check speaks for the change. */
  ghost predicate Clears(name: CheckName, spec: Spec, a: CheckAnswers)
    requires spec.kevMax.Some? && spec.epssMaxPermille.Some?
  {
    match name
    case Readiness => a.workloads == WorkloadsListed(true)
    case Http => Aimed(name, a) && JobEnds(true, a, JobSucceeded)
    case Trivy =>
      exists image | Judges(spec, a, image) :: ScanFound(a, image) && (CVEFound(a, image) ==> Acceptable(spec, a))
    case Smoke => a.smoke.SmokeAbsent? || a.smoke.SmokeUndeclared? || (Aimed(name, a) && JobEnds(true, a, JobSucceeded))
  }

  predicate Acceptable(spec: Spec, a: CheckAnswers)
    requires spec.kevMax.Some? && spec.epssMaxPermille.Some?
  {
    Intelligence(a) && !ManyKnownExploited(spec, a) && !SomeTooLikely(spec, a)
  }

  /** The check speaks against it: the preview went away, its Job failed, or there are CVEs
      and the endpoint refused the request or knows too much about them. */
  ghost predicate Condemns(name: CheckName, spec: Spec, a: CheckAnswers)
    requires spec.kevMax.Some? && spec.epssMaxPermille.Some?
  {
    match name
    case Readiness => a.workloads.WorkloadsGone?
    case Http | Smoke => Aimed(name, a) && (JobEnds(true, a, JobFailed) || NamespaceRefuses(a))
    case Trivy => exists image | Judges(spec, a, image) ::
      || a.reports.ReportsGone?
      || (CVEFound(a, image) && (Refused4xx(a) || (Intelligence(a) && !Acceptable(spec, a))))
  }

  /** CVEs were found and there is nobody to ask about them. */
  ghost predicate Unenrichable(name: CheckName, spec: Spec, a: CheckAnswers) {
    name.Trivy? && a.lookup.NoEnricher? && exists image | Judges(spec, a, image) :: CVEFound(a, image)
  }

  /** The operator could not look. */
  ghost predicate Unanswered(name: CheckName, spec: Spec, a: CheckAnswers) {
    match name
    case Readiness => a.workloads.WorkloadsError?
    case Http => a.target.TargetError? || (Aimed(name, a) && JobUnread(a))
    case Trivy =>
      (spec.image == "" && a.workloadImage.None?) || (a.reports.ReportsError? && exists image :: Judges(spec, a, image))
    case Smoke =>
      a.smoke.SmokeError? || (a.smoke.SmokeDeclared? && a.target.TargetError?) || (Aimed(name, a) && JobUnread(a))
  }

  /** The phase a failed step stands for. */
  function FailedAs(s: Step): Phase {
    if s.crPhase.Some? then s.crPhase.value else TerminalPhaseFor(s.reason)
  }

  /** What a step must be for what the check says. */
  ghost predicate Speaks(name: CheckName, spec: Spec, a: CheckAnswers, s: Option<Step>)
    requires spec.kevMax.Some? && spec.epssMaxPermille.Some?
  {
    && (s.None? <==> Unanswered(name, spec, a))
    && (s.Some? && s.value.phase.IsClean() <==> Clears(name, spec, a))
    && (s.Some? && s.value.phase.CheckSkipped? <==> name.Smoke? && (a.smoke.SmokeAbsent? || a.smoke.SmokeUndeclared?))
    && (s.Some? && s.value.phase.CheckFailed? && FailedAs(s.value).Failed? <==> Condemns(name, spec, a))
    && (s.Some? && s.value.phase.CheckFailed? && !FailedAs(s.value).Failed? <==> Unenrichable(name, spec, a))
  }

  lemma OneImage(spec: Spec, a: CheckAnswers, i: string, j: string)
    requires Judges(spec, a, i) && Judges(spec, a, j)
    ensures i == j
  {
  }

  lemma TrivySpeaks(spec: Spec, resolved: string, a: CheckAnswers)
    requires spec.kevMax.Some? && spec.epssMaxPermille.Some?
    ensures Speaks(Trivy, spec, a, CheckTrivy(spec, resolved, a).step)
  {
    hide CheckTrivy, CVEFound, ScanFound, ManyKnownExploited, SomeTooLikely, Judges;
    if image :| Judges(spec, a, image) {
      forall j | Judges(spec, a, j) ensures j == image { OneImage(spec, a, j, image); }
      TrivyExactly(spec, resolved, a, image);
      FoundMeansScanned(a, image);
      ImageIsKnown(spec, a, image);
      OneStep(spec, resolved, a, image);
    } else {
      NoImageExactly(spec, resolved, a);
    }
  }

  lemma ImageIsKnown(spec: Spec, a: CheckAnswers, image: string)
    requires Judges(spec, a, image)
    ensures !(spec.image == "" && a.workloadImage.None?)
  {
  }

  /** The trivy check takes no other step than those. */
  lemma OneStep(spec: Spec, resolved: string, a: CheckAnswers, image: string)
    requires spec.kevMax.Some? && spec.epssMaxPermille.Some? && Judges(spec, a, image)
    ensures var s := CheckTrivy(spec, resolved, a).step;
      s.Some? ==>
        || s == GoneStep || s == Outcome(CheckRunning, ScanPending) || s == Outcome(CheckPassed, NoReason)
        || s == Outcome(CheckFailed, KEVExceeded) || s == Outcome(CheckFailed, EPSSExceeded)
        || s == Some(Step(CheckFailed, EnrichmentUnavailable, Some(Expired)))
        || s == Some(Step(CheckFailed, EnrichmentUnavailable, Some(Failed)))
        || s == Outcome(CheckRunning, EnrichmentUnavailable)
  {
    hide Exploitability.CVEs, Findings, Matched, Exploitability.Judge;
  }

  lemma JobSpeaks(name: CheckName, spec: Spec, resolved: string, a: CheckAnswers)
    requires (name.Http? || name.Smoke?) && spec.kevMax.Some? && spec.epssMaxPermille.Some?
    ensures Speaks(name, spec, a, EvaluateCheck(name, spec, resolved, true, a).step)
  {
    hide EnsureJob, JobEnds, JobUnread, NamespaceRefuses;
    JobStepExactly(a, UnexpectedStatus);
    JobStepExactly(a, ProbeJobFailed);
    JobStepExactly(a, SmokeJobFailed);
    hide JobOutcome;
  }

  /** Each check clears, condemns, gives up or fails to look exactly where it should. */
  lemma StepExactly(name: CheckName, spec: Spec, resolved: string, a: CheckAnswers)
    requires spec.kevMax.Some? && spec.epssMaxPermille.Some?
    ensures Speaks(name, spec, a, EvaluateCheck(name, spec, resolved, true, a).step)
  {
    hide CheckTrivy, CheckHTTP, CheckSmoke, Speaks;
    match name {
      case Readiness => ReadinessSpeaks(spec, resolved, a);
      case Trivy => TrivySpeaks(spec, resolved, a);
      case Http | Smoke => JobSpeaks(name, spec, resolved, a);
    }
  }

  lemma ReadinessSpeaks(spec: Spec, resolved: string, a: CheckAnswers)
    requires spec.kevMax.Some? && spec.epssMaxPermille.Some?
    ensures Speaks(Readiness, spec, a, CheckReadiness(resolved, a).step)
  {
  }

  // ---- Reasons ----

  /** The reason a check gives, for each reason exactly where it is due. */
  ghost predicate Reasons(name: CheckName, spec: Spec, a: CheckAnswers, r: Reason)
    requires spec.kevMax.Some? && spec.epssMaxPermille.Some?
  {
    && (r.PodsNotReady? <==> name.Readiness? && a.workloads == WorkloadsListed(false))
    && (r.NamespaceGone? <==>
          || (name.Readiness? && a.workloads.WorkloadsGone?)
          || (Aimed(name, a) && NamespaceRefuses(a))
          || (name.Trivy? && a.reports.ReportsGone? && exists image :: Judges(spec, a, image)))
    && (r.UnexpectedStatus? <==>
          name.Http? && Aimed(name, a) && JobEnds(true, a, JobFailed) && Unexpected(spec, a))
    && (r.ProbeJobFailed? <==>
          name.Http? && Aimed(name, a) && JobEnds(true, a, JobFailed) && !Unexpected(spec, a))
    && (r.SmokeJobFailed? <==> name.Smoke? && Aimed(name, a) && JobEnds(true, a, JobFailed))
    && (r.NoSmokeTest? <==> name.Smoke? && (a.smoke.SmokeAbsent? || a.smoke.SmokeUndeclared?))
    && (r.QuotaExceeded? <==> Aimed(name, a) && QuotaRefuses(a))
    && (r.TargetUnresolved? <==>
          || (name.Http? && a.target.TargetUnknown?)
          || (name.Smoke? && a.smoke.SmokeDeclared? && a.target.TargetUnknown?)
          || (name.Trivy? && spec.image == "" && a.workloadImage == Some("")))
    && (r.ScanPending? <==>
          name.Trivy? && a.reports.ReportsListed? && exists image | Judges(spec, a, image) :: !ScanFound(a, image))
    && (r.KEVExceeded? <==>
          && name.Trivy? && Intelligence(a) && ManyKnownExploited(spec, a)
          && exists image | Judges(spec, a, image) :: CVEFound(a, image))
    && (r.EPSSExceeded? <==>
          && name.Trivy? && Intelligence(a) && !ManyKnownExploited(spec, a) && SomeTooLikely(spec, a)
          && exists image | Judges(spec, a, image) :: CVEFound(a, image))
    && (r.EnrichmentUnavailable? <==>
          name.Trivy? && !Intelligence(a) && exists image | Judges(spec, a, image) :: CVEFound(a, image))
    && (r.NoReason? <==>
          || (Aimed(name, a) && JobBusy(a))
          || (Clears(name, spec, a) && !(name.Smoke? && (a.smoke.SmokeAbsent? || a.smoke.SmokeUndeclared?))))
  }

  /** The probe told a status the spec does not expect. */
  predicate Unexpected(spec: Spec, a: CheckAnswers) {
    a.probeStatus.Some? && a.probeStatus.value !in spec.expectStatus
  }

  lemma TrivyReasons(spec: Spec, resolved: string, a: CheckAnswers)
    requires spec.kevMax.Some? && spec.epssMaxPermille.Some? && CheckTrivy(spec, resolved, a).step.Some?
    ensures Reasons(Trivy, spec, a, CheckTrivy(spec, resolved, a).step.value.reason)
  {
    hide CheckTrivy, CVEFound, ScanFound, ManyKnownExploited, SomeTooLikely, Judges;
    if image :| Judges(spec, a, image) {
      forall j | Judges(spec, a, j) ensures j == image { OneImage(spec, a, j, image); }
      TrivyExactly(spec, resolved, a, image);
      FoundMeansScanned(a, image);
      ImageIsKnown(spec, a, image);
      ImageIsNotEmpty(spec, a, image);
      OneStep(spec, resolved, a, image);
    } else {
      NoImageExactly(spec, resolved, a);
    }
  }

  lemma ImageIsNotEmpty(spec: Spec, a: CheckAnswers, image: string)
    requires Judges(spec, a, image)
    ensures !(spec.image == "" && a.workloadImage == Some(""))
  {
  }

  lemma JobReasons(name: CheckName, spec: Spec, resolved: string, a: CheckAnswers)
    requires (name.Http? || name.Smoke?) && spec.kevMax.Some? && spec.epssMaxPermille.Some?
    requires EvaluateCheck(name, spec, resolved, true, a).step.Some?
    ensures Reasons(name, spec, a, EvaluateCheck(name, spec, resolved, true, a).step.value.reason)
  {
    hide EnsureJob, JobEnds, JobUnread, JobBusy, NamespaceRefuses, QuotaRefuses;
    JobStepExactly(a, UnexpectedStatus);
    JobStepExactly(a, ProbeJobFailed);
    JobStepExactly(a, SmokeJobFailed);
    OneJobStep(a, UnexpectedStatus);
    OneJobStep(a, ProbeJobFailed);
    OneJobStep(a, SmokeJobFailed);
    hide JobOutcome, JobStep;
  }

  /** A Job check takes no other step than those. */
  lemma OneJobStep(a: CheckAnswers, failed: Reason)
    ensures var s := JobStep(EnsureJob(true, a.get, a.create), failed);
      || s == None || s == Outcome(CheckPassed, NoReason) || s == Outcome(CheckFailed, failed) || s == GoneStep
      || s == Outcome(CheckRunning, NoReason) || s == Outcome(CheckRunning, QuotaExceeded)
  {
    hide JobOutcome;
  }

  lemma ReasonExactly(name: CheckName, spec: Spec, resolved: string, a: CheckAnswers)
    requires spec.kevMax.Some? && spec.epssMaxPermille.Some? && EvaluateCheck(name, spec, resolved, true, a).step.Some?
    ensures Reasons(name, spec, a, EvaluateCheck(name, spec, resolved, true, a).step.value.reason)
  {
    hide CheckTrivy, CheckHTTP, CheckSmoke, Reasons;
    match name {
      case Readiness => ReadinessReasons(spec, resolved, a);
      case Trivy => TrivyReasons(spec, resolved, a);
      case Http | Smoke => JobReasons(name, spec, resolved, a);
    }
  }

  lemma ReadinessReasons(spec: Spec, resolved: string, a: CheckAnswers)
    requires spec.kevMax.Some? && spec.epssMaxPermille.Some? && CheckReadiness(resolved, a).step.Some?
    ensures Reasons(Readiness, spec, a, CheckReadiness(resolved, a).step.value.reason)
  {
  }
}
