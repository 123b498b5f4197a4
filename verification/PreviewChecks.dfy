/** One step of each check: readiness, http, trivy and smoke. */
module PreviewChecks {
  import opened Text
  import opened PreviewApi
  import opened Jobs
  import ImageRef
  import Exploitability
  import Enrichment

  /** One check's outcome for one pass; `crPhase` overrides the reason's own phase. */
  datatype Step = Step(phase: CheckPhase, reason: Reason, crPhase: Option<Phase>)

  /** `step` is absent when the pass ended in an error of the operator's own; `requested`
      says that a Job creation was sent. */
  datatype Evaluation = Evaluation(step: Option<Step>, requested: bool, resolvedImage: string)

  datatype Workloads = WorkloadsGone | WorkloadsError | WorkloadsListed(ready: bool)
  datatype Target = TargetError | TargetUnknown | TargetFound
  datatype Report = Report(artifact: ImageRef.Artifact, ids: seq<string>)
  datatype Reports = ReportsGone | ReportsError | ReportsListed(items: seq<Report>)
  datatype LookupAnswer = NoEnricher | LookedUp(result: Enrichment.LookupResult)
  datatype SmokeConfig = SmokeAbsent | SmokeError | SmokeUndeclared | SmokeDeclared

  /** What the cluster and the network answer while one check is evaluated. */
  datatype CheckAnswers = CheckAnswers(
    workloads: Workloads, target: Target, get: JobGet, create: JobCreate, probeStatus: Option<int>,
    workloadImage: Option<string>, reports: Reports, lookup: LookupAnswer, smoke: SmokeConfig)

  function Outcome(phase: CheckPhase, reason: Reason): Option<Step> { Some(Step(phase, reason, None)) }

  /** The namespace went away while the check was running. */
  const GoneStep: Option<Step> := Some(Step(CheckFailed, NamespaceGone, Some(Failed)))

  function CheckReadiness(image: string, a: CheckAnswers): Evaluation {
    match a.workloads
    case WorkloadsGone => Evaluation(GoneStep, false, image)
    case WorkloadsError => Evaluation(None, false, image)
    case WorkloadsListed(ready) =>
      Evaluation(if ready then Outcome(CheckPassed, NoReason) else Outcome(CheckRunning, PodsNotReady), false, image)
  }

  /** The step a Job stands for, with `failed` the reason a failed one carries. */
  function JobStep(e: Ensured, failed: Reason): Option<Step> {
    match e
    case EnsureError => None
    case WaitTermination => Outcome(CheckRunning, NoReason)
    case WaitQuota => Outcome(CheckRunning, QuotaExceeded)
    case NamespaceGoing => GoneStep
    case GotJob(job, _) =>
      match JobOutcome(job)
      case JobSucceeded => Outcome(CheckPassed, NoReason)
      case JobRunning => Outcome(CheckRunning, NoReason)
      case JobFailed => Outcome(CheckFailed, failed)
  }

  function CheckHTTP(spec: Spec, image: string, labelled: bool, a: CheckAnswers): Evaluation {
    match a.target
    case TargetError => Evaluation(None, false, image)
    case TargetUnknown => Evaluation(Outcome(CheckRunning, TargetUnresolved), false, image)
    case TargetFound =>
      var e := EnsureJob(labelled, a.get, a.create);
      var failed := if a.probeStatus.Some? && a.probeStatus.value !in spec.expectStatus
                    then UnexpectedStatus else ProbeJobFailed;
      Evaluation(JobStep(e, failed), CreateRequested(labelled, a.get), image)
  }

  function CheckSmoke(image: string, labelled: bool, a: CheckAnswers): Evaluation {
    match a.smoke
    case SmokeError => Evaluation(None, false, image)
    case SmokeAbsent | SmokeUndeclared => Evaluation(Outcome(CheckSkipped, NoSmokeTest), false, image)
    case SmokeDeclared =>
      match a.target
      case TargetError => Evaluation(None, false, image)
      case TargetUnknown => Evaluation(Outcome(CheckRunning, TargetUnresolved), false, image)
      case TargetFound =>
        var e := EnsureJob(labelled, a.get, a.create);
        Evaluation(JobStep(e, SmokeJobFailed), CreateRequested(labelled, a.get), image)
  }

  // ---- The trivy check ----

  /** All finding ids of the reports about `image`, in order. */
  function Findings(reports: seq<Report>, image: string): seq<string> {
    if reports == [] then []
    else
      var n := |reports| - 1;
      Findings(reports[..n], image)
      + if ImageRef.MatchesImage(reports[n].artifact, image) then reports[n].ids else []
  }

  /** The rendering of the last report about `image`, empty when there is none. */
  function Matched(reports: seq<Report>, image: string): string {
    if reports == [] then ""
    else
      var n := |reports| - 1;
      if ImageRef.MatchesImage(reports[n].artifact, image) then reports[n].artifact.Render()
      else Matched(reports[..n], image)
  }

  method CollectFindings(reports: seq<Report>, image: string) returns (ids: seq<string>, matched: string)
    ensures ids == Findings(reports, image) && matched == Matched(reports, image)
  {
    ids, matched := [], "";
    for i := 0 to |reports|
      invariant ids == Findings(reports[..i], image) && matched == Matched(reports[..i], image)
    {
      assert reports[..i + 1][..i] == reports[..i];
      if !ImageRef.MatchesImage(reports[i].artifact, image) { continue; }
      matched := reports[i].artifact.Render();
      ids := ids + reports[i].ids;
    }
    assert reports[..|reports|] == reports;
  }

  /** "Nothing matched" really means that no report is about the image. */
  lemma {:induction false} MatchedExactly(reports: seq<Report>, image: string)
    ensures Matched(reports, image) != "" <==> exists r | r in reports :: ImageRef.MatchesImage(r.artifact, image)
  {
    hide ImageRef.MatchesImage;
    if reports != [] {
      var n := |reports| - 1;
      MatchedExactly(reports[..n], image);
      assert reports == reports[..n] + [reports[n]];
      if ImageRef.MatchesImage(reports[n].artifact, image) { ImageRef.MatchIsVisible(reports[n].artifact, image); }
    }
  }

  lemma {:induction false} FindingsExactly(reports: seq<Report>, image: string, id: string)
    ensures id in Findings(reports, image) <==>
              exists r | r in reports :: ImageRef.MatchesImage(r.artifact, image) && id in r.ids
  {
    hide ImageRef.MatchesImage;
    if reports != [] {
      var n := |reports| - 1;
      FindingsExactly(reports[..n], image, id);
      assert reports == reports[..n] + [reports[n]];
    }
  }

  function TrivyStep(spec: Spec, cves: seq<string>, lookup: LookupAnswer): Step {
    if cves == [] then Step(CheckPassed, NoReason, None)
    else match lookup
      case NoEnricher => Step(CheckFailed, EnrichmentUnavailable, Some(Expired))
      case LookedUp(LookupFailed(error)) =>
        if error.IsTerminal() then Step(CheckFailed, EnrichmentUnavailable, Some(Failed))
        else Step(CheckRunning, EnrichmentUnavailable, None)
      case LookedUp(Enriched(resp)) =>
        if !resp.Usable() then Step(CheckRunning, EnrichmentUnavailable, None)
        else if spec.kevMax.None? || spec.epssMaxPermille.None? then Step(CheckFailed, InvalidThreshold, None)
        else match Exploitability.Judge(resp.results, spec.kevMax.value, spec.epssMaxPermille.value)
          case WithinLimits => Step(CheckPassed, NoReason, None)
          case KEVExceeded => Step(CheckFailed, KEVExceeded, None)
          case EPSSExceeded => Step(CheckFailed, EPSSExceeded, None)
  }

  function ImageUnderTest(spec: Spec, a: CheckAnswers): Option<string> {
    if spec.image != "" then Some(spec.image) else a.workloadImage
  }

  function CheckTrivy(spec: Spec, image: string, a: CheckAnswers): Evaluation {
    match ImageUnderTest(spec, a)
    case None => Evaluation(None, false, image)
    case Some(judged) =>
      if judged == "" then Evaluation(Outcome(CheckRunning, TargetUnresolved), false, image)
      else match a.reports
        case ReportsGone => Evaluation(GoneStep, false, judged)
        case ReportsError => Evaluation(None, false, judged)
        case ReportsListed(items) =>
          if Matched(items, judged) == "" then Evaluation(Outcome(CheckRunning, ScanPending), false, judged)
          else Evaluation(Some(TrivyStep(spec, Exploitability.CVEs(Findings(items, judged)), a.lookup)), false, judged)
  }

  function EvaluateCheck(name: CheckName, spec: Spec, image: string, labelled: bool, a: CheckAnswers): Evaluation {
    match name
    case Readiness => CheckReadiness(image, a)
    case Http => CheckHTTP(spec, image, labelled, a)
    case Trivy => CheckTrivy(spec, image, a)
    case Smoke => CheckSmoke(image, labelled, a)
  }

  predicate Passes(e: Evaluation) { e.step.Some? && e.step.value.phase.CheckPassed? }

  /** The trivy check fails closed: it passes exactly when some scan is about the image
      under test and either no finding is a CVE, or a usable answer about all of them
      is within both thresholds. */
  lemma TrivyPassesExactly(spec: Spec, image: string, a: CheckAnswers)
    requires spec.kevMax.Some? && spec.epssMaxPermille.Some?
    ensures Passes(CheckTrivy(spec, image, a)) <==>
      var judged := ImageUnderTest(spec, a);
      && judged.Some? && judged.value != "" && a.reports.ReportsListed?
      && (exists r | r in a.reports.items :: ImageRef.MatchesImage(r.artifact, judged.value))
      && (|| Exploitability.CVEs(Findings(a.reports.items, judged.value)) == []
          || (&& a.lookup.LookedUp? && a.lookup.result.Enriched?
              && !a.lookup.result.resp.stale && a.lookup.result.resp.kevTotal > 0
              && WithinThresholds(spec, a.lookup.result.resp.results)))
  {
    hide Exploitability.CVEs, ImageRef.MatchesImage, Findings;
    var judged := ImageUnderTest(spec, a);
    if judged.Some? && a.reports.ReportsListed? { MatchedExactly(a.reports.items, judged.value); }
    if a.lookup.LookedUp? && a.lookup.result.Enriched? {
      Exploitability.AcceptedExactly(a.lookup.result.resp.results, spec.kevMax.value, spec.epssMaxPermille.value);
    }
  }

  /** Few enough known-exploited CVEs, and none too likely to be exploited. */
  ghost predicate WithinThresholds(spec: Spec, results: seq<Exploitability.CVEIntel>)
    requires spec.kevMax.Some? && spec.epssMaxPermille.Some?
  {
    && |Exploitability.KnownExploited(results)| <= spec.kevMax.value
    && 0 <= spec.epssMaxPermille.value
    && forall r | r in results :: Exploitability.Permille(r.epss) <= spec.epssMaxPermille.value
  }

  /** The posts a lookup's answer rests on: its own when the memo had nothing fresh, else
      those of an earlier put for the same multiset of ids, at most the time to live ago. */
  ghost predicate RestsOn(
      source: seq<Enrichment.PostAnswer>, cves: seq<string>, tables: seq<Enrichment.Memo>,
      events: seq<Enrichment.MemoEvent>, n: nat, post: seq<Enrichment.PostAnswer>, now: Enrichment.Time)
    requires n < |tables| && n <= |events|
  {
    if Enrichment.MemoGot(tables[n], Enrichment.MemoKey(cves), now).None? then source == post
    else exists j | 0 <= j < n ::
           && events[j].Put? && source == events[j].post && multiset(events[j].ids) == multiset(cves)
           && now - events[j].at <= Enrichment.MEMO_TTL
  }

  /** Every chunk of the list was answered, by a fresh response from a loaded cache. */
  ghost predicate AnsweredUsably(cves: seq<string>, source: seq<Enrichment.PostAnswer>)
    requires cves != []
  {
    && |source| >= |Enrichment.Chunks(cves)|
    && forall k | 0 <= k < |Enrichment.Chunks(cves)| :: source[k].Answered? && source[k].resp.Usable()
  }

  /** Whether the intelligence was fetched for this pass or served from the memo, a pass
      over a non-empty CVE list was earned: the posts of this very lookup, or of the put
      the memo served from, covered that list, each was answered by a fresh, loaded cache,
      and what they said is within the thresholds. */
  lemma TrivyPassIsEarned(
      spec: Spec, image: string, a: CheckAnswers, cves: seq<string>,
      tables: seq<Enrichment.Memo>, events: seq<Enrichment.MemoEvent>, n: nat,
      post: seq<Enrichment.PostAnswer>, now: Enrichment.Time, done: Enrichment.Time)
      returns (source: seq<Enrichment.PostAnswer>)
    requires spec.kevMax.Some? && spec.epssMaxPermille.Some?
    requires Enrichment.MemoRun(tables, events) && n <= |events|
    requires forall k | 0 <= k < |events| :: Enrichment.CommaFree(events[k].ids)
    requires ImageUnderTest(spec, a).Some? && a.reports.ReportsListed?
    requires cves == Exploitability.CVEs(Findings(a.reports.items, ImageUnderTest(spec, a).value)) != []
    requires Enrichment.CommaFree(cves) && Enrichment.Posted(cves, post)
    requires a.lookup == LookedUp(Enrichment.LookupStep(tables[n], cves, post, now, done).1)
    requires Passes(CheckTrivy(spec, image, a))
    ensures RestsOn(source, cves, tables, events, n, post, now)
    ensures Enrichment.Concat(Enrichment.Chunks(cves)) == cves && AnsweredUsably(cves, source)
    ensures WithinThresholds(spec, Enrichment.AllResults(Enrichment.Responses(source[..|Enrichment.Chunks(cves)|])))
  {
    assert n < |tables|;
    hide Exploitability.CVEs, ImageRef.MatchesImage, Findings, WithinThresholds, CheckTrivy, RestsOn,
      Enrichment.MemoRun;
    TrivyPassesExactly(spec, image, a);
    Exploitability.CVEsExactly(Findings(a.reports.items, ImageUnderTest(spec, a).value), "");
    Enrichment.ChunksCover(cves);
    source := LookupWasEarned(cves, tables, events, n, post, now, done, a.lookup.result.resp);
  }

  /** Where a usable answer to a sorted id list came from. */
  lemma LookupWasEarned(
      cves: seq<string>, tables: seq<Enrichment.Memo>, events: seq<Enrichment.MemoEvent>, n: nat,
      post: seq<Enrichment.PostAnswer>, now: Enrichment.Time, done: Enrichment.Time, resp: Enrichment.Response)
      returns (source: seq<Enrichment.PostAnswer>)
    requires Enrichment.MemoRun(tables, events) && n <= |events|
    requires forall k | 0 <= k < |events| :: Enrichment.CommaFree(events[k].ids)
    requires Enrichment.CommaFree(cves) && Sorted(cves) && Enrichment.Posted(cves, post)
    requires Enrichment.LookupStep(tables[n], cves, post, now, done).1 == Enrichment.Enriched(resp) && resp.Usable()
    ensures RestsOn(source, cves, tables, events, n, post, now) && AnsweredUsably(cves, source)
    ensures resp.results == Enrichment.AllResults(Enrichment.Responses(source[..|Enrichment.Chunks(cves)|]))
  {
    assert n < |tables|;
    hide Enrichment.Uncached, Enrichment.MemoKey, Enrichment.Chunks, Enrichment.MemoRun, Enrichment.MergeAll,
      Enrichment.AllResults, Enrichment.MemoAfterPut, Enrichment.Responses;
    SortCanonical(cves, cves);
    source := post;
    var got := Enrichment.MemoGot(tables[n], Enrichment.MemoKey(cves), now);
    if got.Some? {
      var j := MemoSource(cves, tables, events, n, resp);
      source := events[j].post;
    }
    assert Enrichment.Uncached(cves, source) == Enrichment.Enriched(resp);
    Enrichment.UsableMeansEveryChunk(cves, source);
  }

  /** The put an entry for a sorted id list comes from: for the same multiset of ids, at the
      time the entry carries, by posts whose merged answer it is. */
  lemma MemoSource(cves: seq<string>, tables: seq<Enrichment.Memo>, events: seq<Enrichment.MemoEvent>, n: nat,
                   resp: Enrichment.Response)
      returns (j: nat)
    requires Enrichment.MemoRun(tables, events) && n <= |events| < |tables|
    requires forall k | 0 <= k < |events| :: Enrichment.CommaFree(events[k].ids)
    requires cves != [] && Enrichment.CommaFree(cves) && Sorted(cves)
    requires Enrichment.MemoKey(cves) in tables[n] && tables[n][Enrichment.MemoKey(cves)].resp == resp
    ensures j < n && events[j].Put? && multiset(events[j].ids) == multiset(cves)
    ensures events[j].at == tables[n][Enrichment.MemoKey(cves)].at
    ensures |events[j].post| >= |Enrichment.Chunks(cves)|
    ensures Enrichment.Uncached(cves, events[j].post) == Enrichment.Enriched(resp)
  {
    hide Enrichment.Uncached, Enrichment.MemoKey, Enrichment.Chunks, Enrichment.MemoRun;
    SortCanonical(cves, cves);
    j := Enrichment.EntriesHaveOrigins(tables, events, n, Enrichment.MemoKey(cves));
    Enrichment.KeysAgreeExactly(events[j].ids, cves);
    SortCanonical(events[j].ids, cves);
  }

  // ---- The verdict vocabulary of single checks ----

  /** Every pair of phase and reason a check step can carry. */
  ghost predicate StepVocabulary(name: CheckName, s: Step) {
    match s.phase
    case CheckPending => false
    case CheckPassed => s.reason.NoReason? && s.crPhase.None?
    case CheckSkipped => name.Smoke? && s.reason.NoSmokeTest? && s.crPhase.None?
    case CheckRunning =>
      s.crPhase.None? &&
      (match name
       case Readiness => s.reason.PodsNotReady?
       case Trivy => s.reason.TargetUnresolved? || s.reason.ScanPending? || s.reason.EnrichmentUnavailable?
       case _ => s.reason.NoReason? || s.reason.TargetUnresolved? || s.reason.QuotaExceeded?)
    case CheckFailed =>
      || (s.reason.NamespaceGone? && s.crPhase == Some(Failed))
      || (name.Http? && (s.reason.UnexpectedStatus? || s.reason.ProbeJobFailed?) && s.crPhase.None?)
      || (name.Smoke? && s.reason.SmokeJobFailed? && s.crPhase.None?)
      || (name.Trivy? && (s.reason.KEVExceeded? || s.reason.EPSSExceeded?) && s.crPhase.None?)
      || (name.Trivy? && s.reason.EnrichmentUnavailable? && (s.crPhase == Some(Failed) || s.crPhase == Some(Expired)))
  }

  /** A failed enrichment counts against the change only after the endpoint refused the
      request itself; being unconfigured or unreachable never does. */
  predicate RequestRefused(a: CheckAnswers) {
    a.lookup.LookedUp? && a.lookup.result.LookupFailed? && a.lookup.result.error.IsTerminal()
  }

  lemma StepsSpeakTheVocabulary(name: CheckName, spec: Spec, image: string, labelled: bool, a: CheckAnswers)
    requires spec.kevMax.Some? && spec.epssMaxPermille.Some?
    ensures var e := EvaluateCheck(name, spec, image, labelled, a);
      && (e.step.Some? ==> StepVocabulary(name, e.step.value))
      && (e.step.Some? && e.step.value.reason.EnrichmentUnavailable? && e.step.value.crPhase == Some(Failed) ==>
            RequestRefused(a))
      && (e.step.Some? && e.step.value.crPhase == Some(Expired) ==> a.lookup.NoEnricher?)
      && (e.requested ==> labelled && a.get.Missing? && (name.Http? || name.Smoke?))
  {
    hide Exploitability.CVEs, Findings, Matched, Exploitability.Judge;
  }

  /** The Job a check goes by: read as present, read again after losing a race, or new. */
  function JobOf(a: CheckAnswers): Option<Job> {
    match a.get
    case Present(job) => Some(job)
    case Missing =>
      (match a.create
       case Made => Some(NewJob)
       case AlreadyExists(Present(job)) => Some(job)
       case _ => None)
    case _ => None
  }

  predicate JobEnds(labelled: bool, a: CheckAnswers, phase: JobPhase) {
    labelled && JobOf(a).Some? && JobOutcome(JobOf(a).value) == phase
  }

  /** What makes each of the other checks pass, in full; smoke is skipped exactly when the
      preview declares no smoke test, and an unexpected status is only blamed where the
      failed probe told one. */
  lemma ChecksPassExactly(spec: Spec, image: string, labelled: bool, a: CheckAnswers)
    ensures Passes(CheckReadiness(image, a)) <==> a.workloads == WorkloadsListed(true)
    ensures Passes(CheckHTTP(spec, image, labelled, a)) <==> a.target.TargetFound? && JobEnds(labelled, a, JobSucceeded)
    ensures Passes(CheckSmoke(image, labelled, a)) <==>
      a.smoke.SmokeDeclared? && a.target.TargetFound? && JobEnds(labelled, a, JobSucceeded)
    ensures CheckSmoke(image, labelled, a).step == Some(Step(CheckSkipped, NoSmokeTest, None)) <==>
      a.smoke.SmokeAbsent? || a.smoke.SmokeUndeclared?
    ensures CheckHTTP(spec, image, labelled, a).step == Some(Step(CheckFailed, UnexpectedStatus, None)) <==>
      && a.target.TargetFound? && JobEnds(labelled, a, JobFailed)
      && a.probeStatus.Some? && a.probeStatus.value !in spec.expectStatus
  {
    hide FirstVerdict;
    assert JobOutcome(NewJob) == JobRunning by { NewJobRuns(); }
  }

  lemma NewJobRuns()
    ensures JobOutcome(NewJob) == JobRunning
  {
  }
}
