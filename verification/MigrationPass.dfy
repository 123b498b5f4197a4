/** What one reconcile of a MigrationCheck does, as a function of the resource it read
    and the answers it got. */
module MigrationPass {
  import opened Text
  import opened ApiServer
  import opened MigrationApi
  import opened MigrationClone
  import Jobs
  import LogDetail

  /** The resource as one read returns it. */
  datatype CR = CR(status: Status, finalizer: bool, deleting: bool)

  // ---- Answers ----

  datatype NamespaceRead = ProdReadError | ProdRead(clusterName: string, clusterNamespace: string)

  datatype CreateAnswer = Created | Existed | CreateError

  datatype ClusterRead = ClusterMissing | ClusterError | ClusterRead(readyInstances: int, phase: string)

  datatype EndpointsRead = EndpointsMissing | EndpointsError | EndpointsRead(subsets: seq<nat>)

  datatype SuperuserRead = SuperuserMissing | SuperuserError | SuperuserRead(user: string, password: string)

  datatype JobRead = JobMissing | JobError | JobRead(job: Jobs.Job, terminating: bool)

  datatype JobCreate = JobMade | JobExists(again: bool) | JobQuota | JobRefused

  /** Why a container waits, when it does. */
  datatype Container = Container(waiting: Option<string>)

  datatype Pod = Pod(init: seq<Container>, main: seq<Container>)

  datatype ReportAnswer = Reported(id: int) | ReportFailed(reached: bool)

  /** Three readings of the clock, in the order a pass takes them. */
  datatype Clock = Clock(guard: Time, test: Time, stamp: Time)

  /** Every answer of one pass.  `write1` answers the write that moves the check, `write2`
      the one that records a report; the texts are those of messages and logs;
      `refused` holds the objects whose deletion is answered with an error. */
  datatype Inputs = Inputs(
    clock: Clock, prod: NamespaceRead, namespaceCreate: CreateAnswer, clone: CloneAnswers,
    cluster: ClusterRead, endpoints: EndpointsRead, superuser: SuperuserRead, secretCreate: CreateAnswer,
    labelled: Option<bool>, existing: JobRead, jobCreate: JobCreate, job: JobRead, pods: Option<seq<Pod>>,
    headline: string, waitText: string, log: string,
    write1: WriteAnswer, report: ReportAnswer, write2: WriteAnswer,
    refused: set<Obj>)

  // ---- What a pass does ----

  /** One call to the forge: a create when `existing` is 0.  `landed` is how many of the
      pass's own writes had landed when it was sent. */
  datatype ForgeCall = ForgeCall(
    existing: int, phase: Phase, cancelled: bool, answer: ReportAnswer, recorded: bool, landed: nat)
  {
    /** Tells the forge that there is nothing more to come. */
    predicate Completed() { cancelled || phase.IsTerminal() }
    predicate Creates() { existing == 0 && (answer.Reported? || answer.reached) }
  }

  /** A pass at work: its copy of the status, the statuses it got stored, its calls to
      the forge and the objects it asked for. */
  datatype Work = Work(status: Status, landed: seq<Status>, calls: seq<ForgeCall>, created: set<Obj>)

  datatype Meta = NoMeta | AddFinalizer | RemoveFinalizer | DeleteSelf

  function Write(w: Work, answer: WriteAnswer): Work {
    if answer.Refused? then w else w.(landed := w.landed + [w.status])
  }

  function PublishReport(spec: Spec, w: Work, a: Inputs): Work {
    var st := w.status;
    if !spec.reporting || st.reported == st.phase then w
    else
      var recorded := a.report.Reported? && !a.write2.Refused?;
      var call := ForgeCall(st.checkRun, st.phase, false, a.report, recorded, |w.landed|);
      var w1 := w.(calls := w.calls + [call]);
      if a.report.ReportFailed? then w1
      else
        var id := if st.checkRun == 0 then a.report.id else st.checkRun;
        Write(w1.(status := st.(checkRun := id, reported := st.phase)), a.write2)
  }

  /** Writes the status; what follows runs only once the write is known to have landed. */
  function Store(w: Work, st: Status, a: Inputs): Work {
    Write(w.(status := st), a.write1)
  }

  function StoreAndReport(spec: Spec, w: Work, st: Status, a: Inputs): Work {
    var stored := Store(w, st, a);
    if a.write1.Acknowledged? then PublishReport(spec, stored, a) else stored
  }

  function Finish(spec: Spec, w: Work, phase: Phase, reason: Reason, message: string, a: Inputs): Work {
    StoreAndReport(spec, w, w.status.(phase := phase, reason := reason, completedAt := Some(a.clock.stamp),
                                      message := LogDetail.TruncateMigrationMessage(message)), a)
  }

  function Fail(spec: Spec, w: Work, a: Inputs): Work {
    Finish(spec, w, if spec.probe.Some? then Expired else Failed, CloneFailed, a.headline, a)
  }

  function Tailed(a: Inputs): string { LogDetail.JoinDetail(a.headline, LogDetail.TailProbe(a.log)) }

  // ---- Provisioning ----

  /** The source cluster and its namespace. */
  function ResolveSource(spec: Spec, prod: NamespaceRead): Option<(string, string)> {
    if spec.clusterName != "" && spec.clusterNamespace != "" then Some((spec.clusterName, spec.clusterNamespace))
    else match prod
      case ProdReadError => None
      case ProdRead(annotated, annotatedNS) =>
        var cluster := if spec.clusterName != "" then spec.clusterName else annotated;
        var ns := if spec.clusterNamespace != "" then spec.clusterNamespace
                  else if annotatedNS != "" then annotatedNS else "postgres";
        if cluster == "" then None else Some((cluster, ns))
  }

  const WARM_MAX_AGE: int := 12 * 3600 * SECOND

  function RequestFor(spec: Spec, source: (string, string)): CloneRequest {
    CloneRequest(source.1, CloneNamespace(spec), CloneName(spec), ContentName(spec), "migcheck-restore",
                 CloneName(spec), WarmName(source.0), WARM_MAX_AGE)
  }

  function Provision(spec: Spec, w0: Work, a: Inputs): Work {
    var w := w0.(status := w0.status.(
      startedAt := if w0.status.startedAt.None? then Some(a.clock.test) else w0.status.startedAt));
    var source := ResolveSource(spec, a.prod);
    if source.None? then Fail(spec, w, a)
    else
      var named := w.(created := w.created + {NamespaceObj(CloneNamespace(spec))});
      if a.namespaceCreate.CreateError? then named
      else
        var e := Clone(RequestFor(spec, source.value), a.clone);
        var cloned := named.(created := named.created + e.created);
        if !e.ok then Fail(spec, cloned, a)
        else
          StoreAndReport(spec, cloned, cloned.status.(
            phase := Provisioning, reason := CloneProvisioning, message := "clone provisioning",
            cloneNamespace := CloneNamespace(spec), expiresAt := Some(Deadline(spec))), a)
  }

  // ---- Waiting for the clone ----

  const HEALTHY := "Cluster in healthy state"

  predicate ClusterSettled(c: ClusterRead) { c.ClusterRead? && c.readyInstances >= 1 && c.phase == HEALTHY }

  predicate Serving(e: EndpointsRead) { e.EndpointsRead? && exists n | n in e.subsets :: n > 0 }

  datatype Wait = NotYet | ReadError | Accepting

  /** Does the clone accept connections, in the order the reads are made? */
  function CloneState(a: Inputs): Wait {
    if a.cluster.ClusterError? then ReadError
    else if !ClusterSettled(a.cluster) then NotYet
    else if a.endpoints.EndpointsError? then ReadError
    else if !Serving(a.endpoints) then NotYet
    else match a.superuser
      case SuperuserError => ReadError
      case SuperuserMissing => NotYet
      case SuperuserRead(user, password) => if user == "" || password == "" then NotYet else Accepting
  }

  function NotReady(spec: Spec, w: Work, a: Inputs): Work {
    if spec.probe.Some? && ReadyDeadlinePassed(spec, w.status, a.clock.test)
    then Finish(spec, w, Expired, CloneNotReady, a.headline, a) else w
  }

  function CheckReady(spec: Spec, w: Work, a: Inputs): Work {
    match CloneState(a)
    case ReadError => w
    case NotYet => NotReady(spec, w, a)
    case Accepting =>
      var published := w.(created := w.created + {SecretObj(spec.namespace, SecretName(spec))});
      if a.secretCreate.CreateError? then published
      else Store(published, published.status.(phase := Ready, reason := CloneReady, message := "clone ready",
                                              connectionSecret := SecretName(spec)), a)
  }

  // ---- The probe ----

  datatype Ensured = GotProbeJob | WaitForJob(message: string) | EnsureError

  const TERMINATING := "waiting for the previous probe job to finish terminating"

  function EnsureProbeJob(a: Inputs): Ensured {
    if a.labelled != Some(true) then EnsureError
    else match a.existing
      case JobRead(_, terminating) => if terminating then WaitForJob(TERMINATING) else GotProbeJob
      case JobError => EnsureError
      case JobMissing =>
        match a.jobCreate
        case JobMade => GotProbeJob
        case JobExists(again) => if again then GotProbeJob else EnsureError
        case JobQuota => WaitForJob("quota refused the probe job: " + a.waitText)
        case JobRefused => EnsureError
  }

  predicate JobRequested(a: Inputs) { a.labelled == Some(true) && a.existing.JobMissing? }

  function StartProbe(spec: Spec, w: Work, a: Inputs): Work
    requires spec.probe.Some?
  {
    if Remaining(spec, a.clock.test) < ProbeBudget(spec.probe.value)
    then Finish(spec, w, Expired, TTLTooShort, a.headline, a)
    else
      var asked :=
        if JobRequested(a) then w.(created := w.created + {JobObj(spec.namespace, ProbeJobName(spec))}) else w;
      match EnsureProbeJob(a)
      case EnsureError => asked
      case WaitForJob(message) => Store(asked, asked.status.(message := message), a)
      case GotProbeJob =>
        var started := asked.status.probeStartedAt;
        StoreAndReport(spec, asked, asked.status.(
          phase := Running, reason := ProbeRunning, message := a.headline, probeJob := ProbeJobName(spec),
          probeStartedAt := if started.None? then Some(a.clock.stamp) else started), a)
  }

  /** What a waiting reason says about a container that never started. */
  function WaitingReason(reason: string): Option<Reason> {
    if reason in ["ImagePullBackOff", "ErrImagePull", "InvalidImageName", "ErrImageNeverPull"]
    then Some(ImageUnavailable)
    else if reason in ["CreateContainerConfigError", "CreateContainerError"] then Some(PodNotStarted)
    else None
  }

  function StuckContainer(cs: seq<Container>): Option<Reason> {
    if cs == [] then None
    else if cs[0].waiting.Some? && WaitingReason(cs[0].waiting.value).Some? then WaitingReason(cs[0].waiting.value)
    else StuckContainer(cs[1..])
  }

  function StuckPod(pods: seq<Pod>): Option<Reason> {
    if pods == [] then None
    else
      var here := StuckContainer(pods[0].init + pods[0].main);
      if here.Some? then here else StuckPod(pods[1..])
  }

  /** Why the probe's pod never got to run, when that is known. */
  function WaitingFailure(a: Inputs): Option<Reason> {
    if a.pods.None? then None else StuckPod(a.pods.value)
  }

  function CheckProbe(spec: Spec, w: Work, a: Inputs): Work
    requires spec.probe.Some?
  {
    var stuck := WaitingFailure(a);
    match a.job
    case JobError => w
    case JobMissing => Finish(spec, w, Expired, DeadlineExceeded, a.headline, a)
    case JobRead(job, _) =>
      match Jobs.JobOutcome(job)
      case JobSucceeded => Finish(spec, w, Passed, ProbePassed, Tailed(a), a)
      case JobFailed =>
        if stuck.Some? then Finish(spec, w, Expired, stuck.value, Tailed(a), a)
        else Finish(spec, w, Failed, ProbeFailed, Tailed(a), a)
      case JobRunning =>
        var late := ProbeDeadlinePassed(spec, w.status, a.clock.test);
        if stuck.Some? && late then Finish(spec, w, Expired, stuck.value, a.headline, a)
        else if stuck.Some? then
          var message := "waiting for the probe pod: " + a.waitText;
          if w.status.message != message then Store(w, w.status.(message := message), a) else w
        else if late then Finish(spec, w, Expired, DeadlineExceeded, Tailed(a), a)
        else w
  }

  // ---- Deletion ----

  function ReportCancelled(spec: Spec, w: Work, a: Inputs): Work {
    if !spec.reporting || w.status.checkRun == 0 || w.status.reported.IsTerminal() then w
    else w.(calls := w.calls + [ForgeCall(w.status.checkRun, w.status.phase, true, a.report, false, |w.landed|)])
  }

  /** A teardown: the deletions it sent, in order, what they removed, and whether it ended
      well. */
  datatype Torn = Torn(deletions: seq<Obj>, removed: set<Obj>, ok: bool)

  function TornBy(deletions: seq<Obj>, ok: bool, a: Inputs): Torn {
    Torn(deletions, (set o | o in deletions) - a.refused, ok)
  }

  /** Only a refused deletion of the probe Job or of the clone's namespace stops it. */
  function Teardown(spec: Spec, st: Status, a: Inputs): Torn {
    var probeJob := if st.probeJob != "" then st.probeJob else ProbeJobName(spec);
    var job := if spec.probe.Some? || st.probeJob != "" then [JobObj(spec.namespace, probeJob)] else [];
    var secret := if st.connectionSecret != "" then [SecretObj(spec.namespace, st.connectionSecret)] else [];
    var cloneNS := if st.cloneNamespace != "" then st.cloneNamespace else CloneNamespace(spec);
    var source := ResolveSource(spec, a.prod);
    var sourceNS := if source.Some? then source.value.1 else "postgres";
    if job != [] && job[0] in a.refused then TornBy(job, false, a)
    else if NamespaceObj(cloneNS) in a.refused then TornBy(job + secret + [NamespaceObj(cloneNS)], false, a)
    else
      TornBy(job + secret
             + [NamespaceObj(cloneNS), ContentObj(ContentName(spec)), SnapshotObj(sourceNS, CloneName(spec))],
             true, a)
  }

  // ---- The pass ----

  function Begin(cr: CR): Work { Work(cr.status, [], [], {}) }

  function Advance(spec: Spec, w: Work, a: Inputs): Work {
    match w.status.phase
    case Unset | Pending => Provision(spec, w, a)
    case Provisioning => CheckReady(spec, w, a)
    case Ready => if spec.probe.None? then w else StartProbe(spec, w, a)
    case Running => if spec.probe.None? then w else CheckProbe(spec, w, a)
    case Passed | Failed | Expired => PublishReport(spec, w, a)
  }

  function Pass(spec: Spec, cr: CR, a: Inputs): (Work, Meta) {
    var w := Begin(cr);
    if cr.deleting then
      if !cr.finalizer then (w, NoMeta)
      else (ReportCancelled(spec, w, a), if Teardown(spec, cr.status, a).ok then RemoveFinalizer else NoMeta)
    else if !cr.finalizer then (w, AddFinalizer)
    else if TTLExpired(spec, a.clock.guard) then (w, DeleteSelf)
    else (Advance(spec, w, a), NoMeta)
  }
}
