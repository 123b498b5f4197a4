/** Jobs the operator runs: how one is obtained and how its outcome is read. */
module Jobs {
  import opened Text

  datatype ConditionType = Complete | FailedCondition | OtherCondition

  /** `reason` is what the Job controller says; no verdict looks at it. */
  datatype Condition = Condition(kind: ConditionType, isTrue: bool, reason: string)

  datatype Job = Job(conditions: seq<Condition>, succeeded: int, failed: int, backoffLimit: Option<int>)

  /** A Job just created; it has no retries and no status yet. */
  const NewJob := Job([], 0, 0, Some(0))

  datatype JobPhase = JobRunning | JobSucceeded | JobFailed

  /** The first true Complete or Failed condition. */
  function FirstVerdict(conditions: seq<Condition>): Option<JobPhase> {
    if conditions == [] then None
    else if conditions[0].isTrue && conditions[0].kind.Complete? then Some(JobSucceeded)
    else if conditions[0].isTrue && conditions[0].kind.FailedCondition? then Some(JobFailed)
    else FirstVerdict(conditions[1..])
  }

  function JobOutcome(job: Job): JobPhase {
    match FirstVerdict(job.conditions)
    case Some(phase) => phase
    case None =>
      if job.succeeded > 0 then JobSucceeded
      else if job.failed > 0 && job.backoffLimit.Some? && job.failed > job.backoffLimit.value then JobFailed
      else JobRunning
  }

  /** Condition `i` decides the outcome: it is true, says Complete or Failed, and no
      earlier one does. */
  predicate Decides(conditions: seq<Condition>, i: nat)
    requires i < |conditions|
  {
    && conditions[i].isTrue && !conditions[i].kind.OtherCondition?
    && forall k | 0 <= k < i :: !conditions[k].isTrue || conditions[k].kind.OtherCondition?
  }

  lemma {:induction false} FirstVerdictExactly(conditions: seq<Condition>)
    ensures FirstVerdict(conditions).None? <==> forall i | 0 <= i < |conditions| :: !Decides(conditions, i)
    ensures forall i | 0 <= i < |conditions| && Decides(conditions, i) ::
              FirstVerdict(conditions) == Some(if conditions[i].kind.Complete? then JobSucceeded else JobFailed)
  {
    if conditions != [] {
      var rest := conditions[1..];
      FirstVerdictExactly(rest);
      if !Decides(conditions, 0) {
        forall i | 1 <= i < |conditions| ensures Decides(conditions, i) <==> Decides(rest, i - 1) {
          assert forall k | 1 <= k < i :: conditions[k] == rest[k - 1];
        }
        forall i | 0 <= i < |rest| ensures Decides(rest, i) <==> Decides(conditions, i + 1) {}
      }
    }
  }

  /** The published condition beats the counters: a Job killed by its deadline has failed
      although a pod of it may have succeeded.  Only without one do counters speak. */
  lemma JobOutcomeExactly(job: Job)
    ensures JobOutcome(job) == JobFailed <==>
      || (exists i | 0 <= i < |job.conditions| :: Decides(job.conditions, i) && job.conditions[i].kind.FailedCondition?)
      || ((forall i | 0 <= i < |job.conditions| :: !Decides(job.conditions, i))
          && job.succeeded <= 0 < job.failed && job.backoffLimit.Some? && job.failed > job.backoffLimit.value)
    ensures JobOutcome(job) == JobSucceeded <==>
      || (exists i | 0 <= i < |job.conditions| :: Decides(job.conditions, i) && job.conditions[i].kind.Complete?)
      || ((forall i | 0 <= i < |job.conditions| :: !Decides(job.conditions, i)) && job.succeeded > 0)
  {
    hide Decides, FirstVerdict;
    FirstVerdictExactly(job.conditions);
    KindOfDeciding(job.conditions);
  }

  lemma KindOfDeciding(conditions: seq<Condition>)
    ensures forall i | 0 <= i < |conditions| && Decides(conditions, i) ::
              conditions[i].kind.Complete? || conditions[i].kind.FailedCondition?
  {
  }

  datatype JobGet = Present(job: Job) | Terminating | Missing | GetError

  datatype JobCreate = Made | AlreadyExists(again: JobGet) | QuotaRefused | NamespaceTerminating | CreateError

  datatype Ensured = GotJob(job: Job, created: bool) | WaitTermination | WaitQuota | NamespaceGoing | EnsureError

  /** The API server is asked to create the Job; it may exist from then on, whatever the
      answer to the request says. */
  predicate CreateRequested(labelled: bool, get: JobGet) { labelled && get.Missing? }

  /** Gets or creates a check Job, given what the API server would answer. */
  function EnsureJob(labelled: bool, get: JobGet, create: JobCreate): (r: Ensured)
    ensures r.GotJob? && r.created ==> labelled && get.Missing? && create.Made?
    ensures r.GotJob? && !r.created ==> get.Present? || (create.AlreadyExists? && create.again.Present?)
    ensures !labelled ==> r.EnsureError?
  {
    if !labelled then EnsureError
    else match get
      case Terminating => WaitTermination
      case Present(job) => GotJob(job, false)
      case GetError => EnsureError
      case Missing =>
        match create
        case Made => GotJob(NewJob, true)
        case AlreadyExists(Present(job)) => GotJob(job, false)
        case AlreadyExists(Terminating) => WaitTermination
        case AlreadyExists(_) => EnsureError
        case QuotaRefused => WaitQuota
        case NamespaceTerminating => NamespaceGoing
        case CreateError => EnsureError
  }
}
