/** What one reconcile of a PreviewCheck does, as a function of the resource it read
    and the answers it got: namespace, gate, one step of one check, publish. */
module PreviewPass {
  import opened Text
  import opened PreviewApi
  import opened PreviewChecks
  import Kustomization

  /** The resource as one read returns it. */
  datatype CR = CR(spec: Spec, status: Status, finalizer: bool, deleting: bool)

  datatype NamespaceAnswer = NsAbsent | NsTerminating | NsError | NsFound(labelled: bool, app: string)

  datatype KustomizationAnswer = KsMissing | KsError | KsFound(ks: Kustomization.KsObject)

  /** The clock and every answer of one pass; `published` is the second clock reading. */
  datatype Inputs = Inputs(
    now: Time, published: Time, ns: NamespaceAnswer, ks: KustomizationAnswer, checks: CheckAnswers, teardownOk: bool)

  /** What a pass asks of the API server.  A status write carries what is counted once
      it lands: the verdict it brings, the check it finishes. */
  datatype Outcome =
    | Quiet
    | ReconcileError
    | UpdateFinalizer(present: bool)
    | WriteStatus(status: Status, verdict: Option<(Phase, Reason)>, checkDone: Option<(CheckName, CheckPhase)>)
    | DeleteSelf

  datatype PassResult = PassResult(outcome: Outcome, requested: Option<CheckName>)

  const SELF_DELETE_GRACE: int := 24 * 3600 * SECOND

  // ---- The check list ----

  /** Position of a check in the list, or the list's length. */
  function Position(checks: seq<CheckResult>, name: CheckName): (i: nat)
    ensures i <= |checks|
    ensures i < |checks| ==> checks[i].name == name
    ensures forall k | 0 <= k < i :: checks[k].name != name
  {
    if checks == [] then 0
    else if checks[0].name == name then 0
    else
      var rest := Position(checks[1..], name);
      assert forall k | 1 <= k < rest + 1 :: checks[k] == checks[1..][k - 1];
      1 + rest
  }

  function Find(checks: seq<CheckResult>, name: CheckName): Option<CheckResult> {
    var i := Position(checks, name);
    if i < |checks| then Some(checks[i]) else None
  }

  function Upsert(checks: seq<CheckResult>, res: CheckResult): seq<CheckResult> {
    var i := Position(checks, res.name);
    if i < |checks| then checks[i := res] else checks + [res]
  }

  predicate Finished(checks: seq<CheckResult>, name: CheckName) {
    var c := Find(checks, name);
    c.Some? && c.value.phase.IsTerminal()
  }

  /** The first of `names` that has not finished. */
  function FirstUnfinished(names: seq<CheckName>, checks: seq<CheckResult>): (r: Option<CheckName>)
    ensures r.Some? ==> exists i | 0 <= i < |names| ::
              names[i] == r.value && !Finished(checks, names[i]) && forall j | 0 <= j < i :: Finished(checks, names[j])
    ensures r.None? <==> forall n | n in names :: Finished(checks, n)
  {
    if names == [] then None
    else if Finished(checks, names[0]) then
      var r := FirstUnfinished(names[1..], checks);
      assert forall j | 1 <= j < |names| :: names[j] == names[1..][j - 1];
      assert forall j | 0 <= j < |names| - 1 :: names[1..][j] == names[j + 1];
      r
    else
      assert names[0] == names[0] && !Finished(checks, names[0]);
      Some(names[0])
  }

  predicate AnyStarted(checks: seq<CheckResult>) {
    exists c | c in checks :: !c.phase.CheckPending?
  }

  // ---- Publishing ----

  function Published(st: Status, phase: Phase, reason: Reason, at: Time, done: Option<(CheckName, CheckPhase)>)
    : Outcome
  {
    var becameTerminal := phase.IsTerminal() && !st.phase.IsTerminal();
    var completedAt := if becameTerminal then Some(at) else st.completedAt;
    WriteStatus(st.(phase := phase, reason := reason, completedAt := completedAt),
                if becameTerminal then Some((phase, reason)) else None, done)
  }

  function Say(st: Status, phase: Phase, reason: Reason, a: Inputs): PassResult {
    PassResult(Published(st, phase, reason, a.published, None), None)
  }

  function PendingOrExpired(st: Status, late: bool, reason: Reason, a: Inputs): PassResult {
    Say(st, if late then Expired else Pending, reason, a)
  }

  // ---- The pass ----

  function Pass(cr: CR, a: Inputs): PassResult {
    var st := cr.status;
    var spec := cr.spec.Defaulted();
    if cr.deleting then PassResult(if cr.finalizer && a.teardownOk then UpdateFinalizer(false) else Quiet, None)
    else if !cr.finalizer then PassResult(UpdateFinalizer(true), None)
    else if st.phase.IsTerminal() then
      var abandoned := st.expiresAt.Some? && a.now > st.expiresAt.value + SELF_DELETE_GRACE;
      PassResult(if abandoned then DeleteSelf else Quiet, None)
    else if st.startedAt.None? then
      Say(st.(startedAt := Some(a.now), expiresAt := Some(a.now + spec.ttlSeconds * SECOND)), Pending, ReasonPending, a)
    else if st.expiresAt.Some? && a.now >= st.expiresAt.value then Say(st, Expired, Timeout, a)
    else ResolveNamespace(spec, st, Late(cr, a), a)
  }

  /** The run deadline has been reached. */
  predicate Late(cr: CR, a: Inputs) {
    cr.status.startedAt.Some? && a.now >= cr.status.startedAt.value + cr.spec.Defaulted().timeoutSeconds * SECOND
  }

  function ResolveNamespace(spec: Spec, st: Status, late: bool, a: Inputs): PassResult {
    match a.ns
    case NsAbsent | NsTerminating =>
      if st.previewNamespace != "" then Say(st, Failed, NamespaceGone, a)
      else PendingOrExpired(st, late, NamespaceGone, a)
    case NsError => PassResult(ReconcileError, None)
    case NsFound(labelled, app) =>
      if !labelled then PendingOrExpired(st, late, NamespaceGone, a)
      else if app == "" then PendingOrExpired(st, late, TargetUnresolved, a)
      else if spec.app != "" && spec.app != app then Say(st, Failed, AppMismatch, a)
      else CheckGate(spec, st.(previewNamespace := PreviewNamespaceName(spec.prNumber)), late, a)
  }

  function GateOf(spec: Spec, a: KustomizationAnswer): Kustomization.Gate {
    if a.KsFound? then Kustomization.KustomizationSettled(a.ks, spec.revision) else Kustomization.NotReady(false)
  }

  function GateReason(gate: Kustomization.Gate): Reason {
    if gate.WrongRevision? then RevisionMismatch else KustomizationNotReady
  }

  function CheckGate(spec: Spec, st: Status, late: bool, a: Inputs): PassResult {
    if a.ks.KsError? then PassResult(ReconcileError, None)
    else
      var gate := GateOf(spec, a.ks);
      if gate.Settled? then RunChecks(spec, st, late, a)
      else if late then
        Say(st, if gate.WrongRevision? || gate.readyFalse then Failed else Expired, GateReason(gate), a)
      else Say(st, if AnyStarted(st.checks) then Running else Pending, GateReason(gate), a)
  }

  function RunChecks(spec: Spec, st: Status, late: bool, a: Inputs): PassResult {
    match FirstUnfinished(OrderedChecks(spec.checks), st.checks)
    case None => Say(st, Passed, AllChecksPassed, a)
    case Some(name) => AdvanceCheck(spec, st, late, a, name)
  }

  /** The run deadline turns an unfinished step into a failed one. */
  function Settle(s: Step, late: bool): Step {
    if s.phase.IsTerminal() || !late then s
    else s.(phase := CheckFailed,
            reason := match s.reason
              case NoReason | ReasonRunning => Timeout
              case ScanPending => ScanMissing
              case r => r)
  }

  function Result(existing: Option<CheckResult>, name: CheckName, s: Step, now: Time): CheckResult {
    CheckResult(name, s.phase, s.reason,
                if existing.Some? && existing.value.startedAt.Some? then existing.value.startedAt else Some(now),
                if s.phase.IsTerminal() then Some(now) else None)
  }

  function AdvanceCheck(spec: Spec, st: Status, late: bool, a: Inputs, name: CheckName): PassResult {
    var existing := Find(st.checks, name);
    var e := EvaluateCheck(name, spec, st.resolvedImage, true, a.checks);
    var st1 := st.(resolvedImage := e.resolvedImage);
    var requested := if e.requested then Some(name) else None;
    match e.step
    case None =>
      PassResult(if late then Published(st1, Expired, Timeout, a.published, None) else ReconcileError, requested)
    case Some(raw) =>
      var s := Settle(raw, late);
      var st2 := st1.(checks := Upsert(st1.checks, Result(existing, name, s, a.now)));
      var wasDone := existing.Some? && existing.value.phase.IsTerminal();
      var done := if !wasDone && s.phase.IsTerminal() then Some((name, s.phase)) else None;
      PassResult(Verdict(spec, st2, s, a, done), requested)
  }

  function Verdict(spec: Spec, st: Status, s: Step, a: Inputs, done: Option<(CheckName, CheckPhase)>): Outcome {
    if s.phase.CheckFailed? then
      var phase := if s.crPhase.Some? then s.crPhase.value else TerminalPhaseFor(s.reason);
      Published(st, phase, s.reason, a.published, done)
    else if s.phase.IsTerminal() && FirstUnfinished(OrderedChecks(spec.checks), st.checks).None? then
      Published(st, Passed, AllChecksPassed, a.published, done)
    else if s.phase.IsTerminal() then Published(st, Running, ReasonRunning, a.published, done)
    else Published(st, Running, if s.reason.NoReason? then ReasonRunning else s.reason, a.published, done)
  }
}
