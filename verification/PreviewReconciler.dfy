/** The PreviewCheck reconciler, changing its own copy of the resource in place; each
    method computes what PreviewPass says. */
module PreviewReconciler {
  import opened Text
  import opened PreviewApi
  import opened PreviewChecks
  import opened P = PreviewPass

  /** The reconciler at work on its own copy of the resource, changed field by field. */
  class PreviewCheckPass {
    const spec: Spec
    const finalizer: bool
    const deleting: bool
    var phase: Phase
    var reason: Reason
    var checks: seq<CheckResult>
    var previewNamespace: string
    var resolvedImage: string
    var startedAt: Option<Time>
    var expiresAt: Option<Time>
    var completedAt: Option<Time>

    constructor (cr: CR)
      ensures Current() == cr.status && spec == cr.spec.Defaulted()
      ensures finalizer == cr.finalizer && deleting == cr.deleting
    {
      spec, finalizer, deleting := cr.spec.Defaulted(), cr.finalizer, cr.deleting;
      var st := cr.status;
      phase, reason, checks, previewNamespace := st.phase, st.reason, st.checks, st.previewNamespace;
      resolvedImage, startedAt, expiresAt, completedAt := st.resolvedImage, st.startedAt, st.expiresAt, st.completedAt;
    }

    function Current(): Status
      reads this
    {
      Status(phase, reason, checks, previewNamespace, resolvedImage, startedAt, expiresAt, completedAt)
    }

    method FindCheck(name: CheckName) returns (found: Option<CheckResult>)
      ensures found == Find(checks, name)
    {
      for i := 0 to |checks|
        invariant forall k | 0 <= k < i :: checks[k].name != name
      {
        if checks[i].name == name { return Some(checks[i]); }
      }
      return None;
    }

    method UpsertCheck(res: CheckResult)
      modifies this`checks
      ensures checks == Upsert(old(checks), res)
    {
      for i := 0 to |checks|
        invariant forall k | 0 <= k < i :: checks[k].name != res.name
        invariant checks == old(checks)
      {
        if checks[i].name == res.name {
          checks := checks[i := res];
          return;
        }
      }
      checks := checks + [res];
    }

    method AllChecksTerminal() returns (all: bool)
      ensures all == FirstUnfinished(OrderedChecks(spec.checks), checks).None?
    {
      var names := ComputeOrderedChecks(spec.checks);
      for i := 0 to |names|
        invariant forall k | 0 <= k < i :: Finished(checks, names[k])
      {
        var res := FindCheck(names[i]);
        if res.None? || !res.value.phase.IsTerminal() {
          assert names[i] in names && !Finished(checks, names[i]);
          return false;
        }
      }
      return true;
    }

    method AnyCheckStarted() returns (any: bool)
      ensures any == AnyStarted(checks)
    {
      for i := 0 to |checks|
        invariant forall k | 0 <= k < i :: checks[k].phase.CheckPending?
      {
        if !checks[i].phase.CheckPending? { return true; }
      }
      return false;
    }

    method Publish(p: Phase, r: Reason, at: Time, done: Option<(CheckName, CheckPhase)>) returns (out: Outcome)
      modifies this`phase, this`reason, this`completedAt
      ensures out == Published(old(Current()), p, r, at, done) && out.status == Current()
    {
      var prevPhase := phase;
      phase, reason := p, r;
      var becameTerminal := p.IsTerminal() && !prevPhase.IsTerminal();
      if becameTerminal { completedAt := Some(at); }
      out := WriteStatus(Current(), if becameTerminal then Some((p, r)) else None, done);
    }

    method PublishStep(step: Step, a: Inputs, done: Option<(CheckName, CheckPhase)>) returns (out: Outcome)
      modifies this
      ensures out == Verdict(spec, old(Current()), step, a, done)
    {
      var all := AllChecksTerminal();
      if step.phase.CheckFailed? {
        var p := if step.crPhase.Some? then step.crPhase.value else TerminalPhaseFor(step.reason);
        out := Publish(p, step.reason, a.published, done);
      } else if step.phase.IsTerminal() && all {
        out := Publish(Passed, AllChecksPassed, a.published, done);
      } else if step.phase.IsTerminal() {
        out := Publish(Running, ReasonRunning, a.published, done);
      } else {
        out := Publish(Running, if step.reason.NoReason? then ReasonRunning else step.reason, a.published, done);
      }
    }

    static method ApplyDeadline(raw: Step, late: bool) returns (step: Step)
      ensures step == Settle(raw, late)
    {
      step := raw;
      if !step.phase.IsTerminal() && late {
        step := step.(phase := CheckFailed);
        match step.reason {
          case NoReason | ReasonRunning => step := step.(reason := Timeout);
          case ScanPending => step := step.(reason := ScanMissing);
          case _ =>
        }
      }
    }

    method AdvanceCheck(late: bool, a: Inputs, name: CheckName, existing: Option<CheckResult>) returns (r: PassResult)
      requires existing == Find(checks, name)
      modifies this
      ensures r == P.AdvanceCheck(spec, old(Current()), late, a, name)
    {
      hide EvaluateCheck, Upsert, Verdict, Find, Settle, Published;
      var wasDone, started := false, Some(a.now);
      if existing.Some? {
        wasDone := existing.value.phase.IsTerminal();
        if existing.value.startedAt.Some? { started := existing.value.startedAt; }
      }
      var e := EvaluateCheck(name, spec, resolvedImage, true, a.checks);
      resolvedImage := e.resolvedImage;
      var requested := if e.requested then Some(name) else None;
      if e.step.None? {
        if !late { return PassResult(ReconcileError, requested); }
        var out := Publish(Expired, Timeout, a.published, None);
        return PassResult(out, requested);
      }
      var step := ApplyDeadline(e.step.value, late);
      var res := CheckResult(name, step.phase, step.reason, started, None);
      if step.phase.IsTerminal() { res := res.(finishedAt := Some(a.now)); }
      UpsertCheck(res);
      var done := if !wasDone && step.phase.IsTerminal() then Some((name, step.phase)) else None;
      var out := PublishStep(step, a, done);
      return PassResult(out, requested);
    }

    method RunChecks(late: bool, a: Inputs) returns (r: PassResult)
      modifies this
      ensures r == P.RunChecks(spec, old(Current()), late, a)
    {
      var names := ComputeOrderedChecks(spec.checks);
      for i := 0 to |names|
        invariant Current() == old(Current())
        invariant FirstUnfinished(names[i..], checks) == FirstUnfinished(names, checks)
      {
        var existing := FindCheck(names[i]);
        assert names[i..][1..] == names[i + 1..];
        if existing.Some? && existing.value.phase.IsTerminal() { continue; }
        r := AdvanceCheck(late, a, names[i], existing);
        return;
      }
      var out := Publish(Passed, AllChecksPassed, a.published, None);
      return PassResult(out, None);
    }

    method CheckGate(late: bool, a: Inputs) returns (r: PassResult)
      modifies this
      ensures r == P.CheckGate(spec, old(Current()), late, a)
    {
      if a.ks.KsError? { return PassResult(ReconcileError, None); }
      var gate := GateOf(spec, a.ks);
      if gate.Settled? {
        r := RunChecks(late, a);
        return;
      }
      var p: Phase;
      if late {
        p := Expired;
        if gate.WrongRevision? || gate.readyFalse { p := Failed; }
      } else {
        p := Pending;
        var any := AnyCheckStarted();
        if any { p := Running; }
      }
      var out := Publish(p, GateReason(gate), a.published, None);
      return PassResult(out, None);
    }

    method ResolveNamespace(late: bool, a: Inputs) returns (r: PassResult)
      modifies this
      ensures r == P.ResolveNamespace(spec, old(Current()), late, a)
    {
      var waiting := if late then Expired else Pending;
      var out: Outcome;
      match a.ns {
        case NsError => return PassResult(ReconcileError, None);
        case NsAbsent | NsTerminating =>
          if previewNamespace != "" { out := Publish(Failed, NamespaceGone, a.published, None); }
          else { out := Publish(waiting, NamespaceGone, a.published, None); }
        case NsFound(labelled, app) =>
          if !labelled { out := Publish(waiting, NamespaceGone, a.published, None); }
          else if app == "" { out := Publish(waiting, TargetUnresolved, a.published, None); }
          else if spec.app != "" && spec.app != app { out := Publish(Failed, AppMismatch, a.published, None); }
          else {
            previewNamespace := PreviewNamespaceName(spec.prNumber);
            r := CheckGate(late, a);
            return;
          }
      }
      return PassResult(out, None);
    }

    method Reconcile(a: Inputs, ghost cr: CR) returns (r: PassResult)
      requires Current() == cr.status && spec == cr.spec.Defaulted()
      requires finalizer == cr.finalizer && deleting == cr.deleting
      modifies this
      ensures r == Pass(cr, a)
    {
      if deleting {
        return PassResult(if finalizer && a.teardownOk then UpdateFinalizer(false) else Quiet, None);
      }
      if !finalizer { return PassResult(UpdateFinalizer(true), None); }
      if phase.IsTerminal() {
        if expiresAt.Some? && a.now > expiresAt.value + SELF_DELETE_GRACE { return PassResult(DeleteSelf, None); }
        return PassResult(Quiet, None);
      }
      if startedAt.None? {
        startedAt := Some(a.now);
        expiresAt := Some(a.now + spec.ttlSeconds * SECOND);
        var out := Publish(Pending, ReasonPending, a.published, None);
        return PassResult(out, None);
      }
      if expiresAt.Some? && a.now >= expiresAt.value {
        var out := Publish(Expired, Timeout, a.published, None);
        return PassResult(out, None);
      }
      var deadline := startedAt.value + spec.timeoutSeconds * SECOND;
      r := ResolveNamespace(a.now >= deadline, a);
    }
  }
}
