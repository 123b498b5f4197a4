/** When a PreviewCheck is rejected, passed or given up on, and when it waits: exact
    conditions on what one pass read, in the order of none of its tests. */
module PreviewTable {
  import opened Text
  import opened PreviewApi
  import opened PreviewChecks
  import opened PreviewPass
  import opened PreviewInvariants
  import opened PreviewVerdicts
  import opened PreviewSteps
  import K = Kustomization

  // ---- The situation of a pass ----

  /** Past the run deadline, counted from the recorded start: half an hour by default. */
  predicate PastDeadline(cr: CR, a: Inputs) {
    && cr.status.startedAt.Some?
    && a.now >= cr.status.startedAt.value
                + (if cr.spec.timeoutSeconds > 0 then cr.spec.timeoutSeconds else 1800) * 1_000_000_000
  }

  lemma LateExactly(cr: CR, a: Inputs)
    ensures Late(cr, a) <==> PastDeadline(cr, a)
  {
  }

  /** A check that has started and has neither a verdict nor reached its expiry. */
  predicate InProgress(cr: CR, a: Inputs) {
    && cr.finalizer && !cr.deleting && cr.status.phase in {Unset, Pending, Running}
    && cr.status.startedAt.Some? && !(cr.status.expiresAt.Some? && a.now >= cr.status.expiresAt.value)
  }

  /** The preview is there, applied and settled at the revision under test. */
  ghost predicate Open(cr: CR, a: Inputs) {
    && NamespaceFits(cr, a) && a.ks.KsFound? && K.Current(a.ks.ks)
    && a.ks.ks.ready.value.status.ConditionTrue? && K.Applied(a.ks.ks, cr.spec.revision)
  }

  /** The check that comes next. */
  function Next(cr: CR): CheckName
    requires Good(cr.spec, cr.status) && !cr.status.phase.IsTerminal()
  {
    FinishedExactly(cr.spec, cr.status);
    Names(cr.spec)[Finishing(cr.status.checks)]
  }

  // ---- Resource keeping ----

  /** What a pass does to the resource itself, and when it does nothing at all. */
  lemma {:induction false} UpkeepExactly(cr: CR, a: Inputs)
    ensures var o := Pass(cr, a).outcome;
      var abandoned :=
        && cr.status.phase in {Passed, Failed, Expired} && cr.status.expiresAt.Some?
        && a.now > cr.status.expiresAt.value + 86_400_000_000_000;
      && (o == UpdateFinalizer(false) <==> cr.deleting && cr.finalizer && a.teardownOk)
      && (o == UpdateFinalizer(true) <==> !cr.deleting && !cr.finalizer)
      && (o == DeleteSelf <==> !cr.deleting && cr.finalizer && abandoned)
      && (o == Quiet <==>
            || (cr.deleting && !(cr.finalizer && a.teardownOk))
            || (!cr.deleting && cr.finalizer && cr.status.phase in {Passed, Failed, Expired} && !abandoned))
  {
    hide ResolveNamespace, Spec.Defaulted;
    ResolvingWritesStatus(cr.spec.Defaulted(), cr.status, Late(cr, a), a);
  }

  /** The first pass over a new check starts its clock and does nothing else. */
  lemma {:induction false} StampExactly(cr: CR, a: Inputs)
    requires cr.finalizer && !cr.deleting && cr.status.phase in {Unset, Pending, Running} && cr.status.startedAt.None?
    ensures var ttl := if cr.spec.ttlSeconds > 0 then cr.spec.ttlSeconds else 7200;
      Pass(cr, a) == PassResult(WriteStatus(
        cr.status.(phase := Pending, reason := ReasonPending, startedAt := Some(a.now),
                   expiresAt := Some(a.now + ttl * 1_000_000_000)), None, None), None)
  {
    DefaultedKeepsGiven(cr.spec);
    DefaultedFillsIn(cr.spec);
    hide Spec.Defaulted;
  }

  // ---- Before any check runs ----

  /** What a pass writes that looked at no check: phase, reason and nothing else, but the
      date of a verdict and the namespace once it fits. */
  predicate Wrote(cr: CR, a: Inputs, r: PassResult, phase: Phase, reason: Reason) {
    && r.requested.None?
    && r.outcome == WriteStatus(
         cr.status.(phase := phase, reason := reason,
                    completedAt := if phase.IsTerminal() then Some(a.published) else cr.status.completedAt,
                    previewNamespace := if NamespaceFits(cr, a) then PreviewNamespaceName(cr.spec.prNumber)
                                        else cr.status.previewNamespace),
         if phase.IsTerminal() then Some((phase, reason)) else None, None)
  }

  /** The namespace was there once and is not any more, or is on its way out. */
  predicate Vanished(cr: CR, a: Inputs) {
    (a.ns.NsAbsent? || a.ns.NsTerminating?) && cr.status.previewNamespace != ""
  }

  /** It is a preview of another app. */
  predicate WrongApp(cr: CR, a: Inputs) {
    a.ns.NsFound? && a.ns.labelled && a.ns.app != "" && cr.spec.app != "" && cr.spec.app != a.ns.app
  }

  /** Over a namespace that does not fit a pass rejects what vanished or is another app's,
      fails where it could not read, and otherwise waits until the deadline. */
  lemma {:induction false} UnfitExactly(cr: CR, a: Inputs)
    requires InProgress(cr, a) && !NamespaceFits(cr, a)
    ensures var r := Pass(cr, a);
      && (a.ns.NsError? ==> r == PassResult(ReconcileError, None))
      && (Vanished(cr, a) ==> Wrote(cr, a, r, Failed, NamespaceGone))
      && (WrongApp(cr, a) ==> Wrote(cr, a, r, Failed, AppMismatch))
      && (!a.ns.NsError? && !Vanished(cr, a) && !WrongApp(cr, a) ==>
            Wrote(cr, a, r, if PastDeadline(cr, a) then Expired else Pending,
                  if a.ns.NsFound? && a.ns.labelled then TargetUnresolved else NamespaceGone))
  {
    hide CheckGate, PreviewNamespaceName;
    LateExactly(cr, a);
    DefaultedKeepsGiven(cr.spec);
    PassUnfolds(cr, a);
    hide Pass, PastDeadline, Late, Spec.Defaulted;
  }

  /** At a shut gate a pass waits until the deadline; then it rejects the change exactly
      when Flux has judged what is in front of it and found against it, and gives up on
      every vaguer answer. */
  lemma {:induction false} ShutGateExactly(cr: CR, a: Inputs)
    requires InProgress(cr, a) && NamespaceFits(cr, a) && !Open(cr, a)
    ensures var r := Pass(cr, a);
      var refuted := a.ks.KsFound? && K.Refutes(a.ks.ks, cr.spec.revision);
      var wrongRevision := refuted && a.ks.ks.ready.value.status.ConditionTrue?;
      var started := exists c | c in cr.status.checks :: !c.phase.CheckPending?;
      if a.ks.KsError? then r == PassResult(ReconcileError, None)
      else Wrote(cr, a, r,
                 if PastDeadline(cr, a) then (if refuted then Failed else Expired)
                 else if started then Running else Pending,
                 if wrongRevision then RevisionMismatch else KustomizationNotReady)
  {
    hide RunChecks, PreviewNamespaceName, K.KustomizationSettled, K.Refutes, K.Applied;
    LateExactly(cr, a);
    DefaultedKeepsGiven(cr.spec);
    PassUnfolds(cr, a);
    ResolveUnfolds(cr, a);
    GateAnswers(cr, a);
    hide Pass, ResolveNamespace, PastDeadline, Late, Spec.Defaulted, NamespaceFits, K.Current, Open;
  }

  lemma {:induction false} GateAnswers(cr: CR, a: Inputs)
    requires NamespaceFits(cr, a)
    ensures var gate := GateOf(cr.spec.Defaulted(), a.ks);
      && (gate.Settled? <==> Open(cr, a))
      && (gate in {K.NotReady(true), K.WrongRevision} <==> a.ks.KsFound? && K.Refutes(a.ks.ks, cr.spec.revision))
      && (gate.WrongRevision? <==>
            && a.ks.KsFound? && K.Refutes(a.ks.ks, cr.spec.revision)
            && a.ks.ks.ready.value.status.ConditionTrue?)
  {
    hide K.KustomizationSettled, K.Applied, NamespaceFits;
    DefaultedKeepsGiven(cr.spec);
    if a.ks.KsFound? {
      K.GateOpensExactly(a.ks.ks, cr.spec.revision);
      K.NegativeGateExactly(a.ks.ks, cr.spec.revision);
    }
  }

  // ---- With the gate open ----

  predicate PodsNotUp(cr: CR, a: Inputs)
    requires Good(cr.spec, cr.status) && !cr.status.phase.IsTerminal()
  {
    Next(cr).Readiness? && a.checks.workloads == WorkloadsListed(false)
  }

  ghost predicate Cleared(cr: CR, a: Inputs)
    requires Good(cr.spec, cr.status) && !cr.status.phase.IsTerminal()
  {
    Clears(Next(cr), cr.spec.Defaulted(), a.checks)
  }

  /** The next check speaks against the change, or its pods never came up in time. */
  ghost predicate Condemned(cr: CR, a: Inputs)
    requires Good(cr.spec, cr.status) && !cr.status.phase.IsTerminal()
  {
    Condemns(Next(cr), cr.spec.Defaulted(), a.checks) || (PastDeadline(cr, a) && PodsNotUp(cr, a))
  }

  /** The next check will not decide any more. */
  ghost predicate Hopeless(cr: CR, a: Inputs)
    requires Good(cr.spec, cr.status) && !cr.status.phase.IsTerminal()
  {
    || Unenrichable(Next(cr), cr.spec.Defaulted(), a.checks)
    || (PastDeadline(cr, a) && !Cleared(cr, a) && !Condemned(cr, a))
  }

  ghost predicate Unread(cr: CR, a: Inputs)
    requires Good(cr.spec, cr.status) && !cr.status.phase.IsTerminal()
  {
    Unanswered(Next(cr), cr.spec.Defaulted(), a.checks)
  }

  /** With the gate open a pass is the advance of the next check. */
  lemma {:induction false} OpenAdvances(cr: CR, a: Inputs)
    requires Good(cr.spec, cr.status) && InProgress(cr, a) && Open(cr, a)
    ensures Pass(cr, a) == AdvanceCheck(cr.spec.Defaulted(), Observed(cr), Late(cr, a), a, Next(cr))
  {
    PassUnfolds(cr, a);
    ResolveUnfolds(cr, a);
    GateAnswers(cr, a);
    NextCheck(cr.spec, cr.status, CheckResult(Readiness, CheckRunning, NoReason, None, None));
    hide Pass, ResolveNamespace, AdvanceCheck, Open, NamespaceFits, Late, Good, K.KustomizationSettled;
  }

  /** The entry a pass records of the next check. */
  function Entry(cr: CR, a: Inputs, s: Step): CheckResult
    requires Good(cr.spec, cr.status) && !cr.status.phase.IsTerminal()
  {
    var k := Finishing(cr.status.checks);
    CheckResult(Next(cr), s.phase, s.reason,
                if k < |cr.status.checks| then cr.status.checks[k].startedAt else Some(a.now),
                if s.phase.IsTerminal() then Some(a.now) else None)
  }

  lemma {:induction false} EntryIsResult(cr: CR, a: Inputs, s: Step)
    requires Good(cr.spec, cr.status) && !cr.status.phase.IsTerminal()
    ensures Result(Find(cr.status.checks, Next(cr)), Next(cr), s, a.now) == Entry(cr, a, s)
  {
    var st, k := cr.status, Finishing(cr.status.checks);
    FinishedExactly(cr.spec, st);
    NamesFacts(cr.spec);
    hide Names;
    PositionInPrefix(Names(cr.spec), st.checks, k);
    if k < |st.checks| { assert st.checks[k] in st.checks && EntryGood(st.checks[k]); }
  }

  /** One step of the next check, with the deadline applied to it. */
  function StepOf(cr: CR, a: Inputs): Option<Step>
    requires Good(cr.spec, cr.status) && !cr.status.phase.IsTerminal()
  {
    var raw := EvaluateCheck(Next(cr), cr.spec.Defaulted(), cr.status.resolvedImage, true, a.checks).step;
    if raw.None? then None else Some(Settle(raw.value, Late(cr, a)))
  }

  /** What an advance writes, in terms of the step taken. */
  lemma {:induction false} AdvanceWrites(spec: Spec, st: Status, late: bool, a: Inputs, name: CheckName)
    requires !st.phase.IsTerminal()
    ensures var raw := EvaluateCheck(name, spec, st.resolvedImage, true, a.checks).step;
      var o := AdvanceCheck(spec, st, late, a, name).outcome;
      && (raw.None? && !late ==> o == ReconcileError)
      && (raw.None? && late ==>
            o.WriteStatus? && o.status.checks == st.checks && (o.status.phase, o.status.reason) == (Expired, Timeout))
      && (raw.Some? ==>
            var s := Settle(raw.value, late);
            var checks := Upsert(st.checks, Result(Find(st.checks, name), name, s, a.now));
            && o.WriteStatus? && o.status.checks == checks
            && (o.status.phase, o.status.reason)
               == PublishedAs(s, FirstUnfinished(OrderedChecks(spec.checks), checks).None?))
      && (o.WriteStatus? ==>
            o.status.completedAt == if o.status.phase.IsTerminal() then Some(a.published) else st.completedAt)
  {
    hide EvaluateCheck, Settle, Upsert, Find, Result, FirstUnfinished, OrderedChecks;
  }

  /** The phase and reason a step is published under, with `last` when no check is left. */
  function PublishedAs(s: Step, last: bool): (Phase, Reason) {
    if s.phase.CheckFailed? then (FailedAs(s), s.reason)
    else if !s.phase.IsTerminal() then (Running, if s.reason.NoReason? then ReasonRunning else s.reason)
    else if last then (Passed, AllChecksPassed)
    else (Running, ReasonRunning)
  }

  /** What the pass writes, and in which phase it leaves the check. */
  lemma {:induction false} OpenGateWrites(cr: CR, a: Inputs)
    requires Good(cr.spec, cr.status) && InProgress(cr, a) && Open(cr, a)
    ensures var o, k, s := Pass(cr, a).outcome, Finishing(cr.status.checks), StepOf(cr, a);
      && (s.None? && !Late(cr, a) ==> o == ReconcileError)
      && (s.None? && Late(cr, a) ==>
            && o.WriteStatus? && o.status.checks == cr.status.checks
            && (o.status.phase, o.status.reason) == (Expired, Timeout))
      && (s.Some? ==>
            && o.WriteStatus? && o.status.checks == cr.status.checks[..k] + [Entry(cr, a, s.value)]
            && (o.status.phase, o.status.reason) == PublishedAs(s.value, k + 1 == |Names(cr.spec)|))
      && (o.WriteStatus? ==>
            o.status.completedAt == if o.status.phase.IsTerminal() then Some(a.published) else cr.status.completedAt)
  {
    OpenAdvances(cr, a);
    var spec, st, k, s := cr.spec, cr.status, Finishing(cr.status.checks), StepOf(cr, a);
    AdvanceWrites(spec.Defaulted(), Observed(cr), Late(cr, a), a, Next(cr));
    if s.Some? { StepIsRecorded(cr, a, s.value); }
    hide Pass, EvaluateCheck, Settle, Upsert, Find, Late, Open, AdvanceCheck, Good, Result, FirstUnfinished,
      Finishing, Next, Entry, OrderedChecks, Names, Spec.Defaulted, InProgress;
  }

  lemma {:induction false} StepIsRecorded(cr: CR, a: Inputs, s: Step)
    requires Good(cr.spec, cr.status) && !cr.status.phase.IsTerminal() && StepOf(cr, a) == Some(s)
    ensures var k, checks := Finishing(cr.status.checks), cr.status.checks;
      var e := Result(Find(checks, Next(cr)), Next(cr), s, a.now);
      && e == Entry(cr, a, s) && Upsert(checks, e) == checks[..k] + [e]
      && (s.phase.IsClean() ==>
            (FirstUnfinished(OrderedChecks(cr.spec.Defaulted().checks), checks[..k] + [e]).None?
             <==> k + 1 == |Names(cr.spec)|))
  {
    EntryIsResult(cr, a, s);
    NextCheck(cr.spec, cr.status, Entry(cr, a, s));
    if s.phase.IsClean() { CleanLastOneCompletes(cr, a, s); }
    hide Good, Result, Find, Upsert, FirstUnfinished, Finishing, OrderedChecks, Names, Spec.Defaulted, StepOf;
  }

  lemma {:induction false} CleanLastOneCompletes(cr: CR, a: Inputs, s: Step)
    requires Good(cr.spec, cr.status) && !cr.status.phase.IsTerminal() && StepOf(cr, a) == Some(s) && s.phase.IsClean()
    ensures var k := Finishing(cr.status.checks);
      FirstUnfinished(OrderedChecks(cr.spec.Defaulted().checks), cr.status.checks[..k] + [Entry(cr, a, s)]).None?
      <==> k + 1 == |Names(cr.spec)|
  {
    var name, spec := Next(cr), cr.spec.Defaulted();
    var raw := EvaluateCheck(name, spec, cr.status.resolvedImage, true, a.checks).step;
    FinishedExactly(cr.spec, cr.status);
    hide EvaluateCheck, Names, ChecksGood, MetaGood, Result, Find, Settle;
    StepsSpeakTheVocabulary(name, spec, cr.status.resolvedImage, true, a.checks);
    SettledStepCarries(name, raw.value, Late(cr, a));
    NextResult(cr.spec, cr.status, name, s, a.now);
    EntryIsResult(cr, a, s);
    LastOneCompletes(cr, Entry(cr, a, s));
  }

  /** With the next check done there is none left exactly when it was the last. */
  lemma {:induction false} LastOneCompletes(cr: CR, e: CheckResult)
    requires Good(cr.spec, cr.status) && !cr.status.phase.IsTerminal()
    requires e.name == Next(cr) && e.phase.IsClean() && EntryGood(e)
    ensures var k := Finishing(cr.status.checks);
      FirstUnfinished(Names(cr.spec), cr.status.checks[..k] + [e]).None? <==> k + 1 == |Names(cr.spec)|
    ensures Names(cr.spec) == OrderedChecks(cr.spec.Defaulted().checks)
  {
    var st, k := cr.status, Finishing(cr.status.checks);
    FinishedExactly(cr.spec, st);
    BeforeIsClean(cr.spec, st);
    ShapeAfterStep(Names(cr.spec), st.checks, k, e);
    CompleteExactly(cr.spec, st.checks[..k] + [e]);
  }

  /** The deadline makes a failed step of an unfinished one, and names what it waited for. */
  function Overdue(r: Reason): Reason {
    match r
    case NoReason => Timeout
    case ScanPending => ScanMissing
    case _ => r
  }

  lemma {:induction false} SettleExactly(name: CheckName, raw: Step, late: bool)
    requires StepVocabulary(name, raw)
    ensures var s := Settle(raw, late);
      if raw.phase.CheckRunning? && late then
        && s == Step(CheckFailed, Overdue(raw.reason), None)
        && (FailedAs(s).Failed? <==> raw.reason.PodsNotReady?) && (FailedAs(s).Failed? || FailedAs(s).Expired?)
      else s == raw
    ensures raw.phase.CheckFailed? ==> FailedAs(raw).Failed? || FailedAs(raw).Expired?
  {
  }

  /** What the next check's step says, the deadline included. */
  lemma {:induction false} StepSays(cr: CR, a: Inputs)
    requires Good(cr.spec, cr.status) && !cr.status.phase.IsTerminal()
    ensures var s := StepOf(cr, a);
      && (s.None? <==> Unread(cr, a))
      && (s.Some? && s.value.phase.IsClean() <==> Cleared(cr, a))
      && (s.Some? && s.value.phase.CheckFailed? && FailedAs(s.value).Failed? <==> Condemned(cr, a))
      && (s.Some? && s.value.phase.CheckFailed? && FailedAs(s.value).Expired? <==> Hopeless(cr, a) && !Unread(cr, a))
      && (s.Some? && s.value.phase.CheckFailed? ==> FailedAs(s.value).Failed? || FailedAs(s.value).Expired?)
      && (s.Some? && !s.value.phase.IsTerminal() ==> s.value.phase.CheckRunning? && !PastDeadline(cr, a))
  {
    var name, spec := Next(cr), cr.spec.Defaulted();
    var raw := EvaluateCheck(name, spec, cr.status.resolvedImage, true, a.checks).step;
    LateExactly(cr, a);
    hide EvaluateCheck, Good, Settle, Spec.Defaulted, Clears, Condemns, Unenrichable, Unanswered, Reasons,
      StepVocabulary, Next, PastDeadline, Late;
    StepsSpeakTheVocabulary(name, spec, cr.status.resolvedImage, true, a.checks);
    StepExactly(name, spec, cr.status.resolvedImage, a.checks);
    if raw.Some? {
      ReasonExactly(name, spec, cr.status.resolvedImage, a.checks);
      SettleExactly(name, raw.value, Late(cr, a));
      PodsReason(name, spec, a.checks, raw.value);
    }
  }

  lemma {:induction false} PodsReason(name: CheckName, spec: Spec, a: CheckAnswers, s: Step)
    requires spec.kevMax.Some? && spec.epssMaxPermille.Some? && Reasons(name, spec, a, s.reason)
    requires StepVocabulary(name, s)
    ensures s.reason.PodsNotReady? <==> name.Readiness? && a.workloads == WorkloadsListed(false)
    ensures s.reason.PodsNotReady? ==> s.phase.CheckRunning?
    ensures !s.phase.CheckPending?
  {
  }

  // ---- The verdicts ----

  /** Flux has found against the change, and there is no time left to change its mind. */
  ghost predicate RefutedInTime(cr: CR, a: Inputs) {
    NamespaceFits(cr, a) && a.ks.KsFound? && K.Refutes(a.ks.ks, cr.spec.revision) && PastDeadline(cr, a)
  }

  /** A pass rejects a change exactly when its preview vanished or is another app's, Flux
      refuted it by the deadline, or the next check condemns it: nothing the operator could
      not read or get done ever counts against the change. */
  lemma {:induction false} RejectedExactly(cr: CR, a: Inputs)
    requires Good(cr.spec, cr.status)
    ensures var o := Pass(cr, a).outcome;
      o.WriteStatus? && o.status.phase.Failed? <==>
        && InProgress(cr, a)
        && (|| Vanished(cr, a) || WrongApp(cr, a) || RefutedInTime(cr, a)
            || (Open(cr, a) && Condemned(cr, a)))
  {
    PhaseByCase(cr, a);
    Apart(cr, a);
    if !cr.status.phase.IsTerminal() { SaysOneThing(cr, a); }
    hide Pass, NamespaceFits, Open, Vanished, WrongApp, Condemned, Cleared, Hopeless, Unread, Next, PastDeadline,
      K.Refutes, Good, Finishing, Names, Unenrichable, AnyStarted, Spec.Defaulted;
  }

  /** It passes it exactly when the last of its checks clears it. */
  lemma {:induction false} PassedExactly(cr: CR, a: Inputs)
    requires Good(cr.spec, cr.status)
    ensures var o := Pass(cr, a).outcome;
      o.WriteStatus? && o.status.phase.Passed? <==>
        && InProgress(cr, a) && Open(cr, a) && Cleared(cr, a)
        && Finishing(cr.status.checks) + 1 == |Names(cr.spec)|
  {
    PhaseByCase(cr, a);
    Apart(cr, a);
    if !cr.status.phase.IsTerminal() { SaysOneThing(cr, a); }
    hide Pass, NamespaceFits, Open, Vanished, WrongApp, Condemned, Cleared, Hopeless, Unread, Next, PastDeadline,
      K.Refutes, Good, Finishing, Names, Unenrichable, AnyStarted, Spec.Defaulted,
      RefutedInTime, ReadsAnswered;
  }

  /** It gives up on it exactly past the expiry; past the deadline, with its two gating
      reads answered, where it neither rejects it nor has a check clear it; and where CVEs
      were found and nobody is there to ask. */
  lemma {:induction false} ExpiredExactly(cr: CR, a: Inputs)
    requires Good(cr.spec, cr.status)
    ensures var o := Pass(cr, a).outcome;
      o.WriteStatus? && o.status.phase.Expired? <==>
        || (&& cr.finalizer && !cr.deleting && cr.status.phase in {Unset, Pending, Running}
            && cr.status.startedAt.Some? && PastExpiry(cr, a))
        || (&& InProgress(cr, a) && PastDeadline(cr, a) && ReadsAnswered(cr, a)
            && !Vanished(cr, a) && !WrongApp(cr, a) && !RefutedInTime(cr, a)
            && !(Open(cr, a) && (Condemned(cr, a) || Cleared(cr, a))))
        || (InProgress(cr, a) && Open(cr, a) && Unenrichable(Next(cr), cr.spec.Defaulted(), a.checks))
  {
    PhaseByCase(cr, a);
    Apart(cr, a);
    if !cr.status.phase.IsTerminal() { SaysOneThing(cr, a); }
    hide Pass, NamespaceFits, Open, Vanished, WrongApp, Condemned, Cleared, Hopeless, Unread, Next, PastDeadline,
      K.Refutes, Good, Finishing, Names, Unenrichable, AnyStarted, Spec.Defaulted;
  }

  /** In which phase a status write leaves a check, and when there is one, case by case. */
  ghost function PhaseLeft(cr: CR, a: Inputs): Option<Phase>
    requires Good(cr.spec, cr.status)
  {
    if cr.deleting || !cr.finalizer || cr.status.phase.IsTerminal() then None
    else if cr.status.startedAt.None? then Some(Pending)
    else if PastExpiry(cr, a) then Some(Expired)
    else if Vanished(cr, a) || WrongApp(cr, a) || RefutedInTime(cr, a) then Some(Failed)
    else if !ReadsAnswered(cr, a) then None
    else if !Open(cr, a) then
      Some(if PastDeadline(cr, a) then Expired
           else if NamespaceFits(cr, a) && AnyStarted(cr.status.checks) then Running else Pending)
    else if Condemned(cr, a) then Some(Failed)
    else if Hopeless(cr, a) then Some(Expired)
    else if Unread(cr, a) then None
    else if Cleared(cr, a) && Finishing(cr.status.checks) + 1 == |Names(cr.spec)| then Some(Passed)
    else Some(Running)
  }

  /** The cases are the pass. */
  lemma {:induction false} PhaseByCase(cr: CR, a: Inputs)
    requires Good(cr.spec, cr.status)
    ensures var o := Pass(cr, a).outcome; if o.WriteStatus? then PhaseLeft(cr, a) == Some(o.status.phase)
                                          else PhaseLeft(cr, a) == None
  {
    Apart(cr, a);
    LateExactly(cr, a);
    if cr.deleting || !cr.finalizer || cr.status.phase.IsTerminal() {
      UpkeepExactly(cr, a);
    } else if cr.status.startedAt.None? {
      StampExactly(cr, a);
    } else if PastExpiry(cr, a) {
      PassUnfolds(cr, a);
    } else if !NamespaceFits(cr, a) {
      UnfitExactly(cr, a);
    } else if !Open(cr, a) {
      ShutGateExactly(cr, a);
    } else {
      FinishedExactly(cr.spec, cr.status);
      OpenGateWrites(cr, a);
      StepSays(cr, a);
    }
    hide Pass, ResolveNamespace, NamespaceFits, Open, Vanished, WrongApp, Condemned, Cleared, Unread, StepOf, Next,
      PastDeadline, Late, K.Refutes, K.Current, Good, Finishing, Names, Unenrichable, Entry, PreviewNamespaceName,
      AnyStarted;
  }

  /** The situations that exclude each other. */
  lemma {:induction false} Apart(cr: CR, a: Inputs)
    ensures Vanished(cr, a) || WrongApp(cr, a) ==> !NamespaceFits(cr, a) && !a.ns.NsError?
    ensures Open(cr, a) ==>
      && NamespaceFits(cr, a) && a.ks.KsFound? && !K.Refutes(a.ks.ks, cr.spec.revision)
      && ReadsAnswered(cr, a) && !Vanished(cr, a) && !WrongApp(cr, a) && !RefutedInTime(cr, a)
    ensures AnyStarted(cr.status.checks) <==> exists c | c in cr.status.checks :: !c.phase.CheckPending?
  {
  }

  /** A step that condemns does not clear, and neither does one that was not taken. */
  lemma {:induction false} SaysOneThing(cr: CR, a: Inputs)
    requires Good(cr.spec, cr.status) && !cr.status.phase.IsTerminal()
    ensures !(Condemned(cr, a) && Cleared(cr, a)) && !(Unread(cr, a) && (Cleared(cr, a) || Condemned(cr, a)))
    ensures Hopeless(cr, a) ==> !Cleared(cr, a) && !Condemned(cr, a)
    ensures Unenrichable(Next(cr), cr.spec.Defaulted(), a.checks) ==> Hopeless(cr, a) && !Unread(cr, a)
    ensures PastDeadline(cr, a) ==> Cleared(cr, a) || Condemned(cr, a) || Hopeless(cr, a)
    ensures Hopeless(cr, a) && !PastDeadline(cr, a) ==> Unenrichable(Next(cr), cr.spec.Defaulted(), a.checks)
  {
    StepSays(cr, a);
    StepExactly(Next(cr), cr.spec.Defaulted(), cr.status.resolvedImage, a.checks);
    hide StepOf, EvaluateCheck, Good, Next, PastDeadline, Clears, Condemns, Unenrichable, Unanswered, PodsNotUp,
      Spec.Defaulted;
  }

  // ---- What is recorded of the step ----

  /** What the reason of an overdue step was while there was time. */
  function InTime(r: Reason): Reason {
    match r
    case Timeout => NoReason
    case ScanMissing => ScanPending
    case _ => r
  }

  /** With the gate open and its answers in, a pass records exactly one entry, for the next
      check and behind the finished ones: begun when it first was, ended now if it is over,
      and with the reason its answers give, or what the deadline makes of that. */
  lemma {:induction false} RecordedExactly(cr: CR, a: Inputs) returns (e: CheckResult)
    requires Good(cr.spec, cr.status) && InProgress(cr, a) && Open(cr, a) && !Unread(cr, a)
    ensures var o, k, checks := Pass(cr, a).outcome, Finishing(cr.status.checks), cr.status.checks;
      && o.WriteStatus? && o.status.checks == checks[..k] + [e] && e.name == Next(cr)
      && e.startedAt == (if k < |checks| then checks[k].startedAt else Some(a.now))
      && e.finishedAt == (if e.phase.IsTerminal() then Some(a.now) else None)
      && o.status.completedAt == (if o.status.phase.IsTerminal() then Some(a.published) else cr.status.completedAt)
      && o.status.reason == (if e.phase.CheckFailed? then e.reason
                             else if o.status.phase.Passed? then AllChecksPassed
                             else if e.phase.IsTerminal() || e.reason.NoReason? then ReasonRunning else e.reason)
    ensures Reasons(e.name, cr.spec.Defaulted(), a.checks, InTime(e.reason))
    ensures e.reason in {Timeout, ScanMissing} ==> PastDeadline(cr, a)
    ensures PastDeadline(cr, a) ==> !e.reason.ScanPending? && (e.reason.NoReason? ==> Cleared(cr, a))
    ensures e.phase.CheckSkipped? <==>
              e.name.Smoke? && (a.checks.smoke.SmokeAbsent? || a.checks.smoke.SmokeUndeclared?)
  {
    var name, spec := Next(cr), cr.spec.Defaulted();
    var raw := EvaluateCheck(name, spec, cr.status.resolvedImage, true, a.checks).step;
    LateExactly(cr, a);
    StepSays(cr, a);
    OpenGateWrites(cr, a);
    hide Pass, EvaluateCheck, Good, Settle, Spec.Defaulted, Clears, Condemns, Unenrichable, Unanswered, Reasons,
      StepVocabulary, Next, PastDeadline, Late, Open, InProgress, Finishing, Names, Condemned, Hopeless;
    StepsSpeakTheVocabulary(name, spec, cr.status.resolvedImage, true, a.checks);
    StepExactly(name, spec, cr.status.resolvedImage, a.checks);
    ReasonExactly(name, spec, cr.status.resolvedImage, a.checks);
    SettleExactly(name, raw.value, Late(cr, a));
    InTimeOf(name, raw.value);
    var s := StepOf(cr, a).value;
    e := Entry(cr, a, s);
  }

  lemma {:induction false} InTimeOf(name: CheckName, raw: Step)
    requires StepVocabulary(name, raw)
    ensures InTime(raw.reason) == raw.reason && InTime(Overdue(raw.reason)) == raw.reason
    ensures raw.phase.CheckFailed? ==> !raw.reason.NoReason? && !raw.reason.ScanPending?
    ensures raw.phase.IsClean() ==> raw.reason in {NoReason, NoSmokeTest}
  {
  }

  /** A Job is asked for exactly by a check that runs one, has its target and found none;
      and the image under test is recorded exactly by the check that judges it. */
  lemma {:induction false} AskedExactly(cr: CR, a: Inputs)
    requires Good(cr.spec, cr.status) && InProgress(cr, a) && Open(cr, a)
    ensures var r, name, spec := Pass(cr, a), Next(cr), cr.spec.Defaulted();
      && r.requested == (if Aimed(name, a.checks) && a.checks.get.Missing? then Some(name) else None)
      && (r.outcome.WriteStatus? ==>
            && r.outcome.status.previewNamespace == PreviewNamespaceName(cr.spec.prNumber)
            && (forall image | name.Trivy? && Judges(spec, a.checks, image) :: r.outcome.status.resolvedImage == image)
            && (!name.Trivy? || (forall image :: !Judges(spec, a.checks, image)) ==>
                  r.outcome.status.resolvedImage == cr.status.resolvedImage))
  {
    OpenAdvances(cr, a);
    Resolves(Next(cr), cr.spec.Defaulted(), cr.status.resolvedImage, a.checks);
    AdvanceCopies(cr.spec.Defaulted(), Observed(cr), Late(cr, a), a, Next(cr));
    hide Pass, Next, Good, Open, InProgress, AdvanceCheck, EvaluateCheck, Judges, Aimed, Spec.Defaulted, Late,
      PreviewNamespaceName;
  }

  lemma {:induction false} AdvanceCopies(spec: Spec, st: Status, late: bool, a: Inputs, name: CheckName)
    ensures var e := EvaluateCheck(name, spec, st.resolvedImage, true, a.checks);
      var r := AdvanceCheck(spec, st, late, a, name);
      && r.requested == (if e.requested then Some(name) else None)
      && (r.outcome.WriteStatus? ==>
            r.outcome.status.resolvedImage == e.resolvedImage
            && r.outcome.status.previewNamespace == st.previewNamespace)
  {
    hide EvaluateCheck, Settle, Upsert, Find, Result, FirstUnfinished, OrderedChecks;
  }

  lemma {:induction false} Resolves(name: CheckName, spec: Spec, resolved: string, a: CheckAnswers)
    requires spec.kevMax.Some? && spec.epssMaxPermille.Some?
    ensures var e := EvaluateCheck(name, spec, resolved, true, a);
      && (e.requested <==> Aimed(name, a) && a.get.Missing?)
      && (forall image | name.Trivy? && Judges(spec, a, image) :: e.resolvedImage == image)
      && (!name.Trivy? || (forall image :: !Judges(spec, a, image)) ==> e.resolvedImage == resolved)
  {
    if name.Trivy? {
      if forall image :: !Judges(spec, a, image) { NoImageExactly(spec, resolved, a); }
      forall image | Judges(spec, a, image)
        ensures CheckTrivy(spec, resolved, a).resolvedImage == image && !CheckTrivy(spec, resolved, a).requested
      {
        TrivyExactly(spec, resolved, a, image);
      }
      hide CheckTrivy;
      if image :| Judges(spec, a, image) {}
    }
  }
}
