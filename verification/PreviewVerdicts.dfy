/** What a single pass guarantees: why a verdict was given, when a check may move, and
    that deadlines decide. */
module PreviewVerdicts {
  import opened Text
  import opened PreviewApi
  import opened PreviewChecks
  import opened PreviewPass
  import opened PreviewInvariants
  import K = Kustomization
  import KustomizationRuns

  /** The pass saw a labelled preview of the right app, applied and settled, and neither
      deadline-free deletion nor expiry stood in the way. */
  predicate Guarded(cr: CR, a: Inputs) {
    && !cr.deleting && cr.finalizer && !cr.status.phase.IsTerminal()
    && cr.status.startedAt.Some? && (cr.status.expiresAt.Some? ==> a.now < cr.status.expiresAt.value)
    && a.ns.NsFound? && a.ns.labelled && a.ns.app != ""
    && (cr.spec.app == "" || cr.spec.app == a.ns.app)
    && a.ks.KsFound? && K.KustomizationSettled(a.ks.ks, cr.spec.revision).Settled?
  }

  /** No check moves and no Job creation is sent unless all of that was seen in this pass. */
  lemma {:induction false} ChecksMoveOnlyGuarded(cr: CR, a: Inputs)
    ensures var r := Pass(cr, a);
      r.requested.Some? || (r.outcome.WriteStatus? && r.outcome.status.checks != cr.status.checks) ==> Guarded(cr, a)
  {
    hide ResolveNamespace, Spec.Defaulted, K.KustomizationSettled;
    DefaultedKeepsGiven(cr.spec);
    ResolvedMoves(cr.spec.Defaulted(), cr.status, Late(cr, a), a);
  }

  lemma {:induction false} ResolvedMoves(spec: Spec, st: Status, late: bool, a: Inputs)
    ensures var r := ResolveNamespace(spec, st, late, a);
      r.requested.Some? || (r.outcome.WriteStatus? && r.outcome.status.checks != st.checks) ==>
        && a.ns.NsFound? && a.ns.labelled && a.ns.app != "" && (spec.app == "" || spec.app == a.ns.app)
        && a.ks.KsFound? && K.KustomizationSettled(a.ks.ks, spec.revision).Settled?
  {
    hide RunChecks, AnyStarted, K.KustomizationSettled, PreviewNamespaceName;
  }

  /** A PreviewCheck that reads any Kustomization stored between the notice of a change
      and the commit of its credentials moves no check and sends no Job creation. */
  lemma {:induction false} NoCheckOnHalfRenderedPreview(
      states: seq<K.KsObject>, events: seq<KustomizationRuns.Event>, i: nat, j: nat, cr: CR, a: Inputs)
    requires KustomizationRuns.IsRun(states, events) && i < j <= |events|
    requires KustomizationRuns.Noticed(states, events, i)
    requires forall k | i < k < j :: !KustomizationRuns.MoveAt(states, events, k).CredentialsCommitted?
    requires a.ks == KsFound(states[j])
    ensures Pass(cr, a).requested.None?
    ensures Pass(cr, a).outcome.WriteStatus? ==> Pass(cr, a).outcome.status.checks == cr.status.checks
  {
    hide Pass, K.KustomizationSettled;
    KustomizationRuns.GateShutAfterNotice(states, events, i, j, cr.spec.revision);
    ChecksMoveOnlyGuarded(cr, a);
  }

  /** Past the resource keeping a pass ends in a status write or an error. */
  lemma {:induction false} ResolvingWritesStatus(spec: Spec, st: Status, late: bool, a: Inputs)
    ensures var o := ResolveNamespace(spec, st, late, a).outcome; o.WriteStatus? || o.ReconcileError?
  {
    hide FirstUnfinished, AnyStarted, OrderedChecks, Upsert, EvaluateCheck, K.KustomizationSettled;
  }

  /** Which answers justify a verdict. */
  ghost predicate Justified(cr: CR, a: Inputs, st: Status) {
    && (st.phase.Passed? ==> Guarded(cr, a))
    && (st.phase.Failed? ==>
          match st.reason
          case NamespaceGone => st.previewNamespace != ""
          case AppMismatch =>
            a.ns.NsFound? && a.ns.labelled && a.ns.app != "" && cr.spec.app != "" && cr.spec.app != a.ns.app
          case KustomizationNotReady =>
            Late(cr, a) && a.ks.KsFound? && K.KustomizationSettled(a.ks.ks, cr.spec.revision) == K.NotReady(true)
          case RevisionMismatch =>
            Late(cr, a) && a.ks.KsFound? && K.KustomizationSettled(a.ks.ks, cr.spec.revision) == K.WrongRevision
          case EnrichmentUnavailable => Guarded(cr, a) && RequestRefused(a.checks)
          case PodsNotReady => Guarded(cr, a) && Late(cr, a)
          case _ => Guarded(cr, a))
    && (st.phase.Expired? ==>
          || Late(cr, a)
          || (cr.status.expiresAt.Some? && a.now >= cr.status.expiresAt.value)
          || (st.reason.EnrichmentUnavailable? && Guarded(cr, a) && a.checks.lookup.NoEnricher?))
  }

  lemma {:induction false} GuardedPassRunsChecks(cr: CR, a: Inputs)
    requires Guarded(cr, a)
    ensures Pass(cr, a) == RunChecks(cr.spec.Defaulted(), Observed(cr), Late(cr, a), a)
  {
    hide RunChecks, K.KustomizationSettled;
  }

  /** A failed step explains the phase it turns into. */
  ghost predicate StepExplained(s: Step, late: bool, a: CheckAnswers) {
    var phase := if s.crPhase.Some? then s.crPhase.value else TerminalPhaseFor(s.reason);
    && (phase.Failed? && s.reason.EnrichmentUnavailable? ==> RequestRefused(a))
    && (phase.Failed? && s.reason.PodsNotReady? ==> late)
    && (phase.Failed? ==> s.reason !in {AppMismatch, KustomizationNotReady, RevisionMismatch})
    && (phase.Expired? ==> late || (s.reason.EnrichmentUnavailable? && a.lookup.NoEnricher?))
    && (phase.Failed? || phase.Expired?)
  }

  lemma {:induction false} SettledStepExplained(name: CheckName, raw: Step, late: bool, a: CheckAnswers)
    requires StepVocabulary(name, raw)
    requires raw.reason.EnrichmentUnavailable? && raw.crPhase == Some(Failed) ==> RequestRefused(a)
    requires raw.crPhase == Some(Expired) ==> a.lookup.NoEnricher?
    ensures Settle(raw, late).phase.CheckFailed? ==> StepExplained(Settle(raw, late), late, a)
  {
  }

  lemma {:induction false} AdvanceJustified(cr: CR, a: Inputs)
    requires Ongoing(cr) && Guarded(cr, a)
    ensures var o := RunChecks(cr.spec.Defaulted(), Observed(cr), Late(cr, a), a).outcome;
      o.WriteStatus? ==> Justified(cr, a, o.status)
  {
    var spec, st, late := cr.spec, cr.status, Late(cr, a);
    NextCheck(spec, st, CheckResult(Readiness, CheckRunning, NoReason, None, None));
    var name := Names(spec)[Finishing(st.checks)];
    hide EvaluateCheck, ChecksGood, Upsert, Settle, Guarded, StepVocabulary, RequestRefused, Late;
    var e := EvaluateCheck(name, spec.Defaulted(), st.resolvedImage, true, a.checks);
    StepsSpeakTheVocabulary(name, spec.Defaulted(), st.resolvedImage, true, a.checks);
    if e.step.Some? { SettledStepExplained(name, e.step.value, late, a.checks); }
  }

  lemma {:induction false} WriteIsOngoing(cr: CR, a: Inputs)
    requires Good(cr.spec, cr.status)
    requires Pass(cr, a).outcome.WriteStatus? && Pass(cr, a).outcome.status.phase.IsTerminal()
    ensures Ongoing(cr) && !cr.deleting && cr.finalizer
  {
    hide ResolveNamespace, ChecksGood, VerdictTable;
  }

  /** What a pass over an ongoing check does first. */
  lemma {:induction false} PassUnfolds(cr: CR, a: Inputs)
    requires cr.finalizer && !cr.deleting && !cr.status.phase.IsTerminal() && cr.status.startedAt.Some?
    ensures Pass(cr, a) ==
      if cr.status.expiresAt.Some? && a.now >= cr.status.expiresAt.value then Say(cr.status, Expired, Timeout, a)
      else ResolveNamespace(cr.spec.Defaulted(), cr.status, Late(cr, a), a)
  {
    hide ResolveNamespace;
  }

  /** The namespace holds a labelled preview of the right app. */
  predicate NamespaceFits(cr: CR, a: Inputs) {
    a.ns.NsFound? && a.ns.labelled && a.ns.app != "" && (cr.spec.app == "" || cr.spec.app == a.ns.app)
  }

  lemma {:induction false} ResolveUnfolds(cr: CR, a: Inputs)
    requires NamespaceFits(cr, a)
    ensures ResolveNamespace(cr.spec.Defaulted(), cr.status, Late(cr, a), a)
         == CheckGate(cr.spec.Defaulted(), Observed(cr), Late(cr, a), a)
  {
    hide CheckGate, Late;
  }

  lemma {:induction false} NamespaceVerdictJustified(cr: CR, a: Inputs)
    requires !NamespaceFits(cr, a)
    ensures var o := ResolveNamespace(cr.spec.Defaulted(), cr.status, Late(cr, a), a).outcome;
      o.WriteStatus? && o.status.phase.IsTerminal() ==> Justified(cr, a, o.status)
  {
    hide CheckGate, Late, Guarded, K.KustomizationSettled;
  }

  lemma {:induction false} GateVerdictJustified(cr: CR, a: Inputs)
    requires !a.ks.KsFound? || !K.KustomizationSettled(a.ks.ks, cr.spec.revision).Settled?
    ensures var o := CheckGate(cr.spec.Defaulted(), Observed(cr), Late(cr, a), a).outcome;
      o.WriteStatus? && o.status.phase.IsTerminal() ==> Justified(cr, a, o.status)
  {
    hide RunChecks, AnyStarted, Late, Guarded, K.KustomizationSettled;
  }

  /** Verdicts given before any check runs. */
  lemma {:induction false} EarlyVerdictJustified(cr: CR, a: Inputs)
    requires Ongoing(cr) && !cr.deleting && cr.finalizer && !Guarded(cr, a)
    requires Pass(cr, a).outcome.WriteStatus? && Pass(cr, a).outcome.status.phase.IsTerminal()
    ensures Justified(cr, a, Pass(cr, a).outcome.status)
  {
    hide Pass, ResolveNamespace, CheckGate, ChecksGood, MetaGood, Late, K.KustomizationSettled;
    PassUnfolds(cr, a);
    if cr.status.expiresAt.Some? && a.now >= cr.status.expiresAt.value {
    } else if !NamespaceFits(cr, a) {
      NamespaceVerdictJustified(cr, a);
    } else {
      ResolveUnfolds(cr, a);
      GateVerdictJustified(cr, a);
    }
  }

  /** Every verdict is justified by what the pass that gave it was told: negative ones by
      evidence about the change, inconclusive ones by a deadline or a missing endpoint. */
  lemma {:induction false} VerdictsAreJustified(cr: CR, a: Inputs)
    requires Good(cr.spec, cr.status)
    requires Pass(cr, a).outcome.WriteStatus? && Pass(cr, a).outcome.status.phase.IsTerminal()
    ensures Justified(cr, a, Pass(cr, a).outcome.status)
    ensures VerdictTable(Pass(cr, a).outcome.status.phase, Pass(cr, a).outcome.status.reason)
  {
    hide Pass, ChecksGood, RunChecks, VerdictTable, Justified, Guarded;
    PassIsGood(cr, a);
    WriteIsOngoing(cr, a);
    if Guarded(cr, a) {
      GuardedPassRunsChecks(cr, a);
      AdvanceJustified(cr, a);
    } else {
      EarlyVerdictJustified(cr, a);
    }
  }

  // ---- What a write may record ----

  /** The first write stamps the clock of the run, from this pass's reading and the TTL of
      the spec as it is now; the namespace is only recorded by a pass that saw it hold a
      labelled preview of the right app. */
  lemma {:induction false} RecordsWhatItSaw(cr: CR, a: Inputs)
    requires Pass(cr, a).outcome.WriteStatus?
    ensures var st := Pass(cr, a).outcome.status;
      && (cr.status.startedAt.None? ==>
            && st.startedAt == Some(a.now)
            && st.expiresAt == Some(a.now + cr.spec.Defaulted().ttlSeconds * SECOND))
      && (st.previewNamespace != cr.status.previewNamespace ==> NamespaceFits(cr, a))
  {
    hide CheckGate, Late;
    if cr.status.startedAt.Some? { ResolvingRecords(cr, a); }
  }

  lemma {:induction false} ResolvingRecords(cr: CR, a: Inputs)
    ensures var o := ResolveNamespace(cr.spec.Defaulted(), cr.status, Late(cr, a), a).outcome;
      o.WriteStatus? && o.status.previewNamespace != cr.status.previewNamespace ==> NamespaceFits(cr, a)
  {
    hide CheckGate, Late;
  }

  // ---- Deadlines decide ----

  /** At or past its expiry one pass gives the verdict, whatever the cluster answers. */
  lemma {:induction false} ExpiredPassDecides(cr: CR, a: Inputs)
    requires cr.finalizer && !cr.deleting && !cr.status.phase.IsTerminal() && cr.status.startedAt.Some?
    requires cr.status.expiresAt.Some? && a.now >= cr.status.expiresAt.value
    ensures var o := Pass(cr, a).outcome;
      o.WriteStatus? && o.status == cr.status.(phase := Expired, reason := Timeout, completedAt := Some(a.published))
  {
  }

  predicate PastExpiry(cr: CR, a: Inputs) { cr.status.expiresAt.Some? && a.now >= cr.status.expiresAt.value }

  /** Every read the pass depends on was answered: the namespace, and the Kustomization
      where the namespace fits, for it is not read before. */
  predicate ReadsAnswered(cr: CR, a: Inputs) {
    !a.ns.NsError? && !(NamespaceFits(cr, a) && a.ks.KsError?)
  }

  /** A pass past the run deadline over a check without a verdict. */
  predicate LateOngoing(cr: CR, a: Inputs) {
    cr.finalizer && !cr.deleting && !cr.status.phase.IsTerminal() && Late(cr, a)
  }

  /** One that is past the expiry too, or had its reads answered. */
  predicate LatePass(cr: CR, a: Inputs) {
    LateOngoing(cr, a) && (PastExpiry(cr, a) || ReadsAnswered(cr, a))
  }

  lemma {:induction false} LateHasStarted(cr: CR, a: Inputs)
    requires Late(cr, a)
    ensures cr.status.startedAt.Some?
  {
  }

  /** Such a pass gives a verdict or finishes exactly one more check; it never merely waits. */
  lemma {:induction false} LatePassDecides(cr: CR, a: Inputs)
    requires Good(cr.spec, cr.status) && LatePass(cr, a)
    ensures var o := Pass(cr, a).outcome;
      && o.WriteStatus?
      && (o.status.phase.IsTerminal() || Unfinished(cr.spec, o.status) == Unfinished(cr.spec, cr.status) - 1)
  {
    hide Pass, ResolveNamespace, ChecksGood, MetaGood, Late;
    LateHasStarted(cr, a);
    PassUnfolds(cr, a);
    if !PastExpiry(cr, a) { LateResolveDecides(cr, a); }
  }

  lemma {:induction false} LateResolveDecides(cr: CR, a: Inputs)
    requires Ongoing(cr) && LateOngoing(cr, a) && ReadsAnswered(cr, a)
    ensures var o := ResolveNamespace(cr.spec.Defaulted(), cr.status, Late(cr, a), a).outcome;
      && o.WriteStatus?
      && (o.status.phase.IsTerminal() || Unfinished(cr.spec, o.status) == Unfinished(cr.spec, cr.status) - 1)
  {
    hide CheckGate, ChecksGood, MetaGood, Names, Finishing, Late;
    if NamespaceFits(cr, a) {
      ResolveUnfolds(cr, a);
      LateGateDecides(cr, a);
    }
  }

  lemma {:induction false} LateGateDecides(cr: CR, a: Inputs)
    requires Ongoing(cr) && LateOngoing(cr, a) && !a.ks.KsError?
    ensures var o := CheckGate(cr.spec.Defaulted(), Observed(cr), Late(cr, a), a).outcome;
      && o.WriteStatus?
      && (o.status.phase.IsTerminal() || Unfinished(cr.spec, o.status) == Unfinished(cr.spec, cr.status) - 1)
  {
    hide RunChecks, ChecksGood, MetaGood, Names, Finishing, Late, K.KustomizationSettled;
    AdvanceIsGood(cr, a);
  }

  /** The two reads the bound depends on.  A late pass writes a status exactly when it is
      past the expiry, or the namespace was read and, where that fits, the Kustomization
      too; otherwise it ends in an error and nothing has moved. */
  lemma {:induction false} ReadErrorsPostponeVerdict(cr: CR, a: Inputs)
    requires Good(cr.spec, cr.status) && LateOngoing(cr, a)
    ensures Pass(cr, a).outcome.WriteStatus? <==> PastExpiry(cr, a) || ReadsAnswered(cr, a)
    ensures Pass(cr, a).outcome.WriteStatus? || Pass(cr, a) == PassResult(ReconcileError, None)
  {
    hide Pass, ResolveNamespace, CheckGate, ChecksGood, MetaGood, Late, Unfinished;
    if LatePass(cr, a) {
      LatePassDecides(cr, a);
    } else {
      LateHasStarted(cr, a);
      PassUnfolds(cr, a);
      UnreadStops(cr, a);
    }
  }

  lemma {:induction false} UnreadStops(cr: CR, a: Inputs)
    requires !ReadsAnswered(cr, a)
    ensures ResolveNamespace(cr.spec.Defaulted(), cr.status, Late(cr, a), a) == PassResult(ReconcileError, None)
  {
    hide RunChecks, Late, K.KustomizationSettled;
  }
}
