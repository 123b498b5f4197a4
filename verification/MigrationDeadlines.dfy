/** A MigrationCheck with a probe gets its verdict in a bounded number of passes once the
    deadlines of its phases have passed; its TTL ends it without one. */
module MigrationDeadlines {
  import opened Text
  import opened ApiServer
  import opened MigrationApi
  import opened MigrationClone
  import opened MigrationPass
  import opened MigrationInvariants
  import opened MigrationProtocol
  import opened MigrationRuns
  import Jobs
  import LogDetail

  /** The deadline of the check's phase has passed: the ready timeout of a provisioning
      one, the last moment a Ready one could start its probe, the budget of a Running one.
      Before that there is nothing to wait for. */
  predicate Due(spec: Spec, st: Status, a: Inputs)
    requires spec.probe.Some?
  {
    match st.phase
    case Unset | Pending => true
    case Provisioning => ReadyDeadlinePassed(spec, st, a.clock.test)
    case Ready => Remaining(spec, a.clock.test) < ProbeBudget(spec.probe.value)
    case Running => ProbeDeadlinePassed(spec, st, a.clock.test)
    case _ => false
  }

  /** Every read and creation the phase depends on was answered. */
  predicate Answered(spec: Spec, st: Status, a: Inputs) {
    match st.phase
    case Unset | Pending => ResolveSource(spec, a.prod).None? || !a.namespaceCreate.CreateError?
    case Provisioning => !CloneState(a).ReadError? && !(CloneState(a).Accepting? && a.secretCreate.CreateError?)
    case Running => !a.job.JobError?
    case _ => true
  }

  /** A status write that moves the check on. */
  predicate MovesOn(st: Status, landed: seq<Status>) {
    landed != [] && st.phase.Rank() < landed[0].phase.Rank()
  }

  /** A pass over a check that is due moves it at least one phase on exactly when it was
      answered and its write was not refused; it never merely waits. */
  lemma {:induction false} DuePassMovesOn(spec: Spec, cr: CR, a: Inputs)
    requires spec.probe.Some? && AtWork(spec, cr, a) && Due(spec, cr.status, a)
    ensures MovesOn(cr.status, Pass(spec, cr, a).0.landed) <==> Answered(spec, cr.status, a) && !a.write1.Refused?
  {
    var w := Begin(cr);
    WorkingPass(spec, cr, a);
    hide Pass, Provision, CheckReady, StartProbe, CheckProbe, PublishReport, Due, Answered, MovesOn, AtWork;
    DueIsUndecided(spec, cr.status, a);
    match cr.status.phase {
      case Unset | Pending => DueProvision(spec, w, a);
      case Provisioning => DueReady(spec, w, a);
      case Ready => DueStart(spec, w, a);
      case Running => DueProbe(spec, w, a);
      case Passed | Failed | Expired =>
    }
  }

  lemma DueIsUndecided(spec: Spec, st: Status, a: Inputs)
    requires spec.probe.Some? && Due(spec, st, a)
    ensures !st.phase.IsTerminal()
  {
  }

  /** What a write leaves in place: the status it carries first, or nothing. */
  lemma {:induction false} FirstLanded(spec: Spec, w: Work, st: Status, a: Inputs)
    requires w.landed == []
    ensures var stored, reported := Store(w, st, a), StoreAndReport(spec, w, st, a);
      && (a.write1.Refused? ==> stored.landed == [] && reported.landed == [])
      && (!a.write1.Refused? ==> |stored.landed| >= 1 && stored.landed[0] == st)
      && (!a.write1.Refused? ==> |reported.landed| >= 1 && reported.landed[0] == st)
  {
  }

  lemma {:induction false} FinishLands(spec: Spec, w: Work, phase: Phase, reason: Reason, message: string, a: Inputs)
    requires w.landed == [] && phase.IsTerminal() && !w.status.phase.IsTerminal()
    ensures MovesOn(w.status, Finish(spec, w, phase, reason, message, a).landed) <==> !a.write1.Refused?
  {
    hide StoreAndReport, LogDetail.TruncateMigrationMessage;
    FirstLanded(spec, w, Finished(w.status, phase, reason, message, a), a);
  }

  lemma {:induction false} DueProvision(spec: Spec, w: Work, a: Inputs)
    requires w.landed == [] && spec.probe.Some? && w.status.phase.Rank() == 0
    ensures MovesOn(w.status, Provision(spec, w, a).landed) <==> Answered(spec, w.status, a) && !a.write1.Refused?
  {
    var w1 := w.(status := w.status.(
      startedAt := if w.status.startedAt.None? then Some(a.clock.test) else w.status.startedAt));
    var source := ResolveSource(spec, a.prod);
    hide Finish, StoreAndReport, Clone, RequestFor, ResolveSource, Deadline, CloneNamespace;
    FinishLands(spec, w1, Expired, CloneFailed, a.headline, a);
    if source.Some? {
      var w2 := w1.(created := w1.created + {NamespaceObj(CloneNamespace(spec))});
      var w3 := w2.(created := w2.created + Clone(RequestFor(spec, source.value), a.clone).created);
      FinishLands(spec, w3, Expired, CloneFailed, a.headline, a);
      FirstLanded(spec, w3, w3.status.(
            phase := Provisioning, reason := CloneProvisioning, message := "clone provisioning",
            cloneNamespace := CloneNamespace(spec), expiresAt := Some(Deadline(spec))), a);
    }
  }

  lemma {:induction false} DueReady(spec: Spec, w: Work, a: Inputs)
    requires w.landed == [] && spec.probe.Some? && w.status.phase.Provisioning? && Due(spec, w.status, a)
    ensures MovesOn(w.status, CheckReady(spec, w, a).landed) <==> Answered(spec, w.status, a) && !a.write1.Refused?
  {
    hide Finish, Store, CloneState, ReadyDeadlinePassed;
    FinishLands(spec, w, Expired, CloneNotReady, a.headline, a);
    var w1 := w.(created := w.created + {SecretObj(spec.namespace, SecretName(spec))});
    FirstLanded(spec, w1, w1.status.(phase := Ready, reason := CloneReady, message := "clone ready",
                                     connectionSecret := SecretName(spec)), a);
  }

  lemma {:induction false} DueStart(spec: Spec, w: Work, a: Inputs)
    requires w.landed == [] && spec.probe.Some? && w.status.phase.Ready? && Due(spec, w.status, a)
    ensures MovesOn(w.status, StartProbe(spec, w, a).landed) <==> Answered(spec, w.status, a) && !a.write1.Refused?
  {
    hide Finish, Remaining, ProbeBudget, EnsureProbeJob;
    FinishLands(spec, w, Expired, TTLTooShort, a.headline, a);
  }

  lemma {:induction false} DueProbe(spec: Spec, w: Work, a: Inputs)
    requires w.landed == [] && spec.probe.Some? && w.status.phase.Running? && Due(spec, w.status, a)
    ensures MovesOn(w.status, CheckProbe(spec, w, a).landed) <==> Answered(spec, w.status, a) && !a.write1.Refused?
  {
    var stuck := WaitingFailure(a);
    var reason := if stuck.Some? then stuck.value else DeadlineExceeded;
    FinishLands(spec, w, Expired, DeadlineExceeded, a.headline, a);
    FinishLands(spec, w, Expired, DeadlineExceeded, Tailed(a), a);
    FinishLands(spec, w, Passed, ProbePassed, Tailed(a), a);
    FinishLands(spec, w, Failed, ProbeFailed, Tailed(a), a);
    FinishLands(spec, w, Expired, reason, Tailed(a), a);
    FinishLands(spec, w, Expired, reason, a.headline, a);
    hide Finish, MovesOn, ProbeDeadlinePassed, WaitingFailure, Jobs.JobOutcome, Tailed;
  }

  // ---- Over whole runs ----

  /** A pass over the newest version, at work on a check that is due, answered, its write
      landed. */
  predicate DueLanding(s: System, e: Event) {
    && Enabled(s, e) && e.Reconcile? && e.read == |s.history| - 1 && s.spec.probe.Some?
    && AtWork(s.spec, s.Newest(), e.inputs) && Due(s.spec, s.Newest().status, e.inputs)
    && Answered(s.spec, s.Newest().status, e.inputs) && !e.inputs.write1.Refused?
  }

  function DueLandings(run: seq<System>, events: seq<Event>, i: nat, j: nat): nat
    requires i <= j <= |events| && j < |run|
    decreases j
  {
    if i == j then 0
    else DueLandings(run, events, i, j - 1) + if DueLanding(run[j - 1], events[j - 1]) then 1 else 0
  }

  lemma {:induction false} DueLandingMoves(s: System, e: Event)
    requires DueLanding(s, e)
    ensures Enabled(s, e) && e.Reconcile? && s.history != [] && e.read == |s.history| - 1
    ensures var (w, meta) := Pass(s.spec, s.Newest(), e.inputs);
      w.landed != [] && meta == NoMeta && s.Newest().status.phase.Rank() < w.landed[0].phase.Rank()
  {
    hide Pass, AtWork, Due, Answered, Advance;
    DuePassMovesOn(s.spec, s.Newest(), e.inputs);
    WorkingPass(s.spec, s.Newest(), e.inputs);
  }

  lemma {:induction false} DueStep(s: System, e: Event, skew: int)
    requires Sound(s, skew) && DueLanding(s, e) && e.inputs.clock.stamp - e.inputs.clock.test <= skew
    ensures Next(s, e).history != []
    ensures s.Newest().status.phase.Rank() < Next(s, e).Newest().status.phase.Rank()
  {
    hide Pass, Sound, Chained, LogGood, Good, Next, DueLanding, Enabled, Remembers;
    DueLandingMoves(s, e);
    NextIsSound(s, e, skew);
    NextKeepsSpec(s, e);
    var t := Next(s, e);
    SoundFacts(t, skew);
    LandedIsStored(s, e);
    ChainKeeps(t.spec, t.history, skew, |s.history|, |t.history| - 1);
  }

  /** The first landed status is the version after the one read. */
  lemma {:induction false} LandedIsStored(s: System, e: Event)
    requires Enabled(s, e) && e.Reconcile?
    requires var (w, meta) := Pass(s.spec, s.history[e.read].cr, e.inputs); w.landed != [] && meta == NoMeta
    ensures var w := Pass(s.spec, s.history[e.read].cr, e.inputs).0;
      |Next(s, e).history| > |s.history| && Next(s, e).history[|s.history|].cr.status == w.landed[0]
  {
    hide Pass, Logged;
    ExtendedAt(s.history, Pass(s.spec, s.history[e.read].cr, e.inputs).0.landed, e.inputs, 0);
  }

  lemma {:induction false} RankGrows(run: seq<System>, events: seq<Event>, i: nat, j: nat)
    requires IsRun(run, events) && i <= j < |run|
    ensures run[i].history != [] && run[j].history != []
    ensures run[i].Newest().status.phase.Rank() + DueLandings(run, events, i, j) <= run[j].Newest().status.phase.Rank()
    decreases j
  {
    hide Next, Enabled, Sound, Initial, DueLanding, Remembers;
    VerdictStands(run, events, i, j);
    if i < j {
      RankGrows(run, events, i, j - 1);
      VerdictStands(run, events, j - 1, j);
      if DueLanding(run[j - 1], events[j - 1]) {
        var skew := SomeSkew(events);
        RunIsSound(run, events, skew, j - 1);
        assert Enabled(run[j - 1], events[j - 1]) && run[j - 1 + 1] == Next(run[j - 1], events[j - 1]);
        DueIsReconcile(run[j - 1], events[j - 1]);
        DueStep(run[j - 1], events[j - 1], skew);
      }
    }
  }

  lemma DueIsReconcile(s: System, e: Event)
    requires DueLanding(s, e)
    ensures e.Reconcile?
  {
  }

  /** A check with a probe has its verdict once as many due passes landed as there were
      phases left, four at most, whatever else happened in between. */
  lemma {:induction false} VerdictByDeadlines(run: seq<System>, events: seq<Event>, i: nat, j: nat)
    requires IsRun(run, events) && i <= j < |run|
    requires run[i].history != [] && DueLandings(run, events, i, j) >= 4 - run[i].Newest().status.phase.Rank()
    ensures run[j].history != [] && run[j].Newest().status.phase.IsTerminal()
  {
    hide IsRun, DueLandings;
    RankGrows(run, events, i, j);
  }

  /** The TTL is no such deadline: at or past it a pass over a check under its finalizer
      asks for its deletion and for nothing else, decided or not, and before it no pass
      ever does. */
  lemma {:induction false} TTLEndsWithoutVerdict(spec: Spec, cr: CR, a: Inputs)
    requires cr.finalizer && !cr.deleting
    ensures Pass(spec, cr, a).1.DeleteSelf? <==> TTLExpired(spec, a.clock.guard)
    ensures TTLExpired(spec, a.clock.guard) ==> Pass(spec, cr, a).0 == Begin(cr)
  {
    hide Advance, TTLExpired;
  }
}
