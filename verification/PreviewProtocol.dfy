/** Whole runs of the PreviewCheck reconciler over a versioned store: a pass may read any
    version ever stored, and its write lands only if that version is still the newest. */
module PreviewProtocol {
  import opened Text
  import opened PreviewApi
  import opened PreviewChecks
  import Exploitability
  import ImageRef
  import opened ApiServer
  import opened PreviewPass
  import opened PreviewInvariants
  import opened PreviewVerdicts

  /** Where a stored version came from. */
  datatype Cause = Administrative | ByPass(inputs: Inputs)

  datatype Version = Version(cr: CR, cause: Cause)

  /** Every version ever stored, and what has been counted.  `lost` counts belong to
      writes that landed without the reconciler learning of it. */
  datatype System = System(
    history: seq<Version>, gone: bool,
    verdicts: multiset<(Phase, Reason)>, lostVerdicts: multiset<(Phase, Reason)>,
    checks: multiset<(CheckName, CheckPhase)>, lostChecks: multiset<(CheckName, CheckPhase)>)
  {
    function Newest(): CR
      requires history != []
    {
      history[|history| - 1].cr
    }
  }

  datatype Event =
    | EditSpec(to: Spec)
    | RequestDeletion
    | Reconcile(read: nat, inputs: Inputs, write: WriteAnswer)

  ghost predicate Initial(s: System) {
    && |s.history| == 1 && !s.gone && s.Newest().status == EmptyStatus && !s.Newest().deleting
    && s.verdicts == s.lostVerdicts == multiset{} && s.checks == s.lostChecks == multiset{}
  }

  predicate Enabled(s: System, e: Event) {
    s.history != [] &&
    match e
    case Reconcile(read, _, write) =>
      read < |s.history| && (!write.Refused? ==> read == |s.history| - 1 && !s.gone)
    case EditSpec(to) => !s.gone && s.Newest().spec.MayBecome(to)
    case _ => !s.gone
  }

  function Store(s: System, cr: CR, cause: Cause): System {
    s.(history := s.history + [Version(cr, cause)])
  }

  function Deleted(s: System): System
    requires s.history != []
  {
    if s.gone || s.Newest().deleting then s
    else if s.Newest().finalizer then Store(s, s.Newest().(deleting := true), Administrative)
    else s.(gone := true)
  }

  /** What a pass asked for, once the API server has answered. */
  function Commit(s: System, o: Outcome, inputs: Inputs, write: WriteAnswer): System
    requires s.history != []
  {
    match o
    case Quiet | ReconcileError => s
    case DeleteSelf => Deleted(s)
    case UpdateFinalizer(present) =>
      if write.Refused? then s
      else if s.Newest().deleting && !present then s.(gone := true)
      else Store(s, s.Newest().(finalizer := present), Administrative)
    case WriteStatus(status, verdict, done) =>
      if write.Refused? then s
      else
        var stored := Store(s, s.Newest().(status := status), ByPass(inputs));
        if write.Acknowledged? then
          stored.(verdicts := s.verdicts + Counted(verdict), checks := s.checks + Counted(done))
        else
          stored.(lostVerdicts := s.lostVerdicts + Counted(verdict), lostChecks := s.lostChecks + Counted(done))
  }

  function Next(s: System, e: Event): System
    requires Enabled(s, e)
  {
    match e
    case EditSpec(to) => Store(s, s.Newest().(spec := to), Administrative)
    case RequestDeletion => Deleted(s)
    case Reconcile(read, inputs, write) => Commit(s, Pass(s.history[read].cr, inputs).outcome, inputs, write)
  }

  ghost predicate IsRun(run: seq<System>, events: seq<Event>) {
    && |run| == |events| + 1
    && Initial(run[0])
    && forall i | 0 <= i < |events| :: Enabled(run[i], events[i]) && run[i + 1] == Next(run[i], events[i])
  }

  // ---- What stays true ----

  /** One version after another: an administrative change leaves the status alone; a pass
      changes nothing else, and only a status without a verdict. */
  ghost predicate Follows(v: Version, w: Version) {
    && w.cr.spec.Immutable() == v.cr.spec.Immutable()
    && (w.cause.Administrative? ==> w.cr.status == v.cr.status)
    && (w.cause.ByPass? ==>
          && w.cr == v.cr.(status := w.cr.status)
          && !v.cr.status.phase.IsTerminal()
          && Pass(v.cr, w.cause.inputs).outcome.WriteStatus?
          && Pass(v.cr, w.cause.inputs).outcome.status == w.cr.status)
    && (v.cr.status.startedAt.Some? ==>
          w.cr.status.startedAt == v.cr.status.startedAt && w.cr.status.expiresAt == v.cr.status.expiresAt)
    && Continues(v.cr.status.checks, w.cr.status.checks)
    && (v.cr.finalizer ==> w.cr.finalizer) && (v.cr.deleting ==> w.cr.deleting)
  }

  ghost predicate GoodVersion(v: Version) { Good(v.cr.spec, v.cr.status) }

  ghost predicate GoodHistory(h: seq<Version>) {
    && h != []
    && (forall i | 0 <= i < |h| :: GoodVersion(h[i]))
    && (forall i | 0 <= i < |h| - 1 :: Follows(h[i], h[i + 1]))
  }

  ghost predicate Sound(s: System) {
    && GoodHistory(s.history)
    && Tally(s.Newest().status.checks) == s.checks + s.lostChecks
    && VerdictOf(s.Newest().status) == s.verdicts + s.lostVerdicts
  }

  lemma {:induction false} GoodNeedsImmutablesOnly(a: Spec, b: Spec, st: Status)
    requires a.Immutable() == b.Immutable()
    ensures Names(a) == Names(b)
    ensures Good(a, st) <==> Good(b, st)
  {
    assert a.Defaulted().checks == b.Defaulted().checks;
    hide Names, ChecksGood, VerdictTable, PreviewNamespaceName, Spec.Defaulted;
    NamesDependOnChecks(a, b);
  }

  lemma {:induction false} NamesDependOnChecks(a: Spec, b: Spec)
    requires a.Defaulted().checks == b.Defaulted().checks
    ensures Names(a) == Names(b)
  {
  }

  lemma {:induction false} StoreIsSound(s: System, cr: CR, cause: Cause)
    requires Sound(s) && Good(cr.spec, cr.status) && Follows(s.history[|s.history| - 1], Version(cr, cause))
    requires cause.Administrative?
    ensures Sound(Store(s, cr, cause))
  {
    hide Follows, Good;
    SoundPrefix(s, Version(cr, cause));
    AdministrativeKeepsStatus(s.history[|s.history| - 1], Version(cr, cause));
  }

  lemma {:induction false} AdministrativeKeepsStatus(v: Version, w: Version)
    requires Follows(v, w) && w.cause.Administrative?
    ensures w.cr.status == v.cr.status
  {
  }

  lemma {:induction false} SoundPrefix(s: System, w: Version)
    requires Sound(s) && GoodVersion(w) && Follows(s.history[|s.history| - 1], w)
    ensures GoodHistory(s.history + [w])
  {
    hide Follows, GoodVersion;
    var h := s.history + [w];
    forall i | 0 <= i < |h| - 1 ensures Follows(h[i], h[i + 1]) {
      if i < |s.history| - 1 { assert Follows(s.history[i], s.history[i + 1]); }
    }
  }

  lemma {:induction false} NewestIsGood(s: System)
    requires Sound(s)
    ensures s.history != [] && GoodVersion(s.history[|s.history| - 1]) && Good(s.Newest().spec, s.Newest().status)
  {
  }

  lemma {:induction false} EditIsSound(s: System, to: Spec)
    requires Sound(s) && s.Newest().spec.MayBecome(to)
    ensures Sound(Store(s, s.Newest().(spec := to), Administrative))
  {
    NewestIsGood(s);
    var cr := s.Newest();
    hide Good, Sound, Continues;
    ContinuesItself(cr.status.checks);
    GoodNeedsImmutablesOnly(cr.spec, to, cr.status);
    StoreIsSound(s, cr.(spec := to), Administrative);
  }

  lemma {:induction false} FinalizerIsSound(s: System, present: bool)
    requires Sound(s) && present
    ensures Sound(Store(s, s.Newest().(finalizer := present), Administrative))
  {
    NewestIsGood(s);
    hide Good, Sound, Continues;
    ContinuesItself(s.Newest().status.checks);
    StoreIsSound(s, s.Newest().(finalizer := present), Administrative);
  }

  /** The finalizer is added to a resource in use and removed from one being deleted. */
  lemma {:induction false} FinalizerAsked(cr: CR, a: Inputs)
    ensures var o := Pass(cr, a).outcome;
      o.UpdateFinalizer? ==>
        (o.present <==> !cr.deleting) && (o.present <==> !cr.finalizer) && (!o.present ==> a.teardownOk)
  {
    hide ResolveNamespace;
    ResolvingWritesStatus(cr.spec.Defaulted(), cr.status, Late(cr, a), a);
  }

  lemma {:induction false} GoneIsSound(s: System)
    requires Sound(s)
    ensures Sound(s.(gone := true))
  {
    hide Good, Follows;
  }

  /** Every step keeps all of it. */
  lemma {:induction false} NextIsSound(s: System, e: Event)
    requires Sound(s) && Enabled(s, e)
    ensures Sound(Next(s, e))
  {
    hide Pass, Sound, Deleted;
    match e {
      case RequestDeletion => DeletedIsSound(s);
      case EditSpec(to) => EditIsSound(s, to);
      case Reconcile(read, inputs, write) =>
        var o := Pass(s.history[read].cr, inputs).outcome;
        DeletedIsSound(s);
        GoneIsSound(s);
        FinalizerAsked(s.history[read].cr, inputs);
        if o.UpdateFinalizer? && !write.Refused? && o.present { FinalizerIsSound(s, o.present); }
        if o.WriteStatus? && !write.Refused? { LandingIsSound(s, e); }
    }
  }

  lemma {:induction false} DeletedIsSound(s: System)
    requires Sound(s)
    ensures Sound(Deleted(s))
  {
    NewestIsGood(s);
    GoneIsSound(s);
    hide Good, Sound, Continues;
    ContinuesItself(s.Newest().status.checks);
    if !s.gone && !s.Newest().deleting && s.Newest().finalizer {
      StoreIsSound(s, s.Newest().(deleting := true), Administrative);
    }
  }

  predicate Landing(s: System, e: Event) {
    && Enabled(s, e) && e.Reconcile? && !e.write.Refused?
    && Pass(s.Newest(), e.inputs).outcome.WriteStatus?
  }

  /** What a landed status write stores. */
  lemma {:induction false} CommitStores(s: System, o: Outcome, a: Inputs, write: WriteAnswer)
    requires s.history != [] && o.WriteStatus? && !write.Refused?
    ensures Commit(s, o, a, write).history == s.history + [Version(s.Newest().(status := o.status), ByPass(a))]
    ensures Commit(s, o, a, write).Newest() == s.Newest().(status := o.status)
  {
    hide Counted;
  }

  /** What it adds to the tallies, seen or not. */
  lemma {:induction false} CommitCounts(s: System, o: Outcome, a: Inputs, write: WriteAnswer)
    requires s.history != [] && o.WriteStatus? && !write.Refused?
    ensures var t := Commit(s, o, a, write);
      && t.checks + t.lostChecks == s.checks + s.lostChecks + Counted(o.checkDone)
      && t.verdicts + t.lostVerdicts == s.verdicts + s.lostVerdicts + Counted(o.verdict)
  {
    hide Counted;
  }

  /** A landing commits what the pass over the newest version wrote. */
  lemma {:induction false} LandingCommits(s: System, e: Event)
    requires Landing(s, e)
    ensures Next(s, e) == Commit(s, Pass(s.Newest(), e.inputs).outcome, e.inputs, e.write)
  {
    hide Pass, Commit;
  }

  lemma {:induction false} SoundParts(s: System)
    requires Sound(s)
    ensures Tally(s.Newest().status.checks) == s.checks + s.lostChecks
    ensures VerdictOf(s.Newest().status) == s.verdicts + s.lostVerdicts
  {
  }

  lemma {:induction false} LandingIsSound(s: System, e: Event)
    requires Sound(s) && Landing(s, e)
    ensures Sound(Next(s, e))
  {
    NewestIsGood(s);
    SoundParts(s);
    LandingCommits(s, e);
    hide Pass, Good, Tally, Commit, Counted, Follows, GoodVersion, GoodHistory, Next, Enabled;
    var v := s.history[|s.history| - 1];
    LandedVersion(v.cr, e.inputs);
    var o := Pass(v.cr, e.inputs).outcome;
    CommitStores(s, o, e.inputs, e.write);
    CommitCounts(s, o, e.inputs, e.write);
    SoundPrefix(s, Version(v.cr.(status := o.status), ByPass(e.inputs)));
    assert VerdictOf(v.cr.status) == multiset{};
  }

  lemma {:induction false} LandedVersion(cr: CR, a: Inputs)
    requires Good(cr.spec, cr.status) && Pass(cr, a).outcome.WriteStatus?
    ensures var o := Pass(cr, a).outcome;
      var w := Version(cr.(status := o.status), ByPass(a));
      && GoodVersion(w)
      && (forall cause :: Follows(Version(cr, cause), w))
      && !cr.status.phase.IsTerminal()
      && Tally(o.status.checks) == Tally(cr.status.checks) + Counted(o.checkDone)
      && VerdictOf(o.status) == Counted(o.verdict)
  {
    hide Pass, Good, Tally, VerdictOf;
    PassIsGood(cr, a);
  }

  lemma {:induction false} RunStep(run: seq<System>, events: seq<Event>, i: nat)
    requires IsRun(run, events) && i < |events|
    ensures |run| == |events| + 1
    ensures Enabled(run[i], events[i]) && run[i + 1] == Next(run[i], events[i])
  {
    hide Enabled, Next, Initial;
  }

  lemma {:induction false} RunLength(run: seq<System>, events: seq<Event>)
    requires IsRun(run, events)
    ensures |run| == |events| + 1
  {
  }

  lemma {:induction false} InitialIsSound(s: System)
    requires Initial(s)
    ensures Sound(s)
  {
    FreshIsGood(s.Newest().spec);
    assert Tally([]) == multiset{};
  }

  lemma {:induction false} RunIsSound(run: seq<System>, events: seq<Event>, i: nat)
    requires IsRun(run, events) && i < |run|
    ensures Sound(run[i])
    decreases i
  {
    hide Sound, Next, Enabled, Initial;
    if i == 0 {
      InitialIsSound(run[0]);
    } else {
      RunIsSound(run, events, i - 1);
      RunStep(run, events, i - 1);
      NextIsSound(run[i - 1], events[i - 1]);
    }
  }

  // ---- The verdict is final ----

  lemma {:induction false} StatusFrozen(s: System, i: nat, j: nat)
    requires Sound(s) && i <= j < |s.history| && s.history[i].cr.status.phase.IsTerminal()
    ensures s.history[j].cr.status == s.history[i].cr.status
    decreases j
  {
    if i < j {
      StatusFrozen(s, i, j - 1);
      assert Follows(s.history[j - 1], s.history[j - 1 + 1]);
    }
  }

  lemma {:induction false} NextGrows(s: System, e: Event)
    requires Enabled(s, e)
    ensures s.history <= Next(s, e).history && |Next(s, e).history| <= |s.history| + 1
  {
    hide Pass, Counted;
  }

  lemma {:induction false} HistoryGrows(run: seq<System>, events: seq<Event>, i: nat, j: nat)
    requires IsRun(run, events) && i <= j < |run|
    ensures run[i].history <= run[j].history
    decreases j
  {
    hide Next, Enabled, IsRun;
    if i < j {
      HistoryGrows(run, events, i, j - 1);
      RunLength(run, events);
      RunStep(run, events, j - 1);
      NextGrows(run[j - 1], events[j - 1]);
    }
  }

  /** Whatever is read stale, edited or answered, a verdict once stored is never changed:
      not its phase, reason, completion time, nor anything else in the status. */
  lemma {:induction false} VerdictIsFinal(run: seq<System>, events: seq<Event>, i: nat, j: nat)
    requires IsRun(run, events) && i <= j < |run|
    requires run[i].history != [] && run[i].Newest().status.phase.IsTerminal()
    ensures run[j].history != [] && run[j].Newest().status == run[i].Newest().status
  {
    hide Sound, IsRun;
    RunIsSound(run, events, j);
    HistoryGrows(run, events, i, j);
    StatusFrozen(run[j], |run[i].history| - 1, |run[j].history| - 1);
  }

  lemma {:induction false} ClockFrozen(s: System, i: nat, j: nat)
    requires Sound(s) && i <= j < |s.history| && s.history[i].cr.status.startedAt.Some?
    ensures s.history[j].cr.status.startedAt == s.history[i].cr.status.startedAt
    ensures s.history[j].cr.status.expiresAt == s.history[i].cr.status.expiresAt
    decreases j
  {
    if i < j {
      ClockFrozen(s, i, j - 1);
      assert Follows(s.history[j - 1], s.history[j - 1 + 1]);
    }
  }

  /** The clock a run is measured against is stamped once: later edits of the TTL or the
      timeout move neither startedAt nor expiresAt. */
  lemma {:induction false} ClockIsStampedOnce(run: seq<System>, events: seq<Event>, i: nat, j: nat)
    requires IsRun(run, events) && i <= j < |run|
    requires run[i].history != [] && run[i].Newest().status.startedAt.Some?
    ensures run[j].history != []
    ensures run[j].Newest().status.startedAt == run[i].Newest().status.startedAt
    ensures run[j].Newest().status.expiresAt == run[i].Newest().status.expiresAt
  {
    hide Sound, IsRun;
    RunIsSound(run, events, j);
    HistoryGrows(run, events, i, j);
    ClockFrozen(run[j], |run[i].history| - 1, |run[j].history| - 1);
  }

  // ---- What was recorded about a check ----

  lemma {:induction false} ContinuesOn(a: seq<CheckResult>, b: seq<CheckResult>, c: seq<CheckResult>)
    requires Continues(a, b) && Continues(b, c)
    ensures Continues(a, c)
  {
    assert a[..Finishing(a)] <= b[..Finishing(b)];
  }

  lemma {:induction false} FollowsContinues(v: Version, w: Version)
    requires Follows(v, w)
    ensures Continues(v.cr.status.checks, w.cr.status.checks)
  {
  }

  lemma {:induction false} ContinuesItself(checks: seq<CheckResult>)
    ensures Continues(checks, checks)
  {
  }

  lemma {:induction false} HistoryContinues(s: System, i: nat, j: nat)
    requires Sound(s) && i <= j < |s.history|
    ensures Continues(s.history[i].cr.status.checks, s.history[j].cr.status.checks)
    decreases j
  {
    hide Continues, Follows, Sound;
    ContinuesItself(s.history[i].cr.status.checks);
    if i < j {
      HistoryContinues(s, i, j - 1);
      StepsFollow(s, j - 1);
      FollowsContinues(s.history[j - 1], s.history[j]);
      ContinuesOn(s.history[i].cr.status.checks, s.history[j - 1].cr.status.checks, s.history[j].cr.status.checks);
    }
  }

  /** A finished check is never run again nor rewritten, result, reason and dates; an
      unfinished one keeps its start however often it is looked at. */
  lemma {:induction false} FinishedEntriesStand(run: seq<System>, events: seq<Event>, i: nat, j: nat)
    requires IsRun(run, events) && i <= j < |run|
    ensures run[i].history != [] && run[j].history != []
    ensures Continues(run[i].Newest().status.checks, run[j].Newest().status.checks)
  {
    hide Sound, Continues, IsRun;
    RunIsSound(run, events, i);
    RunIsSound(run, events, j);
    HistoryGrows(run, events, i, j);
    SoundNonEmpty(run[i]);
    SoundNonEmpty(run[j]);
    HistoryContinues(run[j], |run[i].history| - 1, |run[j].history| - 1);
  }

  // ---- The end of a resource ----

  predicate Leaving(s: System) { s.gone || (s.history != [] && s.Newest().deleting) }

  lemma {:induction false} SelfDeletes(cr: CR, a: Inputs)
    ensures Pass(cr, a).outcome.DeleteSelf? ==>
      cr.status.phase.IsTerminal() && cr.status.expiresAt.Some? && a.now > cr.status.expiresAt.value + SELF_DELETE_GRACE
  {
    hide ResolveNamespace;
    ResolvingWritesStatus(cr.spec.Defaulted(), cr.status, Late(cr, a), a);
  }

  /** The operator never deletes a check of its own accord before it has a verdict and is a
      day past its expiry, even when it acts on a stale read. */
  lemma {:induction false} NotDeletedEarly(run: seq<System>, events: seq<Event>, i: nat)
    requires IsRun(run, events) && i < |events| && events[i].Reconcile?
    requires !Leaving(run[i]) && Leaving(run[i + 1])
    ensures run[i].history != []
    ensures var st := run[i].Newest().status;
      st.phase.IsTerminal() && st.expiresAt.Some? && events[i].inputs.now > st.expiresAt.value + SELF_DELETE_GRACE
  {
    hide Pass, Sound, Counted;
    var s, e := run[i], events[i];
    assert Enabled(s, e) && run[i + 1] == Next(s, e);
    RunIsSound(run, events, i);
    SoundNonEmpty(s);
    var read := s.history[e.read].cr;
    SelfDeletes(read, e.inputs);
    if read.status.phase.IsTerminal() { StatusFrozen(s, e.read, |s.history| - 1); }
  }

  // ---- Counting ----

  /** No write of the run landed behind the reconciler's back. */
  ghost predicate AllAcknowledged(events: seq<Event>) {
    forall k | 0 <= k < |events| :: events[k].Reconcile? ==> !events[k].write.Unacknowledged?
  }

  lemma {:induction false} AcknowledgedLosesNothing(s: System, e: Event)
    requires Enabled(s, e) && (e.Reconcile? ==> !e.write.Unacknowledged?)
    ensures Next(s, e).lostVerdicts == s.lostVerdicts && Next(s, e).lostChecks == s.lostChecks
  {
    hide Pass, Counted;
  }

  lemma {:induction false} NothingLost(run: seq<System>, events: seq<Event>, i: nat)
    requires IsRun(run, events) && i < |run| && AllAcknowledged(events)
    ensures run[i].lostVerdicts == multiset{} && run[i].lostChecks == multiset{}
    decreases i
  {
    if i > 0 {
      hide Next, Enabled;
      NothingLost(run, events, i - 1);
      assert Enabled(run[i - 1], events[i - 1]) && run[i - 1 + 1] == Next(run[i - 1], events[i - 1]);
      AcknowledgedLosesNothing(run[i - 1], events[i - 1]);
    }
  }

  /** Counters and status agree: what has been counted, plus what landed unseen, is the
      stored verdict and the stored finished checks, each exactly once.  When every
      landed write was acknowledged, nothing is missing. */
  lemma {:induction false} CountedExactlyOnce(run: seq<System>, events: seq<Event>, i: nat)
    requires IsRun(run, events) && i < |run|
    ensures run[i].history != []
    ensures run[i].verdicts + run[i].lostVerdicts == VerdictOf(run[i].Newest().status)
    ensures run[i].checks + run[i].lostChecks == Tally(run[i].Newest().status.checks)
    ensures |run[i].verdicts| <= 1
    ensures AllAcknowledged(events) ==>
      && run[i].verdicts == VerdictOf(run[i].Newest().status)
      && run[i].checks == Tally(run[i].Newest().status.checks)
  {
    RunIsSound(run, events, i);
    assert |run[i].verdicts + run[i].lostVerdicts| <= 1;
    if AllAcknowledged(events) { NothingLost(run, events, i); }
  }

  /** The verdict, and the finished check, of a write that lands unseen in this step. */
  function UnseenVerdict(s: System, e: Event): multiset<(Phase, Reason)>
    requires Enabled(s, e)
  {
    if e.Reconcile? && e.write.Unacknowledged? && Pass(s.history[e.read].cr, e.inputs).outcome.WriteStatus?
    then Counted(Pass(s.history[e.read].cr, e.inputs).outcome.verdict) else multiset{}
  }

  function UnseenCheck(s: System, e: Event): multiset<(CheckName, CheckPhase)>
    requires Enabled(s, e)
  {
    if e.Reconcile? && e.write.Unacknowledged? && Pass(s.history[e.read].cr, e.inputs).outcome.WriteStatus?
    then Counted(Pass(s.history[e.read].cr, e.inputs).outcome.checkDone) else multiset{}
  }

  lemma {:induction false} StepLoses(s: System, e: Event)
    requires Enabled(s, e)
    ensures Next(s, e).lostVerdicts == s.lostVerdicts + UnseenVerdict(s, e)
    ensures Next(s, e).lostChecks == s.lostChecks + UnseenCheck(s, e)
  {
    hide Pass, Counted;
  }

  lemma {:induction false} LostExactly(run: seq<System>, events: seq<Event>, i: nat)
    requires IsRun(run, events) && i < |run|
    ensures |run| == |events| + 1 && forall k | 0 <= k < |events| :: Enabled(run[k], events[k])
    ensures run[i].lostVerdicts == multiset{} <==>
              forall k | 0 <= k < i :: UnseenVerdict(run[k], events[k]) == multiset{}
    ensures run[i].lostChecks == multiset{} <==> forall k | 0 <= k < i :: UnseenCheck(run[k], events[k]) == multiset{}
    decreases i
  {
    hide Next, Enabled, UnseenVerdict, UnseenCheck;
    if i > 0 {
      LostExactly(run, events, i - 1);
      RunStep(run, events, i - 1);
      StepLoses(run[i - 1], events[i - 1]);
    }
  }

  /** The counters are right exactly as long as no write that announced something landed
      unseen: the verdict counter, and the counter of each check, separately. */
  lemma {:induction false} CountersExactlyRight(run: seq<System>, events: seq<Event>, i: nat)
    requires IsRun(run, events) && i < |run|
    ensures |run| == |events| + 1 && run[i].history != [] && forall k | 0 <= k < |events| :: Enabled(run[k], events[k])
    ensures run[i].verdicts == VerdictOf(run[i].Newest().status) <==>
              forall k | 0 <= k < i :: UnseenVerdict(run[k], events[k]) == multiset{}
    ensures run[i].checks == Tally(run[i].Newest().status.checks) <==>
              forall k | 0 <= k < i :: UnseenCheck(run[k], events[k]) == multiset{}
  {
    hide IsRun, Next, Enabled, UnseenVerdict, UnseenCheck, Tally;
    CountedExactlyOnce(run, events, i);
    LostExactly(run, events, i);
    SumIsFirst(run[i].verdicts, run[i].lostVerdicts);
    SumIsFirst(run[i].checks, run[i].lostChecks);
  }

  lemma SumIsFirst<T>(a: multiset<T>, b: multiset<T>)
    ensures a == a + b <==> b == multiset{}
  {
    if a == a + b {
      assert |a| == |a + b| == |a| + |b|;
    }
  }

  // ---- The start of every run ----

  /** A resource just created. */
  function Fresh(spec: Spec): System {
    System([Version(CR(spec, EmptyStatus, false, false), Administrative)], false,
           multiset{}, multiset{}, multiset{}, multiset{})
  }

  /** The first two passes add the finalizer and stamp the clock, whatever they are told. */
  function Guarding(spec: Spec): System {
    Store(Fresh(spec), CR(spec, EmptyStatus, true, false), Administrative)
  }

  function Stamp(spec: Spec, a: Inputs): Status {
    EmptyStatus.(phase := Pending, reason := ReasonPending, startedAt := Some(a.now),
                 expiresAt := Some(a.now + spec.Defaulted().ttlSeconds * SECOND))
  }

  function Stamped(spec: Spec, a: Inputs): System {
    Store(Guarding(spec), CR(spec, Stamp(spec, a), true, false), ByPass(a))
  }

  lemma {:induction false} EveryRunStarts(spec: Spec, a: Inputs)
    ensures Initial(Fresh(spec))
    ensures Enabled(Fresh(spec), Reconcile(0, a, Acknowledged))
         && Next(Fresh(spec), Reconcile(0, a, Acknowledged)) == Guarding(spec)
    ensures Enabled(Guarding(spec), Reconcile(1, a, Acknowledged))
         && Next(Guarding(spec), Reconcile(1, a, Acknowledged)) == Stamped(spec, a)
  {
    hide ResolveNamespace;
    var s := Guarding(spec);
    assert Pass(s.history[0].cr, a).outcome == UpdateFinalizer(true);
    assert Pass(s.history[1].cr, a).outcome == WriteStatus(Stamp(spec, a), None, None);
    assert s.verdicts + multiset{} == s.verdicts && s.checks + multiset{} == s.checks;
  }

  /** The documented count fails: whatever the spec, a run of three passes ends in a
      stored verdict with the counter at nothing, because that write was not acknowledged. */
  lemma {:induction false} VerdictGoesUncounted(spec: Spec, a: Inputs) returns (run: seq<System>, events: seq<Event>)
    ensures IsRun(run, events) && |events| == 3
    ensures run[3].history != [] && run[3].Newest().status.phase.IsTerminal() && run[3].verdicts == multiset{}
  {
    EveryRunStarts(spec, a);
    UncountedStep(spec, a);
    hide Next, Enabled, Initial, Guarding, Stamped, Fresh;
    events := [Reconcile(0, a, Acknowledged), Reconcile(1, a, Acknowledged), Unseen(spec, a)];
    run := [Fresh(spec), Guarding(spec), Stamped(spec, a), Next(Stamped(spec, a), Unseen(spec, a))];
  }

  /** The expiring pass of that run. */
  function Unseen(spec: Spec, a: Inputs): Event {
    Reconcile(2, a.(now := a.now + spec.Defaulted().ttlSeconds * SECOND), Unacknowledged)
  }

  lemma {:induction false} UncountedStep(spec: Spec, a: Inputs)
    ensures var s := Stamped(spec, a);
      && Enabled(s, Unseen(spec, a))
      && var t := Next(s, Unseen(spec, a));
      && t.history != [] && t.Newest().status.phase.IsTerminal() && t.verdicts == multiset{}
  {
    ExpiredPassDecides(Stamped(spec, a).Newest(), Unseen(spec, a).inputs);
    hide Pass, Counted, Spec.Defaulted;
  }

  /** Of two values the rules on a spec compare, one may be absent.  While a check runs an
      image can be added where none was asked for, and that changes what the trivy check
      judges: over the same cluster, where only the new image has a report and that is
      clean, it does not pass before the edit and passes after it. */
  lemma {:induction false} ImageMayAppear(spec: Spec, a: Inputs, artifact: ImageRef.Artifact, c: CheckAnswers)
      returns (run: seq<System>, events: seq<Event>)
    requires spec.image == "" && ImageRef.WellFormed(artifact)
    requires c.reports == ReportsListed([Report(artifact, [])])
    requires c.workloadImage.Some? && !ImageRef.MatchesImage(artifact, c.workloadImage.value)
    ensures IsRun(run, events) && |run| == 4 && forall i | 0 <= i < |run| :: run[i].history != []
    ensures run[2].Newest().spec == spec && run[2].Newest().status.startedAt.Some?
    ensures run[3].Newest().spec == spec.(image := artifact.Render())
    ensures !Passes(CheckTrivy(run[2].Newest().spec.Defaulted(), "", c))
    ensures Passes(CheckTrivy(run[3].Newest().spec.Defaulted(), "", c))
  {
    hide IsRun, CheckTrivy, Spec.Defaulted, ImageRef.MatchesImage, ImageRef.WellFormed;
    ImageDecides(spec, artifact, c);
    run, events := EditedMidRun(spec, a, spec.(image := artifact.Render()));
  }

  /** Every edit that is admitted can come right after the clock was stamped. */
  lemma {:induction false} EditedMidRun(spec: Spec, a: Inputs, to: Spec) returns (run: seq<System>, events: seq<Event>)
    requires spec.MayBecome(to)
    ensures IsRun(run, events) && |run| == 4 && |events| == 3
    ensures forall i | 0 <= i < |run| :: run[i].history != []
    ensures run[2].Newest().spec == spec && run[2].Newest().status.startedAt.Some? && run[3].Newest().spec == to
  {
    EveryRunStarts(spec, a);
    StampedEdit(spec, a, to);
    hide Pass, Next, Enabled, Initial, Fresh, Guarding, Stamped, Spec.Defaulted;
    events := [Reconcile(0, a, Acknowledged), Reconcile(1, a, Acknowledged), EditSpec(to)];
    run := [Fresh(spec), Guarding(spec), Stamped(spec, a), Next(Stamped(spec, a), EditSpec(to))];
  }

  lemma {:induction false} StampedEdit(spec: Spec, a: Inputs, to: Spec)
    requires spec.MayBecome(to)
    ensures Fresh(spec).history != [] && Guarding(spec).history != [] && Stamped(spec, a).history != []
    ensures Stamped(spec, a).Newest().spec == spec && Stamped(spec, a).Newest().status.startedAt.Some?
    ensures Enabled(Stamped(spec, a), EditSpec(to))
    ensures var t := Next(Stamped(spec, a), EditSpec(to)); t.history != [] && t.Newest().spec == to
  {
    hide Spec.Defaulted;
  }

  lemma {:induction false} ImageDecides(spec: Spec, artifact: ImageRef.Artifact, c: CheckAnswers)
    requires spec.image == "" && ImageRef.WellFormed(artifact)
    requires c.reports == ReportsListed([Report(artifact, [])])
    requires c.workloadImage.Some? && !ImageRef.MatchesImage(artifact, c.workloadImage.value)
    ensures !Passes(CheckTrivy(spec.Defaulted(), "", c))
    ensures Passes(CheckTrivy(spec.(image := artifact.Render()).Defaulted(), "", c))
  {
    var to := spec.(image := artifact.Render());
    hide ImageRef.MatchesImage, ImageRef.WellFormed, ImageRef.Artifact.Render, Exploitability.CVEs, Findings,
      CheckTrivy, Spec.Defaulted;
    DefaultedKeepsGiven(spec);
    DefaultedKeepsGiven(to);
    ImageRef.MatchesOwnRendering(artifact);
    ImageRef.MatchIsVisible(artifact, artifact.Render());
    NothingFound(artifact, artifact.Render());
    TrivyPassesExactly(spec.Defaulted(), "", c);
    TrivyPassesExactly(to.Defaulted(), "", c);
  }

  lemma NothingFound(artifact: ImageRef.Artifact, image: string)
    ensures Exploitability.CVEs(Findings([Report(artifact, [])], image)) == []
  {
    hide ImageRef.MatchesImage;
    var reports := [Report(artifact, [])];
    assert reports[..0] == [] && Findings(reports, image) == [];
    assert Exploitability.Distinct([], true) == [];
  }

  // ---- The shape of the check list ----

  /** In every reachable status the recorded checks are a prefix of the selected ones in
      execution order; all but the last are Passed or Skipped; a failed one stands only
      under Failed or Expired; and Passed means that every selected check is recorded as
      Passed, or Skipped for smoke alone. */
  lemma {:induction false} ChecksRunInOrder(run: seq<System>, events: seq<Event>, i: nat)
    requires IsRun(run, events) && i < |run|
    ensures run[i].history != []
    ensures var cr := run[i].Newest(); var names := Names(cr.spec); var checks := cr.status.checks;
      && |checks| <= |names| && (forall k | 0 <= k < |checks| :: checks[k].name == names[k])
      && (forall k | 0 <= k < |checks| - 1 :: checks[k].phase.IsClean())
      && (forall c | c in checks && c.phase.CheckFailed? :: cr.status.phase.Failed? || cr.status.phase.Expired?)
      && (cr.status.phase.Passed? <==>
            && |checks| == |names|
            && forall c | c in checks :: c.phase.CheckPassed? || (c.phase.CheckSkipped? && c.name.Smoke?))
    ensures Names(run[i].Newest().spec) == Names(run[0].Newest().spec)
  {
    hide Sound, IsRun;
    RunIsSound(run, events, i);
    RunIsSound(run, events, 0);
    var s := run[i];
    SoundNonEmpty(s);
    SoundNonEmpty(run[0]);
    StartsAlone(run, events);
    HistoryGrows(run, events, 0, i);
    ImmutableSpec(s, |s.history| - 1);
    GoodNeedsImmutablesOnly(s.Newest().spec, s.history[0].cr.spec, EmptyStatus);
  }

  lemma {:induction false} StartsAlone(run: seq<System>, events: seq<Event>)
    requires IsRun(run, events)
    ensures |run| > 0 && |run[0].history| == 1
  {
  }

  lemma {:induction false} ImmutableSpec(s: System, i: nat)
    requires Sound(s) && i < |s.history|
    ensures s.history[i].cr.spec.Immutable() == s.history[0].cr.spec.Immutable()
    decreases i
  {
    if i > 0 {
      ImmutableSpec(s, i - 1);
      assert Follows(s.history[i - 1], s.history[i - 1 + 1]);
    }
  }

  // ---- Where a verdict comes from ----

  lemma {:induction false} VerdictOrigin(s: System, j: nat) returns (k: nat)
    requires Sound(s) && j < |s.history| && s.history[j].cr.status.phase.IsTerminal()
    requires !s.history[0].cr.status.phase.IsTerminal()
    ensures 0 < k <= j && s.history[k].cause.ByPass? && !s.history[k - 1].cr.status.phase.IsTerminal()
    ensures s.history[k].cr.status == s.history[j].cr.status
    decreases j
  {
    assert Follows(s.history[j - 1], s.history[j - 1 + 1]);
    if s.history[j - 1].cr.status.phase.IsTerminal() { k := VerdictOrigin(s, j - 1); } else { k := j; }
  }

  /** Every reachable verdict is in the table, and some pass of the run, over the version
      stored just before, was given the answers that justify it. */
  lemma {:induction false} VerdictIsJustified(run: seq<System>, events: seq<Event>, i: nat) returns (k: nat)
    requires IsRun(run, events) && i < |run|
    requires run[i].history != [] && run[i].Newest().status.phase.IsTerminal()
    ensures var st := run[i].Newest().status; var h := run[i].history;
      && VerdictTable(st.phase, st.reason)
      && 0 < k < |h| && h[k].cause.ByPass?
      && Pass(h[k - 1].cr, h[k].cause.inputs).outcome.WriteStatus?
      && Pass(h[k - 1].cr, h[k].cause.inputs).outcome.status == st
      && Justified(h[k - 1].cr, h[k].cause.inputs, st)
  {
    hide Pass, Justified, Good, VerdictTable;
    var s := run[i];
    RunIsSound(run, events, i);
    HistoryGrows(run, events, 0, i);
    k := VerdictOrigin(s, |s.history| - 1);
    assert Follows(s.history[k - 1], s.history[k - 1 + 1]) && GoodVersion(s.history[k - 1]);
    VerdictsAreJustified(s.history[k - 1].cr, s.history[k].cause.inputs);
  }

  lemma {:induction false} ByPassUnfolds(s: System, j: nat)
    requires Sound(s) && 0 < j < |s.history|
    ensures s.history[j].cause.Administrative? ==> s.history[j].cr.status == s.history[j - 1].cr.status
    ensures s.history[j].cause.ByPass? ==>
      var o := Pass(s.history[j - 1].cr, s.history[j].cause.inputs).outcome;
      o.WriteStatus? && o.status == s.history[j].cr.status
  {
    hide Pass;
    assert Follows(s.history[j - 1], s.history[j - 1 + 1]);
  }

  /** A recorded namespace was seen by the pass that recorded it. */
  lemma {:induction false} NamespaceOrigin(s: System, j: nat) returns (k: nat)
    requires Sound(s) && j < |s.history| && s.history[j].cr.status.previewNamespace != ""
    requires s.history[0].cr.status == EmptyStatus
    ensures 0 < k <= j && s.history[k].cause.ByPass? && NamespaceFits(s.history[k - 1].cr, s.history[k].cause.inputs)
    decreases j
  {
    hide Pass, Sound, NamespaceFits;
    ByPassUnfolds(s, j);
    if s.history[j - 1].cr.status.previewNamespace == s.history[j].cr.status.previewNamespace {
      k := NamespaceOrigin(s, j - 1);
    } else {
      k := j;
      RecordsWhatItSaw(s.history[j - 1].cr, s.history[j].cause.inputs);
    }
  }

  lemma {:induction false} StartsEmpty(run: seq<System>, events: seq<Event>, i: nat)
    requires IsRun(run, events) && i < |run|
    ensures run[i].history != [] && run[i].history[0].cr.status == EmptyStatus
  {
    HistoryGrows(run, events, 0, i);
  }

  /** A preview is only ever called gone after a pass of this run saw it there. */
  lemma {:induction false} GoneWasThere(run: seq<System>, events: seq<Event>, i: nat) returns (k: nat)
    requires IsRun(run, events) && i < |run| && run[i].history != []
    requires run[i].Newest().status.phase.Failed? && run[i].Newest().status.reason.NamespaceGone?
    ensures var h := run[i].history;
      0 < k < |h| && h[k].cause.ByPass? && NamespaceFits(h[k - 1].cr, h[k].cause.inputs)
  {
    RunIsSound(run, events, i);
    StartsEmpty(run, events, i);
    hide Sound, IsRun, ChecksGood, NamespaceFits, VerdictTable;
    SoundNonEmpty(run[i]);
    k := NamespaceOrigin(run[i], |run[i].history| - 1);
  }

  lemma {:induction false} ClockOrigin(s: System, j: nat) returns (k: nat)
    requires Sound(s) && j < |s.history| && s.history[j].cr.status.startedAt.Some?
    requires s.history[0].cr.status == EmptyStatus
    ensures 0 < k <= j && s.history[k].cause.ByPass? && s.history[k - 1].cr.status.startedAt.None?
    ensures s.history[k].cr.status.startedAt.Some?
    decreases j
  {
    hide Pass, Sound;
    ByPassUnfolds(s, j);
    if s.history[j - 1].cr.status.startedAt.Some? { k := ClockOrigin(s, j - 1); } else { k := j; }
  }

  /** The expiry of every run is the TTL its spec asked for when a pass stamped the start,
      counted from that pass's own clock. */
  lemma {:induction false} ExpiryWasStamped(run: seq<System>, events: seq<Event>, i: nat) returns (k: nat)
    requires IsRun(run, events) && i < |run|
    requires run[i].history != [] && run[i].Newest().status.startedAt.Some?
    ensures var h := run[i].history; var st := run[i].Newest().status;
      && 0 < k < |h| && h[k].cause.ByPass?
      && st.startedAt == Some(h[k].cause.inputs.now)
      && st.expiresAt == Some(h[k].cause.inputs.now + h[k - 1].cr.spec.Defaulted().ttlSeconds * SECOND)
  {
    RunIsSound(run, events, i);
    StartsEmpty(run, events, i);
    hide Sound, IsRun, Pass;
    var s := run[i];
    k := ClockOrigin(s, |s.history| - 1);
    ByPassUnfolds(s, k);
    RecordsWhatItSaw(s.history[k - 1].cr, s.history[k].cause.inputs);
    ClockFrozen(s, k, |s.history| - 1);
  }

  // ---- A verdict in bounded time ----

  /** A pass past the run deadline, with both gating reads answered, whose write landed. */
  predicate LateLanding(s: System, e: Event) {
    Enabled(s, e) && e.Reconcile? && !e.write.Refused? && LatePass(s.Newest(), e.inputs)
  }

  function LateLandings(run: seq<System>, events: seq<Event>, i: nat, j: nat): nat
    requires i <= j <= |events| && j < |run|
    decreases j
  {
    if i == j then 0
    else LateLandings(run, events, i, j - 1) + if LateLanding(run[j - 1], events[j - 1]) then 1 else 0
  }

  /** No step loses a finished check. */
  lemma {:induction false} StepKeepsFinished(s: System, e: Event)
    requires Sound(s) && Enabled(s, e)
    ensures Sound(Next(s, e))
    ensures Finishing(s.Newest().status.checks) <= Finishing(Next(s, e).Newest().status.checks)
  {
    hide Pass, Finishing, Follows, Next, Sound, Enabled;
    NextIsSound(s, e);
    NextGrows(s, e);
    SoundNonEmpty(s);
    var n, t := |s.history|, Next(s, e);
    if |t.history| > n {
      assert t.history[n - 1] == s.history[n - 1];
      StepsFollow(t, n - 1);
      FollowsFinishes(t.history[n - 1], t.history[n]);
    }
  }

  lemma {:induction false} StepsFollow(s: System, i: nat)
    requires Sound(s) && i < |s.history| - 1
    ensures Follows(s.history[i], s.history[i + 1])
  {
  }

  /** A late landing decides, or finishes one more check. */
  lemma {:induction false} LateLandingDecides(s: System, e: Event)
    requires Sound(s) && LateLanding(s, e)
    ensures var t := Next(s, e);
      && t.history != []
      && (t.Newest().status.phase.IsTerminal()
          || Finishing(t.Newest().status.checks) == Finishing(s.Newest().status.checks) + 1)
  {
    SoundNonEmpty(s);
    hide Pass, Good, Finishing, Follows, Sound, Names, Commit, Late, Next;
    LatePassDecides(s.Newest(), e.inputs);
    LandingCommits(s, e);
    CommitStores(s, Pass(s.Newest(), e.inputs).outcome, e.inputs, e.write);
  }

  lemma {:induction false} FollowsFinishes(v: Version, w: Version)
    requires Follows(v, w)
    ensures Finishing(v.cr.status.checks) <= Finishing(w.cr.status.checks)
  {
  }

  /** What one step adds to the finished checks while there is no verdict. */
  lemma {:induction false} LateStep(s: System, e: Event)
    requires Sound(s) && Enabled(s, e)
    ensures s.history != [] && Next(s, e).history != []
    ensures !Next(s, e).Newest().status.phase.IsTerminal() ==>
      Finishing(s.Newest().status.checks) + (if LateLanding(s, e) then 1 else 0)
        <= Finishing(Next(s, e).Newest().status.checks)
  {
    hide Next, Sound, LateLanding, Enabled, Good, Finishing;
    SoundNonEmpty(s);
    StepKeepsFinished(s, e);
    SoundNonEmpty(Next(s, e));
    if LateLanding(s, e) { LateLandingDecides(s, e); }
  }

  lemma {:induction false} LateProgress(run: seq<System>, events: seq<Event>, i: nat, j: nat)
    requires IsRun(run, events) && i <= j < |run|
    requires run[j].history != [] && !run[j].Newest().status.phase.IsTerminal()
    ensures run[i].history != []
    ensures Finishing(run[i].Newest().status.checks) + LateLandings(run, events, i, j)
         <= Finishing(run[j].Newest().status.checks)
    decreases j
  {
    RunLength(run, events);
    if i < j {
      hide Next, Sound, LateLanding, IsRun, Enabled, Good, GoodVersion, Finishing;
      RunIsSound(run, events, j - 1);
      RunStep(run, events, j - 1);
      LateStep(run[j - 1], events[j - 1]);
      if run[j - 1].Newest().status.phase.IsTerminal() { VerdictIsFinal(run, events, j - 1, j); }
      LateProgress(run, events, i, j - 1);
    }
  }

  lemma {:induction false} SoundNonEmpty(s: System)
    requires Sound(s)
    ensures s.history != [] && GoodVersion(s.history[|s.history| - 1])
  {
  }

  /** Once as many passes have landed past the run deadline as there were checks left,
      there is a verdict, whatever else happened in between. */
  lemma {:induction false} VerdictByDeadline(run: seq<System>, events: seq<Event>, i: nat, j: nat)
    requires IsRun(run, events) && i <= j < |run|
    requires run[i].history != []
    requires LateLandings(run, events, i, j) >= Unfinished(run[i].Newest().spec, run[i].Newest().status)
    ensures run[j].history != [] && run[j].Newest().status.phase.IsTerminal()
  {
    hide Sound;
    RunIsSound(run, events, j);
    SoundNonEmpty(run[j]);
    if !run[j].Newest().status.phase.IsTerminal() {
      LateProgress(run, events, i, j);
      ChecksRunInOrder(run, events, i);
      ChecksRunInOrder(run, events, j);
      FinishedExactly(run[j].Newest().spec, run[j].Newest().status);
    }
  }

  /** At or past expiresAt one landed pass gives the verdict, whatever it was answered. */
  lemma {:induction false} VerdictByExpiry(run: seq<System>, events: seq<Event>, i: nat)
    requires IsRun(run, events) && i < |events| && events[i].Reconcile? && !events[i].write.Refused?
    requires Enabled(run[i], events[i])
    requires var cr := run[i].Newest();
      && cr.finalizer && !cr.deleting && cr.status.expiresAt.Some? && events[i].inputs.now >= cr.status.expiresAt.value
    ensures run[i + 1].history != [] && run[i + 1].Newest().status.phase.IsTerminal()
  {
    RunLength(run, events);
    hide Pass, Sound, IsRun, ChecksGood, VerdictTable, Commit, Next, Follows;
    RunIsSound(run, events, i);
    SoundNonEmpty(run[i]);
    RunStep(run, events, i);
    var cr := run[i].Newest();
    if cr.status.phase.IsTerminal() {
      VerdictIsFinal(run, events, i, i + 1);
    } else {
      ExpiredPassDecides(cr, events[i].inputs);
      LandingCommits(run[i], events[i]);
      CommitStores(run[i], Pass(cr, events[i].inputs).outcome, events[i].inputs, events[i].write);
    }
  }
}
