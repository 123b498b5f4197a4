/** The check Jobs of a PreviewCheck live in a namespace its resource does not own.  Runs
    of passes that are interrupted by edits, deletions, reaping, namespaces that come and
    go, and restarts; what holds a Job is the finalizer. */
module PreviewJobs {
  import opened Text
  import opened ApiServer
  import opened PreviewApi
  import opened PreviewChecks
  import opened PreviewPass
  import opened PreviewInvariants
  import opened PreviewVerdicts
  import P = PreviewProtocol
  import K = Kustomization
  import Jobs

  // ---- Teardown ----

  /** A check Job by where it runs and what it checks; the operator's label makes every
      one of them findable from the resource. */
  datatype JobRef = JobRef(namespace: string, check: CheckName)

  datatype ListAnswer = Listed(jobs: seq<JobRef>) | ListUnavailable | ListError

  /** `DeleteMissing` says the Job is not there any more. */
  datatype DeleteAnswer = DeleteLanded | DeleteMissing | DeleteUnavailable | DeleteError(landed: bool)

  function TeardownNamespace(cr: CR): string {
    if cr.status.previewNamespace != "" then cr.status.previewNamespace else PreviewNamespaceName(cr.spec.prNumber)
  }

  /** The Jobs left once those of `jobs` were deleted in order, and whether that ended
      without an error.  The first error stops it. */
  function DeleteJobs(live: set<JobRef>, jobs: seq<JobRef>, answers: seq<DeleteAnswer>): (set<JobRef>, bool)
    requires |answers| == |jobs|
  {
    if jobs == [] then (live, true)
    else
      var rest, last := |jobs| - 1, answers[|jobs| - 1];
      var (left, ok) := DeleteJobs(live, jobs[..rest], answers[..rest]);
      if !ok then (left, false)
      else match last
        case DeleteLanded | DeleteMissing => (left - {jobs[rest]}, true)
        case DeleteUnavailable => (left, true)
        case DeleteError(landed) => (if landed then left - {jobs[rest]} else left, false)
  }

  function Teardown(live: set<JobRef>, list: ListAnswer, answers: seq<DeleteAnswer>): (set<JobRef>, bool)
    requires list.Listed? ==> |answers| == |list.jobs|
  {
    match list
    case ListUnavailable => (live, true)
    case ListError => (live, false)
    case Listed(jobs) => DeleteJobs(live, jobs, answers)
  }

  /** The Jobs the cluster runs for this resource. */
  class Cluster {
    var live: set<JobRef>

    method Delete(job: JobRef, answer: DeleteAnswer)
      modifies this
      ensures live == if answer.DeleteLanded? || answer.DeleteMissing? || (answer.DeleteError? && answer.landed)
                      then old(live) - {job} else old(live)
    {
      match answer {
        case DeleteLanded | DeleteMissing => live := live - {job};
        case DeleteUnavailable =>
        case DeleteError(landed) => if landed { live := live - {job}; }
      }
    }

    method TeardownJobs(list: ListAnswer, answers: seq<DeleteAnswer>) returns (ok: bool)
      requires list.Listed? ==> |answers| == |list.jobs|
      modifies this
      ensures (live, ok) == Teardown(old(live), list, answers)
    {
      if list.ListUnavailable? { return true; }
      if list.ListError? { return false; }
      var jobs := list.jobs;
      for i := 0 to |jobs|
        invariant (live, true) == DeleteJobs(old(live), jobs[..i], answers[..i])
      {
        assert jobs[..i + 1][..i] == jobs[..i] && answers[..i + 1][..i] == answers[..i];
        Delete(jobs[i], answers[i]);
        if answers[i].DeleteError? {
          assert (live, false) == DeleteJobs(old(live), jobs[..i + 1], answers[..i + 1]);
          StoppedStaysStopped(old(live), jobs, answers, i + 1);
          return false;
        }
      }
      assert jobs[..|jobs|] == jobs && answers[..|jobs|] == answers;
      return true;
    }
  }

  /** After an error nothing more is deleted. */
  lemma {:induction false} StoppedStaysStopped(live: set<JobRef>, jobs: seq<JobRef>, answers: seq<DeleteAnswer>, i: nat)
    requires |answers| == |jobs| && i <= |jobs| && !DeleteJobs(live, jobs[..i], answers[..i]).1
    ensures DeleteJobs(live, jobs, answers) == DeleteJobs(live, jobs[..i], answers[..i])
  {
    if i == |jobs| {
      assert jobs[..i] == jobs && answers[..i] == answers;
    } else {
      var n := |jobs| - 1;
      assert jobs[..n][..i] == jobs[..i] && answers[..n][..i] == answers[..i];
      StoppedStaysStopped(live, jobs[..n], answers[..n], i);
    }
  }

  /** A successful teardown deleted everything it listed, save where the namespace was
      already on its way out; it never touches anything else. */
  lemma {:induction false} DeleteJobsExactly(live: set<JobRef>, jobs: seq<JobRef>, answers: seq<DeleteAnswer>)
    requires |answers| == |jobs|
    ensures var (left, ok) := DeleteJobs(live, jobs, answers);
      && left <= live
      && (forall j | j in live && j !in jobs :: j in left)
      && (ok && (forall x | x in answers :: !x.DeleteUnavailable?) ==> left == set j | j in live && j !in jobs)
      && (ok <==> forall x | x in answers :: !x.DeleteError?)
  {
    if jobs != [] {
      var n := |jobs| - 1;
      DeleteJobsExactly(live, jobs[..n], answers[..n]);
      assert jobs == jobs[..n] + [jobs[n]];
      assert answers == answers[..n] + [answers[n]];
    }
  }

  /** A teardown ends well exactly when the namespace is unavailable, or the Jobs could be
      listed and no deletion met an error; a Job or a namespace already going is no error. */
  lemma {:induction false} TornExactly(live: set<JobRef>, list: ListAnswer, answers: seq<DeleteAnswer>)
    requires list.Listed? ==> |answers| == |list.jobs|
    ensures Teardown(live, list, answers).1 <==>
      list.ListUnavailable? || (list.Listed? && forall x | x in answers :: !x.DeleteError?)
  {
    hide DeleteJobs;
    if list.Listed? { DeleteJobsExactly(live, list.jobs, answers); }
  }

  // ---- Runs ----

  /** A namespace that exists, one being deleted, and none. */
  datatype NamespaceState = NsLive | NsGoing | NsGone

  /** A pass: what it read, then what it was answered, then its write. */
  datatype Flight = Idle | Began(read: nat) | Acted(read: nat, inputs: Inputs)

  datatype World = World(store: P.System, flight: Flight, live: set<JobRef>, namespace: NamespaceState)

  datatype Event =
    | Administer(change: P.Event)
    | Reap(job: JobRef)
    | NamespaceMoves
    | Begin(read: nat)
    | Act(inputs: Inputs, made: bool, list: ListAnswer, deletes: seq<DeleteAnswer>)
    | Commit(write: WriteAnswer)
    | Restart

  predicate TearsDown(cr: CR) { cr.deleting && cr.finalizer }

  /** Unavailable is only ever said of a namespace that is gone or going, and the list
      names exactly the live Jobs of the namespace asked for. */
  ghost predicate Truthful(w: World, cr: CR, e: Event)
    requires e.Act?
  {
    && (e.list.Listed? ==>
          && |e.deletes| == |e.list.jobs|
          && forall j :: j in e.list.jobs <==> j in w.live && j.namespace == TeardownNamespace(cr))
    && (e.list.ListUnavailable? ==> !w.namespace.NsLive?)
    && (e.list.Listed? && (exists x | x in e.deletes :: x.DeleteUnavailable?) ==> !w.namespace.NsLive?)
    && e.inputs.teardownOk == Teardown(w.live, e.list, e.deletes).1
  }

  ghost predicate Enabled(w: World, e: Event) {
    match e
    case Administer(change) => !change.Reconcile? && P.Enabled(w.store, change)
    case Reap(_) | NamespaceMoves | Restart => true
    case Begin(read) => w.flight.Idle? && read < |w.store.history|
    case Act(inputs, made, _, _) =>
      w.flight.Began? && w.flight.read < |w.store.history| &&
      var cr := w.store.history[w.flight.read].cr;
      && (TearsDown(cr) ==> Truthful(w, cr, e))
      && (made ==> Pass(cr, inputs).requested.Some? && w.namespace.NsLive?)
    case Commit(write) =>
      w.flight.Acted? && P.Enabled(w.store, P.Reconcile(w.flight.read, w.flight.inputs, write))
  }

  function Made(cr: CR, inputs: Inputs, made: bool): set<JobRef> {
    if made && Pass(cr, inputs).requested.Some?
    then {JobRef(PreviewNamespaceName(cr.spec.prNumber), Pass(cr, inputs).requested.value)} else {}
  }

  ghost function Next(w: World, e: Event): World
    requires Enabled(w, e)
  {
    match e
    case Administer(change) => w.(store := P.Next(w.store, change))
    case Reap(job) => w.(live := w.live - {job})
    case NamespaceMoves =>
      (match w.namespace
       case NsLive => w.(namespace := NsGoing)
       case NsGoing => w.(namespace := NsGone, live := {})
       case NsGone => w.(namespace := NsLive))
    case Begin(read) => w.(flight := Began(read))
    case Act(inputs, made, list, deletes) =>
      var cr := w.store.history[w.flight.read].cr;
      var live := if TearsDown(cr) then Teardown(w.live, list, deletes).0 else w.live + Made(cr, inputs, made);
      w.(flight := Acted(w.flight.read, inputs), live := live)
    case Commit(write) =>
      w.(store := P.Next(w.store, P.Reconcile(w.flight.read, w.flight.inputs, write)), flight := Idle)
    case Restart => w.(flight := Idle)
  }

  /** Every pass starts from the newest version of a resource that exists. */
  predicate ReadsNewest(w: World, e: Event) {
    e.Begin? ==> e.read == |w.store.history| - 1 && !w.store.gone
  }

  ghost predicate IsRun(run: seq<World>, events: seq<Event>) {
    && |run| == |events| + 1
    && P.Initial(run[0].store) && run[0].flight.Idle? && run[0].live == {}
    && forall i | 0 <= i < |events| :: Enabled(run[i], events[i]) && run[i + 1] == Next(run[i], events[i])
  }

  ghost predicate FreshReads(run: seq<World>, events: seq<Event>)
    requires |run| == |events| + 1
  {
    forall i | 0 <= i < |events| :: ReadsNewest(run[i], events[i])
  }

  // ---- What stays true ----

  /** A Job of a namespace in use is held by a stored finalizer, and can be found again. */
  ghost predicate Held(w: World) {
    && w.store.history != []
    && (w.live != {} && w.namespace.NsLive? ==> !w.store.gone && w.store.Newest().finalizer)
    && (w.namespace.NsGone? ==> w.live == {})
    && forall j | j in w.live :: j.namespace == PreviewNamespaceName(w.store.Newest().spec.prNumber)
  }

  /** The version a pass in flight works from exists; one that tore down left nothing. */
  ghost predicate FlightSound(w: World) {
    !w.flight.Idle? ==>
      && w.flight.read < |w.store.history|
      && (w.flight.Acted? && TearsDown(w.store.history[w.flight.read].cr) && w.flight.inputs.teardownOk ==>
            w.live == {} || w.namespace.NsGoing?)
  }

  ghost predicate Sound(w: World) {
    P.Sound(w.store) && Held(w) && FlightSound(w)
  }

  /** A Job creation lands although the resource is gone. */
  predicate LateJob(w: World, e: Event) { e.Act? && e.made && w.store.gone }

  /** Later versions keep the finalizer, the deletion mark and the pull request. */
  lemma {:induction false} VersionsKeep(s: P.System, i: nat, j: nat)
    requires P.Sound(s) && i <= j < |s.history|
    ensures s.history[i].cr.finalizer ==> s.history[j].cr.finalizer
    ensures s.history[i].cr.deleting ==> s.history[j].cr.deleting
    ensures s.history[i].cr.spec.Immutable() == s.history[j].cr.spec.Immutable()
    decreases j
  {
    if i < j {
      VersionsKeep(s, i, j - 1);
      P.StepsFollow(s, j - 1);
    }
  }

  lemma {:induction false} KnowsItsNamespace(s: P.System, i: nat)
    requires P.Sound(s) && i < |s.history|
    ensures TeardownNamespace(s.history[i].cr) == PreviewNamespaceName(s.Newest().spec.prNumber)
  {
    hide P.Sound;
    VersionsKeep(s, i, |s.history| - 1);
    VersionMeta(s, i);
  }

  lemma {:induction false} VersionMeta(s: P.System, i: nat)
    requires P.Sound(s) && i < |s.history|
    ensures MetaGood(s.history[i].cr.spec, s.history[i].cr.status)
  {
    assert P.GoodVersion(s.history[i]);
  }

  /** What a store step does to the parts the Jobs depend on. */
  lemma {:induction false} StoreStep(s: P.System, e: P.Event)
    requires P.Sound(s) && P.Enabled(s, e)
    ensures var t := P.Next(s, e);
      && P.Sound(t) && s.history <= t.history
      && (s.Newest().finalizer ==> t.Newest().finalizer)
      && t.Newest().spec.prNumber == s.Newest().spec.prNumber
      && (s.gone ==> t.gone)
  {
    hide Pass, P.Sound, P.Next;
    P.NextIsSound(s, e);
    P.NextGrows(s, e);
    P.SoundNonEmpty(s);
    VersionsKeep(P.Next(s, e), |s.history| - 1, |P.Next(s, e).history| - 1);
    GoneStays(s, e);
  }

  lemma {:induction false} GoneStays(s: P.System, e: P.Event)
    requires P.Enabled(s, e)
    ensures s.gone ==> P.Next(s, e).gone
  {
    hide Pass, Counted;
  }

  /** The resource goes only when nothing holds it, or when a pass that tore down
      successfully removes the finalizer. */
  lemma {:induction false} GoesOnly(s: P.System, e: P.Event)
    requires P.Sound(s) && P.Enabled(s, e) && !s.gone && P.Next(s, e).gone
    ensures s.Newest().finalizer ==>
      && e.Reconcile? && e.read == |s.history| - 1
      && TearsDown(s.Newest()) && e.inputs.teardownOk
  {
    hide Pass, P.Sound, Counted;
    if e.Reconcile? { P.FinalizerAsked(s.history[e.read].cr, e.inputs); }
  }

  lemma {:induction false} TeardownEmpties(w: World, e: Event)
    requires Sound(w) && Enabled(w, e) && e.Act? && TearsDown(w.store.history[w.flight.read].cr)
    ensures var (left, ok) := Teardown(w.live, e.list, e.deletes);
      left <= w.live && (ok ==> left == {} || !w.namespace.NsLive?)
  {
    hide P.Sound;
    KnowsItsNamespace(w.store, w.flight.read);
    if e.list.Listed? {
      DeleteJobsExactly(w.live, e.list.jobs, e.deletes);
    }
  }

  lemma {:induction false} AskedWhileHeld(cr: CR, a: Inputs)
    ensures Pass(cr, a).requested.Some? ==> Guarded(cr, a) && cr.finalizer && !cr.deleting
  {
    hide Pass, K.KustomizationSettled;
    ChecksMoveOnlyGuarded(cr, a);
  }

  lemma {:induction false} TeardownActIsSound(w: World, e: Event)
    requires Sound(w) && Enabled(w, e) && e.Act? && TearsDown(w.store.history[w.flight.read].cr)
    ensures Sound(Next(w, e))
  {
    hide P.Sound, Truthful, Teardown, Pass;
    var cr := w.store.history[w.flight.read].cr;
    TeardownEmpties(w, e);
    TruthfulOk(w, cr, e);
  }

  lemma {:induction false} CheckActIsSound(w: World, e: Event)
    requires Sound(w) && Enabled(w, e) && e.Act? && !TearsDown(w.store.history[w.flight.read].cr) && !LateJob(w, e)
    ensures Sound(Next(w, e))
  {
    var cr := w.store.history[w.flight.read].cr;
    VersionsKeep(w.store, w.flight.read, |w.store.history| - 1);
    AskedWhileHeld(cr, e.inputs);
    ChecksAct(w, e);
    CheckActHolds(w, e);
    hide P.Sound, Pass, Guarded, Held, Next, Enabled, Made;
  }

  lemma {:induction false} CheckActHolds(w: World, e: Event)
    requires Held(w) && Enabled(w, e) && e.Act? && !TearsDown(w.store.history[w.flight.read].cr) && !LateJob(w, e)
    requires w.store.history[w.flight.read].cr.finalizer ==> w.store.Newest().finalizer
    requires w.store.Newest().spec.prNumber == w.store.history[w.flight.read].cr.spec.prNumber
    ensures Held(Next(w, e))
  {
    var cr := w.store.history[w.flight.read].cr;
    AskedWhileHeld(cr, e.inputs);
    ChecksAct(w, e);
    hide Truthful, Teardown, Pass, Guarded, PreviewNamespaceName, Next;
  }

  /** What a pass that tears nothing down does to the world. */
  lemma {:induction false} ChecksAct(w: World, e: Event)
    requires Enabled(w, e) && e.Act? && !TearsDown(w.store.history[w.flight.read].cr)
    ensures Next(w, e) == w.(flight := Acted(w.flight.read, e.inputs),
                             live := w.live + Made(w.store.history[w.flight.read].cr, e.inputs, e.made))
  {
    hide Pass, Truthful, Teardown, Made;
  }

  lemma {:induction false} TruthfulOk(w: World, cr: CR, e: Event)
    requires e.Act? && Truthful(w, cr, e)
    ensures e.list.Listed? ==> |e.deletes| == |e.list.jobs|
    ensures e.inputs.teardownOk == Teardown(w.live, e.list, e.deletes).1
  {
  }

  lemma {:induction false} StoreStepIsSound(w: World, e: Event)
    requires Sound(w) && Enabled(w, e) && (e.Administer? || e.Commit?)
    ensures Sound(Next(w, e))
  {
    hide P.Sound, P.Next, P.Enabled, Pass, Teardown;
    P.SoundNonEmpty(w.store);
    var change := if e.Administer? then e.change else P.Reconcile(w.flight.read, w.flight.inputs, e.write);
    StoreStep(w.store, change);
    if !w.store.gone && P.Next(w.store, change).gone { GoesOnly(w.store, change); }
    if !w.flight.Idle? { VersionsKeep(w.store, w.flight.read, |w.store.history| - 1); }
  }

  lemma {:induction false} BeginIsSound(w: World, e: Event)
    requires Sound(w) && Enabled(w, e) && e.Begin?
    ensures Sound(Next(w, e))
  {
    hide P.Sound;
  }

  lemma {:induction false} StepIsSound(w: World, e: Event)
    requires Sound(w) && Enabled(w, e) && !LateJob(w, e)
    ensures Sound(Next(w, e))
  {
    hide P.Sound, P.Next, P.Enabled, Pass, Truthful, Teardown;
    match e {
      case Administer(_) => StoreStepIsSound(w, e);
      case Commit(_) => StoreStepIsSound(w, e);
      case Act(_, _, _, _) =>
        if TearsDown(w.store.history[w.flight.read].cr) { TeardownActIsSound(w, e); } else { CheckActIsSound(w, e); }
      case Begin(_) => BeginIsSound(w, e);
      case Reap(_) | NamespaceMoves | Restart =>
    }
  }

  lemma {:induction false} RunStep(run: seq<World>, events: seq<Event>, i: nat)
    requires IsRun(run, events) && i < |events|
    ensures |run| == |events| + 1
    ensures Enabled(run[i], events[i]) && run[i + 1] == Next(run[i], events[i])
  {
    hide Enabled, Next, P.Initial;
  }

  lemma {:induction false} InitialIsSound(w: World)
    requires P.Initial(w.store) && w.flight.Idle? && w.live == {}
    ensures Sound(w)
  {
    P.InitialIsSound(w.store);
    hide P.Sound, P.Initial;
    P.SoundNonEmpty(w.store);
  }

  /** As long as no Job creation lands late, everything above holds. */
  lemma {:induction false} RunIsSound(run: seq<World>, events: seq<Event>, i: nat)
    requires IsRun(run, events) && i < |run| == |events| + 1
    requires forall k | 0 <= k < i :: !LateJob(run[k], events[k])
    ensures Sound(run[i])
    decreases i
  {
    hide Sound, Next, Enabled, LateJob, P.Initial;
    if i == 0 {
      InitialIsSound(run[0]);
    } else {
      RunIsSound(run, events, i - 1);
      RunStep(run, events, i - 1);
      StepIsSound(run[i - 1], events[i - 1]);
    }
  }

  // ---- Fresh reads are never late ----

  /** A pass in flight works from a version that holds on to a resource still stored. */
  ghost predicate FreshFlight(w: World) {
    && P.Sound(w.store)
    && (!w.flight.Idle? ==>
          && w.flight.read < |w.store.history|
          && (w.store.history[w.flight.read].cr.finalizer ==> !w.store.gone))
  }

  lemma {:induction false} FreshStep(w: World, e: Event)
    requires FreshFlight(w) && Enabled(w, e) && ReadsNewest(w, e)
    ensures FreshFlight(Next(w, e)) && !LateJob(w, e)
  {
    hide P.Sound, P.Next, P.Enabled, Pass, Truthful, Teardown;
    if e.Administer? || e.Commit? {
      P.SoundNonEmpty(w.store);
      var change := if e.Administer? then e.change else P.Reconcile(w.flight.read, w.flight.inputs, e.write);
      StoreStep(w.store, change);
      if !w.store.gone && P.Next(w.store, change).gone { GoesOnly(w.store, change); }
      if !w.flight.Idle? { VersionsKeep(w.store, w.flight.read, |w.store.history| - 1); }
    } else if e.Act? {
      AskedWhileHeld(w.store.history[w.flight.read].cr, e.inputs);
    }
  }

  lemma {:induction false} FreshRun(run: seq<World>, events: seq<Event>, i: nat)
    requires IsRun(run, events) && i < |run| == |events| + 1 && FreshReads(run, events)
    ensures FreshFlight(run[i]) && forall k | 0 <= k < i :: !LateJob(run[k], events[k])
    decreases i
  {
    hide FreshFlight, Next, Enabled, LateJob, ReadsNewest, P.Initial;
    if i == 0 {
      InitialIsSound(run[0]);
      SoundIsFresh(run[0]);
    } else {
      FreshRun(run, events, i - 1);
      RunStep(run, events, i - 1);
      assert ReadsNewest(run[i - 1], events[i - 1]);
      FreshStep(run[i - 1], events[i - 1]);
    }
  }

  lemma {:induction false} SoundIsFresh(w: World)
    requires Sound(w) && w.flight.Idle?
    ensures FreshFlight(w)
  {
    hide P.Sound;
  }

  // ---- No Job is left behind ----

  /** While passes read the newest version, a live check Job in a namespace that is not
      being deleted always finds its resource stored, finalizer in place; whatever edits,
      deletions, conflicts, reaping and restarts come in between. */
  lemma {:induction false} JobsAreHeld(run: seq<World>, events: seq<Event>, i: nat)
    requires IsRun(run, events) && FreshReads(run, events) && i < |run|
    requires run[i].live != {} && run[i].namespace.NsLive?
    ensures !run[i].store.gone && run[i].store.history != [] && run[i].store.Newest().finalizer
    ensures forall j | j in run[i].live :: j.namespace == TeardownNamespace(run[i].store.Newest())
  {
    RunLength(run, events);
    hide P.Sound, FreshFlight, IsRun, FreshReads, LateJob;
    FreshRun(run, events, i);
    RunIsSound(run, events, i);
    P.SoundNonEmpty(run[i].store);
    KnowsItsNamespace(run[i].store, |run[i].store.history| - 1);
  }

  /** Whatever versions passes read, every Job of the run stays held exactly as long as no
      Job creation lands after the resource is gone: stale reads, conflicts and restarts
      do no other harm. */
  lemma {:induction false} JobsHeldExactly(run: seq<World>, events: seq<Event>)
    requires IsRun(run, events)
    ensures |run| == |events| + 1
    ensures (forall i | 0 <= i < |run| :: Held(run[i])) <==> forall i | 0 <= i < |events| :: !LateJob(run[i], events[i])
  {
    RunLength(run, events);
    hide IsRun, Held, LateJob, P.Sound;
    if forall i | 0 <= i < |events| :: !LateJob(run[i], events[i]) {
      forall i | 0 <= i < |run| ensures Held(run[i]) { RunIsSound(run, events, i); }
    } else {
      var i :| 0 <= i < |events| && LateJob(run[i], events[i]);
      RunStep(run, events, i);
      LateJobIsNotHeld(run[i], events[i]);
    }
  }

  lemma RunLength(run: seq<World>, events: seq<Event>)
    requires IsRun(run, events)
    ensures |run| == |events| + 1
  {
  }

  lemma {:induction false} LateJobIsNotHeld(w: World, e: Event)
    requires Enabled(w, e) && LateJob(w, e)
    ensures !Held(Next(w, e))
  {
    var cr := w.store.history[w.flight.read].cr;
    hide Pass, Truthful, Teardown;
    AskedWhileHeld(cr, e.inputs);
    var job := JobRef(PreviewNamespaceName(cr.spec.prNumber), Pass(cr, e.inputs).requested.value);
    assert job in Next(w, e).live;
  }

  /** The resource disappears only after its last Job did, or with the whole namespace. */
  lemma {:induction false} GoesAfterItsJobs(run: seq<World>, events: seq<Event>, i: nat)
    requires IsRun(run, events) && FreshReads(run, events) && i < |events|
    requires !run[i].store.gone && run[i + 1].store.gone
    ensures run[i + 1].live == {} || !run[i + 1].namespace.NsLive?
  {
    RunLength(run, events);
    hide P.Sound, FreshFlight, IsRun, FreshReads, LateJob;
    FreshRun(run, events, i + 1);
    RunIsSound(run, events, i + 1);
  }

  /** A Job appears only through a pass that read a stored version with the finalizer and
      saw the labelled namespace and the open gate, and only for a check it selects. */
  lemma {:induction false} JobsAppearGuarded(run: seq<World>, events: seq<Event>, i: nat, job: JobRef)
    requires IsRun(run, events) && i < |events|
    requires job in run[i + 1].live && job !in run[i].live
    ensures events[i].Act? && run[i].flight.Began? && run[i].flight.read < |run[i].store.history|
    ensures var cr := run[i].store.history[run[i].flight.read].cr;
      && Guarded(cr, events[i].inputs)
      && job == JobRef(PreviewNamespaceName(cr.spec.prNumber), Pass(cr, events[i].inputs).requested.value)
  {
    var w, e := run[i], events[i];
    hide Pass, P.Next, P.Enabled, Guarded;
    assert Enabled(w, e) && run[i + 1] == Next(w, e);
    if e.Act? {
      var cr := w.store.history[w.flight.read].cr;
      AskedWhileHeld(cr, e.inputs);
      if TearsDown(cr) && e.list.Listed? { DeleteJobsExactly(w.live, e.list.jobs, e.deletes); }
    }
  }

  // ---- Why the reads must be of the newest version ----

  const LeakSpec := Spec(7, "", "", "", [Http], "", [], 0, 0, None, None)
  const LeakKs := K.KsObject(false, map[K.CREDENTIALS_PATCHED := "true"], [], true, false, 1, 1,
                             Some(K.ReadyCondition(1, K.ConditionTrue)), "")
  const LeakAnswers := CheckAnswers(
    WorkloadsListed(true), TargetFound, Jobs.Missing, Jobs.Made, None, None, ReportsListed([]), NoEnricher, SmokeAbsent)
  const LeakInputs := Inputs(0, 0, NsFound(true, "shop"), KsFound(LeakKs), LeakAnswers, true)

  lemma {:induction false} LeakSelects()
    ensures OrderedChecks([Http]) == [Http]
  {
    var names := OrderedChecks([Http]);
    OrderedChecksExactly([Http]);
    assert names[0] in names && forall i | 0 <= i < |names| :: names[i] in names;
    assert Rank(names[0]) == Rank(names[|names| - 1]);
  }

  /** The stamped version of LeakSpec asks for a Job. */
  lemma {:induction false} LeakAdvances()
    ensures Pass(CR(LeakSpec, P.Stamp(LeakSpec, LeakInputs), true, false), LeakInputs).requested == Some(Http)
  {
    LeakSelects();
    assert FirstUnfinished([Http], []) == Some(Http);
    assert K.KustomizationSettled(LeakKs, "").Settled?;
  }

  /** One more event. */
  lemma {:induction false} Extend(run: seq<World>, events: seq<Event>, e: Event)
      returns (run': seq<World>, events': seq<Event>)
    requires IsRun(run, events) && |run| == |events| + 1 && Enabled(run[|run| - 1], e)
    ensures IsRun(run', events') && events' == events + [e] && |run'| == |events'| + 1
    ensures run' == run + [Next(run[|run| - 1], e)]
  {
    hide Enabled, Next, P.Initial;
    events' := events + [e];
    run' := run + [Next(run[|run| - 1], e)];
  }

  /** A whole pass that creates no Job. */
  lemma {:induction false} ExtendByPass(
      run: seq<World>, events: seq<Event>, read: nat, inputs: Inputs, list: ListAnswer)
      returns (run': seq<World>, events': seq<Event>)
    requires IsRun(run, events) && |run| == |events| + 1
    requires var w := run[|run| - 1];
      && w.flight.Idle? && w.live == {} && read == |w.store.history| - 1 && !w.store.gone
      && list == Listed([]) && inputs.teardownOk
    ensures IsRun(run', events') && |run'| == |events'| + 1
    ensures var w := run[|run| - 1];
      && P.Enabled(w.store, P.Reconcile(read, inputs, Acknowledged))
      && run'[|run'| - 1] == w.(store := P.Next(w.store, P.Reconcile(read, inputs, Acknowledged)))
  {
    var w := run[|run| - 1];
    run', events' := Extend(run, events, Begin(read));
    var w1 := w.(flight := Began(read));
    var act := Act(inputs, false, list, []);
    assert Teardown({}, list, []) == ({}, true);
    hide Pass, P.Next, IsRun;
    run', events' := Extend(run', events', act);
    assert Next(w1, act) == w.(flight := Acted(read, inputs));
    run', events' := Extend(run', events', Commit(Acknowledged));
  }

  /** The store of that run: created, guarded, stamped, marked for deletion, gone. */
  const LeakStamped := P.Stamped(LeakSpec, LeakInputs)
  const LeakDeleting := P.Store(LeakStamped, LeakStamped.Newest().(deleting := true), P.Administrative)

  lemma {:induction false} LeakStores()
    ensures P.Enabled(LeakStamped, P.RequestDeletion) && P.Next(LeakStamped, P.RequestDeletion) == LeakDeleting
    ensures var teardown := P.Reconcile(3, LeakInputs, Acknowledged);
      && P.Enabled(LeakDeleting, teardown) && P.Next(LeakDeleting, teardown) == LeakDeleting.(gone := true)
    ensures |LeakStamped.history| == 3 && !LeakStamped.gone && |LeakDeleting.history| == 4 && !LeakDeleting.gone
    ensures LeakDeleting.history[2].cr == CR(LeakSpec, P.Stamp(LeakSpec, LeakInputs), true, false)
  {
    assert Pass(LeakDeleting.history[3].cr, LeakInputs).outcome == UpdateFinalizer(false);
    hide Pass, P.Stamp;
  }

  /** The hold is not unconditional.  A resource is created, guarded, stamped, deleted and
      torn down; then a pass that still reads the stamped version creates a Job, which is
      live without the resource it belongs to. */
  lemma {:induction false} StaleReadLeaks() returns (run: seq<World>, events: seq<Event>)
    ensures IsRun(run, events) && |run| == |events| + 1
    ensures var w := run[|run| - 1];
      w.store.gone && w.namespace.NsLive? && w.live == {JobRef("preview-pr-7", Http)}
  {
    P.EveryRunStarts(LeakSpec, LeakInputs);
    LeakStores();
    var w0 := World(P.Fresh(LeakSpec), Idle, {}, NsLive);
    run, events := [w0], [];
    assert IsRun(run, events);
    assert |P.Fresh(LeakSpec).history| == 1 && |P.Guarding(LeakSpec).history| == 2;
    hide Pass, P.Next, P.Initial, P.Stamp, P.Enabled, P.Fresh, P.Guarding, P.Stamped, P.Store, IsRun;
    run, events := ExtendByPass(run, events, 0, LeakInputs, Listed([]));
    run, events := ExtendByPass(run, events, 1, LeakInputs, Listed([]));
    run, events := Extend(run, events, Administer(P.RequestDeletion));
    run, events := ExtendByPass(run, events, 3, LeakInputs, Listed([]));
    run, events := LeakLate(run, events);
  }

  /** The stale pass at the end of it. */
  lemma {:induction false} LeakLate(run: seq<World>, events: seq<Event>) returns (run': seq<World>, events': seq<Event>)
    requires IsRun(run, events) && |run| == |events| + 1
    requires run[|run| - 1] == World(LeakDeleting.(gone := true), Idle, {}, NsLive)
    ensures IsRun(run', events') && |run'| == |events'| + 1
    ensures var w := run'[|run'| - 1];
      w.store.gone && w.namespace.NsLive? && w.live == {JobRef("preview-pr-7", Http)}
  {
    LeakStores();
    LeakAdvances();
    assert PreviewNamespaceName(7) == "preview-pr-7" by { assert Decimal(7) == "7"; }
    hide Pass, P.Next, P.Stamp, P.Stamped, P.Store, IsRun, Truthful, Teardown;
    run', events' := Extend(run, events, Begin(2));
    run', events' := Extend(run', events', Act(LeakInputs, true, ListError, []));
  }
}
