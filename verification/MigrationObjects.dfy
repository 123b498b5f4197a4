/** The objects a MigrationCheck creates, and the ones its teardown deletes. */
module MigrationObjects {
  import opened Text
  import opened ApiServer
  import opened MigrationApi
  import opened MigrationClone
  import opened MigrationPass
  import opened MigrationInvariants
  import opened MigrationProtocol
  import opened MigrationRuns
  import Jobs
  import LogDetail

  /** Dies with the clone's namespace. */
  predicate InsideClone(spec: Spec, o: Obj) {
    (o.SnapshotObj? || o.ClusterObj?) && o.namespace == CloneNamespace(spec)
  }

  /** Carries the owner reference by which the API server collects it. */
  predicate Owned(spec: Spec, o: Obj) { o == SecretObj(spec.namespace, SecretName(spec)) }

  /** A snapshot that checks share, or the Backup it came from. */
  ghost predicate SharedWarm(o: Obj) {
    (o.SnapshotObj? || o.BackupObj?) && exists cluster :: o.name == WarmName(cluster)
  }

  /** What a teardown deletes by name. */
  predicate Targeted(spec: Spec, o: Obj) {
    || o == NamespaceObj(CloneNamespace(spec))
    || o == ContentObj(ContentName(spec))
    || (spec.probe.Some? && o == JobObj(spec.namespace, ProbeJobName(spec)))
  }

  ghost predicate Accounted(spec: Spec, o: Obj) {
    Targeted(spec, o) || Owned(spec, o) || InsideClone(spec, o) || SharedWarm(o)
  }

  lemma {:induction false} CloneIsAccounted(spec: Spec, source: (string, string), a: CloneAnswers)
    ensures forall o | o in Clone(RequestFor(spec, source), a).created :: Accounted(spec, o)
  {
    var c := RequestFor(spec, source);
    CloneCreatesOnly(c, a);
    assert SourceName(c) == WarmName(source.0);
    assert SharedWarm(SnapshotObj(source.1, WarmName(source.0))) && SharedWarm(BackupObj(source.1, WarmName(source.0)));
    hide Clone, CloneNamespace, CloneName, ContentName, WarmName;
  }

  lemma {:induction false} StoringCreatesNothing(spec: Spec, w: Work, st: Status, a: Inputs)
    ensures PublishReport(spec, w, a).created == w.created
    ensures Store(w, st, a).created == StoreAndReport(spec, w, st, a).created == w.created
  {
  }

  lemma {:induction false} FinishCreatesNothing(
      spec: Spec, w: Work, phase: Phase, reason: Reason, message: string, a: Inputs)
    ensures Finish(spec, w, phase, reason, message, a).created == w.created
  {
    hide StoreAndReport;
    StoringCreatesNothing(spec, w, Finished(w.status, phase, reason, message, a), a);
  }

  lemma {:induction false} ProvisionIsAccounted(spec: Spec, w: Work, a: Inputs)
    requires w.created == {}
    ensures forall o | o in Provision(spec, w, a).created :: Accounted(spec, o)
  {
    hide Finish, StoreAndReport, Clone, RequestFor, Accounted, Deadline, CloneNamespace;
    var w1 := w.(status := w.status.(
      startedAt := if w.status.startedAt.None? then Some(a.clock.test) else w.status.startedAt));
    var phase := if spec.probe.Some? then Expired else Failed;
    FinishCreatesNothing(spec, w1, phase, CloneFailed, a.headline, a);
    var source := ResolveSource(spec, a.prod);
    assert Accounted(spec, NamespaceObj(CloneNamespace(spec))) by { NamespaceIsAccounted(spec); }
    if source.Some? {
      CloneIsAccounted(spec, source.value, a.clone);
      var w2 := w1.(created := w1.created + {NamespaceObj(CloneNamespace(spec))});
      var w3 := w2.(created := w2.created + Clone(RequestFor(spec, source.value), a.clone).created);
      FinishCreatesNothing(spec, w3, phase, CloneFailed, a.headline, a);
      StoringCreatesNothing(spec, w3, w3.status.(
            phase := Provisioning, reason := CloneProvisioning, message := "clone provisioning",
            cloneNamespace := CloneNamespace(spec), expiresAt := Some(Deadline(spec))), a);
    }
  }

  lemma {:induction false} NamespaceIsAccounted(spec: Spec)
    ensures Accounted(spec, NamespaceObj(CloneNamespace(spec)))
  {
  }

  lemma {:induction false} ReadyIsAccounted(spec: Spec, w: Work, a: Inputs)
    requires w.created == {}
    ensures forall o | o in CheckReady(spec, w, a).created :: Accounted(spec, o)
  {
    hide Finish, Store, CloneState, SharedWarm, InsideClone, Targeted, ReadyDeadlinePassed;
    FinishCreatesNothing(spec, w, Expired, CloneNotReady, a.headline, a);
    var w1 := w.(created := w.created + {SecretObj(spec.namespace, SecretName(spec))});
    StoringCreatesNothing(spec, w1, w1.status.(phase := Ready, reason := CloneReady, message := "clone ready",
                                               connectionSecret := SecretName(spec)), a);
  }

  lemma {:induction false} StartIsAccounted(spec: Spec, w: Work, a: Inputs)
    requires w.created == {} && spec.probe.Some?
    ensures forall o | o in StartProbe(spec, w, a).created :: Accounted(spec, o)
  {
    hide Finish, Store, StoreAndReport, SharedWarm, InsideClone, Owned, Remaining, ProbeBudget, EnsureProbeJob,
      JobRequested;
    FinishCreatesNothing(spec, w, Expired, TTLTooShort, a.headline, a);
    var w1 := w.(created := w.created + {JobObj(spec.namespace, ProbeJobName(spec))});
    var asked := if JobRequested(a) then w1 else w;
    StoringCreatesNothing(spec, asked, Started(spec, asked.status, a), a);
    var e := EnsureProbeJob(a);
    if e.WaitForJob? { StoringCreatesNothing(spec, asked, asked.status.(message := e.message), a); }
  }

  lemma {:induction false} ProbeCreatesNothing(spec: Spec, w: Work, a: Inputs)
    requires w.created == {} && spec.probe.Some?
    ensures CheckProbe(spec, w, a).created == {}
  {
    hide StoreAndReport, Jobs.JobOutcome, WaitingFailure, ProbeDeadlinePassed, Tailed,
      LogDetail.TruncateMigrationMessage;
    forall phase, reason, message ensures Finish(spec, w, phase, reason, message, a).created == w.created {
      FinishCreatesNothing(spec, w, phase, reason, message, a);
    }
    hide Finish;
    StoringCreatesNothing(spec, w, w.status.(message := "waiting for the probe pod: " + a.waitText), a);
  }

  lemma {:induction false} PassIsAccounted(spec: Spec, cr: CR, a: Inputs)
    ensures forall o | o in Pass(spec, cr, a).0.created :: Accounted(spec, o)
  {
    hide Provision, CheckReady, StartProbe, CheckProbe, PublishReport, Teardown, TTLExpired, Accounted;
    var w := Begin(cr);
    StoringCreatesNothing(spec, w, w.status, a);
    if !cr.deleting && cr.finalizer && !TTLExpired(spec, a.clock.guard) {
      match w.status.phase {
        case Unset | Pending => ProvisionIsAccounted(spec, w, a);
        case Provisioning => ReadyIsAccounted(spec, w, a);
        case Ready => if spec.probe.Some? { StartIsAccounted(spec, w, a); }
        case Running => if spec.probe.Some? { ProbeCreatesNothing(spec, w, a); }
        case Passed | Failed | Expired =>
      }
    }
  }

  lemma {:induction false} NextIsAccounted(s: System, e: Event)
    requires Enabled(s, e) && forall o | o in s.created :: Accounted(s.spec, o)
    ensures forall o | o in Next(s, e).created :: Accounted(s.spec, o)
  {
    hide Pass, Accounted;
    if e.Reconcile? { PassIsAccounted(s.spec, s.history[e.read].cr, e.inputs); }
  }

  lemma {:induction false} LedgerIsAccounted(run: seq<System>, events: seq<Event>, i: nat)
    requires IsRun(run, events) && i < |run|
    ensures run[i].spec == run[0].spec
    ensures forall o | o in run[i].created :: Accounted(run[0].spec, o)
    decreases i
  {
    if i > 0 {
      hide Accounted, Next, Enabled;
      LedgerIsAccounted(run, events, i - 1);
      assert Enabled(run[i - 1], events[i - 1]) && run[i - 1 + 1] == Next(run[i - 1], events[i - 1]);
      NextIsAccounted(run[i - 1], events[i - 1]);
      NextKeepsSpec(run[i - 1], events[i - 1]);
    }
  }

  /** The deletion of the probe Job or of the clone's namespace is refused. */
  predicate Blocked(spec: Spec, a: Inputs) {
    || (spec.probe.Some? && JobObj(spec.namespace, ProbeJobName(spec)) in a.refused)
    || NamespaceObj(CloneNamespace(spec)) in a.refused
  }

  /** Where the old production snapshot is looked for. */
  function SnapshotNamespace(spec: Spec, a: Inputs): string {
    if ResolveSource(spec, a.prod).Some? then ResolveSource(spec, a.prod).value.1 else "postgres"
  }

  /** Which deletions a teardown sends: the probe Job first, by its recorded name or the one
      it would have; then the recorded Secret and the clone's namespace, unless the Job's
      deletion was refused; then content and old snapshot, unless the namespace's was too. */
  lemma {:induction false} TeardownExactly(spec: Spec, st: Status, a: Inputs, o: Obj)
    ensures var torn := Teardown(spec, st, a);
      var job := JobObj(spec.namespace, if st.probeJob != "" then st.probeJob else ProbeJobName(spec));
      var ns := NamespaceObj(if st.cloneNamespace != "" then st.cloneNamespace else CloneNamespace(spec));
      var probed := spec.probe.Some? || st.probeJob != "";
      var past := !(probed && job in a.refused);
      && (o in torn.deletions <==>
            || (probed && o == job)
            || (past && st.connectionSecret != "" && o == SecretObj(spec.namespace, st.connectionSecret))
            || (past && o == ns)
            || (past && ns !in a.refused && o == ContentObj(ContentName(spec)))
            || (past && ns !in a.refused && o == SnapshotObj(SnapshotNamespace(spec, a), CloneName(spec))))
      && (torn.ok <==> past && ns !in a.refused)
      && (o in torn.removed <==> o in torn.deletions && o !in a.refused)
  {
    hide ResolveSource, CloneNamespace, ContentName, ProbeJobName, CloneName;
  }

  lemma {:induction false} TeardownTargets(spec: Spec, st: Status, a: Inputs, skew: int)
    requires Good(spec, st, skew)
    ensures var torn := Teardown(spec, st, a);
      && (torn.ok ==> forall o | Targeted(spec, o) :: o in torn.deletions)
      && (torn.ok <==> !Blocked(spec, a))
      && torn.removed == (set o | o in torn.deletions && o !in a.refused)
  {
    hide ResolveSource, CloneNamespace, ContentName, ProbeJobName, CloneName, VerdictTable, ReportGood;
  }

  /** Whatever any pass of the run asked for, even where the write that records it was
      lost, the teardown that lets the resource go deletes by name, or it is owned, inside
      the clone's namespace, or one of the shared warm snapshots. */
  lemma {:induction false} TeardownCovers(run: seq<System>, events: seq<Event>, i: nat, a: Inputs, o: Obj)
    requires IsRun(run, events) && i < |run| && o in run[i].created
    requires run[i].history != [] && Teardown(run[i].spec, run[i].Newest().status, a).ok
    ensures
      || o in Teardown(run[i].spec, run[i].Newest().status, a).deletions
      || Owned(run[i].spec, o) || InsideClone(run[i].spec, o) || SharedWarm(o)
  {
    var skew := SomeSkew(events);
    hide Sound, Good, Teardown, Targeted, Owned, InsideClone, SharedWarm, Chained, LogGood;
    RunIsSound(run, events, skew, i);
    SoundFacts(run[i], skew);
    LedgerIsAccounted(run, events, i);
    TeardownTargets(run[i].spec, run[i].Newest().status, a, skew);
  }

  /** No teardown, of whatever check in whatever state, names a shared warm snapshot. */
  lemma {:induction false} WarmSnapshotsSurvive(spec: Spec, st: Status, a: Inputs, o: Obj)
    requires o in Teardown(spec, st, a).deletions
    ensures !SharedWarm(o)
  {
    hide ResolveSource, CloneNamespace, ContentName, ProbeJobName, CloneName, WarmName;
    forall cluster ensures CloneName(spec) != WarmName(cluster) { OwnNameIsNotWarm(spec, cluster); }
  }

  lemma {:induction false} GoneBy(s: System, e: Event)
    requires Enabled(s, e) && !s.gone && Next(s, e).gone && s.Newest().finalizer
    ensures e.Reconcile?
    ensures var (w, meta) := Pass(s.spec, s.history[e.read].cr, e.inputs);
      && meta != NoMeta
      && (Worked(s, w, e.inputs).history == s.history ==> meta.RemoveFinalizer? && s.Newest().deleting)
  {
    hide Pass, Extended, Logged;
  }

  /** A resource under its finalizer goes only after a teardown of its newest status in
      which the probe Job and the clone's namespace were deleted. */
  lemma {:induction false} GoesAfterTeardown(run: seq<System>, events: seq<Event>, i: nat)
    requires IsRun(run, events) && i < |events| && run[i].history != []
    requires !run[i].gone && run[i + 1].gone && run[i].Newest().finalizer
    ensures events[i].Reconcile? && run[i].Newest().deleting
    ensures var torn := Teardown(run[i].spec, run[i].Newest().status, events[i].inputs);
      && torn.ok && NamespaceObj(CloneNamespace(run[i].spec)) in torn.removed
      && (run[i].spec.probe.Some? ==> JobObj(run[i].spec.namespace, ProbeJobName(run[i].spec)) in torn.removed)
  {
    var s, e := run[i], events[i];
    var skew := SomeSkew(events);
    assert Enabled(s, e) && run[i + 1] == Next(s, e);
    hide Pass, Sound, Good, Teardown, Chained, LogGood, PassShape, Worked, Settled, Next, IsRun;
    RunIsSound(run, events, skew, i);
    SoundFacts(s, skew);
    GoneBy(s, e);
    MetaOf(s.spec, s.history[e.read].cr, e.inputs);
    WorkedIsSound(s, e.read, e.inputs, skew);
    TeardownTargets(s.spec, s.Newest().status, e.inputs, skew);
  }

  /** That is all a teardown insists on.  It lets the resource go exactly when those two
      deletions were not refused, while it has removed exactly what it named and was not
      refused: snapshot content, Secret or old snapshot may stay behind for good. */
  lemma {:induction false} TeardownForgetsContent(spec: Spec, cr: CR, a: Inputs, skew: int)
    requires cr.deleting && cr.finalizer && Good(spec, cr.status, skew)
    ensures Pass(spec, cr, a).1 == RemoveFinalizer <==> !Blocked(spec, a)
    ensures var torn := Teardown(spec, cr.status, a);
      !Blocked(spec, a) ==>
        && ContentObj(ContentName(spec)) in torn.deletions
        && (ContentObj(ContentName(spec)) in torn.removed <==> ContentObj(ContentName(spec)) !in a.refused)
        && ((forall o | o in torn.deletions :: o in torn.removed) <==>
              forall o | o in torn.deletions :: o !in a.refused)
  {
    hide ReportCancelled, Teardown, Good, Blocked;
    TeardownTargets(spec, cr.status, a, skew);
    assert Targeted(spec, ContentObj(ContentName(spec)));
  }
}
