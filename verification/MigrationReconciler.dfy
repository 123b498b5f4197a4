/** The MigrationCheck reconciler, changing its own copy of the status in place; each
    method computes what MigrationPass says. */
module MigrationReconciler {
  import opened Text
  import opened ApiServer
  import opened MigrationApi
  import opened MigrationClone
  import opened P = MigrationPass
  import Jobs
  import LogDetail

  /** Whether some endpoint subset has a ready address. */
  method EndpointsReady(subsets: seq<nat>) returns (ready: bool)
    ensures ready == P.Serving(EndpointsRead(subsets))
  {
    for i := 0 to |subsets|
      invariant forall k | 0 <= k < i :: subsets[k] == 0
    {
      if subsets[i] > 0 {
        assert subsets[i] in subsets;
        return true;
      }
    }
    return false;
  }

  /** Why the probe's pod is stuck before its containers run, if it is. */
  method ProbeWaitingFailure(pods: seq<Pod>) returns (why: Option<Reason>)
    ensures why == StuckPod(pods)
  {
    for i := 0 to |pods|
      invariant StuckPod(pods) == StuckPod(pods[i..])
    {
      var statuses := pods[i].init + pods[i].main;
      for j := 0 to |statuses|
        invariant StuckContainer(statuses) == StuckContainer(statuses[j..])
      {
        assert statuses[j..][1..] == statuses[j + 1..];
        if statuses[j].waiting.None? { continue; }
        why := WaitingReason(statuses[j].waiting.value);
        if why.Some? { return; }
      }
      assert pods[i..][1..] == pods[i + 1..];
    }
    return None;
  }

  /** The reconciler at work on its own copy of the status. */
  class MigrationCheckPass {
    const spec: Spec
    var status: Status
    var landed: seq<Status>
    var calls: seq<ForgeCall>
    var created: set<Obj>

    constructor (spec: Spec, cr: CR)
      ensures this.spec == spec && Current() == Begin(cr)
    {
      this.spec, status, landed, calls, created := spec, cr.status, [], [], {};
    }

    function Current(): Work
      reads this
    {
      Work(status, landed, calls, created)
    }

    method StatusUpdate(answer: WriteAnswer) returns (ok: bool)
      modifies this`landed
      ensures Current() == Write(old(Current()), answer) && ok == answer.Acknowledged?
    {
      if !answer.Refused? { landed := landed + [status]; }
      ok := answer.Acknowledged?;
    }

    method PublishReport(a: Inputs)
      modifies this
      ensures Current() == P.PublishReport(spec, old(Current()), a)
    {
      if !spec.reporting { return; }
      if status.reported == status.phase { return; }
      calls := calls + [ForgeCall(status.checkRun, status.phase, false, a.report,
                                  a.report.Reported? && !a.write2.Refused?, |landed|)];
      if a.report.ReportFailed? { return; }
      var id := status.checkRun;
      if id == 0 { id := a.report.id; }
      status := status.(checkRun := id);
      status := status.(reported := status.phase);
      var _ := StatusUpdate(a.write2);
    }

    method StoreAndReport(a: Inputs)
      modifies this
      ensures Current() == P.StoreAndReport(spec, old(Current()), old(status), a)
    {
      var stored := StatusUpdate(a.write1);
      if stored { PublishReport(a); }
    }

    method Finish(phase: Phase, reason: Reason, message: string, a: Inputs)
      modifies this
      ensures Current() == P.Finish(spec, old(Current()), phase, reason, message, a)
    {
      status := status.(phase := phase, reason := reason);
      status := status.(message := LogDetail.TruncateMigrationMessage(message));
      status := status.(completedAt := Some(a.clock.stamp));
      StoreAndReport(a);
    }

    method Fail(a: Inputs)
      modifies this
      ensures Current() == P.Fail(spec, old(Current()), a)
    {
      var phase := Failed;
      if spec.probe.Some? { phase := Expired; }
      Finish(phase, CloneFailed, a.headline, a);
    }

    method Provision(a: Inputs)
      modifies this
      ensures Current() == P.Provision(spec, old(Current()), a)
    {
      hide Clone, ResolveSource, P.Fail, P.StoreAndReport, RequestFor, CloneNamespace, Deadline;
      if status.startedAt.None? { status := status.(startedAt := Some(a.clock.test)); }
      var source := ResolveSource(spec, a.prod);
      if source.None? { Fail(a); return; }
      var cloneNS := CloneNamespace(spec);
      created := created + {NamespaceObj(cloneNS)};
      if a.namespaceCreate.CreateError? { return; }
      var cloner := new SnapshotCloner();
      var ok := cloner.CloneFromSnapshot(RequestFor(spec, source.value), a.clone);
      assert cloner.created == Clone(RequestFor(spec, source.value), a.clone).created;
      created := created + cloner.created;
      if !ok { Fail(a); return; }
      ghost var cloned := Current();
      status := status.(phase := Provisioning, reason := CloneProvisioning, message := "clone provisioning");
      status := status.(cloneNamespace := cloneNS, expiresAt := Some(Deadline(spec)));
      OnlyTheNewStatusCounts(spec, cloned, status, a);
      StoreAndReport(a);
    }

    method NotReady(a: Inputs)
      modifies this
      ensures Current() == P.NotReady(spec, old(Current()), a)
    {
      if spec.probe.Some? && ReadyDeadlinePassed(spec, status, a.clock.test) {
        Finish(Expired, CloneNotReady, a.headline, a);
      }
    }

    method CheckReady(a: Inputs)
      modifies this
      ensures Current() == P.CheckReady(spec, old(Current()), a)
    {
      hide P.Finish, P.NotReady, SecretName;
      match a.cluster {
        case ClusterError => return;
        case ClusterMissing => NotReady(a); return;
        case ClusterRead(ready, phase) =>
          if ready < 1 || phase != HEALTHY { NotReady(a); return; }
      }
      match a.endpoints {
        case EndpointsError => return;
        case EndpointsMissing => NotReady(a); return;
        case EndpointsRead(subsets) =>
          var ready := EndpointsReady(subsets);
          if !ready { NotReady(a); return; }
      }
      match a.superuser {
        case SuperuserError => return;
        case SuperuserMissing => NotReady(a); return;
        case SuperuserRead(user, password) =>
          if user == "" || password == "" { NotReady(a); return; }
      }
      var secretName := SecretName(spec);
      created := created + {SecretObj(spec.namespace, secretName)};
      if a.secretCreate.CreateError? { return; }
      status := status.(phase := Ready, reason := CloneReady, message := "clone ready");
      status := status.(connectionSecret := secretName);
      var _ := StatusUpdate(a.write1);
    }

    method EnsureProbeJob(a: Inputs) returns (r: Ensured)
      modifies this`created
      ensures r == P.EnsureProbeJob(a)
      ensures created == if JobRequested(a) then old(created) + {JobObj(spec.namespace, ProbeJobName(spec))}
                         else old(created)
    {
      if a.labelled != Some(true) { return EnsureError; }
      match a.existing {
        case JobRead(_, terminating) => if terminating { return WaitForJob(TERMINATING); } else { return GotProbeJob; }
        case JobError => return EnsureError;
        case JobMissing =>
      }
      created := created + {JobObj(spec.namespace, ProbeJobName(spec))};
      match a.jobCreate {
        case JobMade => return GotProbeJob;
        case JobExists(again) => if again { return GotProbeJob; } else { return EnsureError; }
        case JobQuota => return WaitForJob("quota refused the probe job: " + a.waitText);
        case JobRefused => return EnsureError;
      }
    }

    method StartProbe(a: Inputs)
      requires spec.probe.Some?
      modifies this
      ensures Current() == P.StartProbe(spec, old(Current()), a)
    {
      hide P.Finish, P.StoreAndReport, P.EnsureProbeJob, JobRequested, Remaining, ProbeBudget, ProbeJobName;
      if Remaining(spec, a.clock.test) < ProbeBudget(spec.probe.value) {
        Finish(Expired, TTLTooShort, a.headline, a);
        return;
      }
      var job := EnsureProbeJob(a);
      match job {
        case EnsureError => return;
        case WaitForJob(message) =>
          status := status.(message := message);
          var _ := StatusUpdate(a.write1);
        case GotProbeJob =>
          ghost var asked := Current();
          status := status.(phase := Running, reason := ProbeRunning, message := a.headline);
          status := status.(probeJob := ProbeJobName(spec));
          if status.probeStartedAt.None? { status := status.(probeStartedAt := Some(a.clock.stamp)); }
          OnlyTheNewStatusCounts(spec, asked, status, a);
          StoreAndReport(a);
      }
    }

    method CheckProbe(a: Inputs)
      requires spec.probe.Some?
      modifies this
      ensures Current() == P.CheckProbe(spec, old(Current()), a)
    {
      hide P.Finish, Tailed, StuckPod, Jobs.JobOutcome;
      if a.job.JobError? { return; }
      if a.job.JobMissing? {
        Finish(Expired, DeadlineExceeded, a.headline, a);
        return;
      }
      var stuck: Option<Reason> := None;
      if a.pods.Some? { stuck := ProbeWaitingFailure(a.pods.value); }
      match Jobs.JobOutcome(a.job.job) {
        case JobSucceeded => Finish(Passed, ProbePassed, Tailed(a), a);
        case JobFailed =>
          if stuck.Some? {
            Finish(Expired, stuck.value, Tailed(a), a);
          } else {
            Finish(Failed, ProbeFailed, Tailed(a), a);
          }
        case JobRunning =>
          var late := ProbeDeadlinePassed(spec, status, a.clock.test);
          if stuck.Some? {
            if late {
              Finish(Expired, stuck.value, a.headline, a);
              return;
            }
            var message := "waiting for the probe pod: " + a.waitText;
            if status.message != message {
              status := status.(message := message);
              var _ := StatusUpdate(a.write1);
            }
            return;
          }
          if late { Finish(Expired, DeadlineExceeded, Tailed(a), a); }
      }
    }

    method ReportCancelled(a: Inputs)
      modifies this`calls
      ensures Current() == P.ReportCancelled(spec, old(Current()), a)
    {
      if !spec.reporting || status.checkRun == 0 || status.reported.IsTerminal() { return; }
      calls := calls + [ForgeCall(status.checkRun, status.phase, true, a.report, false, |landed|)];
    }

    /** Sends one deletion; not finding the object is as good.  A strict one ends the
        teardown when it is refused. */
    static method Delete(torn: Torn, o: Obj, strict: bool, a: Inputs) returns (r: Torn)
      requires torn == TornBy(torn.deletions, true, a)
      ensures r == TornBy(torn.deletions + [o], !(strict && o in a.refused), a)
    {
      r := torn.(deletions := torn.deletions + [o]);
      if o !in a.refused {
        r := r.(removed := r.removed + {o});
      } else if strict {
        r := r.(ok := false);
      }
    }

    method Teardown(a: Inputs) returns (torn: Torn)
      ensures torn == P.Teardown(spec, status, a)
    {
      torn := Torn([], {}, true);
      assert torn == TornBy([], true, a);
      hide ResolveSource, CloneName, ContentName, CloneNamespace, ProbeJobName, TornBy;
      TornKeeps(a);
      ghost var job: seq<Obj> := [];
      if spec.probe.Some? || status.probeJob != "" {
        var name := status.probeJob;
        if name == "" { name := ProbeJobName(spec); }
        torn := Delete(torn, JobObj(spec.namespace, name), true, a);
        job := [JobObj(spec.namespace, name)];
        assert [] + job == job;
        if !torn.ok { return; }
      }
      ghost var secret: seq<Obj> := [];
      if status.connectionSecret != "" {
        torn := Delete(torn, SecretObj(spec.namespace, status.connectionSecret), false, a);
        secret := [SecretObj(spec.namespace, status.connectionSecret)];
      }
      assert torn.deletions == job + secret;
      var cloneNS := status.cloneNamespace;
      if cloneNS == "" { cloneNS := CloneNamespace(spec); }
      torn := Delete(torn, NamespaceObj(cloneNS), true, a);
      if !torn.ok { return; }
      torn := Delete(torn, ContentObj(ContentName(spec)), false, a);
      var source := ResolveSource(spec, a.prod);
      var sourceNS := "postgres";
      if source.Some? { sourceNS := source.value.1; }
      torn := Delete(torn, SnapshotObj(sourceNS, CloneName(spec)), false, a);
      assert torn.deletions == job + secret
          + [NamespaceObj(cloneNS), ContentObj(ContentName(spec)), SnapshotObj(sourceNS, CloneName(spec))];
    }

    method Reconcile(cr: CR, a: Inputs) returns (meta: Meta)
      requires Current() == Begin(cr)
      modifies this
      ensures (Current(), meta) == Pass(spec, cr, a)
    {
      hide P.ReportCancelled, P.Teardown, P.Provision, P.CheckReady, P.StartProbe, P.CheckProbe, P.PublishReport,
        TTLExpired;
      if cr.deleting {
        if !cr.finalizer { return NoMeta; }
        ReportCancelled(a);
        assert status == cr.status by { CancellingKeepsStatus(spec, Begin(cr), a); }
        var torn := Teardown(a);
        return if torn.ok then RemoveFinalizer else NoMeta;
      }
      if !cr.finalizer { return AddFinalizer; }
      if TTLExpired(spec, a.clock.guard) { return DeleteSelf; }
      match status.phase {
        case Unset | Pending => Provision(a);
        case Provisioning => CheckReady(a);
        case Ready => if spec.probe.Some? { StartProbe(a); }
        case Running => if spec.probe.Some? { CheckProbe(a); }
        case Passed | Failed | Expired => PublishReport(a);
      }
      return NoMeta;
    }
  }

  lemma TornKeeps(a: Inputs)
    ensures forall d, ok :: TornBy(d, ok, a).deletions == d && TornBy(d, ok, a).ok == ok
  {
  }

  lemma OnlyTheNewStatusCounts(spec: Spec, w: Work, st: Status, a: Inputs)
    ensures P.StoreAndReport(spec, w.(status := st), st, a) == P.StoreAndReport(spec, w, st, a)
  {
  }

  lemma CancellingKeepsStatus(spec: Spec, w: Work, a: Inputs)
    ensures P.ReportCancelled(spec, w, a).status == w.status
  {
  }
}
