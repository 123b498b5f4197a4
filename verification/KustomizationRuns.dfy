/** Whole runs of the Kustomization machine: the gate stays shut across a re-render,
    and with a stable config the machine comes to rest. */
module KustomizationRuns {
  import opened Text
  import opened Kustomization
  import T = KustomizationTable

  datatype Event = Reconciled(answers: Answers) | Environment

  /** What Flux, the ResourceSet and people may do between reconciles: anything,
      except vouch for patches or credentials in the operator's name. */
  ghost predicate EnvironmentMay(before: KsObject, after: KsObject) {
    && (after.CredentialsPatched() ==> before.CredentialsPatched())
    && (after.PatchesApplied() ==> before.PatchesApplied())
  }

  ghost predicate Moves(before: KsObject, e: Event, after: KsObject) {
    match e
    case Reconciled(a) => after == Pass(before, a).0
    case Environment => EnvironmentMay(before, after)
  }

  ghost predicate IsRun(states: seq<KsObject>, events: seq<Event>) {
    && |states| == |events| + 1
    && forall i | 0 <= i < |events| :: Moves(states[i], events[i], states[i + 1])
  }

  /** What the i-th event committed. */
  function MoveAt(states: seq<KsObject>, events: seq<Event>, i: nat): Move
    requires i < |events| && i < |states|
  {
    match events[i]
    case Reconciled(a) => Pass(states[i], a).1
    case Environment => Nothing
  }

  /** The i-th event noticed a changed config or lost patches. */
  predicate Noticed(states: seq<KsObject>, events: seq<Event>, i: nat)
    requires i < |events| && i < |states|
  {
    MoveAt(states, events, i).RerenderNoticed? || MoveAt(states, events, i).LossNoticed?
  }

  /** How one pass changes the two annotations the gate depends on. */
  lemma PassMarks(ks: KsObject, a: Answers)
    ensures var (after, move) := Pass(ks, a);
      && (move.RerenderNoticed? || move.LossNoticed? ==>
            after.suspend && !after.PatchesApplied() && !after.CredentialsPatched())
      && (after.CredentialsPatched() ==> ks.CredentialsPatched() || move.CredentialsCommitted?)
      && (after.PatchesApplied() ==> ks.PatchesApplied() || move.Prepared?)
      && (move.CredentialsCommitted? ==> ks.PatchesApplied() && !ks.suspend && after.PatchesApplied())
      && (move.Prepared? ==>
            after.patches != [] && !after.suspend && (after.CredentialsPatched() <==> ks.CredentialsPatched()))
  {
    KeysDiffer();
  }

  /** Until some pass commits credentials, an unmarked Kustomization stays unmarked. */
  lemma {:induction false} StaysShut(states: seq<KsObject>, events: seq<Event>, i: nat, j: nat)
    requires IsRun(states, events) && i <= j <= |events|
    requires !states[i].CredentialsPatched()
    requires forall k | i <= k < j :: !MoveAt(states, events, k).CredentialsCommitted?
    ensures !states[j].CredentialsPatched()
    decreases j
  {
    if i < j {
      StaysShut(states, events, i, j - 1);
      assert !MoveAt(states, events, j - 1).CredentialsCommitted?;
      assert Moves(states[j - 1], events[j - 1], states[j]);
      if events[j - 1].Reconciled? { PassMarks(states[j - 1], events[j - 1].answers); }
    }
  }

  /** After a change is noticed the gate is shut in every state until
      UpdateDBCredentialPatches commits, whatever happens in between. */
  lemma GateShutAfterNotice(states: seq<KsObject>, events: seq<Event>, i: nat, j: nat, revision: string)
    requires IsRun(states, events) && i < j <= |events| && Noticed(states, events, i)
    requires forall k | i < k < j :: !MoveAt(states, events, k).CredentialsCommitted?
    ensures !KustomizationSettled(states[j], revision).Settled?
  {
    assert Moves(states[i], events[i], states[i + 1]);
    PassMarks(states[i], events[i].answers);
    StaysShut(states, events, i + 1, j);
  }

  lemma {:induction false} LastCommit(states: seq<KsObject>, events: seq<Event>, i: nat, j: nat) returns (k: nat)
    requires IsRun(states, events) && i <= j <= |events|
    requires !states[i].CredentialsPatched() && states[j].CredentialsPatched()
    ensures i <= k < j && MoveAt(states, events, k).CredentialsCommitted?
    decreases j
  {
    assert Moves(states[j - 1], events[j - 1], states[j]);
    if events[j - 1].Reconciled? { PassMarks(states[j - 1], events[j - 1].answers); }
    if MoveAt(states, events, j - 1).CredentialsCommitted? {
      k := j - 1;
    } else {
      k := LastCommit(states, events, i, j - 1);
    }
  }

  lemma {:induction false} LastPrepare(states: seq<KsObject>, events: seq<Event>, i: nat, j: nat) returns (k: nat)
    requires IsRun(states, events) && i <= j <= |events|
    requires !states[i].PatchesApplied() && states[j].PatchesApplied()
    ensures i <= k < j && MoveAt(states, events, k).Prepared?
    decreases j
  {
    assert Moves(states[j - 1], events[j - 1], states[j]);
    if events[j - 1].Reconciled? { PassMarks(states[j - 1], events[j - 1].answers); }
    if MoveAt(states, events, j - 1).Prepared? { k := j - 1; } else { k := LastPrepare(states, events, i, j - 1); }
  }

  /** A gate that opens after a notice has seen, in this order, fresh patches and
      then credentials, there wherever the config asks for them: nobody judges a
      half-rendered preview. */
  lemma OpenedOnlyAfterRerender(states: seq<KsObject>, events: seq<Event>, i: nat, j: nat, revision: string)
      returns (prepared: nat, patched: nat)
    requires IsRun(states, events) && i < j <= |events| && Noticed(states, events, i)
    requires KustomizationSettled(states[j], revision).Settled?
    ensures i < prepared < patched < j
    ensures MoveAt(states, events, prepared).Prepared? && MoveAt(states, events, patched).CredentialsCommitted?
    ensures var config := events[prepared].answers.config;
      !config.ConfigError? && states[prepared + 1].patches == BuildAllPatches(config.Effective(), None)
    ensures var a := events[patched].answers;
      && !a.config.ConfigError?
      && (T.WantsCredentials(a.config) ==>
            a.secret.Some? && states[patched + 1].patches == BuildAllPatches(a.config.config, a.secret))
      && (!T.WantsCredentials(a.config) ==> states[patched + 1].patches == states[patched].patches)
  {
    assert Moves(states[i], events[i], states[i + 1]);
    PassMarks(states[i], events[i].answers);
    patched := LastCommit(states, events, i + 1, j);
    PassMarks(states[patched], events[patched].answers);
    prepared := LastPrepare(states, events, i + 1, patched);
    assert Moves(states[prepared], events[prepared], states[prepared + 1]);
    assert Moves(states[patched], events[patched], states[patched + 1]);
    T.MoveExactly(states[patched], events[patched].answers);
    T.StoredExactly(states[patched], events[patched].answers);
    T.StoredExactly(states[prepared], events[prepared].answers);
    hide Pass, BuildAllPatches, KustomizationSettled, T.MarksAfter;
  }

  /** The guarantee needs the notice.  A Kustomization suspended by anyone else keeps
      its credentials mark, so preparing it can open the gate, exactly when the mark was
      there, over patches rendered without credentials; and where the config maps a
      credential to a path where it shows, those are not the patches it asks for. */
  lemma ForeignSuspendReopensGate(c: PreviewConfig, ks: KsObject, a: Answers, secret: Credentials)
    requires c.helm && c.NeedsCredentials()
    requires ks.suspend && ks.finalizer && !ks.deleting && a.first && a.config == ConfigFound(c)
    ensures var after := Pass(ks, a).0;
      && (forall p | p in after.patches && p.HelmValues? :: p.credentials.None?)
      && (after.patches != BuildAllPatches(c, Some(secret)) <==> c.RendersCredentials())
      && ((exists seen, ready, applied ::
             var later := after.(observedGeneration := seen, ready := ready, lastAppliedRevision := applied);
             KustomizationSettled(later, "").Settled?)
          <==> ks.CredentialsPatched())
  {
    KeysDiffer();
    var after := Pass(ks, a).0;
    var strip := StripPatches(STRIP_TARGETS);
    assert forall p | p in strip :: p.StripPatch?;
    PatchesSplit(c, None);
    PatchesSplit(c, Some(secret));
    if !c.RendersCredentials() { assert BuildAllPatches(c, Some(secret)) == BuildAllPatches(c, None); }
    if ks.CredentialsPatched() {
      var g := after.generation;
      var ready := Some(ReadyCondition(g, ConditionTrue));
      var later := after.(observedGeneration := g, ready := ready, lastAppliedRevision := "");
      assert KustomizationSettled(later, "").Settled?;
    }
  }

  /** The value patch is the one after the strip patches and the values-from patch. */
  lemma PatchesSplit(c: PreviewConfig, credentials: Option<Credentials>)
    requires c.helm
    ensures var r := BuildAllPatches(c, credentials);
      && (forall p | p in r && p.HelmValues? :: p == HelmValues(c.hash, c.Carried(credentials)))
      && (c.RendersValues(credentials) <==> |r| > 17 && r[17] == HelmValues(c.hash, c.Carried(credentials)))
      && (!c.RendersValues(credentials) ==>
            r == StripPatches(STRIP_TARGETS) + [ValuesFromStrip]
                 + (if c.envOverrides then [EnvOverrides(c.hash)] else []))
  {
    var strip := StripPatches(STRIP_TARGETS);
    assert |strip| == 16 && forall p | p in strip :: p.StripPatch?;
  }

  // ---- Coming to rest ----

  /** Every call succeeds and the config does not change any more. */
  function AllWell(config: ConfigAnswer, secret: Credentials, gitRepo: bool): Answers {
    Answers(true, config, config, true, Some(secret), gitRepo, true, true, true)
  }

  /** A stable world. */
  datatype World = World(config: ConfigAnswer, secret: Credentials, gitRepo: bool) {
    predicate Valid() { !config.ConfigError? }
    function Step(ks: KsObject): KsObject { Pass(ks, AllWell(config, secret, gitRepo)).0 }
    predicate Fresh(ks: KsObject)
      requires Valid()
    {
      config.Effective().hash == "" || ks.RenderedFrom(config.Effective().hash)
    }
    /** Fully rendered: nothing left for the machine to do. */
    predicate AtRest(ks: KsObject)
      requires Valid()
    {
      && ks.finalizer && !ks.suspend && ks.PatchesApplied() && Fresh(ks)
      && ks.InfraCreated() && ks.CredentialsPatched() && ks.patches != []
      && (gitRepo ==> ks.Commented())
    }
    /** How many passes a state still needs. */
    function Remaining(ks: KsObject): nat
      requires Valid()
    {
      if !ks.finalizer then 1 + Rendering(ks) else Rendering(ks)
    }
    function Rendering(ks: KsObject): nat
      requires Valid()
    {
      var infra := if ks.InfraCreated() then 0 else 1;
      var credentials := if ks.CredentialsPatched() then 0 else 1;
      var comment := if gitRepo && !ks.Commented() then 1 else 0;
      if ks.suspend then 1 + infra + credentials + comment
      else if !Fresh(ks) then 2 + infra + 1 + comment
      else if ks.patches != [] then infra + credentials + comment
      else if credentials == 1 && config.ConfigFound? && config.config.NeedsCredentials() then infra + 1 + comment
      else infra + credentials + 3
    }
  }

  ghost predicate Handled(ks: KsObject) {
    !ks.deleting && !ks.Legacy()
  }

  /** Each pass brings a state outside the legacy flow one step closer to rest, keeps
      it outside, and never forgets that the infrastructure exists. */
  lemma StepProgresses(w: World, ks: KsObject)
    requires w.Valid() && Handled(ks)
    ensures Handled(w.Step(ks))
    ensures ks.InfraCreated() ==> w.Step(ks).InfraCreated()
    ensures w.AtRest(ks) <==> w.Remaining(ks) == 0
    ensures w.AtRest(ks) ==> w.Step(ks) == ks
    ensures !w.AtRest(ks) ==> w.Remaining(w.Step(ks)) < w.Remaining(ks)
  {
    KeysDiffer();
  }

  function Iterate(w: World, ks: KsObject, n: nat): KsObject
    decreases n
  {
    if n == 0 then ks else Iterate(w, w.Step(ks), n - 1)
  }

  lemma {:induction false} IterateProgresses(w: World, ks: KsObject, n: nat)
    requires w.Valid() && Handled(ks)
    ensures Handled(Iterate(w, ks, n))
    ensures ks.InfraCreated() ==> Iterate(w, ks, n).InfraCreated()
    ensures w.Remaining(ks) <= n ==> w.AtRest(Iterate(w, ks, n))
    decreases n
  {
    StepProgresses(w, ks);
    if n > 0 { IterateProgresses(w, w.Step(ks), n - 1); }
  }

  /** With a stable config and succeeding calls, every state outside the legacy flow
      is at rest after six passes, and stays there: unsuspended, rendered from the
      current config, patches in place, infrastructure recorded. */
  lemma ComesToRest(w: World, ks: KsObject, n: nat)
    requires w.Valid() && Handled(ks) && n >= 6
    ensures w.AtRest(Iterate(w, ks, n))
    ensures Iterate(w, ks, n) == Iterate(w, ks, 6)
  {
    assert w.Remaining(ks) <= 6;
    IterateProgresses(w, ks, 6);
    RestIsFixed(w, ks, 6, n);
  }

  lemma {:induction false} RestIsFixed(w: World, ks: KsObject, m: nat, n: nat)
    requires w.Valid() && Handled(ks) && m <= n && w.AtRest(Iterate(w, ks, m))
    ensures Iterate(w, ks, n) == Iterate(w, ks, m)
    decreases n
  {
    if m > 0 {
      StepProgresses(w, ks);
      RestIsFixed(w, w.Step(ks), m - 1, n - 1);
    } else if n > 0 {
      StepProgresses(w, ks);
      RestIsFixed(w, ks, 0, n - 1);
    }
  }

  /** Lost patches are noticed at most once: from then on every state has patches or
      is suspended, waiting for them. */
  lemma {:induction false} LossIsNoticedOnce(w: World, ks: KsObject, n: nat)
    requires w.Valid() && Handled(ks) && (ks.suspend || ks.patches != [])
    ensures Iterate(w, ks, n).suspend || Iterate(w, ks, n).patches != []
    ensures !Pass(Iterate(w, ks, n), AllWell(w.config, w.secret, w.gitRepo)).1.LossNoticed?
    decreases n
  {
    KeysDiffer();
    if n > 0 {
      StepProgresses(w, ks);
      LossIsNoticedOnce(w, w.Step(ks), n - 1);
    }
  }

  /** Six passes are really needed by some state. */
  lemma SixPassesNeeded(secret: Credentials)
    ensures exists w: World, ks: KsObject :: w.Valid() && Handled(ks) && !w.AtRest(Iterate(w, ks, 5))
  {
    KeysDiffer();
    var w := World(ConfigFound(PreviewConfig("h", false, false, false, {}, "", "", false, false)), secret, true);
    var s0 := KsObject(false, map[PATCHES_APPLIED := "true"], [], false, false, 1, 1, None, "");
    var s1 := w.Step(s0);
    var s2 := w.Step(s1);
    var s3 := w.Step(s2);
    var s4 := w.Step(s3);
    var s5 := w.Step(s4);
    assert s1.finalizer && !s1.suspend && s1.annotations == s0.annotations;
    assert s2.suspend && s2.finalizer && s2.annotations == map[];
    assert s3.annotations == map[PATCHES_APPLIED := "true", CONFIG_HASH := "h"] && !s3.suspend;
    assert s4.InfraCreated() && !s4.CredentialsPatched() && !s4.Commented();
    assert s5.CredentialsPatched() && !s5.Commented();
    assert Iterate(w, s5, 0) == s5;
    assert Iterate(w, s4, 1) == s5;
    assert Iterate(w, s3, 2) == s5;
    assert Iterate(w, s2, 3) == s5;
    assert Iterate(w, s1, 4) == s5;
    assert Iterate(w, s0, 5) == s5;
  }

  /** The patches a fully rendered Kustomization should carry. */
  function Expected(w: World): seq<Patch>
    requires w.Valid()
  {
    var c := w.config.Effective();
    BuildAllPatches(c, if w.config.ConfigFound? && c.NeedsCredentials() then Some(w.secret) else None)
  }

  /** On the way from a noticed change to rest: waiting to be prepared, prepared without
      credentials, or done. */
  predicate OnTheWay(w: World, ks: KsObject)
    requires w.Valid()
  {
    && !ks.deleting && ks.finalizer
    && (if ks.suspend then !ks.CredentialsPatched()
        else
          && ks.PatchesApplied() && w.Fresh(ks)
          && ks.patches == if ks.CredentialsPatched() then Expected(w) else BuildAllPatches(w.config.Effective(), None))
  }

  lemma StepStaysOnTheWay(w: World, ks: KsObject)
    requires w.Valid() && OnTheWay(w, ks)
    ensures OnTheWay(w, w.Step(ks))
  {
    KeysDiffer();
    hide BuildAllPatches;
    assert Expected(w) != [] && BuildAllPatches(w.config.Effective(), None) != [];
  }

  lemma {:induction false} IterateStaysOnTheWay(w: World, ks: KsObject, n: nat)
    requires w.Valid() && OnTheWay(w, ks)
    ensures OnTheWay(w, Iterate(w, ks, n))
    decreases n
  {
    hide OnTheWay;
    if n > 0 {
      StepStaysOnTheWay(w, ks);
      IterateStaysOnTheWay(w, w.Step(ks), n - 1);
    }
  }

  /** After a notice, and with no one else at the object, the machine comes to rest with
      exactly the patches of the current config: with the credentials wherever it asks
      for them. */
  lemma RestCarriesCredentials(w: World, ks: KsObject, n: nat)
    requires w.Valid() && ks.suspend && ks.finalizer && !ks.deleting && !ks.CredentialsPatched() && n >= 6
    ensures w.AtRest(Iterate(w, ks, n)) && Iterate(w, ks, n).patches == Expected(w)
  {
    ComesToRest(w, ks, n);
    IterateStaysOnTheWay(w, ks, n);
  }
}
