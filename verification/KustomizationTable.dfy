/** The moves of the Kustomization machine: when each is made, exactly, and what it stores. */
module KustomizationTable {
  import opened Text
  import opened Kustomization

  // ---- Patches ----

  /** A credential is mapped to a path at which it shows. */
  predicate CredentialsShow(c: PreviewConfig) {
    exists path | path in [c.databaseUser, c.databasePassword] :: path != "" && '[' !in path && path !in c.overridden
  }

  lemma ShowsExactly(c: PreviewConfig)
    ensures c.RendersCredentials() <==> CredentialsShow(c)
  {
    var paths := [c.databaseUser, c.databasePassword];
    assert paths[0] == c.databaseUser && paths[1] == c.databasePassword;
    assert c.databaseUser in paths && c.databasePassword in paths;
  }

  /** A config renders exactly these patches, each once. */
  lemma PatchesExactly(c: PreviewConfig, credentials: Option<Credentials>, p: Patch)
    ensures p in BuildAllPatches(c, credentials) <==>
      match p
      case StripPatch(group, kind) => (group, kind) in STRIP_TARGETS
      case ValuesFromStrip => c.helm
      case HelmValues(hash, carried) =>
        && c.helm && c.helmValues && hash == c.hash
        && carried == (if CredentialsShow(c) then credentials else None)
        && (c.plainValues || carried.Some?)
      case ContainerStrip(hash) => !c.helm && c.stripContainers && hash == c.hash
      case EnvOverrides(hash) => c.envOverrides && hash == c.hash
    ensures var carried := if CredentialsShow(c) then credentials else None;
      |BuildAllPatches(c, credentials)| == 16
        + (if c.helm then 1 + (if c.helmValues && (c.plainValues || carried.Some?) then 1 else 0)
           else if c.stripContainers then 1 else 0)
        + (if c.envOverrides then 1 else 0)
  {
    ShowsExactly(c);
    hide CredentialsShow, PreviewConfig.RendersCredentials;
    StripExactly(STRIP_TARGETS, p);
    var strip := StripPatches(STRIP_TARGETS);
    assert |strip| == 16;
    hide StripPatches;
  }

  lemma StripExactly(targets: seq<(string, string)>, p: Patch)
    ensures p in StripPatches(targets) <==> p.StripPatch? && (p.group, p.kind) in targets
  {
    var r := StripPatches(targets);
    assert forall i | 0 <= i < |targets| :: r[i] == StripPatch(targets[i].0, targets[i].1);
    if p.StripPatch? && (p.group, p.kind) in targets {
      var i :| 0 <= i < |targets| && targets[i] == (p.group, p.kind);
      assert r[i] == p;
    }
  }

  // ---- Where the machine stands ----

  predicate Handled(ks: KsObject) { !ks.deleting && ks.finalizer }

  /** Prepared, and as far as can be told from the current config. */
  predicate Rendered(ks: KsObject, a: Answers) {
    && Handled(ks) && !ks.suspend && Says(ks, PATCHES_APPLIED) && !Outdated(ks, a)
  }

  /** The config is known and hashes to something other than what is recorded. */
  predicate Outdated(ks: KsObject, a: Answers) {
    var hash := match a.hashConfig
      case ConfigFound(c) => c.hash
      case ConfigAbsent(h) => h
      case ConfigError => "";
    hash != "" && !(CONFIG_HASH in ks.annotations && ks.annotations[CONFIG_HASH] == hash)
  }

  predicate WantsCredentials(c: ConfigAnswer) {
    c.ConfigFound? && c.config.helmValues && !(c.config.databaseUser == "" && c.config.databasePassword == "")
  }

  /** All three states are through. */
  predicate Complete(ks: KsObject, a: Answers) {
    Rendered(ks, a) && Says(ks, INFRA_CREATED) && Says(ks, CREDENTIALS_PATCHED)
  }

  predicate Comments(ks: KsObject, a: Answers) { !Says(ks, PR_COMMENTED) && a.gitRepo && a.commentOk }

  /** Each move is made exactly when its turn has come, what it needs was answered, and its
      update landed; in all other cases nothing is stored. */
  lemma MoveExactly(ks: KsObject, a: Answers)
    ensures var (after, move) := Pass(ks, a);
      && (move.FinalizerRemoved? <==> ks.deleting && ks.finalizer && a.teardownOk && a.first)
      && (move.FinalizerAdded? <==> !ks.deleting && !ks.finalizer && a.first)
      && (move.Prepared? <==> Handled(ks) && ks.suspend && !a.config.ConfigError? && a.first)
      && (move.Deferred? <==> Handled(ks) && !ks.suspend && !Says(ks, PATCHES_APPLIED))
      && (move.RerenderNoticed? <==>
            Handled(ks) && !ks.suspend && Says(ks, PATCHES_APPLIED) && Outdated(ks, a) && a.first)
      && (move.InfraRecorded? <==>
            && Rendered(ks, a) && !Says(ks, INFRA_CREATED) && a.first
            && (a.config.ConfigAbsent? || (a.config.ConfigFound? && a.infraOk)))
      && (move.CredentialsCommitted? <==>
            && Rendered(ks, a) && Says(ks, INFRA_CREATED) && !Says(ks, CREDENTIALS_PATCHED) && a.first
            && !a.config.ConfigError? && (WantsCredentials(a.config) ==> a.secret.Some?))
      && (move.LossNoticed? <==>
            Complete(ks, a) && ks.patches == [] && (if Comments(ks, a) then a.second else a.first))
      && (move.CommentRecorded? <==> Complete(ks, a) && Comments(ks, a) && a.first && !move.LossNoticed?)
      && (move.Nothing? || move.Deferred? ==> after == ks)
  {
  }

  /** The marks a move leaves. */
  function MarksAfter(ks: KsObject, a: Answers, move: Move): map<string, string>
    requires move.Prepared? ==> !a.config.ConfigError?
  {
    match move
    case Prepared =>
      var hash := a.config.Effective().hash;
      if hash != "" then ks.annotations[PATCHES_APPLIED := "true"][CONFIG_HASH := hash]
      else ks.annotations[PATCHES_APPLIED := "true"]
    case InfraRecorded => ks.annotations[INFRA_CREATED := "true"]
    case CredentialsCommitted => ks.annotations[CREDENTIALS_PATCHED := "true"]
    case CommentRecorded => ks.annotations[PR_COMMENTED := "true"]
    case RerenderNoticed => ks.annotations - {PATCHES_APPLIED, CREDENTIALS_PATCHED}
    case LossNoticed =>
      (if Comments(ks, a) then ks.annotations[PR_COMMENTED := "true"] else ks.annotations)
      - {PATCHES_APPLIED, CREDENTIALS_PATCHED}
    case _ => ks.annotations
  }

  /** What each move stores, field by field: marks, finalizer, suspension, patches, and a new
      generation exactly when suspension or patches changed; nothing else is the operator's. */
  lemma StoredExactly(ks: KsObject, a: Answers)
    ensures var (after, move) := Pass(ks, a);
      && (move.Prepared? ==> !a.config.ConfigError?)
      && after.annotations == MarksAfter(ks, a, move)
      && after.finalizer == (if move.FinalizerAdded? then true
                             else if move.FinalizerRemoved? then false else ks.finalizer)
      && after.suspend == (if move.RerenderNoticed? || move.LossNoticed? then true
                           else if move.Prepared? then false else ks.suspend)
      && after.patches == (if move.Prepared? then BuildAllPatches(a.config.Effective(), None)
                           else if move.CredentialsCommitted? && WantsCredentials(a.config)
                           then BuildAllPatches(a.config.config, a.secret) else ks.patches)
      && after.generation == (if after.suspend != ks.suspend || after.patches != ks.patches
                              then ks.generation + 1 else ks.generation)
      && (after.deleting, after.observedGeneration, after.ready, after.lastAppliedRevision)
         == (ks.deleting, ks.observedGeneration, ks.ready, ks.lastAppliedRevision)
  {
    hide BuildAllPatches, ConfigChanged, InfraWorks;
  }

  /** The commit that lets the gate open is never made over patches that lack credentials
      the config asks for: there is no config, or it asks for none, or the Secret was there
      and the stored patches are the config's own, rendered with it. */
  lemma CommitCarriesCredentials(ks: KsObject, a: Answers)
    requires Pass(ks, a).1.CredentialsCommitted?
    ensures
      || a.config.ConfigAbsent?
      || (a.config.ConfigFound? && !WantsCredentials(a.config))
      || (a.config.ConfigFound? && a.secret.Some?
          && Pass(ks, a).0.patches == BuildAllPatches(a.config.config, a.secret))
  {
    hide Pass, BuildAllPatches;
    MoveExactly(ks, a);
    StoredExactly(ks, a);
  }
}
