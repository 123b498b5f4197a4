/** The preview Kustomization: the gate that decides whether it has settled, and the
    annotation machine that suspends, patches and re-renders it. */
module Kustomization {
  import opened Text

  // ---- The object ----

  datatype ConditionStatus = ConditionTrue | ConditionFalse | ConditionUnknown

  datatype ReadyCondition = ReadyCondition(observedGeneration: int, status: ConditionStatus)

  datatype Credentials = Credentials(username: string, password: string)

  /** A patch by what it was rendered from; its text belongs to other tools. */
  datatype Patch =
    | StripPatch(group: string, kind: string)
    | ValuesFromStrip
    | HelmValues(config: string, credentials: Option<Credentials>)
    | ContainerStrip(config: string)
    | EnvOverrides(config: string)

  datatype KsObject = KsObject(
    suspend: bool, annotations: map<string, string>, patches: seq<Patch>, finalizer: bool, deleting: bool,
    generation: int, observedGeneration: int, ready: Option<ReadyCondition>, lastAppliedRevision: string)
  {
    predicate Marked(key: string) { key in annotations && annotations[key] == "true" }
    predicate PatchesApplied() { Marked(PATCHES_APPLIED) }
    predicate InfraCreated() { Marked(INFRA_CREATED) }
    predicate CredentialsPatched() { Marked(CREDENTIALS_PATCHED) }
    predicate Commented() { Marked(PR_COMMENTED) }
    predicate RenderedFrom(hash: string) { CONFIG_HASH in annotations && annotations[CONFIG_HASH] == hash }
    /** Neither suspended nor claimed by the annotation machine. */
    predicate Legacy() { !suspend && !PatchesApplied() }
  }

  const PATCHES_APPLIED := "preview.homelab.io/patches-applied"
  const INFRA_CREATED := "preview.homelab.io/infra-created"
  const CREDENTIALS_PATCHED := "preview.homelab.io/credentials-patched"
  const PR_COMMENTED := "preview.homelab.io/pr-commented"
  const CONFIG_HASH := "preview.homelab.io/config-hash"

  /** The five annotation keys are five different keys. */
  lemma KeysDiffer()
    ensures PATCHES_APPLIED != INFRA_CREATED && PATCHES_APPLIED != CREDENTIALS_PATCHED
    ensures PATCHES_APPLIED != PR_COMMENTED && PATCHES_APPLIED != CONFIG_HASH
    ensures INFRA_CREATED != CREDENTIALS_PATCHED && INFRA_CREATED != PR_COMMENTED && INFRA_CREATED != CONFIG_HASH
    ensures CREDENTIALS_PATCHED != PR_COMMENTED && CREDENTIALS_PATCHED != CONFIG_HASH && PR_COMMENTED != CONFIG_HASH
  {
    assert PATCHES_APPLIED[20] == 'a' && INFRA_CREATED[20] == 'n' && CREDENTIALS_PATCHED[20] == 'r';
    assert PR_COMMENTED[20] == 'r' && CONFIG_HASH[20] == 'o';
    assert CREDENTIALS_PATCHED[19] == 'c' && PR_COMMENTED[19] == 'p';
  }

  // ---- The gate ----

  datatype Gate = Settled | NotReady(readyFalse: bool) | WrongRevision

  /** Has Flux finished applying the revision under test? */
  function KustomizationSettled(ks: KsObject, revision: string): Gate {
    if ks.suspend then NotReady(false)
    else if !ks.CredentialsPatched() then NotReady(false)
    else if ks.generation != ks.observedGeneration then NotReady(false)
    else match ks.ready
      case None => NotReady(false)
      case Some(ready) =>
        if ready.observedGeneration != 0 && ready.observedGeneration != ks.generation then NotReady(false)
        else if ready.status.ConditionFalse? then NotReady(true)
        else if !ready.status.ConditionTrue? then NotReady(false)
        else if revision != "" && !HasSuffix(ks.lastAppliedRevision, revision) then WrongRevision
        else Settled
  }

  /** An annotation that is set and says "true". */
  predicate Says(ks: KsObject, key: string) { key in ks.annotations && ks.annotations[key] == "true" }

  /** Unsuspended, with its credentials in, and seen by Flux as it is now, Ready or not. */
  predicate Current(ks: KsObject) {
    && !ks.suspend && Says(ks, CREDENTIALS_PATCHED) && ks.generation == ks.observedGeneration
    && ks.ready.Some? && ks.ready.value.observedGeneration in {0, ks.generation}
  }

  /** The applied revision is the one under test, where one is. */
  ghost predicate Applied(ks: KsObject, revision: string) {
    revision == "" || exists head :: ks.lastAppliedRevision == head + revision
  }

  /** The gate is open exactly when nothing suspends the Kustomization, its credentials are
      in, and Flux reports Ready for the generation and the revision under test. */
  lemma GateOpensExactly(ks: KsObject, revision: string)
    ensures KustomizationSettled(ks, revision).Settled? <==>
      Current(ks) && ks.ready.value.status.ConditionTrue? && Applied(ks, revision)
  {
    SuffixExactly(ks.lastAppliedRevision, revision);
  }

  /** Flux has judged what is in front of it and found against the change: it does not
      apply, or something else was applied. */
  ghost predicate Refutes(ks: KsObject, revision: string) {
    && Current(ks)
    && (ks.ready.value.status.ConditionFalse? || (ks.ready.value.status.ConditionTrue? && !Applied(ks, revision)))
  }

  /** A negative answer counts against the change only when Flux said so about the
      very generation in front of it. */
  lemma NegativeGateExactly(ks: KsObject, revision: string)
    ensures KustomizationSettled(ks, revision) in {NotReady(true), WrongRevision} <==> Refutes(ks, revision)
    ensures KustomizationSettled(ks, revision) == WrongRevision <==>
      Current(ks) && ks.ready.value.status.ConditionTrue? && !Applied(ks, revision)
  {
    SuffixExactly(ks.lastAppliedRevision, revision);
  }

  // ---- Rendering ----

  /** `plainValues` says that some value other than a credential is mapped to a path that
      can be rendered; `overridden` holds the paths that mappings later than the database
      write, extra values among them; `envOverrides` and `stripContainers` say that there is
      something to override or strip. */
  datatype PreviewConfig = PreviewConfig(
    hash: string, helm: bool, helmValues: bool, plainValues: bool, overridden: set<string>,
    databaseUser: string, databasePassword: string, envOverrides: bool, stripContainers: bool)
  {
    predicate NeedsCredentials() { helmValues && (databaseUser != "" || databasePassword != "") }

    /** A credential mapped to a path shows there, unless it is an array path, which is
        skipped, or written over. */
    predicate Shows(path: string) { path != "" && Free(path, '[') && path !in overridden }

    predicate RendersCredentials() { Shows(databaseUser) || Shows(databasePassword) }

    /** What a value patch carries of the credentials at hand. */
    function Carried(credentials: Option<Credentials>): Option<Credentials> {
      if RendersCredentials() then credentials else None
    }

    /** There is a value to render. */
    predicate RendersValues(credentials: Option<Credentials>) {
      helmValues && (plainValues || Carried(credentials).Some?)
    }
  }

  const STRIP_TARGETS := [
    ("", "Namespace"), ("external-secrets.io", "SecretStore"), ("external-secrets.io", "ExternalSecret"),
    ("external-secrets.io", "PushSecret"), ("cert-manager.io", "Certificate"),
    ("gateway.networking.k8s.io", "HTTPRoute"), ("connectivity.homelab.io", "DDNSRecord"),
    ("security.istio.io", "PeerAuthentication"), ("redhatcop.redhat.io", "Policy"),
    ("redhatcop.redhat.io", "KubernetesAuthEngineRole"), ("gateway.envoyproxy.io", "SecurityPolicy"),
    ("gateway.envoyproxy.io", "ClientTrafficPolicy"), ("security.homelab.io", "OIDCClient"),
    ("batch", "Job"), ("generators.external-secrets.io", "Password"), ("postgresql.cnpg.io", "Database")]

  function StripPatches(targets: seq<(string, string)>): (r: seq<Patch>)
    ensures |r| == |targets|
  {
    seq(|targets|, i requires 0 <= i < |targets| => StripPatch(targets[i].0, targets[i].1))
  }

  /** Every patch of a preview.  Never empty, whatever the config: the strip patches
      are always there. */
  function BuildAllPatches(config: PreviewConfig, credentials: Option<Credentials>): (r: seq<Patch>)
    ensures |r| >= 16 && r != []
  {
    var strip := StripPatches(STRIP_TARGETS);
    if config.helm then
      strip + [ValuesFromStrip]
      + (if config.RendersValues(credentials) then [HelmValues(config.hash, config.Carried(credentials))] else [])
      + (if config.envOverrides then [EnvOverrides(config.hash)] else [])
    else
      strip
      + (if config.stripContainers then [ContainerStrip(config.hash)] else [])
      + (if config.envOverrides then [EnvOverrides(config.hash)] else [])
  }

  // ---- One reconcile ----

  datatype ConfigAnswer = ConfigFound(config: PreviewConfig) | ConfigAbsent(emptyHash: string) | ConfigError {
    /** A missing config renders, and hashes, as the empty one. */
    function Effective(): PreviewConfig
      requires !ConfigError?
    {
      match this
      case ConfigFound(c) => c
      case ConfigAbsent(h) => PreviewConfig(h, false, false, false, {}, "", "", false, false)
    }
  }

  /** Everything the cluster and the forge answer during one pass.  `first` and
      `second` say whether the pass's first and second update land. */
  datatype Answers = Answers(
    teardownOk: bool, hashConfig: ConfigAnswer, config: ConfigAnswer, infraOk: bool,
    secret: Option<Credentials>, gitRepo: bool, commentOk: bool, first: bool, second: bool)

  datatype Move =
    | Nothing | FinalizerAdded | FinalizerRemoved | Prepared | RerenderNoticed | InfraRecorded
    | CredentialsCommitted | CommentRecorded | LossNoticed | Deferred

  function Write(stored: KsObject, draft: KsObject, lands: bool): KsObject {
    if !lands then stored
    else draft.(generation := if stored.suspend != draft.suspend || stored.patches != draft.patches
                              then stored.generation + 1 else stored.generation)
  }

  function Without(a: map<string, string>, keys: set<string>): map<string, string> { a - keys }

  function PrepareDraft(ks: KsObject, c: PreviewConfig): KsObject {
    var marked := ks.annotations[PATCHES_APPLIED := "true"];
    ks.(patches := BuildAllPatches(c, None), suspend := false,
        annotations := if c.hash != "" then marked[CONFIG_HASH := c.hash] else marked)
  }

  /** Back to the suspended state; infra-created stays. */
  function ResetDraft(ks: KsObject): KsObject {
    ks.(suspend := true, annotations := Without(ks.annotations, {PATCHES_APPLIED, CREDENTIALS_PATCHED}))
  }

  function CredentialsDraft(ks: KsObject, c: ConfigAnswer, secret: Option<Credentials>): Option<KsObject> {
    var marked := ks.(annotations := ks.annotations[CREDENTIALS_PATCHED := "true"]);
    match c
    case ConfigError => None
    case ConfigAbsent(_) => Some(marked)
    case ConfigFound(config) =>
      if !config.NeedsCredentials() then Some(marked)
      else if secret.None? then None
      else Some(marked.(patches := BuildAllPatches(config, secret)))
  }

  function ConfigChanged(ks: KsObject, c: ConfigAnswer): bool {
    !c.ConfigError? && c.Effective().hash != "" && !ks.RenderedFrom(c.Effective().hash)
  }

  function InfraWorks(a: Answers): bool {
    a.config.ConfigAbsent? || (a.config.ConfigFound? && a.infraOk)
  }

  /** The Kustomization as stored after one reconcile, and what was committed. */
  function Pass(ks: KsObject, a: Answers): (KsObject, Move) {
    if ks.deleting then
      if ks.finalizer && a.teardownOk && a.first then (Write(ks, ks.(finalizer := false), true), FinalizerRemoved)
      else (ks, Nothing)
    else if !ks.finalizer then
      (Write(ks, ks.(finalizer := true), a.first), if a.first then FinalizerAdded else Nothing)
    else if ks.suspend then
      if a.config.ConfigError? || !a.first then (ks, Nothing)
      else (Write(ks, PrepareDraft(ks, a.config.Effective()), true), Prepared)
    else if ks.PatchesApplied() then AfterPatches(ks, a)
    else (ks, Deferred)
  }

  function AfterPatches(ks: KsObject, a: Answers): (KsObject, Move) {
    if ConfigChanged(ks, a.hashConfig) then
      (Write(ks, ResetDraft(ks), a.first), if a.first then RerenderNoticed else Nothing)
    else if !ks.InfraCreated() then
      if InfraWorks(a) && a.first then
        (Write(ks, ks.(annotations := ks.annotations[INFRA_CREATED := "true"]), true), InfraRecorded)
      else (ks, Nothing)
    else if !ks.CredentialsPatched() then
      match CredentialsDraft(ks, a.config, a.secret)
      case None => (ks, Nothing)
      case Some(draft) => (Write(ks, draft, a.first), if a.first then CredentialsCommitted else Nothing)
    else
      var comments := !ks.Commented() && a.gitRepo && a.commentOk;
      var draft := if comments then ks.(annotations := ks.annotations[PR_COMMENTED := "true"]) else ks;
      var stored := Write(ks, draft, comments && a.first);
      var lands := if comments then a.second else a.first;
      if ks.patches == [] && lands then (Write(stored, ResetDraft(draft), true), LossNoticed)
      else (stored, if comments && a.first then CommentRecorded else Nothing)
  }

  /** The reconciler's working copy of one Kustomization, and the stored one. */
  class KustomizationPass {
    var suspend: bool
    var annotations: map<string, string>
    var patches: seq<Patch>
    var finalizer: bool
    var stored: KsObject

    constructor (ks: KsObject)
      ensures stored == ks && Draft() == ks
    {
      suspend, annotations, patches, finalizer := ks.suspend, ks.annotations, ks.patches, ks.finalizer;
      stored := ks;
    }

    ghost function Draft(): KsObject
      reads this
    {
      stored.(suspend := suspend, annotations := annotations, patches := patches, finalizer := finalizer)
    }

    method Update(lands: bool) returns (ok: bool)
      modifies this`stored
      ensures ok == lands && stored == Write(old(stored), old(Draft()), lands)
      ensures Draft() == old(Draft()).(generation := stored.generation)
    {
      ok := lands;
      if lands {
        var generation := stored.generation;
        if stored.suspend != suspend || stored.patches != patches { generation := generation + 1; }
        stored := stored.(suspend := suspend, annotations := annotations, patches := patches,
                          finalizer := finalizer, generation := generation);
      }
    }

    method Prepare(answer: ConfigAnswer, lands: bool)
      requires Draft() == stored
      modifies this
      ensures stored == if answer.ConfigError? then old(stored)
                        else Write(old(stored), PrepareDraft(old(stored), answer.Effective()), lands)
    {
      if answer.ConfigError? { return; }
      var config := answer.Effective();
      patches := BuildAllPatches(config, None);
      annotations := annotations[PATCHES_APPLIED := "true"];
      if config.hash != "" { annotations := annotations[CONFIG_HASH := config.hash]; }
      suspend := false;
      var _ := Update(lands);
    }

    method Reset(lands: bool)
      modifies this
      ensures stored == Write(old(stored), ResetDraft(old(Draft())), lands)
    {
      annotations := annotations - {PATCHES_APPLIED};
      annotations := annotations - {CREDENTIALS_PATCHED};
      assert annotations == Without(old(annotations), {PATCHES_APPLIED, CREDENTIALS_PATCHED});
      suspend := true;
      var _ := Update(lands);
    }

    method UpdateDBCredentials(answer: ConfigAnswer, secret: Option<Credentials>, lands: bool)
      requires Draft() == stored
      modifies this
      ensures var draft := CredentialsDraft(old(stored), answer, secret);
        stored == if draft.None? then old(stored) else Write(old(stored), draft.value, lands)
    {
      match answer {
        case ConfigError => return;
        case ConfigAbsent(_) =>
        case ConfigFound(config) =>
          if config.NeedsCredentials() {
            if secret.None? { return; }
            patches := BuildAllPatches(config, secret);
          }
      }
      annotations := annotations[CREDENTIALS_PATCHED := "true"];
      var _ := Update(lands);
    }

    method Reconcile(a: Answers)
      requires Draft() == stored
      modifies this
      ensures stored == Pass(old(stored), a).0
    {
      if stored.deleting {
        if finalizer && a.teardownOk {
          finalizer := false;
          var _ := Update(a.first);
        }
        return;
      }
      if !finalizer {
        finalizer := true;
        var _ := Update(a.first);
        return;
      }
      if suspend {
        Prepare(a.config, a.first);
        return;
      }
      if !stored.PatchesApplied() { return; }
      if ConfigChanged(stored, a.hashConfig) {
        Reset(a.first);
        return;
      }
      if !stored.InfraCreated() {
        if InfraWorks(a) {
          annotations := annotations[INFRA_CREATED := "true"];
          var _ := Update(a.first);
        }
        return;
      }
      if !stored.CredentialsPatched() {
        UpdateDBCredentials(a.config, a.secret, a.first);
        return;
      }
      var comments := !stored.Commented() && a.gitRepo && a.commentOk;
      if comments {
        annotations := annotations[PR_COMMENTED := "true"];
        var _ := Update(a.first);
      }
      if |patches| == 0 {
        Reset(if comments then a.second else a.first);
      }
    }
  }
}
