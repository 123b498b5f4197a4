/** What every reachable PreviewCheck status satisfies, and how one pass moves it. */
module PreviewInvariants {
  import opened Text
  import opened PreviewApi
  import opened PreviewChecks
  import opened PreviewPass
  import Kustomization

  /** The checks a resource runs, in order. */
  function Names(spec: Spec): seq<CheckName> {
    OrderedChecks(spec.Defaulted().checks)
  }

  lemma {:induction false} NamesFacts(spec: Spec)
    ensures Names(spec) != [] && |Names(spec)| <= 4
    ensures forall i, j | 0 <= i < j < |Names(spec)| :: Names(spec)[i] != Names(spec)[j]
  {
    OrderedChecksExactly(spec.Defaulted().checks);
  }

  /** Every selected check is recorded and came out Passed or Skipped. */
  ghost predicate Complete(names: seq<CheckName>, checks: seq<CheckResult>) {
    |checks| == |names| && forall c | c in checks :: c.phase.IsClean()
  }

  ghost predicate IsPrefix(names: seq<CheckName>, checks: seq<CheckResult>) {
    |checks| <= |names| && forall i | 0 <= i < |checks| :: checks[i].name == names[i]
  }

  /** A recorded check has begun, is skipped only if it is the smoke check, and is dated
      to the end exactly when it is over. */
  predicate EntryGood(c: CheckResult) {
    && !c.phase.CheckPending? && (c.phase.CheckSkipped? ==> c.name.Smoke?)
    && c.startedAt.Some? && (c.finishedAt.Some? <==> c.phase.IsTerminal())
  }

  /** The recorded checks are a prefix of the selected ones, only the last of which may
      be anything but Passed or Skipped; a failed one never stands under a
      non-negative phase, and Passed means all of them, and nothing less. */
  ghost predicate ChecksGood(names: seq<CheckName>, checks: seq<CheckResult>, phase: Phase) {
    && IsPrefix(names, checks)
    && (forall i | 0 <= i < |checks| - 1 :: checks[i].phase.IsClean())
    && (forall c | c in checks :: EntryGood(c))
    && ((exists c | c in checks :: c.phase.CheckFailed?) ==> phase.Failed? || phase.Expired?)
    && (phase.Passed? <==> Complete(names, checks))
  }

  /** The verdicts a PreviewCheck can carry. */
  predicate VerdictTable(phase: Phase, reason: Reason) {
    match phase
    case Passed => reason.AllChecksPassed?
    case Failed =>
      reason in {NamespaceGone, AppMismatch, KustomizationNotReady, RevisionMismatch, PodsNotReady, UnexpectedStatus,
                 ProbeJobFailed, KEVExceeded, EPSSExceeded, EnrichmentUnavailable, SmokeJobFailed}
    case Expired =>
      reason in {Timeout, NamespaceGone, TargetUnresolved, KustomizationNotReady, ScanMissing, EnrichmentUnavailable,
                 QuotaExceeded}
    case _ => false
  }

  predicate MetaGood(spec: Spec, st: Status) {
    && (st.phase.IsTerminal() ==> VerdictTable(st.phase, st.reason))
    && (st.phase.IsTerminal() <==> st.completedAt.Some?)
    && (st.previewNamespace == "" || st.previewNamespace == PreviewNamespaceName(spec.prNumber))
    && (st.phase.Failed? && st.reason.NamespaceGone? ==> st.previewNamespace != "")
    && (st.startedAt.Some? <==> st.expiresAt.Some?)
    && (st.startedAt.None? ==> st.phase.Unset? && st.checks == [])
  }

  ghost predicate Good(spec: Spec, st: Status) {
    ChecksGood(Names(spec), st.checks, st.phase) && MetaGood(spec, st)
  }

  lemma {:induction false} FreshIsGood(spec: Spec)
    ensures Good(spec, EmptyStatus)
  {
    NamesFacts(spec);
  }

  /** How many selected checks still have to finish. */
  function Finishing(checks: seq<CheckResult>): (n: nat)
    ensures n <= |checks|
  {
    if checks != [] && !checks[|checks| - 1].phase.IsTerminal() then |checks| - 1 else |checks|
  }

  /** A later check list keeps every finished entry as it is, and the start of every other. */
  ghost predicate Continues(before: seq<CheckResult>, after: seq<CheckResult>) {
    && |before| <= |after| && Finishing(before) <= Finishing(after)
    && before[..Finishing(before)] <= after
    && forall i | 0 <= i < |before| :: after[i].startedAt == before[i].startedAt
  }

  function Unfinished(spec: Spec, st: Status): int {
    |Names(spec)| - Finishing(st.checks)
  }

  // ---- The next check ----

  /** Distinct names sit where the prefix puts them. */
  lemma {:induction false} PositionInPrefix(names: seq<CheckName>, checks: seq<CheckResult>, i: nat)
    requires IsPrefix(names, checks) && i < |names|
    requires forall j, k | 0 <= j < k < |names| :: names[j] != names[k]
    ensures Position(checks, names[i]) == if i < |checks| then i else |checks|
  {
    var p := Position(checks, names[i]);
    if p < |checks| { assert checks[p].name == names[p]; }
  }

  /** In a status without a verdict, the check that runs next is the one after the
      finished ones, and recording it keeps the prefix shape. */
  lemma {:induction false} FinishedExactly(spec: Spec, st: Status)
    requires ChecksGood(Names(spec), st.checks, st.phase) && !st.phase.IsTerminal()
    ensures Finishing(st.checks) < |Names(spec)|
    ensures forall i | 0 <= i < |Names(spec)| :: Finished(st.checks, Names(spec)[i]) <==> i < Finishing(st.checks)
  {
    var names, checks := Names(spec), st.checks;
    NamesFacts(spec);
    hide Names;
    var k := Finishing(checks);
    forall i | 0 <= i < |names| ensures Finished(checks, names[i]) <==> i < k {
      PositionInPrefix(names, checks, i);
      if i < |checks| { assert checks[i] in checks; }
    }
    assert !Complete(names, checks);
    assert k == |checks| ==> forall c | c in checks :: c.phase.IsClean();
  }

  lemma {:induction false} FirstIs(names: seq<CheckName>, checks: seq<CheckResult>, k: nat)
    requires k < |names| && forall i | 0 <= i < |names| :: Finished(checks, names[i]) <==> i < k
    ensures FirstUnfinished(names, checks) == Some(names[k])
  {
    hide Finished;
    assert names[k] in names;
  }

  lemma {:induction false} UpsertAt(checks: seq<CheckResult>, res: CheckResult, k: nat)
    requires k <= |checks| <= k + 1 && Position(checks, res.name) == k
    ensures Upsert(checks, res) == checks[..k] + [res]
  {
    if k == |checks| { assert checks[..k] == checks; }
  }

  lemma {:induction false} NextCheck(spec: Spec, st: Status, res: CheckResult)
    requires ChecksGood(Names(spec), st.checks, st.phase) && !st.phase.IsTerminal()
    ensures var k := Finishing(st.checks);
      && k < |Names(spec)|
      && FirstUnfinished(Names(spec), st.checks) == Some(Names(spec)[k])
      && !Finished(st.checks, Names(spec)[k])
      && (res.name == Names(spec)[k] ==> Upsert(st.checks, res) == st.checks[..k] + [res])
  {
    hide Finished, Names;
    NamesFacts(spec);
    FinishedExactly(spec, st);
    var k := Finishing(st.checks);
    FirstIs(Names(spec), st.checks, k);
    PositionInPrefix(Names(spec), st.checks, k);
    if res.name == Names(spec)[k] { UpsertAt(st.checks, res, k); }
  }

  lemma {:induction false} CompleteExactly(spec: Spec, checks: seq<CheckResult>)
    requires IsPrefix(Names(spec), checks) && forall c | c in checks :: c.phase.IsClean()
    ensures FirstUnfinished(Names(spec), checks).None? <==> |checks| == |Names(spec)|
  {
    var names := Names(spec);
    NamesFacts(spec);
    forall i | 0 <= i < |names| ensures Finished(checks, names[i]) <==> i < |checks| {
      PositionInPrefix(names, checks, i);
      if i < |checks| { assert checks[i] in checks; }
    }
    if |checks| < |names| { assert names[|checks|] in names; }
  }

  // ---- Conservation of what is counted ----

  /** Finished checks, with multiplicity, as (name, phase) pairs. */
  function Tally(checks: seq<CheckResult>): multiset<(CheckName, CheckPhase)> {
    if checks == [] then multiset{}
    else
      var last := checks[|checks| - 1];
      Tally(checks[..|checks| - 1]) + if last.phase.IsTerminal() then multiset{(last.name, last.phase)} else multiset{}
  }

  function VerdictOf(st: Status): multiset<(Phase, Reason)> {
    if st.phase.IsTerminal() then multiset{(st.phase, st.reason)} else multiset{}
  }

  function Counted<T>(o: Option<T>): multiset<T> {
    match o case None => multiset{} case Some(x) => multiset{x}
  }

  /** Dropping an unfinished last entry drops nothing from the tally. */
  lemma {:induction false} TallyFinishing(checks: seq<CheckResult>)
    ensures Tally(checks[..Finishing(checks)]) == Tally(checks)
  {
    if Finishing(checks) == |checks| { assert checks[..|checks|] == checks; }
  }

  lemma {:induction false} TallyExtend(checks: seq<CheckResult>, res: CheckResult)
    ensures Tally(checks + [res])
         == Tally(checks) + if res.phase.IsTerminal() then multiset{(res.name, res.phase)} else multiset{}
  {
    assert (checks + [res])[..|checks|] == checks;
  }

  // ---- One pass ----

  /** What a status write may do to a status without a verdict. */
  ghost predicate GoodWrite(spec: Spec, st: Status, o: Outcome) {
    o.WriteStatus? ==>
      && Good(spec, o.status)
      && Tally(o.status.checks) == Tally(st.checks) + Counted(o.checkDone)
      && VerdictOf(o.status) == Counted(o.verdict)
      && (st.startedAt.Some? ==> o.status.startedAt == st.startedAt && o.status.expiresAt == st.expiresAt)
      && Continues(st.checks, o.status.checks)
      && (st.previewNamespace != "" ==> o.status.previewNamespace == st.previewNamespace)
  }

  /** Publishing over unchanged checks. */
  lemma {:induction false} SayIsGood(spec: Spec, st: Status, from: Status, phase: Phase, reason: Reason, at: Time)
    requires Good(spec, st) && !st.phase.IsTerminal()
    requires from.checks == st.checks && from.phase == st.phase && from.completedAt == st.completedAt
    requires MetaGood(spec, from)
    requires st.startedAt.Some? ==> from.startedAt == st.startedAt && from.expiresAt == st.expiresAt
    requires st.previewNamespace != "" ==> from.previewNamespace == st.previewNamespace
    requires from.startedAt.Some?
    requires phase in {Pending, Running, Failed, Expired}
    requires phase.IsTerminal() ==> VerdictTable(phase, reason)
    requires phase.Failed? && reason.NamespaceGone? ==> from.previewNamespace != ""
    ensures GoodWrite(spec, st, Published(from, phase, reason, at, None))
  {
  }

  /** Recording a step of the next check. */
  lemma {:induction false} StepIsGood(spec: Spec, st: Status, from: Status, s: Step, a: Inputs, res: CheckResult)
    requires Good(spec, st) && !st.phase.IsTerminal() && st.startedAt.Some?
    requires MetaGood(spec, from) && from.previewNamespace != ""
    requires from == st.(previewNamespace := from.previewNamespace, resolvedImage := from.resolvedImage)
    requires st.previewNamespace in {"", from.previewNamespace}
    requires res.name == Names(spec)[Finishing(st.checks)] && res.phase == s.phase && EntryGood(res)
    requires Finishing(st.checks) < |st.checks| ==> res.startedAt == st.checks[Finishing(st.checks)].startedAt
    requires StepCarries(res.name, s)
    ensures var done := if s.phase.IsTerminal() then Some((res.name, s.phase)) else None;
      var o := Verdict(spec.Defaulted(), from.(checks := Upsert(from.checks, res)), s, a, done);
      && GoodWrite(spec, st, o)
      && o.WriteStatus?
      && Finishing(o.status.checks) == Finishing(st.checks) + if s.phase.IsTerminal() then 1 else 0
  {
    hide Continues;
    NextCheck(spec, st, res);
    var names, k := Names(spec), Finishing(st.checks);
    var before := st.checks[..k];
    var checks := before + [res];
    assert Upsert(from.checks, res) == checks;
    BeforeIsClean(spec, st);
    ShapeAfterStep(names, st.checks, k, res);
    TallyFinishing(st.checks);
    TallyExtend(before, res);
    assert checks[|checks| - 1] == res;
    StepContinues(st.checks, res);
    var to := from.(checks := checks);
    if s.phase.IsClean() { CompleteExactly(spec, checks); }
    DefaultedIdempotent(spec);
    VerdictIsGood(spec, st, to, s, a, res);
  }

  lemma {:induction false} StepContinues(checks: seq<CheckResult>, res: CheckResult)
    requires var k := Finishing(checks); k < |checks| ==> res.startedAt == checks[k].startedAt
    ensures Continues(checks, checks[..Finishing(checks)] + [res])
  {
    var k := Finishing(checks);
    var after := checks[..k] + [res];
    assert Finishing(after) >= k;
    assert checks[..k] <= after;
  }

  /** What is recorded of a step of the next check. */
  lemma {:induction false} NextResult(spec: Spec, st: Status, name: CheckName, s: Step, now: Time)
    requires Good(spec, st) && !st.phase.IsTerminal()
    requires var k := Finishing(st.checks); k < |Names(spec)| && name == Names(spec)[k]
    requires StepCarries(name, s)
    ensures var res := Result(Find(st.checks, name), name, s, now);
      && EntryGood(res)
      && (Finishing(st.checks) < |st.checks| ==> res.startedAt == st.checks[Finishing(st.checks)].startedAt)
  {
    var k := Finishing(st.checks);
    NamesFacts(spec);
    hide Names;
    PositionInPrefix(Names(spec), st.checks, k);
    if k < |st.checks| { assert st.checks[k] in st.checks; }
  }

  /** Publishing a recorded step. */
  lemma {:induction false} VerdictIsGood(spec: Spec, st: Status, to: Status, s: Step, a: Inputs, res: CheckResult)
    requires !st.phase.IsTerminal() && st.startedAt.Some?
    requires MetaGood(spec, st) && to.previewNamespace == PreviewNamespaceName(spec.prNumber)
    requires to == st.(previewNamespace := to.previewNamespace, resolvedImage := to.resolvedImage, checks := to.checks)
    requires StepCarries(res.name, s) && res.phase == s.phase
    requires IsPrefix(Names(spec), to.checks)
    requires forall i | 0 <= i < |to.checks| - 1 :: to.checks[i].phase.IsClean()
    requires forall c | c in to.checks :: EntryGood(c)
    requires (exists c | c in to.checks :: c.phase.CheckFailed?) <==> s.phase.CheckFailed?
    requires Complete(Names(spec), to.checks) ==> s.phase.IsClean()
    requires s.phase.IsClean() ==>
      (Complete(Names(spec), to.checks) <==> FirstUnfinished(OrderedChecks(spec.Defaulted().checks), to.checks).None?)
    requires Continues(st.checks, to.checks)
    requires Tally(to.checks)
          == Tally(st.checks) + if s.phase.IsTerminal() then multiset{(res.name, s.phase)} else multiset{}
    ensures var done := if s.phase.IsTerminal() then Some((res.name, s.phase)) else None;
      && GoodWrite(spec, st, Verdict(spec.Defaulted(), to, s, a, done))
      && Verdict(spec.Defaulted(), to, s, a, done).status.checks == to.checks
  {
    hide Names, IsPrefix, Complete, Tally, Finishing, FirstUnfinished;
  }

  lemma {:induction false} BeforeIsClean(spec: Spec, st: Status)
    requires ChecksGood(Names(spec), st.checks, st.phase) && !st.phase.IsTerminal()
    ensures Finishing(st.checks) <= |st.checks|
    ensures forall c | c in st.checks[..Finishing(st.checks)] :: c.phase.IsClean()
  {
    var checks, k := st.checks, Finishing(st.checks);
    forall i | 0 <= i < k ensures checks[i].phase.IsClean() {
      assert checks[i] in checks;
    }
  }

  /** The prefix shape after the k-th check got a new entry. */
  lemma {:induction false} ShapeAfterStep(names: seq<CheckName>, old_: seq<CheckResult>, k: nat, res: CheckResult)
    requires IsPrefix(names, old_) && k <= |old_| && k < |names| && res.name == names[k]
    requires forall c | c in old_[..k] :: c.phase.IsClean()
    requires forall c | c in old_ :: EntryGood(c)
    requires EntryGood(res)
    ensures var checks := old_[..k] + [res];
      && IsPrefix(names, checks)
      && (forall i | 0 <= i < |checks| - 1 :: checks[i].phase.IsClean())
      && (forall c | c in checks :: EntryGood(c))
      && ((exists c | c in checks :: c.phase.CheckFailed?) <==> res.phase.CheckFailed?)
      && (Complete(names, checks) <==> k + 1 == |names| && res.phase.IsClean())
  {
    var before := old_[..k];
    var checks := before + [res];
    assert forall c | c in before :: c in old_;
    assert forall c | c in checks :: c in before || c == res;
    assert checks[k] == res && res in checks;
    assert forall i | 0 <= i < k :: checks[i] == before[i] && before[i] in before;
  }

  /** A step as it is recorded: its own vocabulary, or what the deadline made of it. */
  ghost predicate StepCarries(name: CheckName, s: Step) {
    && !s.phase.CheckPending?
    && (s.phase.CheckSkipped? ==> name.Smoke?)
    && (s.phase.CheckFailed? ==>
          var phase := if s.crPhase.Some? then s.crPhase.value else TerminalPhaseFor(s.reason);
          phase in {Failed, Expired} && VerdictTable(phase, s.reason))
  }

  lemma {:induction false} SettledStepCarries(name: CheckName, raw: Step, late: bool)
    requires StepVocabulary(name, raw)
    ensures StepCarries(name, Settle(raw, late))
    ensures late ==> Settle(raw, late).phase.IsTerminal()
  {
  }

  /** A status write keeps everything above true, and moves the counters' due by exactly
      what it announces. */
  lemma {:induction false} PassIsGood(cr: CR, a: Inputs)
    requires Good(cr.spec, cr.status)
    ensures Pass(cr, a).outcome.WriteStatus? ==> !cr.status.phase.IsTerminal()
    ensures GoodWrite(cr.spec, cr.status, Pass(cr, a).outcome)
  {
    hide CheckGate, ChecksGood, VerdictTable;
    var spec, st := cr.spec, cr.status;
    if cr.deleting || !cr.finalizer || st.phase.IsTerminal() {
    } else if st.startedAt.None? {
      StampIsGood(cr, a);
    } else if st.expiresAt.Some? && a.now >= st.expiresAt.value {
      TableFacts();
      SayIsGood(spec, st, st, Expired, Timeout, a.published);
    } else {
      ResolveIsGood(cr, a);
    }
  }

  lemma {:induction false} TableFacts()
    ensures VerdictTable(Expired, Timeout)
    ensures VerdictTable(Expired, NamespaceGone) && VerdictTable(Failed, NamespaceGone)
    ensures VerdictTable(Expired, TargetUnresolved) && VerdictTable(Failed, AppMismatch)
    ensures VerdictTable(Failed, RevisionMismatch) && VerdictTable(Failed, KustomizationNotReady)
    ensures VerdictTable(Expired, KustomizationNotReady)
  {
  }

  lemma {:induction false} StampIsGood(cr: CR, a: Inputs)
    requires Good(cr.spec, cr.status) && !cr.status.phase.IsTerminal() && cr.status.startedAt.None?
    ensures var expiresAt := Some(a.now + cr.spec.Defaulted().ttlSeconds * SECOND);
      var stamped := cr.status.(startedAt := Some(a.now), expiresAt := expiresAt);
      GoodWrite(cr.spec, cr.status, Published(stamped, Pending, ReasonPending, a.published, None))
  {
    NamesFacts(cr.spec);
  }

  ghost predicate Ongoing(cr: CR) {
    Good(cr.spec, cr.status) && !cr.status.phase.IsTerminal() && cr.status.startedAt.Some?
  }

  /** A verdict, or a wait, pronounced before any check is looked at. */
  lemma {:induction false} SaidIsGood(cr: CR, a: Inputs, phase: Phase, reason: Reason)
    requires Ongoing(cr) && (phase.Pending? || (phase.IsTerminal() && !phase.Passed? && VerdictTable(phase, reason)))
    requires phase.Failed? && reason.NamespaceGone? ==> cr.status.previewNamespace != ""
    ensures GoodWrite(cr.spec, cr.status, Say(cr.status, phase, reason, a).outcome)
  {
    hide ChecksGood, VerdictTable, GoodWrite, Published;
    SayIsGood(cr.spec, cr.status, cr.status, phase, reason, a.published);
  }

  lemma {:induction false} ErrorIsGood(spec: Spec, st: Status)
    ensures GoodWrite(spec, st, ReconcileError)
  {
  }

  lemma {:induction false} ResolveIsGood(cr: CR, a: Inputs)
    requires Ongoing(cr)
    ensures GoodWrite(cr.spec, cr.status, ResolveNamespace(cr.spec.Defaulted(), cr.status, Late(cr, a), a).outcome)
  {
    TableFacts();
    DefaultedKeepsGiven(cr.spec);
    hide CheckGate, VerdictTable, Say, GoodWrite, Good, Late, PreviewNamespaceName, Spec.Defaulted, Ongoing;
    var spec, st := cr.spec, cr.status;
    var waiting := if Late(cr, a) then Expired else Pending;
    match a.ns {
      case NsError => ErrorIsGood(spec, st);
      case NsAbsent | NsTerminating =>
        if st.previewNamespace != "" { SaidIsGood(cr, a, Failed, NamespaceGone); }
        else { SaidIsGood(cr, a, waiting, NamespaceGone); }
      case NsFound(labelled, app) =>
        if !labelled { SaidIsGood(cr, a, waiting, NamespaceGone); }
        else if app == "" { SaidIsGood(cr, a, waiting, TargetUnresolved); }
        else if spec.app != "" && spec.app != app { SaidIsGood(cr, a, Failed, AppMismatch); }
        else { GateIsGood(cr, a); }
    }
  }

  /** The working status once the namespace has been observed. */
  function Observed(cr: CR): Status {
    cr.status.(previewNamespace := PreviewNamespaceName(cr.spec.prNumber))
  }

  lemma {:induction false} GateIsGood(cr: CR, a: Inputs)
    requires Ongoing(cr)
    ensures GoodWrite(cr.spec, cr.status, CheckGate(cr.spec.Defaulted(), Observed(cr), Late(cr, a), a).outcome)
  {
    hide ChecksGood, VerdictTable, AdvanceCheck, Kustomization.KustomizationSettled;
    TableFacts();
    var spec, st, from := cr.spec, cr.status, Observed(cr);
    if a.ks.KsError? { return; }
    var gate := GateOf(spec.Defaulted(), a.ks);
    if gate.Settled? {
      AdvanceIsGood(cr, a);
    } else if Late(cr, a) {
      var phase := if gate.WrongRevision? || gate.readyFalse then Failed else Expired;
      SayIsGood(spec, st, from, phase, GateReason(gate), a.published);
    } else {
      SayIsGood(spec, st, from, if AnyStarted(st.checks) then Running else Pending, GateReason(gate), a.published);
    }
  }

  /** With the gate open, exactly the next check is advanced. */
  lemma {:induction false} AdvanceIsGood(cr: CR, a: Inputs)
    requires Ongoing(cr)
    ensures var r := RunChecks(cr.spec.Defaulted(), Observed(cr), Late(cr, a), a);
      && GoodWrite(cr.spec, cr.status, r.outcome)
      && (Late(cr, a) ==> r.outcome.WriteStatus?)
      && (Late(cr, a) && !r.outcome.status.phase.IsTerminal() ==>
            Finishing(r.outcome.status.checks) == Finishing(cr.status.checks) + 1)
  {
    var spec, st, late := cr.spec, cr.status, Late(cr, a);
    var d := spec.Defaulted();
    NextCheck(spec, st, CheckResult(Readiness, CheckRunning, NoReason, None, None));
    var name := Names(spec)[Finishing(st.checks)];
    NextCheck(spec, st, CheckResult(name, CheckRunning, NoReason, None, None));
    var from := Observed(cr);
    assert RunChecks(d, from, late, a) == AdvanceCheck(d, from, late, a, name);
    hide EvaluateCheck, ChecksGood, Verdict, Upsert, Settle, Result, Find, EntryGood, Continues;
    var e := EvaluateCheck(name, d, from.resolvedImage, true, a.checks);
    StepsSpeakTheVocabulary(name, d, from.resolvedImage, true, a.checks);
    var from1 := from.(resolvedImage := e.resolvedImage);
    match e.step {
      case None =>
        TableFacts();
        if late { SayIsGood(spec, st, from1, Expired, Timeout, a.published); }
      case Some(raw) =>
        SettledStepCarries(name, raw, late);
        var s := Settle(raw, late);
        NextResult(spec, st, name, s, a.now);
        StepIsGood(spec, st, from1, s, a, Result(Find(from.checks, name), name, s, a.now));
    }
  }
}
