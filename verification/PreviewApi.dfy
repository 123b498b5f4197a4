/** The PreviewCheck resource: phases, reasons, spec, status. */
module PreviewApi {
  import opened Text

  type Time = int

  const SECOND: int := 1_000_000_000

  datatype CheckName = Readiness | Http | Trivy | Smoke

  datatype Phase = Unset | Pending | Running | Passed | Failed | Expired {
    /** A phase the reconciler never leaves. */
    predicate IsTerminal() { Passed? || Failed? || Expired? }
  }

  datatype CheckPhase = CheckPending | CheckRunning | CheckPassed | CheckFailed | CheckSkipped {
    predicate IsTerminal() { CheckPassed? || CheckFailed? || CheckSkipped? }
    predicate IsClean() { CheckPassed? || CheckSkipped? }
  }

  datatype Reason =
    | NoReason | ReasonPending | ReasonRunning | AllChecksPassed
    | KustomizationNotReady | RevisionMismatch | PodsNotReady | TargetUnresolved
    | UnexpectedStatus | ProbeJobFailed | ScanPending | ScanMissing
    | KEVExceeded | EPSSExceeded | EnrichmentUnavailable | InvalidThreshold
    | NoSmokeTest | SmokeJobFailed | AppMismatch | NamespaceGone | QuotaExceeded | Timeout

  datatype Spec = Spec(
    prNumber: int, app: string, image: string, revision: string, checks: seq<CheckName>,
    httpPath: string, expectStatus: seq<int>, timeoutSeconds: int, ttlSeconds: int,
    kevMax: Option<int>, epssMaxPermille: Option<int>)
  {
    /** The spec with every CRD default filled in. */
    function Defaulted(): (d: Spec)
      ensures d.checks != [] && d.expectStatus != [] && d.timeoutSeconds > 0 && d.ttlSeconds > 0
      ensures d.kevMax.Some? && d.epssMaxPermille.Some?
      ensures checks != [] ==> d.checks == checks
      ensures d.httpPath != ""
    {
      var d1 := if checks == [] then this.(checks := [Readiness, Http, Trivy, Smoke]) else this;
      var d2 := if httpPath == "" then d1.(httpPath := "/") else d1;
      var d3 := if expectStatus == [] then d2.(expectStatus := DEFAULT_EXPECT_STATUS) else d2;
      var d4 := if timeoutSeconds <= 0 then d3.(timeoutSeconds := 1800) else d3;
      var d5 := if ttlSeconds <= 0 then d4.(ttlSeconds := 7200) else d4;
      var d6 := if kevMax.None? then d5.(kevMax := Some(0)) else d5;
      if epssMaxPermille.None? then d6.(epssMaxPermille := Some(500)) else d6
    }

    /** Everything the CRD lets nobody change once the resource exists: required, or
        defaulted and so never absent. */
    function Immutable(): (int, seq<CheckName>, string, seq<int>) {
      (prNumber, checks, httpPath, expectStatus)
    }

    /** What the CRD lets an edit make of a spec.  The rules on app, image and revision
        compare two values, so they bind only while the field is there before and after. */
    predicate MayBecome(to: Spec) {
      && to.Immutable() == Immutable()
      && (app == "" || to.app == "" || to.app == app)
      && (image == "" || to.image == "" || to.image == image)
      && (revision == "" || to.revision == "" || to.revision == revision)
    }
  }

  const DEFAULT_EXPECT_STATUS := [200, 201, 202, 203, 204, 301, 302, 303, 307, 308]

  /** Defaulting keeps every value that was given, and everything that has no default. */
  lemma DefaultedKeepsGiven(s: Spec)
    ensures var d := s.Defaulted();
      && (d.prNumber, d.app, d.image, d.revision) == (s.prNumber, s.app, s.image, s.revision)
      && d.checks == (if s.checks == [] then EXECUTION_ORDER else s.checks)
      && (s.httpPath != "" ==> d.httpPath == s.httpPath)
      && (s.expectStatus != [] ==> d.expectStatus == s.expectStatus)
      && (s.timeoutSeconds > 0 ==> d.timeoutSeconds == s.timeoutSeconds)
      && (s.ttlSeconds > 0 ==> d.ttlSeconds == s.ttlSeconds)
      && (s.kevMax.Some? ==> d.kevMax == s.kevMax)
      && (s.epssMaxPermille.Some? ==> d.epssMaxPermille == s.epssMaxPermille)
  {
  }

  /** What a field left open, or given a value the API does not admit, becomes. */
  lemma DefaultedFillsIn(s: Spec)
    ensures var d := s.Defaulted();
      && (s.checks == [] ==> d.checks == [Readiness, Http, Trivy, Smoke])
      && (s.httpPath == "" ==> d.httpPath == "/")
      && (s.expectStatus == [] ==> d.expectStatus == [200, 201, 202, 203, 204, 301, 302, 303, 307, 308])
      && (s.timeoutSeconds <= 0 ==> d.timeoutSeconds == 1800)
      && (s.ttlSeconds <= 0 ==> d.ttlSeconds == 7200)
      && (s.kevMax.None? ==> d.kevMax == Some(0))
      && (s.epssMaxPermille.None? ==> d.epssMaxPermille == Some(500))
  {
  }

  /** Defaulting twice is defaulting once. */
  lemma DefaultedIdempotent(s: Spec)
    ensures s.Defaulted().Defaulted() == s.Defaulted()
  {
  }

  datatype CheckResult = CheckResult(
    name: CheckName, phase: CheckPhase, reason: Reason, startedAt: Option<Time>, finishedAt: Option<Time>)

  datatype Status = Status(
    phase: Phase, reason: Reason, checks: seq<CheckResult>, previewNamespace: string, resolvedImage: string,
    startedAt: Option<Time>, expiresAt: Option<Time>, completedAt: Option<Time>)

  const EmptyStatus := Status(Unset, NoReason, [], "", "", None, None, None)

  function PreviewNamespaceName(prNumber: int): (r: string)
    ensures r != ""
  {
    "preview-pr-" + Decimal(prNumber)
  }

  /** Two pull requests never share a preview namespace. */
  lemma NamespaceNamesDiffer(p: nat, q: nat)
    ensures PreviewNamespaceName(p) == PreviewNamespaceName(q) <==> p == q
  {
    ValueOfDecimal(p);
    ValueOfDecimal(q);
    assert PreviewNamespaceName(p)[11..] == Decimal(p) && PreviewNamespaceName(q)[11..] == Decimal(q);
  }

  /** The order in which checks always run. */
  const EXECUTION_ORDER := [Readiness, Http, Trivy, Smoke]

  function Selected(order: seq<CheckName>, wanted: seq<CheckName>): seq<CheckName> {
    if order == [] then []
    else
      var n := |order| - 1;
      Selected(order[..n], wanted) + if order[n] in wanted then [order[n]] else []
  }

  predicate Increasing(names: seq<CheckName>) {
    forall i, j | 0 <= i < j < |names| :: Rank(names[i]) < Rank(names[j])
  }

  lemma {:induction false} SelectedExactly(order: seq<CheckName>, wanted: seq<CheckName>)
    requires Increasing(order)
    ensures Increasing(Selected(order, wanted)) && |Selected(order, wanted)| <= |order|
    ensures forall n :: n in Selected(order, wanted) <==> n in order && n in wanted
  {
    if order != [] {
      var k := |order| - 1;
      var before := Selected(order[..k], wanted);
      SelectedExactly(order[..k], wanted);
      assert order == order[..k] + [order[k]];
      forall i | 0 <= i < |before| ensures Rank(before[i]) < Rank(order[k]) {
        assert before[i] in before && before[i] in order[..k];
      }
    }
  }

  function OrderedChecks(wanted: seq<CheckName>): seq<CheckName> {
    Selected(EXECUTION_ORDER, wanted)
  }

  /** The selected checks, each once, nothing lost, in the fixed order however the
      spec listed them. */
  lemma OrderedChecksExactly(wanted: seq<CheckName>)
    ensures Increasing(OrderedChecks(wanted)) && |OrderedChecks(wanted)| <= 4
    ensures forall n :: n in OrderedChecks(wanted) <==> n in wanted
    ensures wanted != [] ==> OrderedChecks(wanted) != []
  {
    SelectedExactly(EXECUTION_ORDER, wanted);
    forall n: CheckName ensures n in EXECUTION_ORDER {
      assert EXECUTION_ORDER[Rank(n)] == n;
    }
    if wanted != [] { assert wanted[0] in OrderedChecks(wanted); }
  }

  function Rank(n: CheckName): (r: int)
    ensures 0 <= r < 4
  {
    match n case Readiness => 0 case Http => 1 case Trivy => 2 case Smoke => 3
  }

  method ComputeOrderedChecks(wanted: seq<CheckName>) returns (out: seq<CheckName>)
    ensures out == OrderedChecks(wanted)
  {
    var want: set<CheckName> := {};
    for i := 0 to |wanted|
      invariant want == set n | n in wanted[..i]
    {
      want := want + {wanted[i]};
    }
    assert wanted[..|wanted|] == wanted;
    var order := EXECUTION_ORDER;
    out := [];
    for i := 0 to |order|
      invariant out == Selected(order[..i], wanted)
    {
      assert order[..i + 1][..i] == order[..i];
      if order[i] in want { out := out + [order[i]]; }
    }
    assert order[..|order|] == order;
  }

  /** What a failed check's reason says about the change: judged bad, or never judged. */
  function TerminalPhaseFor(reason: Reason): Phase {
    match reason
    case ScanMissing | EnrichmentUnavailable | QuotaExceeded | TargetUnresolved | Timeout => Expired
    case _ => Failed
  }
}
