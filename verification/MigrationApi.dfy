/** The MigrationCheck resource: phases, reasons, the names it gives to what it creates
    and the arithmetic of its deadlines. */
module MigrationApi {
  import opened Text

  type Time = int

  const SECOND: int := 1_000_000_000

  datatype Phase = Unset | Pending | Provisioning | Ready | Running | Passed | Failed | Expired {
    predicate IsTerminal() { Passed? || Failed? || Expired? }
    /** How far along a phase is. */
    function Rank(): nat {
      match this
      case Unset | Pending => 0
      case Provisioning => 1
      case Ready => 2
      case Running => 3
      case _ => 4
    }
  }

  datatype Reason =
    | NoReason | CloneProvisioning | CloneReady | CloneFailed | CloneNotReady | ProbeRunning | ProbePassed
    | ProbeFailed | ImageUnavailable | PodNotStarted | DeadlineExceeded | TTLTooShort

  datatype Probe = Probe(timeoutSeconds: int)

  /** What a check asks for.  `reporting` says that it names a report and that the
      operator has a reporter. */
  datatype Spec = Spec(
    name: string, namespace: string, uid: string, created: Time, appName: string,
    clusterName: string, clusterNamespace: string, ttlSeconds: int, readyTimeoutSeconds: int,
    probe: Option<Probe>, reporting: bool)

  datatype Status = Status(
    phase: Phase, reason: Reason, message: string, connectionSecret: string, cloneNamespace: string,
    expiresAt: Option<Time>, startedAt: Option<Time>, probeJob: string, probeStartedAt: Option<Time>,
    completedAt: Option<Time>, checkRun: int, reported: Phase)

  const EmptyStatus := Status(Unset, NoReason, "", "", "", None, None, "", None, None, 0, Unset)

  // ---- Names ----

  function Dashless(s: string): (r: string)
    ensures Free(r, '-')
  {
    if s == "" then ""
    else
      var rest := Dashless(s[1..]);
      if s[0] == '-' then rest else [s[0]] + rest
  }

  function CheckID(spec: Spec): (id: string)
    ensures id != "" && (Free(id, '-') || id[0] == 'n')
  {
    var bare := Dashless(spec.uid);
    var cut := if |bare| > 12 then bare[..12] else bare;
    if cut == "" then "n" + spec.name else cut
  }

  function CloneNamespace(spec: Spec): (r: string)
    ensures r != ""
  {
    "migration-check-" + spec.appName + "-" + CheckID(spec)
  }

  function CloneName(spec: Spec): string { "migcheck-" + CheckID(spec) }

  function ContentName(spec: Spec): string { "migcheck-" + CheckID(spec) + "-content" }

  function WarmName(cluster: string): (r: string)
    ensures r != ""
  {
    "migcheck-warm-" + cluster
  }

  function ProbeJobName(spec: Spec): (r: string)
    ensures r != ""
  {
    "migration-probe-" + CheckID(spec)
  }

  function SecretName(spec: Spec): (r: string)
    ensures r != ""
  {
    spec.name + "-db"
  }

  /** No check ever gives its own snapshot the name of a shared warm one. */
  lemma OwnNameIsNotWarm(spec: Spec, cluster: string)
    ensures CloneName(spec) != WarmName(cluster)
  {
    var warm := "warm-" + cluster;
    assert warm[0] == 'w' && warm[4] == '-';
    assert CloneName(spec)[9..] == CheckID(spec);
    assert WarmName(cluster)[9..] == warm;
  }

  // ---- Deadlines ----

  const TWO_63: int := 0x8000_0000_0000_0000
  const MAX_SECONDS: int := 9_223_372_036

  /** The value a 64-bit signed integer ends up with. */
  function Wrap64(x: int): (r: int)
    ensures -TWO_63 <= r < TWO_63
    ensures -TWO_63 <= x < TWO_63 ==> r == x
  {
    (x + TWO_63) % (2 * TWO_63) - TWO_63
  }

  /** A number of seconds as a duration, with the multiplication as the machine does it. */
  function Duration(seconds: int): int { Wrap64(seconds * SECOND) }

  function Seconds(d: int): int { if d >= 0 then d / SECOND else -((-d) / SECOND) }

  function TTL(spec: Spec): int { Duration(if spec.ttlSeconds <= 0 then 3600 else spec.ttlSeconds) }

  /** When the TTL reaps the check. */
  function Deadline(spec: Spec): Time { spec.created + TTL(spec) }

  predicate TTLExpired(spec: Spec, now: Time) { Deadline(spec) - now <= 0 }

  function Remaining(spec: Spec, now: Time): int { if TTLExpired(spec, now) then 0 else Deadline(spec) - now }

  function ReadyTimeout(spec: Spec): int {
    Duration(if spec.readyTimeoutSeconds <= 0 then 1500 else spec.readyTimeoutSeconds)
  }

  predicate ReadyDeadlinePassed(spec: Spec, st: Status, now: Time) {
    var start := if st.startedAt.Some? then st.startedAt.value else spec.created;
    now > start + ReadyTimeout(spec)
  }

  const PULL_GRACE: int := 180 * SECOND
  const SETTLE_GRACE: int := 600 * SECOND
  const JOB_SLACK: int := 120 * SECOND

  function ProbeTimeout(p: Probe): int {
    if p.timeoutSeconds <= 0 then 600 * SECOND else Duration(p.timeoutSeconds)
  }

  /** How long the reconciler lets a probe run. */
  function ProbeBudget(p: Probe): int { Wrap64(ProbeTimeout(p) + PULL_GRACE + SETTLE_GRACE) }

  /** How long, in seconds, the probe Job lets itself run. */
  function JobDeadlineSeconds(p: Probe): int {
    Seconds(Wrap64(ProbeTimeout(p) + PULL_GRACE + SETTLE_GRACE + JOB_SLACK))
  }

  predicate ProbeDeadlinePassed(spec: Spec, st: Status, now: Time) {
    st.probeStartedAt.Some? && spec.probe.Some? && now > st.probeStartedAt.value + ProbeBudget(spec.probe.value)
  }

  /** The Job's own deadline is 120 s later than the reconciler's, to the second, for
      every timeout the machine's arithmetic can hold. */
  lemma JobOutlivesBudget(p: Probe)
    requires p.timeoutSeconds <= MAX_SECONDS - 900
    ensures JobDeadlineSeconds(p) * SECOND == ProbeBudget(p) + 120 * SECOND
    ensures ProbeBudget(p) > 0
  {
    var secs := if p.timeoutSeconds <= 0 then 600 else p.timeoutSeconds;
    assert ProbeTimeout(p) == secs * SECOND;
    assert ProbeTimeout(p) + PULL_GRACE + SETTLE_GRACE + JOB_SLACK == (secs + 900) * SECOND;
  }

  /** A TTL means what it says exactly up to the largest number of seconds that fits. */
  lemma TTLExactly(spec: Spec)
    requires 0 < spec.ttlSeconds < TWO_63
    ensures TTL(spec) == spec.ttlSeconds * SECOND <==> spec.ttlSeconds <= MAX_SECONDS
  {
  }

  /** One second more, and the check counts as expired before it was created. */
  lemma HugeTTLExpiresAtOnce(spec: Spec, now: Time)
    requires spec.ttlSeconds == MAX_SECONDS + 1 && now >= spec.created
    ensures TTLExpired(spec, now)
  {
    assert spec.ttlSeconds * SECOND == 9_223_372_037_000_000_000;
  }

  /** The number of seconds given, or the default. */
  function SecondsOr(given: int, default: int): int { if given > 0 then given else default }

  /** Every deadline, in nanoseconds of wall clock, for all specs the machine's arithmetic
      can hold: the TTL reaps at its end, a probe needs its timeout and thirteen minutes, and
      the other two pass strictly after. */
  lemma DeadlinesExactly(spec: Spec, st: Status, now: Time)
    requires spec.ttlSeconds <= MAX_SECONDS && spec.readyTimeoutSeconds <= MAX_SECONDS
    requires spec.probe.Some? ==> spec.probe.value.timeoutSeconds <= MAX_SECONDS - 900
    ensures var deadline := spec.created + SecondsOr(spec.ttlSeconds, 3600) * 1_000_000_000;
      && Deadline(spec) == deadline
      && (TTLExpired(spec, now) <==> now >= deadline)
      && (ReadyDeadlinePassed(spec, st, now) <==>
            now > (if st.startedAt.Some? then st.startedAt.value else spec.created)
                  + SecondsOr(spec.readyTimeoutSeconds, 1500) * 1_000_000_000)
      && (spec.probe.Some? ==>
            var budget := (SecondsOr(spec.probe.value.timeoutSeconds, 600) + 780) * 1_000_000_000;
            && ProbeBudget(spec.probe.value) == budget
            && (Remaining(spec, now) >= budget <==> now + budget <= deadline)
            && (ProbeDeadlinePassed(spec, st, now) <==>
                  st.probeStartedAt.Some? && now > st.probeStartedAt.value + budget))
  {
    DurationExactly(SecondsOr(spec.ttlSeconds, 3600));
    DurationExactly(SecondsOr(spec.readyTimeoutSeconds, 1500));
    if spec.probe.Some? { DurationExactly(SecondsOr(spec.probe.value.timeoutSeconds, 600)); }
    hide Duration;
  }

  lemma DurationExactly(seconds: int)
    requires 0 <= seconds <= MAX_SECONDS
    ensures Duration(seconds) == seconds * 1_000_000_000
  {
  }

  lemma DashlessChar(c: char)
    ensures Dashless([c]) == if c == '-' then "" else [c]
  {
    assert Dashless([c][1..]) == "";
  }

  lemma DashlessPush(c: char, rest: string)
    ensures Dashless([c] + rest) == Dashless([c]) + Dashless(rest)
  {
    DashlessChar(c);
    assert ([c] + rest)[1..] == rest;
  }

  /** What the dashes leave of an id: they vanish, everything else stays, in order. */
  lemma {:induction false} DashlessExactly(a: string, b: string)
    ensures Dashless(a + b) == Dashless(a) + Dashless(b)
  {
    hide Dashless;
    if a == "" {
      assert a + b == b;
      DashlessEmpty();
    } else {
      DashlessExactly(a[1..], b);
      DashlessPush(a[0], a[1..]);
      DashlessPush(a[0], a[1..] + b);
      assert a == [a[0]] + a[1..] && a + b == [a[0]] + (a[1..] + b);
    }
  }

  lemma DashlessEmpty()
    ensures Dashless("") == ""
  {
  }

  /** An id is the first twelve characters of the UID without its dashes; checks whose UIDs
      differ there never share an object of their own. */
  lemma IDsDiffer(s: Spec, t: Spec)
    ensures |Dashless(s.uid)| >= 12 ==> CheckID(s) == Dashless(s.uid)[..12]
    ensures 0 < |Dashless(s.uid)| < 12 ==> CheckID(s) == Dashless(s.uid)
    ensures Dashless(s.uid) == "" ==> CheckID(s) == "n" + s.name
    ensures CheckID(s) != CheckID(t) ==>
      CloneName(s) != CloneName(t) && ContentName(s) != ContentName(t) && ProbeJobName(s) != ProbeJobName(t)
    ensures CheckID(s) != CheckID(t) && s.appName == t.appName ==> CloneNamespace(s) != CloneNamespace(t)
  {
    assert CloneName(s)[9..] == CheckID(s) && CloneName(t)[9..] == CheckID(t);
    assert ProbeJobName(s)[16..] == CheckID(s) && ProbeJobName(t)[16..] == CheckID(t);
    var n := |ContentName(s)| - 8;
    assert ContentName(s)[..n] == CloneName(s) && ContentName(t)[..|ContentName(t)| - 8] == CloneName(t);
    if s.appName == t.appName {
      var k := |"migration-check-" + s.appName + "-"|;
      assert CloneNamespace(s)[k..] == CheckID(s) && CloneNamespace(t)[k..] == CheckID(t);
    }
  }
}
