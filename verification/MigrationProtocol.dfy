/** Whole runs of the MigrationCheck reconciler over a versioned store and a forge: a pass
    may read any version ever stored, its writes land only on the newest, and every call
    to the forge is remembered. */
module MigrationProtocol {
  import opened Text
  import opened ApiServer
  import opened MigrationApi
  import opened MigrationClone
  import opened MigrationPass
  import opened MigrationInvariants
  import Jobs

  datatype Cause = Administrative | ByPass(inputs: Inputs)

  datatype Version = Version(cr: CR, cause: Cause)

  /** A call to the forge, and how many versions had been stored when it was sent. */
  datatype Entry = Entry(call: ForgeCall, at: nat)

  /** `created` is every object any pass asked the API server to create. */
  datatype System = System(spec: Spec, history: seq<Version>, gone: bool, log: seq<Entry>, created: set<Obj>)
  {
    function Newest(): CR
      requires history != []
    {
      history[|history| - 1].cr
    }
  }

  datatype Event = RequestDeletion | Reconcile(read: nat, inputs: Inputs)

  /** A spec whose probe timeout fits the machine's durations; the CRD allows 3600. */
  predicate SaneSpec(spec: Spec) { spec.probe.Some? ==> spec.probe.value.timeoutSeconds <= MAX_SECONDS - 900 }

  ghost predicate Initial(s: System) {
    && SaneSpec(s.spec) && |s.history| == 1 && !s.gone && s.log == [] && s.created == {}
    && s.Newest().status == EmptyStatus && !s.Newest().deleting
  }

  predicate Enabled(s: System, e: Event) {
    s.history != [] &&
    match e
    case RequestDeletion => !s.gone
    case Reconcile(read, a) =>
      && read < |s.history|
      && (read != |s.history| - 1 || s.gone ==> a.write1.Refused? && a.write2.Refused?)
      && (a.report.Reported? ==> a.report.id != 0)
  }

  function Extended(h: seq<Version>, landed: seq<Status>, a: Inputs): (r: seq<Version>)
    requires h != []
    ensures h <= r && |r| == |h| + |landed|
    decreases |landed|
  {
    if landed == [] then h
    else Extended(h + [Version(h[|h| - 1].cr.(status := landed[0]), ByPass(a))], landed[1..], a)
  }

  function Logged(at: nat, calls: seq<ForgeCall>): (r: seq<Entry>)
    ensures |r| == |calls|
  {
    if calls == [] then [] else [Entry(calls[0], at + calls[0].landed)] + Logged(at, calls[1..])
  }

  function Stored(s: System, cr: CR): System { s.(history := s.history + [Version(cr, Administrative)]) }

  function Deleted(s: System): System
    requires s.history != []
  {
    if s.gone || s.Newest().deleting then s
    else if s.Newest().finalizer then Stored(s, s.Newest().(deleting := true))
    else s.(gone := true)
  }

  /** The store, the log and the ledger after a pass's writes, calls and creations. */
  function Worked(s: System, w: Work, a: Inputs): System
    requires s.history != []
  {
    s.(history := Extended(s.history, w.landed, a), log := s.log + Logged(|s.history|, w.calls),
       created := s.created + w.created)
  }

  function Settled(s: System, meta: Meta, a: Inputs): System
    requires s.history != []
  {
    match meta
    case NoMeta => s
    case DeleteSelf => Deleted(s)
    case AddFinalizer => if a.write1.Refused? then s else Stored(s, s.Newest().(finalizer := true))
    case RemoveFinalizer =>
      if a.write1.Refused? then s
      else if s.Newest().deleting then s.(gone := true)
      else Stored(s, s.Newest().(finalizer := false))
  }

  function Next(s: System, e: Event): System
    requires Enabled(s, e)
  {
    match e
    case RequestDeletion => Deleted(s)
    case Reconcile(read, a) =>
      var (w, meta) := Pass(s.spec, s.history[read].cr, a);
      Settled(Worked(s, w, a), meta, a)
  }

  ghost predicate IsRun(run: seq<System>, events: seq<Event>) {
    && |run| == |events| + 1
    && Initial(run[0])
    && forall i | 0 <= i < |events| :: Enabled(run[i], events[i]) && run[i + 1] == Next(run[i], events[i])
  }

  /** The two clock readings of a pass are at most `skew` apart, in every pass. */
  ghost predicate SkewAtMost(events: seq<Event>, skew: int) {
    forall i | 0 <= i < |events| ::
      events[i].Reconcile? ==> events[i].inputs.clock.stamp - events[i].inputs.clock.test <= skew
  }

  // ---- Versions ----

  ghost predicate Follows(spec: Spec, v: Version, w: Version) {
    && (w.cause.Administrative? ==> w.cr.status == v.cr.status)
    && (w.cause.ByPass? ==>
          && w.cr == v.cr.(status := w.cr.status) && !v.cr.deleting
          && (|| Advances(spec, v.cr.status, w.cause.inputs, w.cr.status)
              || Records(v.cr.status, w.cause.inputs, w.cr.status)))
    && (v.cr.finalizer && !v.cr.deleting ==> w.cr.finalizer) && (v.cr.deleting ==> w.cr.deleting)
  }

  ghost predicate Chained(spec: Spec, h: seq<Version>, skew: int) {
    && h != []
    && (forall i | 0 <= i < |h| :: Good(spec, h[i].cr.status, skew))
    && (forall i | 0 <= i < |h| - 1 :: Follows(spec, h[i], h[i + 1]))
  }

  lemma {:induction false} ChainGrows(spec: Spec, h: seq<Version>, w: Version, skew: int)
    requires Chained(spec, h, skew) && Good(spec, w.cr.status, skew) && Follows(spec, h[|h| - 1], w)
    ensures Chained(spec, h + [w], skew)
  {
    hide Good, Follows;
    var g := h + [w];
    forall i | 0 <= i < |g| - 1 ensures Follows(spec, g[i], g[i + 1]) {
      if i < |h| - 1 { assert Follows(spec, h[i], h[i + 1]); }
    }
  }

  /** What later versions keep of earlier ones. */
  ghost predicate Keeps(v: Version, w: Version) {
    && v.cr.status.phase.Rank() <= w.cr.status.phase.Rank()
    && Remembers(v.cr.status, w.cr.status)
    && (v.cr.deleting ==> w.cr.deleting && w.cr.status == v.cr.status)
    && (v.cr.status.phase.IsTerminal() ==>
          w.cr.status == v.cr.status.(checkRun := w.cr.status.checkRun, reported := w.cr.status.reported))
    && (v.cr.status.checkRun != 0 ==> w.cr.status.checkRun == v.cr.status.checkRun)
    && (v.cr.status.reported.IsTerminal() ==> w.cr.status.reported == v.cr.status.reported)
  }

  lemma {:induction false} FollowsKeeps(spec: Spec, v: Version, w: Version, skew: int)
    requires Follows(spec, v, w) && Good(spec, v.cr.status, skew)
    ensures Keeps(v, w)
  {
    hide Explained, NamesGood, ProbeGood, VerdictTable;
  }

  lemma {:induction false} KeepsOn(u: Version, v: Version, w: Version)
    requires Keeps(u, v) && Keeps(v, w)
    ensures Keeps(u, w)
  {
  }

  lemma {:induction false} ChainKeeps(spec: Spec, h: seq<Version>, skew: int, i: nat, j: nat)
    requires Chained(spec, h, skew) && i <= j < |h|
    ensures Keeps(h[i], h[j])
    decreases j
  {
    hide Good, Follows, Keeps;
    if i == j {
      KeepsItself(h[i]);
    } else {
      ChainKeeps(spec, h, skew, i, j - 1);
      assert Follows(spec, h[j - 1], h[j - 1 + 1]);
      FollowsKeeps(spec, h[j - 1], h[j], skew);
      KeepsOn(h[i], h[j - 1], h[j]);
    }
  }

  lemma {:induction false} KeepsItself(v: Version)
    ensures Keeps(v, v)
  {
  }

  /** The landed writes of a pass continue the chain. */
  lemma {:induction false} PassContinuesChain(s: System, read: nat, a: Inputs, skew: int)
    requires Chained(s.spec, s.history, skew) && Enabled(s, Reconcile(read, a))
    requires PassShape(s.spec, s.history[read].cr, a, skew, Pass(s.spec, s.history[read].cr, a).0)
    ensures var w := Pass(s.spec, s.history[read].cr, a).0;
      Chained(s.spec, Extended(s.history, w.landed, a), skew)
  {
    hide Pass, Good, Advances;
    var cr := s.history[read].cr;
    var w := Pass(s.spec, cr, a).0;
    var v := s.history[|s.history| - 1];
    if w.landed != [] {
      LandsOnNewest(s, read, a, skew, w);
      var first := Version(v.cr.(status := w.landed[0]), ByPass(a));
      assert w.landed[0] in w.landed;
      ChainGrows(s.spec, s.history, first, skew);
      assert Extended(s.history, w.landed, a) == Extended(s.history + [first], w.landed[1..], a);
      if |w.landed| > 1 {
        var second := Version(first.cr.(status := w.landed[1]), ByPass(a));
        assert w.landed[1] in w.landed && w.landed[1..][0] == w.landed[1];
        ChainGrows(s.spec, s.history + [first], second, skew);
        assert w.landed[1..][1..] == [];
        assert Extended(s.history + [first], w.landed[1..], a) == Extended(s.history + [first] + [second], [], a);
      } else {
        assert w.landed[1..] == [];
      }
    }
  }

  /** A write that landed was made by a pass over the newest version. */
  lemma {:induction false} LandsOnNewest(s: System, read: nat, a: Inputs, skew: int, w: Work)
    requires Enabled(s, Reconcile(read, a)) && PassShape(s.spec, s.history[read].cr, a, skew, w) && w.landed != []
    ensures read == |s.history| - 1 && !s.gone && !s.history[read].cr.deleting && |w.landed| <= 2
    ensures
      || Advances(s.spec, s.history[read].cr.status, a, w.landed[0])
      || Records(s.history[read].cr.status, a, w.landed[0])
    ensures |w.landed| == 2 ==> Records(w.landed[0], a, w.landed[1])
  {
    hide Good, Advances, Records;
  }

  // ---- The log ----

  predicate IsVerdict(c: ForgeCall) { !c.cancelled && c.phase.IsTerminal() }

  /** The check run a recorded call leaves on the status. */
  function RunOf(c: ForgeCall): int {
    if c.existing == 0 && c.answer.Reported? then c.answer.id else c.existing
  }

  function Count(log: seq<Entry>, recorded: bool): nat {
    if log == [] then 0
    else
      var last := log[|log| - 1].call;
      Count(log[..|log| - 1], recorded) + if last.Creates() && last.recorded == recorded then 1 else 0
  }

  lemma {:induction false} CountAppend(log: seq<Entry>, e: Entry, recorded: bool)
    ensures Count(log + [e], recorded)
         == Count(log, recorded) + if e.call.Creates() && e.call.recorded == recorded then 1 else 0
  {
    assert (log + [e])[..|log|] == log;
  }

  /** What a call says was stored before it was sent. */
  ghost predicate StoredBefore(h: seq<Version>, e: Entry) {
    && e.at <= |h|
    && exists k | 0 <= k < e.at ::
         h[k].cr.status.phase == e.call.phase && (e.call.cancelled ==> h[k].cr.deleting)
  }

  predicate Over(cr: CR) { cr.status.phase.IsTerminal() || cr.deleting }

  ghost predicate LogGood(h: seq<Version>, log: seq<Entry>)
    requires h != []
  {
    var newest := h[|h| - 1].cr;
    && (forall i | 0 <= i < |log| :: StoredBefore(h, log[i]))
    && (forall i, j | 0 <= i < j < |log| :: log[i].call.Completed() ==> log[j].call.Completed())
    && (forall i | 0 <= i < |log| :: log[i].call.Completed() ==> Over(newest))
    && (forall i | 0 <= i < |log| :: log[i].call.recorded ==> RunOf(log[i].call) == newest.status.checkRun != 0)
    && (forall i | 0 <= i < |log| ::
          IsVerdict(log[i].call) && log[i].call.recorded ==> newest.status.reported.IsTerminal())
    && (forall i, j | 0 <= i < j < |log| :: IsVerdict(log[i].call) && log[i].call.recorded ==> !log[j].call.cancelled)
    && Count(log, true) == if newest.status.checkRun != 0 then 1 else 0
  }

  lemma {:induction false} StoredStaysStored(h: seq<Version>, g: seq<Version>, e: Entry)
    requires StoredBefore(h, e) && h <= g
    ensures StoredBefore(g, e)
  {
    var k :| 0 <= k < e.at && h[k].cr.status.phase == e.call.phase && (e.call.cancelled ==> h[k].cr.deleting);
    assert g[k] == h[k];
  }

  /** Nothing was said: the log stays good while the newest version moves on. */
  lemma {:induction false} LogKept(h: seq<Version>, g: seq<Version>, log: seq<Entry>)
    requires h != [] && h <= g && LogGood(h, log)
    requires Keeps(h[|h| - 1], g[|g| - 1])
    requires g[|g| - 1].cr.status.checkRun == h[|h| - 1].cr.status.checkRun
    ensures LogGood(g, log)
  {
    hide StoredBefore, RunOf, Count;
    forall i | 0 <= i < |log| ensures StoredBefore(g, log[i]) { StoredStaysStored(h, g, log[i]); }
  }

  /** What one more call must satisfy against the newest version before and after. */
  ghost predicate FitsLog(before: CR, after: CR, c: ForgeCall) {
    && (if c.Completed() then Over(after) else !Over(before))
    && (c.cancelled ==> !c.recorded && !before.status.reported.IsTerminal())
    && (if c.recorded then
          && after.status.checkRun == RunOf(c) != 0 && c.existing == before.status.checkRun && c.answer.Reported?
          && (IsVerdict(c) ==> after.status.reported.IsTerminal())
        else after.status.checkRun == before.status.checkRun)
  }

  lemma {:induction false} LogAppended(h: seq<Version>, g: seq<Version>, log: seq<Entry>, e: Entry)
    requires h != [] && h <= g && LogGood(h, log)
    requires Keeps(h[|h| - 1], g[|g| - 1])
    requires StoredBefore(g, e) && FitsLog(h[|h| - 1].cr, g[|g| - 1].cr, e.call)
    ensures LogGood(g, log + [e])
  {
    CountAppend(log, e, true);
    hide StoredBefore, Count;
    var all := log + [e];
    forall i | 0 <= i < |all| ensures StoredBefore(g, all[i]) {
      if i < |log| { StoredStaysStored(h, g, log[i]); }
    }
  }

  lemma {:induction false} ExtendedAt(h: seq<Version>, landed: seq<Status>, a: Inputs, i: nat)
    requires h != [] && i < |landed|
    ensures Extended(h, landed, a)[|h| + i].cr == h[|h| - 1].cr.(status := landed[i])
    decreases |landed|
  {
    var g := h + [Version(h[|h| - 1].cr.(status := landed[0]), ByPass(a))];
    if i > 0 {
      ExtendedAt(g, landed[1..], a, i - 1);
      assert Extended(h, landed, a) == Extended(g, landed[1..], a);
    } else {
      assert Extended(g, landed[1..], a)[|h|] == g[|h|];
    }
  }

  lemma {:induction false} LoggedOne(at: nat, calls: seq<ForgeCall>)
    requires |calls| == 1
    ensures Logged(at, calls) == [Entry(calls[0], at + calls[0].landed)]
  {
    assert calls[1..] == [];
  }

  lemma {:induction false} CancelFits(s: System, read: nat, a: Inputs, skew: int, w: Work)
    requires Chained(s.spec, s.history, skew) && read < |s.history| && Cancels(s.history[read].cr, a, w)
    ensures StoredBefore(s.history, Entry(w.calls[0], |s.history|))
    ensures FitsLog(s.Newest(), s.Newest(), w.calls[0])
  {
    hide Chained;
    ChainKeeps(s.spec, s.history, skew, read, |s.history| - 1);
    assert s.history[read].cr.status.phase == w.calls[0].phase;
  }

  lemma {:induction false} RepublishFits(s: System, read: nat, a: Inputs, skew: int, w: Work)
    requires Chained(s.spec, s.history, skew) && Enabled(s, Reconcile(read, a))
    requires Republishes(s.history[read].cr, a, w) && PassShape(s.spec, s.history[read].cr, a, skew, w)
    ensures var g := Extended(s.history, w.landed, a);
      && StoredBefore(g, Entry(w.calls[0], |s.history|))
      && FitsLog(s.Newest(), g[|g| - 1].cr, w.calls[0])
  {
    ChainKeeps(s.spec, s.history, skew, read, |s.history| - 1);
    hide Chained, PassShape, Good;
    var g := Extended(s.history, w.landed, a);
    assert g[read] == s.history[read];
    if w.calls[0].recorded {
      LandsOnNewest(s, read, a, skew, w);
      ExtendedAt(s.history, w.landed, a, 0);
    } else {
      assert w.landed == [];
    }
  }

  lemma {:induction false} MoveFits(s: System, read: nat, a: Inputs, skew: int, w: Work)
    requires Chained(s.spec, s.history, skew) && Enabled(s, Reconcile(read, a))
    requires Moves(s.spec, s.history[read].cr, a, w) && PassShape(s.spec, s.history[read].cr, a, skew, w)
    requires w.calls != []
    ensures var g := Extended(s.history, w.landed, a);
      && |w.calls| == 1
      && StoredBefore(g, Entry(w.calls[0], |s.history| + 1))
      && FitsLog(s.Newest(), g[|g| - 1].cr, w.calls[0])
  {
    hide Chained, PassShape, Good, Explained;
    LandsOnNewest(s, read, a, skew, w);
    var g := Extended(s.history, w.landed, a);
    ExtendedAt(s.history, w.landed, a, 0);
    assert g[|s.history|].cr.status == w.landed[0];
    if w.calls[0].recorded { ExtendedAt(s.history, w.landed, a, 1); }
  }

  lemma {:induction false} QuietLanding(s: System, read: nat, a: Inputs, skew: int, w: Work)
    requires Chained(s.spec, s.history, skew) && Enabled(s, Reconcile(read, a))
    requires PassShape(s.spec, s.history[read].cr, a, skew, w) && w.calls == []
    ensures var g := Extended(s.history, w.landed, a);
      g[|g| - 1].cr.status.checkRun == s.Newest().status.checkRun
  {
    hide Chained, Good, Explained;
    if w.landed != [] {
      LandsOnNewest(s, read, a, skew, w);
      ExtendedAt(s.history, w.landed, a, 0);
    }
  }

  // ---- Every step ----

  ghost predicate Sound(s: System, skew: int) {
    && SaneSpec(s.spec) && Chained(s.spec, s.history, skew) && LogGood(s.history, s.log)
  }

  lemma {:induction false} LogContinues(s: System, read: nat, a: Inputs, skew: int, w: Work)
    requires Sound(s, skew) && Enabled(s, Reconcile(read, a))
    requires PassShape(s.spec, s.history[read].cr, a, skew, w)
    requires Chained(s.spec, Extended(s.history, w.landed, a), skew)
    ensures LogGood(Extended(s.history, w.landed, a), s.log + Logged(|s.history|, w.calls))
  {
    hide Chained, LogGood, StoredBefore, FitsLog, Keeps, PassShape;
    var g := Extended(s.history, w.landed, a);
    assert s.history != [] && g[|s.history| - 1] == s.history[|s.history| - 1];
    ChainKeeps(s.spec, g, skew, |s.history| - 1, |g| - 1);
    if w.calls == [] {
      QuietLanding(s, read, a, skew, w);
      LogKept(s.history, g, s.log);
      assert s.log + Logged(|s.history|, w.calls) == s.log;
    } else {
      CallFits(s, read, a, skew, w);
      LoggedOne(|s.history|, w.calls);
      LogAppended(s.history, g, s.log, Entry(w.calls[0], |s.history| + w.calls[0].landed));
    }
  }

  lemma {:induction false} VersionIsGood(s: System, skew: int, i: nat)
    requires Sound(s, skew) && i < |s.history|
    ensures Good(s.spec, s.history[i].cr.status, skew)
    ensures s.spec.probe.Some? ==> ProbeBudget(s.spec.probe.value) > 0
  {
    if s.spec.probe.Some? { JobOutlivesBudget(s.spec.probe.value); }
    hide Good, ProbeBudget;
  }

  lemma {:induction false} WorkedIsSound(s: System, read: nat, a: Inputs, skew: int)
    requires Sound(s, skew) && Enabled(s, Reconcile(read, a)) && a.clock.stamp - a.clock.test <= skew
    ensures Sound(Worked(s, Pass(s.spec, s.history[read].cr, a).0, a), skew)
    ensures Pass(s.spec, s.history[read].cr, a).1 != NoMeta ==>
      Worked(s, Pass(s.spec, s.history[read].cr, a).0, a).history == s.history
  {
    VersionIsGood(s, skew, read);
    hide Pass, Good, Chained, LogGood, ProbeBudget, PassShape;
    var (w, meta) := Pass(s.spec, s.history[read].cr, a);
    PassHasShape(s.spec, s.history[read].cr, a, skew);
    PassContinuesChain(s, read, a, skew);
    LogContinues(s, read, a, skew, w);
  }

  lemma {:induction false} CallFits(s: System, read: nat, a: Inputs, skew: int, w: Work)
    requires Chained(s.spec, s.history, skew) && Enabled(s, Reconcile(read, a))
    requires PassShape(s.spec, s.history[read].cr, a, skew, w) && w.calls != []
    ensures var g := Extended(s.history, w.landed, a);
      && |w.calls| == 1
      && StoredBefore(g, Entry(w.calls[0], |s.history| + w.calls[0].landed))
      && FitsLog(s.Newest(), g[|g| - 1].cr, w.calls[0])
  {
    hide Chained, StoredBefore, FitsLog, Advances, Good, Records;
    var cr := s.history[read].cr;
    if Cancels(cr, a, w) { CancelFits(s, read, a, skew, w); }
    else if Republishes(cr, a, w) { RepublishFits(s, read, a, skew, w); }
    else { MoveFits(s, read, a, skew, w); }
  }

  /** A change of metadata alone. */
  lemma {:induction false} StoredIsSound(s: System, cr: CR, skew: int)
    requires Sound(s, skew) && cr.status == s.Newest().status
    requires (s.Newest().finalizer && !s.Newest().deleting ==> cr.finalizer) && (s.Newest().deleting ==> cr.deleting)
    ensures Sound(Stored(s, cr), skew)
  {
    var h, v := s.history, Version(cr, Administrative);
    assert Good(s.spec, h[|h| - 1].cr.status, skew) && Follows(s.spec, h[|h| - 1], v);
    hide Good, LogGood, Follows;
    ChainGrows(s.spec, h, v, skew);
    FollowsKeepsMeta(h[|h| - 1], v);
    LogKept(h, h + [v], s.log);
  }

  lemma {:induction false} FollowsKeepsMeta(v: Version, w: Version)
    requires w.cr.status == v.cr.status && (v.cr.deleting ==> w.cr.deleting)
    ensures Keeps(v, w)
  {
  }

  lemma {:induction false} DeletedIsSound(s: System, skew: int)
    requires Sound(s, skew)
    ensures Sound(Deleted(s), skew)
  {
    hide Good, LogGood, Follows;
    if !s.gone && !s.Newest().deleting && s.Newest().finalizer {
      StoredIsSound(s, s.Newest().(deleting := true), skew);
    }
  }

  lemma {:induction false} MetaOf(spec: Spec, cr: CR, a: Inputs)
    ensures Pass(spec, cr, a).1.RemoveFinalizer? ==> cr.deleting && cr.finalizer && Teardown(spec, cr.status, a).ok
  {
    hide Advance, ReportCancelled, Teardown, TTLExpired;
  }

  lemma {:induction false} NextIsSound(s: System, e: Event, skew: int)
    requires Sound(s, skew) && Enabled(s, e)
    requires e.Reconcile? ==> e.inputs.clock.stamp - e.inputs.clock.test <= skew
    ensures Sound(Next(s, e), skew)
  {
    hide Pass, Sound, Teardown, Deleted;
    match e {
      case RequestDeletion => DeletedIsSound(s, skew);
      case Reconcile(read, a) =>
        var (w, meta) := Pass(s.spec, s.history[read].cr, a);
        var t := Worked(s, w, a);
        WorkedIsSound(s, read, a, skew);
        DeletedIsSound(t, skew);
        MetaOf(s.spec, s.history[read].cr, a);
        GoneIsSound(t, skew);
        if meta.AddFinalizer? { StoredIsSound(t, t.Newest().(finalizer := true), skew); }
        if meta.RemoveFinalizer? && !a.write1.Refused? { assert t.Newest().deleting; }
    }
  }

  lemma {:induction false} GoneIsSound(s: System, skew: int)
    requires Sound(s, skew)
    ensures Sound(s.(gone := true), skew)
  {
    hide Chained, LogGood;
  }

  lemma {:induction false} RunIsSound(run: seq<System>, events: seq<Event>, skew: int, i: nat)
    requires IsRun(run, events) && SkewAtMost(events, skew) && i < |run|
    ensures Sound(run[i], skew) && run[i].spec == run[0].spec
    decreases i
  {
    if i == 0 {
      FreshIsGood(run[0].spec, skew);
    } else {
      hide Sound, Next, Enabled;
      RunIsSound(run, events, skew, i - 1);
      assert Enabled(run[i - 1], events[i - 1]) && run[i - 1 + 1] == Next(run[i - 1], events[i - 1]);
      NextIsSound(run[i - 1], events[i - 1], skew);
      NextKeepsSpec(run[i - 1], events[i - 1]);
    }
  }

  lemma {:induction false} NextKeepsSpec(s: System, e: Event)
    requires Enabled(s, e)
    ensures Next(s, e).spec == s.spec && s.history <= Next(s, e).history && s.log <= Next(s, e).log
  {
    hide Pass;
  }
}
