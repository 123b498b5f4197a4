/** The client of the exploit-intelligence endpoint: chunked lookups, a merge that
    keeps the least confident reading, and a bounded memo of usable answers. */
module Enrichment {
  import opened Text
  import Exploitability

  type Time = int

  const SECOND: int := 1_000_000_000
  const MAX_CHUNK := 200
  const MEMO_TTL: int := 15 * 60 * SECOND
  const MEMO_MAX := 128

  /** `fetchedAt == 0` is the unset time. */
  datatype Response = Response(
    results: seq<Exploitability.CVEIntel>, unknown: seq<string>,
    fetchedAt: Time, kevTotal: int, epssTotal: int, stale: bool)
  {
    predicate Usable() { !stale && kevTotal > 0 }
  }

  const NoResponse := Response([], [], 0, 0, 0, false)

  /** What one POST came back with. */
  datatype PostAnswer = Answered(resp: Response) | StatusCode(code: int) | Broken

  datatype LookupError = EmptySet | Rejected(code: int) | Unreachable {
    /** A 4xx would be a 4xx again. */
    predicate IsTerminal() { Rejected? && 400 <= code < 500 }
  }

  datatype LookupResult = Enriched(resp: Response) | LookupFailed(error: LookupError)

  function Min(a: int, b: int): int { if a < b then a else b }

  function MergeResponses(agg: Response, chunk: Response, first: bool): Response {
    var r := agg.(results := agg.results + chunk.results, unknown := agg.unknown + chunk.unknown,
                  stale := agg.stale || chunk.stale);
    if first then r.(kevTotal := chunk.kevTotal, epssTotal := chunk.epssTotal, fetchedAt := chunk.fetchedAt)
    else
      r.(kevTotal := Min(agg.kevTotal, chunk.kevTotal), epssTotal := Min(agg.epssTotal, chunk.epssTotal),
         fetchedAt := if chunk.fetchedAt != 0 && (agg.fetchedAt == 0 || chunk.fetchedAt < agg.fetchedAt)
                      then chunk.fetchedAt else agg.fetchedAt)
  }

  /** All chunk answers folded into one. */
  function MergeAll(rs: seq<Response>): Response {
    if rs == [] then NoResponse
    else MergeResponses(MergeAll(rs[..|rs| - 1]), rs[|rs| - 1], |rs| == 1)
  }

  function AllResults(rs: seq<Response>): seq<Exploitability.CVEIntel> {
    if rs == [] then [] else AllResults(rs[..|rs| - 1]) + rs[|rs| - 1].results
  }

  function AllUnknown(rs: seq<Response>): seq<string> {
    if rs == [] then [] else AllUnknown(rs[..|rs| - 1]) + rs[|rs| - 1].unknown
  }

  /** The totals of the merge are the smallest of any chunk: a cache that was empty for
      one of them is empty for all. */
  lemma {:induction false} MergeTakesMinima(rs: seq<Response>)
    requires rs != []
    ensures forall r | r in rs :: MergeAll(rs).kevTotal <= r.kevTotal && MergeAll(rs).epssTotal <= r.epssTotal
    ensures exists r | r in rs :: r.kevTotal == MergeAll(rs).kevTotal
    ensures exists r | r in rs :: r.epssTotal == MergeAll(rs).epssTotal
    ensures MergeAll(rs).unknown == AllUnknown(rs)
  {
    var n := |rs| - 1;
    assert rs == rs[..n] + [rs[n]] && rs[n] in rs;
    if n == 0 {
      assert rs[..n] == [];
    } else {
      MergeTakesMinima(rs[..n]);
      var kev :| kev in rs[..n] && kev.kevTotal == MergeAll(rs[..n]).kevTotal;
      var epss :| epss in rs[..n] && epss.epssTotal == MergeAll(rs[..n]).epssTotal;
      assert kev in rs && epss in rs;
    }
  }

  /** The merge is only as trustworthy as its worst chunk, and loses no result. */
  lemma {:induction false} MergeIsConservative(rs: seq<Response>)
    requires rs != []
    ensures !MergeAll(rs).stale <==> forall r | r in rs :: !r.stale
    ensures MergeAll(rs).kevTotal > 0 <==> forall r | r in rs :: r.kevTotal > 0
    ensures MergeAll(rs).results == AllResults(rs)
  {
    var n := |rs| - 1;
    assert rs == rs[..n] + [rs[n]];
    if n == 0 {
      assert rs[..n] == [];
    } else {
      MergeIsConservative(rs[..n]);
    }
  }

  lemma MergeUsable(rs: seq<Response>)
    requires rs != []
    ensures MergeAll(rs).Usable() <==> forall r | r in rs :: r.Usable()
  {
    MergeIsConservative(rs);
    assert (forall r | r in rs :: r.Usable()) <==>
             (forall r | r in rs :: !r.stale) && (forall r | r in rs :: r.kevTotal > 0);
  }

  /** The merge dates the data by the oldest chunk that says when it was fetched. */
  lemma {:induction false} MergeDatesOldest(rs: seq<Response>)
    ensures MergeAll(rs).fetchedAt != 0 <==> exists r | r in rs :: r.fetchedAt != 0
    ensures forall r | r in rs && r.fetchedAt != 0 :: MergeAll(rs).fetchedAt <= r.fetchedAt
    ensures MergeAll(rs).fetchedAt != 0 ==> exists r | r in rs :: r.fetchedAt == MergeAll(rs).fetchedAt
  {
    if rs != [] {
      var n := |rs| - 1;
      assert rs == rs[..n] + [rs[n]];
      MergeDatesOldest(rs[..n]);
    }
  }

  // ---- Chunking ----

  function Chunks(ids: seq<string>): (r: seq<seq<string>>)
    requires ids != []
    ensures r != []
    decreases |ids|
  {
    if |ids| <= MAX_CHUNK then [ids] else [ids[..MAX_CHUNK]] + Chunks(ids[MAX_CHUNK..])
  }

  function Concat(chunks: seq<seq<string>>): seq<string> {
    if chunks == [] then [] else chunks[0] + Concat(chunks[1..])
  }

  /** The requests cover the whole list, in order, none empty and none too long. */
  lemma {:induction false} ChunksCover(ids: seq<string>)
    requires ids != []
    ensures Concat(Chunks(ids)) == ids
    ensures forall c | c in Chunks(ids) :: 0 < |c| <= 200
    ensures |Chunks(ids)| == (|ids| + 199) / 200
    decreases |ids|
  {
    if |ids| <= MAX_CHUNK {
      assert Concat([ids]) == ids + Concat([ids][1..]);
    } else {
      ChunksCover(ids[MAX_CHUNK..]);
      var r := Chunks(ids);
      assert r[1..] == Chunks(ids[MAX_CHUNK..]);
    }
  }

  /** The k-th chunk is the k-th window of the list. */
  lemma {:induction false} ChunkWindow(ids: seq<string>, k: nat)
    requires ids != [] && k * MAX_CHUNK < |ids|
    ensures k < |Chunks(ids)|
    ensures Chunks(ids)[k] == ids[k * MAX_CHUNK..Min(k * MAX_CHUNK + MAX_CHUNK, |ids|)]
    decreases k
  {
    if k > 0 {
      ChunkWindow(ids[MAX_CHUNK..], k - 1);
      assert Chunks(ids)[k] == Chunks(ids[MAX_CHUNK..])[k - 1];
    }
  }

  // ---- The lookup without a memo ----

  /** The first answer that is not a response, as the error it becomes. */
  function FirstError(answers: seq<PostAnswer>): Option<LookupError> {
    if answers == [] then None
    else match answers[0]
      case Answered(_) => FirstError(answers[1..])
      case StatusCode(code) => Some(Rejected(code))
      case Broken => Some(Unreachable)
  }

  lemma {:induction false} NoErrorMeansAnswered(answers: seq<PostAnswer>)
    ensures FirstError(answers).None? <==> forall a | a in answers :: a.Answered?
  {
    if answers != [] {
      NoErrorMeansAnswered(answers[1..]);
      assert answers == [answers[0]] + answers[1..];
    }
  }

  lemma {:induction false} ErrorOfPrefix(answers: seq<PostAnswer>, k: nat)
    requires k < |answers| && (forall i | 0 <= i < k :: answers[i].Answered?) && !answers[k].Answered?
    ensures FirstError(answers) == Some(if answers[k].StatusCode? then Rejected(answers[k].code) else Unreachable)
  {
    if k > 0 { ErrorOfPrefix(answers[1..], k - 1); }
  }

  function Responses(answers: seq<PostAnswer>): (r: seq<Response>)
    requires forall a | a in answers :: a.Answered?
    ensures |r| == |answers|
  {
    seq(|answers|, i requires 0 <= i < |answers| => answers[i].resp)
  }

  /** What posting every chunk of `ids` yields, given the answers the posts get. */
  function Uncached(ids: seq<string>, post: seq<PostAnswer>): LookupResult
    requires ids != [] ==> |post| >= |Chunks(ids)|
  {
    if ids == [] then LookupFailed(EmptySet)
    else
      var answers := post[..|Chunks(ids)|];
      NoErrorMeansAnswered(answers);
      match FirstError(answers)
      case Some(e) => LookupFailed(e)
      case None => Enriched(MergeAll(Responses(answers)))
  }

  /** A usable answer is one to which every chunk of the list contributed a
      non-stale response from a loaded cache; it carries all their results. */
  lemma UsableMeansEveryChunk(ids: seq<string>, post: seq<PostAnswer>)
    requires ids != [] && |post| >= |Chunks(ids)|
    ensures var r := Uncached(ids, post);
      r.Enriched? && r.resp.Usable()
      <==> forall k | 0 <= k < |Chunks(ids)| :: post[k].Answered? && post[k].resp.Usable()
    ensures var r := Uncached(ids, post);
      r.Enriched? ==>
        && (forall k | 0 <= k < |Chunks(ids)| :: post[k].Answered?)
        && r.resp.results == AllResults(Responses(post[..|Chunks(ids)|]))
  {
    hide MergeAll, AllResults, Chunks;
    var answers := post[..|Chunks(ids)|];
    NoErrorMeansAnswered(answers);
    assert forall k | 0 <= k < |answers| :: answers[k] == post[k] && answers[k] in answers;
    if forall a | a in answers :: a.Answered? {
      var rs := Responses(answers);
      MergeUsable(rs);
      MergeIsConservative(rs);
      assert forall k | 0 <= k < |answers| :: rs[k] == post[k].resp && rs[k] in rs;
    }
  }

  /** The aggregate of the first `k` answers. */
  function Aggregate(post: seq<PostAnswer>, k: nat): Response
    requires k <= |post| && forall i | 0 <= i < k :: post[i].Answered?
  {
    MergeAll(Responses(post[..k]))
  }

  lemma AggregateStart(post: seq<PostAnswer>)
    ensures Aggregate(post, 0) == NoResponse
  {
  }

  lemma AggregateNext(post: seq<PostAnswer>, k: nat)
    requires k < |post| && forall i | 0 <= i <= k :: post[i].Answered?
    ensures Aggregate(post, k + 1) == MergeResponses(Aggregate(post, k), post[k].resp, k == 0)
  {
    assert Responses(post[..k + 1])[..k] == Responses(post[..k]);
  }

  lemma FetchOutcome(ids: seq<string>, post: seq<PostAnswer>, k: nat)
    requires ids != [] && |post| >= |Chunks(ids)| >= k
    requires forall i | 0 <= i < k :: post[i].Answered?
    ensures k == |Chunks(ids)| ==> Uncached(ids, post) == Enriched(Aggregate(post, k))
    ensures k < |Chunks(ids)| && !post[k].Answered? ==>
      Uncached(ids, post) == LookupFailed(if post[k].StatusCode? then Rejected(post[k].code) else Unreachable)
  {
    var answers := post[..|Chunks(ids)|];
    if k == |Chunks(ids)| {
      NoErrorMeansAnswered(answers);
    } else if !post[k].Answered? {
      ErrorOfPrefix(answers, k);
    }
  }

  /** Posts the chunks one after the other; the k-th post is answered by `post[k]`. */
  method FetchAll(ids: seq<string>, post: seq<PostAnswer>) returns (r: LookupResult)
    requires ids != [] && |post| >= |Chunks(ids)|
    ensures r == Uncached(ids, post)
  {
    hide Uncached, Aggregate, Chunks, MergeResponses;
    ghost var n := |Chunks(ids)|;
    ChunksCover(ids);
    var agg, first, start, k := NoResponse, true, 0, 0;
    AggregateStart(post);
    while start < |ids|
      invariant start == k * MAX_CHUNK && 0 <= k <= n && first == (k == 0)
      invariant k < n <==> start < |ids|
      invariant forall i | 0 <= i < k :: post[i].Answered?
      invariant agg == Aggregate(post, k)
    {
      var end := Min(start + MAX_CHUNK, |ids|);
      ChunkWindow(ids, k);
      assert ids[start..end] == Chunks(ids)[k];
      FetchOutcome(ids, post, k);
      match post[k] {
        case StatusCode(code) => return LookupFailed(Rejected(code));
        case Broken => return LookupFailed(Unreachable);
        case Answered(chunk) =>
          AggregateNext(post, k);
          agg := MergeResponses(agg, chunk, first);
      }
      first, start, k := false, start + MAX_CHUNK, k + 1;
    }
    FetchOutcome(ids, post, k);
    return Enriched(agg);
  }

  // ---- The memo ----

  datatype MemoEntry = MemoEntry(resp: Response, at: Time)

  type Memo = map<string, MemoEntry>

  /** The memo key of a sorted id list.  The digest taken of this string
      is assumed collision-free, so the string itself stands for it. */
  function MemoKey(sortedIDs: seq<string>): string {
    Join(sortedIDs, ',')
  }

  ghost predicate CommaFree(ids: seq<string>) {
    forall id | id in ids :: Free(id, ',')
  }

  /** Two id sets share a key exactly when their comma-separated pieces agree; for
      ids without commas, exactly when they are the same multiset. */
  lemma KeysAgreeExactly(a: seq<string>, b: seq<string>)
    requires a != [] && b != []
    ensures MemoKey(Sort(a)) == MemoKey(Sort(b)) <==> Pieces(Sort(a), ',') == Pieces(Sort(b), ',')
    ensures CommaFree(a) && CommaFree(b) ==>
              (MemoKey(Sort(a)) == MemoKey(Sort(b)) <==> multiset(a) == multiset(b))
  {
    assert |Sort(a)| == |multiset(Sort(a))| == |a| && |Sort(b)| == |multiset(Sort(b))| == |b|;
    JoinEqual(Sort(a), Sort(b), ',');
    if CommaFree(a) && CommaFree(b) {
      forall id | id in Sort(a) ensures Free(id, ',') { assert id in multiset(Sort(a)); }
      forall id | id in Sort(b) ensures Free(id, ',') { assert id in multiset(Sort(b)); }
      PiecesOfAtoms(Sort(a), ',');
      PiecesOfAtoms(Sort(b), ',');
      SortCanonical(a, b);
    }
  }

  /** An id that holds a comma can make two different sets share one answer. */
  lemma CommaCollides()
    ensures var a, b := ["CVE-1,CVE-2"], ["CVE-1", "CVE-2"];
      multiset(a) != multiset(b) && MemoKey(a) == MemoKey(b)
  {
    var a, b := ["CVE-1,CVE-2"], ["CVE-1", "CVE-2"];
    assert Join(b[1..], ',') == "CVE-2";
    assert |multiset(a)| == 1 && |multiset(b)| == 2;
    assert MemoKey(b) == "CVE-1" + [','] + "CVE-2" == "CVE-1,CVE-2";
  }

  function MemoGot(memo: Memo, key: string, now: Time): Option<Response> {
    if key !in memo || now - memo[key].at > MEMO_TTL then None else Some(memo[key].resp)
  }

  /** The entries that are still fresh. */
  function Live(memo: Memo, now: Time): (r: Memo)
    ensures r.Keys <= memo.Keys
  {
    map k | k in memo && now - memo[k].at <= MEMO_TTL :: memo[k]
  }

  function MemoAfterPut(memo: Memo, key: string, resp: Response, now: Time): (r: Memo)
    ensures |r| <= MEMO_MAX
    ensures key in r && r[key] == MemoEntry(resp, now)
    ensures forall k | k in r && k != key :: k in memo && r[k] == memo[k]
  {
    var live := Live(memo, now);
    if |live| >= MEMO_MAX then map[key := MemoEntry(resp, now)]
    else live[key := MemoEntry(resp, now)]
  }

  /** A stored answer is served for fifteen minutes, and no longer. */
  lemma ServedExactly(memo: Memo, key: string, resp: Response, at: Time, now: Time)
    ensures MemoGot(MemoAfterPut(memo, key, resp, at), key, now)
         == if now - at <= 900_000_000_000 then Some(resp) else None
  {
  }

  /** Storing one answer drops the others that have outlived that time, or all of them when
      128 or more have not. */
  lemma KeptExactly(memo: Memo, key: string, resp: Response, at: Time, other: string)
    requires other != key
    ensures other in MemoAfterPut(memo, key, resp, at) <==>
      && other in memo && at - memo[other].at <= 900_000_000_000
      && |set k | k in memo && at - memo[k].at <= 900_000_000_000| < 128
  {
    var live := Live(memo, at);
    assert live.Keys == set k | k in memo && at - memo[k].at <= 900_000_000_000;
    assert |live| == |live.Keys|;
  }

  /** One whole lookup, read at `now`, stored at `done`. */
  function LookupStep(memo: Memo, cves: seq<string>, post: seq<PostAnswer>, now: Time, done: Time): (Memo, LookupResult)
    requires cves != [] ==> |post| >= |Chunks(Sort(cves))|
  {
    if cves == [] then (memo, LookupFailed(EmptySet))
    else
      var ids := Sort(cves);
      match MemoGot(memo, MemoKey(ids), now)
      case Some(resp) => (memo, Enriched(resp))
      case None =>
        var r := Uncached(ids, post);
        if r.Enriched? && r.resp.Usable() then (MemoAfterPut(memo, MemoKey(ids), r.resp, done), r) else (memo, r)
  }

  /** What a lookup fetched afresh and could use, the next lookup of the same ids, in any
      order, is served without a post, for fifteen minutes; after that it fetches again. */
  lemma SecondLookup(
      memo: Memo, ids: seq<string>, post: seq<PostAnswer>, now: Time, done: Time,
      again: seq<string>, answers: seq<PostAnswer>, later: Time, end: Time)
    requires ids != [] && multiset(again) == multiset(ids) && again != []
    requires |post| >= |Chunks(Sort(ids))| && |answers| >= |Chunks(Sort(again))|
    requires MemoGot(memo, MemoKey(Sort(ids)), now).None?
    requires var r := Uncached(Sort(ids), post); r.Enriched? && !r.resp.stale && r.resp.kevTotal > 0
    ensures var (after, r) := LookupStep(memo, ids, post, now, done);
      && r == Uncached(Sort(ids), post)
      && (if later - done <= 900_000_000_000 then LookupStep(after, again, answers, later, end) == (after, r)
          else LookupStep(after, again, answers, later, end).1 == Uncached(Sort(again), answers))
  {
    SortCanonical(ids, again);
    var (after, r) := LookupStep(memo, ids, post, now, done);
    ServedExactly(memo, MemoKey(Sort(ids)), r.resp, done, later);
    hide Uncached, MemoKey, Chunks, MemoGot, MemoAfterPut;
  }

  class Enricher {
    var memo: Memo

    constructor ()
      ensures memo == map[]
    {
      memo := map[];
    }

    method MemoGet(key: string, now: Time) returns (r: Option<Response>)
      ensures r == MemoGot(memo, key, now)
    {
      if key !in memo { return None; }
      if now - memo[key].at > MEMO_TTL { return None; }
      return Some(memo[key].resp);
    }

    method MemoPut(key: string, resp: Response, now: Time)
      modifies this
      ensures memo == MemoAfterPut(old(memo), key, resp, now)
    {
      var todo := memo.Keys;
      while todo != {}
        invariant todo <= memo.Keys <= old(memo).Keys
        invariant forall k | k in memo :: memo[k] == old(memo)[k]
        invariant forall k | k in old(memo) && k !in todo :: k in memo <==> now - old(memo)[k].at <= MEMO_TTL
        decreases |todo|
      {
        var k :| k in todo;
        if now - memo[k].at > MEMO_TTL { memo := memo - {k}; }
        todo := todo - {k};
      }
      assert memo == Live(old(memo), now);
      if |memo| >= MEMO_MAX { memo := map[]; }
      memo := memo[key := MemoEntry(resp, now)];
    }

    method Lookup(cves: seq<string>, post: seq<PostAnswer>, now: Time, done: Time) returns (r: LookupResult)
      requires cves != [] ==> |post| >= |Chunks(Sort(cves))|
      modifies this
      ensures (memo, r) == LookupStep(old(memo), cves, post, now, done)
    {
      if |cves| == 0 { return LookupFailed(EmptySet); }
      var ids := Sort(cves);
      assert ids != [] by { assert |ids| == |multiset(ids)| == |cves|; }
      var key := MemoKey(ids);
      var got := MemoGet(key, now);
      if got.Some? { return Enriched(got.value); }

      r := FetchAll(ids, post);
      if r.Enriched? && r.resp.Usable() { MemoPut(key, r.resp, done); }
    }
  }

  // ---- Every interleaving of lookups ----

  /** The two atomic actions lookups perform on the shared table. */
  datatype MemoEvent =
    | Get(ids: seq<string>, at: Time, answer: Option<Response>)
    | Put(ids: seq<string>, at: Time, post: seq<PostAnswer>)

  predicate Posted(ids: seq<string>, post: seq<PostAnswer>) {
    ids != [] && Sort(ids) != [] && |post| >= |Chunks(Sort(ids))|
  }

  /** `ids` was looked up afresh with a usable outcome `resp`. */
  predicate Fetched(ids: seq<string>, post: seq<PostAnswer>, resp: Response) {
    Posted(ids, post) && Uncached(Sort(ids), post) == Enriched(resp) && resp.Usable()
  }

  ghost predicate MemoMove(before: Memo, e: MemoEvent, after: Memo) {
    match e
    case Get(ids, at, answer) => ids != [] && after == before && answer == MemoGot(before, MemoKey(Sort(ids)), at)
    case Put(ids, at, post) =>
      exists resp :: Fetched(ids, post, resp) && after == MemoAfterPut(before, MemoKey(Sort(ids)), resp, at)
  }

  ghost predicate MemoRun(tables: seq<Memo>, events: seq<MemoEvent>) {
    && |tables| == |events| + 1
    && tables[0] == map[]
    && forall i | 0 <= i < |events| :: MemoMove(tables[i], events[i], tables[i + 1])
  }

  /** The event that stored an entry. */
  ghost predicate StoredBy(e: MemoEvent, key: string, entry: MemoEntry) {
    e.Put? && e.ids != [] && MemoKey(Sort(e.ids)) == key && e.at == entry.at && Fetched(e.ids, e.post, entry.resp)
  }

  lemma MoveOrigin(before: Memo, e: MemoEvent, after: Memo, key: string)
    requires MemoMove(before, e, after) && key in after
    ensures StoredBy(e, key, after[key]) || (key in before && before[key] == after[key])
  {
    hide Uncached, MemoKey, MemoAfterPut, Chunks;
  }

  lemma {:induction false} EntriesHaveOrigins(tables: seq<Memo>, events: seq<MemoEvent>, n: nat, key: string)
      returns (j: nat)
    requires MemoRun(tables, events) && n <= |events| && key in tables[n]
    ensures j < n && StoredBy(events[j], key, tables[n][key])
    decreases n
  {
    hide MemoMove, StoredBy;
    assert MemoMove(tables[n - 1], events[n - 1], tables[n]);
    MoveOrigin(tables[n - 1], events[n - 1], tables[n], key);
    if StoredBy(events[n - 1], key, tables[n][key]) {
      j := n - 1;
    } else {
      j := EntriesHaveOrigins(tables, events, n - 1, key);
    }
  }

  /** The table never grows past its bound, and holds usable answers only. */
  lemma {:induction false} MemoBounded(tables: seq<Memo>, events: seq<MemoEvent>, n: nat)
    requires MemoRun(tables, events) && n <= |events|
    ensures |tables[n]| <= MEMO_MAX
    ensures forall k | k in tables[n] :: tables[n][k].resp.Usable()
    decreases n
  {
    if n > 0 {
      MemoBounded(tables, events, n - 1);
      assert MemoMove(tables[n - 1], events[n - 1], tables[n]);
    }
  }

  /** However lookups interleave, an answer served from the memo was fetched earlier
      for the same multiset of ids, was usable, and is at most the TTL old. */
  lemma MemoRefinesUncached(tables: seq<Memo>, events: seq<MemoEvent>, i: nat) returns (j: nat)
    requires MemoRun(tables, events) && i < |events|
    requires forall k | 0 <= k < |events| :: CommaFree(events[k].ids)
    requires events[i].Get? && events[i].answer.Some?
    ensures j < i && events[j].Put? && multiset(events[j].ids) == multiset(events[i].ids)
    ensures Fetched(events[j].ids, events[j].post, events[i].answer.value)
    ensures events[i].at - events[j].at <= MEMO_TTL
  {
    var e := events[i];
    assert MemoMove(tables[i], e, tables[i + 1]);
    var key := MemoKey(Sort(e.ids));
    j := EntriesHaveOrigins(tables, events, i, key);
    KeysAgreeExactly(events[j].ids, e.ids);
  }

  /** A whole lookup is one or two of those atomic actions on the table. */
  lemma LookupIsTwoMoves(memo: Memo, cves: seq<string>, post: seq<PostAnswer>, now: Time, done: Time)
    requires Posted(cves, post)
    ensures var (after, r) := LookupStep(memo, cves, post, now, done);
      var got := MemoGot(memo, MemoKey(Sort(cves)), now);
      && MemoMove(memo, Get(cves, now, got), memo)
      && (got.Some? ==> after == memo && r == Enriched(got.value))
      && (got.None? ==> r == Uncached(Sort(cves), post)
                        && (after == memo || MemoMove(memo, Put(cves, done, post), after)))
  {
    var (after, r) := LookupStep(memo, cves, post, now, done);
    if after != memo { assert Fetched(cves, post, r.resp); }
  }
}
