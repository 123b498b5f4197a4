/** Which findings count, and whether an enriched set of them is acceptable. */
module Exploitability {
  import opened Text

  /** One CVE as the enrichment endpoint scores it; `epss` is a probability. */
  datatype CVEIntel = CVEIntel(cve: string, kev: bool, epss: real)

  datatype Reason = WithinLimits | KEVExceeded | EPSSExceeded

  /** round(epss * 1000), clamped to [0, 1000]. */
  function Permille(epss: real): (p: int)
    ensures 0 <= p <= 1000
    ensures 0.0 <= epss <= 1.0 ==> -0.5 < p as real - epss * 1000.0 <= 0.5
    ensures (epss <= 0.0 ==> p == 0) && (epss >= 1.0 ==> p == 1000)
  {
    if epss <= 0.0 then 0 else if epss >= 1.0 then 1000 else (epss * 1000.0 + 0.5).Floor
  }

  function KEVCount(results: seq<CVEIntel>): nat {
    if results == [] then 0
    else KEVCount(results[..|results| - 1]) + if results[|results| - 1].kev then 1 else 0
  }

  /** The highest permille of a list, 0 for the empty one. */
  function Peak(results: seq<CVEIntel>): (p: int)
    ensures p >= 0
    ensures forall r | r in results :: Permille(r.epss) <= p
    ensures p == 0 || exists r | r in results :: Permille(r.epss) == p
  {
    if results == [] then 0
    else
      var last := results[|results| - 1];
      var before := Peak(results[..|results| - 1]);
      assert results == results[..|results| - 1] + [last];
      if Permille(last.epss) > before then Permille(last.epss) else before
  }

  function Judge(results: seq<CVEIntel>, kevMax: int, epssMax: int): Reason {
    if KEVCount(results) > kevMax then KEVExceeded
    else if Peak(results) > epssMax then EPSSExceeded
    else WithinLimits
  }

  /** The known-exploited entries of a list, by position: an id listed twice counts twice. */
  function KnownExploited(results: seq<CVEIntel>): set<int> {
    set i | 0 <= i < |results| && results[i].kev
  }

  lemma {:induction false} KEVCountExactly(results: seq<CVEIntel>)
    ensures KEVCount(results) == |KnownExploited(results)|
  {
    if results != [] {
      var n := |results| - 1;
      KEVCountExactly(results[..n]);
      var before := KnownExploited(results[..n]);
      assert forall i | 0 <= i < n :: results[..n][i] == results[i];
      assert n !in before;
      assert KnownExploited(results) == if results[n].kev then before + {n} else before;
    }
  }

  /** Too likely to be exploited: some entry is over the limit, or the limit is below 0. */
  predicate TooLikely(results: seq<CVEIntel>, epssMax: int) {
    epssMax < 0 || exists r | r in results :: Permille(r.epss) > epssMax
  }

  /** Both thresholds are inclusive, the known-exploited one counts entries, and it is the
      one that gets named when both are exceeded. */
  lemma JudgedExactly(results: seq<CVEIntel>, kevMax: int, epssMax: int)
    ensures Judge(results, kevMax, epssMax) == KEVExceeded <==> |KnownExploited(results)| > kevMax
    ensures Judge(results, kevMax, epssMax) == EPSSExceeded
       <==> |KnownExploited(results)| <= kevMax && TooLikely(results, epssMax)
  {
    hide KnownExploited, Permille;
    KEVCountExactly(results);
    var p := Peak(results);
  }

  /** A set is acceptable exactly when few enough CVEs are known-exploited and not one is
      too likely to be exploited. */
  lemma AcceptedExactly(results: seq<CVEIntel>, kevMax: int, epssMax: int)
    ensures Judge(results, kevMax, epssMax) == WithinLimits
       <==> && |KnownExploited(results)| <= kevMax
            && 0 <= epssMax
            && forall r | r in results :: Permille(r.epss) <= epssMax
  {
    hide KnownExploited, Permille;
    KEVCountExactly(results);
    var p := Peak(results);
  }

  method EvaluateExploitability(results: seq<CVEIntel>, kevMax: int, epssMax: int)
    returns (reason: Reason, kevCount: nat, maxPermille: int, maxCVE: string)
    ensures reason == Judge(results, kevMax, epssMax)
    ensures kevCount == |KnownExploited(results)| && maxPermille == Peak(results)
    ensures maxPermille > 0 ==> exists r | r in results :: r.cve == maxCVE && Permille(r.epss) == maxPermille
  {
    hide Permille, KnownExploited;
    KEVCountExactly(results);
    kevCount, maxPermille, maxCVE := 0, 0, "";
    for i := 0 to |results|
      invariant kevCount == KEVCount(results[..i]) && maxPermille == Peak(results[..i])
      invariant maxPermille > 0 ==> exists r | r in results :: r.cve == maxCVE && Permille(r.epss) == maxPermille
    {
      var r := results[i];
      assert results[..i + 1][..i] == results[..i];
      if r.kev { kevCount := kevCount + 1; }
      var p := Permille(r.epss);
      if p > maxPermille { maxPermille, maxCVE := p, r.cve; }
    }
    assert results[..|results|] == results;
    reason := if kevCount > kevMax then KEVExceeded else if maxPermille > epssMax then EPSSExceeded else WithinLimits;
  }

  // ---- Real CVE ids among a scan's findings ----

  predicate IsCVE(id: string) {
    HasPrefix(ToUpper(id), "CVE-")
  }

  lemma IsCVEExactly(id: string)
    ensures IsCVE(id) <==>
      |id| >= 4 && id[0] in {'C', 'c'} && id[1] in {'V', 'v'} && id[2] in {'E', 'e'} && id[3] == '-'
  {
    var up := ToUpper(id);
    if |id| >= 4 {
      assert up[..4] == [up[0], up[1], up[2], up[3]];
      assert "CVE-" == ['C', 'V', 'E', '-'];
    }
  }

  /** Ids of one kind (`cve`), trimmed, in order of first appearance. */
  function Distinct(ids: seq<string>, cve: bool): (r: seq<string>)
    ensures forall i, j | 0 <= i < j < |r| :: r[i] != r[j]
    ensures forall x :: x in r <==> x != "" && IsCVE(x) == cve && exists k | 0 <= k < |ids| :: TrimSpace(ids[k]) == x
  {
    if ids == [] then [] else
      var n := |ids| - 1;
      var before := Distinct(ids[..n], cve);
      var id := TrimSpace(ids[n]);
      assert forall k | 0 <= k < n :: ids[..n][k] == ids[k];
      if id != "" && IsCVE(id) == cve && id !in before then before + [id] else before
  }

  function CVEs(ids: seq<string>): seq<string> {
    Sort(Distinct(ids, true))
  }

  lemma SortKeepsMembers(s: seq<string>, x: string)
    ensures x in Sort(s) <==> x in s
  {
    assert x in multiset(Sort(s)) <==> x in multiset(s);
  }

  /** The list sent for enrichment is sorted, and holds exactly the trimmed CVE ids. */
  lemma CVEsExactly(ids: seq<string>, x: string)
    ensures Sorted(CVEs(ids))
    ensures x in CVEs(ids) <==> x != "" && IsCVE(x) && exists k | 0 <= k < |ids| :: TrimSpace(ids[k]) == x
  {
    SortSorted(Distinct(ids, true));
    SortKeepsMembers(Distinct(ids, true), x);
  }

  method ExtractCVEs(ids: seq<string>) returns (cves: seq<string>, dropped: seq<string>)
    ensures cves == CVEs(ids) && dropped == Sort(Distinct(ids, false))
  {
    var seenCVE, seenOther: set<string> := {}, {};
    cves, dropped := [], [];
    for i := 0 to |ids|
      invariant cves == Distinct(ids[..i], true) && dropped == Distinct(ids[..i], false)
      invariant seenCVE == (set x | x in cves) && seenOther == (set x | x in dropped)
    {
      assert ids[..i + 1][..i] == ids[..i];
      var id := TrimSpace(ids[i]);
      if id == "" { continue; }
      if IsCVE(id) {
        if id !in seenCVE {
          seenCVE := seenCVE + {id};
          cves := cves + [id];
        }
        continue;
      }
      if id !in seenOther {
        seenOther := seenOther + {id};
        dropped := dropped + [id];
      }
    }
    assert ids[..|ids|] == ids;
    cves, dropped := Sort(cves), Sort(dropped);
  }
}
