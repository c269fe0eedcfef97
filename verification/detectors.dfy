/** Cached detector results and the catalogue of available detectors.
    Every filter compares case-insensitively, and an absent or empty filter
    keeps everything. */
module Detectors {
  import opened Common
  import opened Dicts
  import opened Model
  import opened Pagination

  // ---------------------------------------------------------------------
  // Collecting results

  /** The results of the detectors in `keys` that `keep` accepts, one
      detector after another. */
  function ResultsFor(dr: Dict<string, seq<DetectorResult>>, keys: seq<string>, keep: string -> bool): (r: seq<DetectorResult>)
    requires forall k :: k in keys ==> k in dr.entries
    ensures |r| <= FindingCount(dr, keys)
    ensures (forall k :: k in keys ==> keep(k)) ==> |r| == FindingCount(dr, keys)
    ensures forall x :: x in r <==> exists k :: k in keys && keep(k) && x in dr.entries[k]
  {
    if |keys| == 0 then []
    else
      assert forall k :: k in keys <==> k == keys[0] || k in keys[1..] by {
        assert keys == [keys[0]] + keys[1..];
      }
      var rest := ResultsFor(dr, keys[1..], keep);
      if keep(keys[0]) then dr.entries[keys[0]] + rest else rest
  }

  /** `sum(len(dr[k]) for k in keys)`. */
  function FindingCount(dr: Dict<string, seq<DetectorResult>>, keys: seq<string>): nat
    requires forall k :: k in keys ==> k in dr.entries
  {
    if |keys| == 0 then 0 else |dr.entries[keys[0]]| + FindingCount(dr, keys[1..])
  }

  /** Every stored result, detector by detector in the facts' order. */
  function AllResults(dr: Dict<string, seq<DetectorResult>>): (r: seq<DetectorResult>)
    ensures |r| == FindingCount(dr, dr.order)
    ensures forall x :: x in r <==> exists k :: k in dr.entries && x in dr.entries[k]
  {
    ResultsFor(dr, dr.order, (k: string) => true)
  }

  /** Keeping fewer detectors keeps their results in the same order. */
  lemma {:induction false} ResultsForInOrder(dr: Dict<string, seq<DetectorResult>>, keys: seq<string>, keep: string -> bool)
    requires forall k :: k in keys ==> k in dr.entries
    ensures Subsequence(ResultsFor(dr, keys, keep), ResultsFor(dr, keys, (k: string) => true))
    decreases |keys|
  {
    if |keys| == 0 {
    } else {
      var all := (k: string) => true;
      var rest := ResultsFor(dr, keys[1..], keep);
      var restAll := ResultsFor(dr, keys[1..], all);
      ResultsForInOrder(dr, keys[1..], keep);
      assert ResultsFor(dr, keys, all) == dr.entries[keys[0]] + restAll;
      if keep(keys[0]) {
        SubsequenceRefl(dr.entries[keys[0]]);
        SubsequenceAppend(dr.entries[keys[0]], dr.entries[keys[0]], rest, restAll);
      } else {
        SubsequenceSkip(rest, dr.entries[keys[0]], restAll);
      }
    }
  }

  // ---------------------------------------------------------------------
  // run_detectors

  datatype RunDetectorsRequest = RunDetectorsRequest(
    detectorNames: seq<string>,
    impact: seq<string>,
    confidence: seq<string>,
    offset: int,
    limit: Option<int>)

  datatype RunDetectorsResponse = RunDetectorsResponse(
    success: bool,
    results: seq<DetectorResult>,
    totalCount: nat,
    hasMore: bool)

  /** `[x.lower() for x in xs]`. */
  function LowerAll(xs: seq<string>): (r: seq<string>)
    ensures |r| == |xs|
    ensures forall i :: 0 <= i < |xs| ==> r[i] == Lower(xs[i])
  {
    seq(|xs|, i requires 0 <= i < |xs| => Lower(xs[i]))
  }

  /** `value.lower()` is one of the lowered `allowed`; an empty list allows everything. */
  predicate Allowed(allowed: seq<string>, value: string) {
    |allowed| == 0 || Lower(value) in LowerAll(allowed)
  }

  /** A result passes the impact and the confidence filter. */
  predicate PassesLevels(req: RunDetectorsRequest, x: DetectorResult) {
    Allowed(req.impact, x.impact) && Allowed(req.confidence, x.confidence)
  }

  /** The named detectors' results (all of them without names), then the
      impact filter, then the confidence filter. */
  function SelectedResults(facts: ProjectFacts, req: RunDetectorsRequest): (r: seq<DetectorResult>)
    ensures forall x :: x in r <==>
      (exists k :: k in facts.detectorResults.entries && Allowed(req.detectorNames, k) && x in facts.detectorResults.entries[k])
      && PassesLevels(req, x)
    ensures Subsequence(r, AllResults(facts.detectorResults))
  {
    var dr := facts.detectorResults;
    var named := ResultsFor(dr, dr.order, (k: string) => Allowed(req.detectorNames, k));
    ResultsForInOrder(dr, dr.order, (k: string) => Allowed(req.detectorNames, k));
    var byImpact := Filter(named, (x: DetectorResult) => Allowed(req.impact, x.impact));
    var byConfidence := Filter(byImpact, (x: DetectorResult) => Allowed(req.confidence, x.confidence));
    FilterSubsequence(named, (x: DetectorResult) => Allowed(req.impact, x.impact));
    FilterSubsequence(byImpact, (x: DetectorResult) => Allowed(req.confidence, x.confidence));
    SubsequenceTransitive(byConfidence, byImpact, named);
    SubsequenceTransitive(byConfidence, named, AllResults(dr));
    byConfidence
  }

  function RunDetectors(facts: ProjectFacts, req: RunDetectorsRequest): (r: RunDetectorsResponse)
    ensures r.success
    ensures Page(r.results, r.totalCount, r.hasMore) == ApplyPagination(SelectedResults(facts, req), req.offset, req.limit)
    ensures forall x :: x in r.results ==>
      PassesLevels(req, x)
      && exists k :: k in facts.detectorResults.entries && Allowed(req.detectorNames, k) && x in facts.detectorResults.entries[k]
  {
    var page := ApplyPagination(SelectedResults(facts, req), req.offset, req.limit);
    RunDetectorsResponse(true, page.items, page.totalCount, page.hasMore)
  }

  /** Without filters every stored finding is counted. */
  lemma RunDetectorsUnfiltered(facts: ProjectFacts, req: RunDetectorsRequest)
    requires req.detectorNames == [] && req.impact == [] && req.confidence == []
    ensures RunDetectors(facts, req).totalCount == FindingCount(facts.detectorResults, facts.detectorResults.order)
  {
    var dr := facts.detectorResults;
    var named := ResultsFor(dr, dr.order, (k: string) => Allowed(req.detectorNames, k));
    assert named == AllResults(dr) by {
      ResultsForSame(dr, dr.order, (k: string) => Allowed(req.detectorNames, k), (k: string) => true);
    }
    FilterAll(named, (x: DetectorResult) => Allowed(req.impact, x.impact));
    FilterAll(named, (x: DetectorResult) => Allowed(req.confidence, x.confidence));
  }

  /** Names that match no detector give an empty, successful answer. */
  lemma RunDetectorsUnknownNames(facts: ProjectFacts, req: RunDetectorsRequest)
    requires req.detectorNames != []
    requires forall k :: k in facts.detectorResults.entries ==> !Allowed(req.detectorNames, k)
    ensures RunDetectors(facts, req).success && RunDetectors(facts, req).totalCount == 0
  {
    var dr := facts.detectorResults;
    ResultsForNone(dr, dr.order, (k: string) => Allowed(req.detectorNames, k));
  }

  /** A filter no key passes collects nothing. */
  lemma {:induction false} ResultsForNone(dr: Dict<string, seq<DetectorResult>>, keys: seq<string>, keep: string -> bool)
    requires forall k :: k in keys ==> k in dr.entries && !keep(k)
    ensures ResultsFor(dr, keys, keep) == []
    decreases |keys|
  {
    if |keys| > 0 {
      ResultsForNone(dr, keys[1..], keep);
    }
  }

  /** Two filters that agree on every key collect the same results. */
  lemma {:induction false} ResultsForSame(dr: Dict<string, seq<DetectorResult>>, keys: seq<string>, p: string -> bool, q: string -> bool)
    requires forall k :: k in keys ==> k in dr.entries && p(k) == q(k)
    ensures ResultsFor(dr, keys, p) == ResultsFor(dr, keys, q)
    decreases |keys|
  {
    if |keys| > 0 {
      ResultsForSame(dr, keys[1..], p, q);
    }
  }

  /** A filter every element passes keeps the sequence. */
  lemma {:induction false} FilterAll<T(!new)>(s: seq<T>, p: T -> bool)
    requires forall x :: x in s ==> p(x)
    ensures Filter(s, p) == s
    decreases |s|
  {
    if |s| > 0 {
      FilterAll(s[1..], p);
    }
  }

  // ---------------------------------------------------------------------
  // list_detectors

  datatype ListDetectorsRequest = ListDetectorsRequest(nameFilter: string, offset: int, limit: Option<int>)

  datatype ListDetectorsResponse = ListDetectorsResponse(
    success: bool,
    detectors: seq<DetectorMetadata>,
    totalCount: nat,
    hasMore: bool)

  /** The lowered filter occurs in the lowered name or description. */
  predicate DescribedBy(filter: string, d: DetectorMetadata) {
    IsInfix(Lower(filter), Lower(d.name)) || IsInfix(Lower(filter), Lower(d.description))
  }

  /** The available detectors the filter accepts, in catalogue order. */
  function MatchingDetectors(ds: seq<DetectorMetadata>, filter: string): (r: seq<DetectorMetadata>)
    ensures forall d :: d in r <==> d in ds && (filter == "" || DescribedBy(filter, d))
    ensures Subsequence(r, ds)
  {
    if filter == "" then
      SubsequenceRefl(ds);
      ds
    else
      FilterSubsequence(ds, (d: DetectorMetadata) => DescribedBy(filter, d));
      Filter(ds, (d: DetectorMetadata) => DescribedBy(filter, d))
  }

  /** The filter ignores case: a filter and its lowered form list the same detectors. */
  lemma MatchingIgnoresCase(ds: seq<DetectorMetadata>, filter: string)
    ensures MatchingDetectors(ds, filter) == MatchingDetectors(ds, Lower(filter))
  {
    LowerIdempotent(filter);
    if filter != "" {
      assert Lower(filter) != "";
      FilterSame(ds, (d: DetectorMetadata) => DescribedBy(filter, d), (d: DetectorMetadata) => DescribedBy(Lower(filter), d));
    }
  }

  lemma {:induction false} FilterSame<T(!new)>(s: seq<T>, p: T -> bool, q: T -> bool)
    requires forall x :: x in s ==> p(x) == q(x)
    ensures Filter(s, p) == Filter(s, q)
    decreases |s|
  {
    if |s| > 0 {
      FilterSame(s[1..], p, q);
    }
  }

  function ListDetectors(facts: ProjectFacts, req: ListDetectorsRequest): (r: ListDetectorsResponse)
    ensures r.success
    ensures Page(r.detectors, r.totalCount, r.hasMore)
      == ApplyPagination(MatchingDetectors(facts.availableDetectors, req.nameFilter), req.offset, req.limit)
    ensures forall d :: d in r.detectors ==> d in facts.availableDetectors && (req.nameFilter == "" || DescribedBy(req.nameFilter, d))
  {
    var page := ApplyPagination(MatchingDetectors(facts.availableDetectors, req.nameFilter), req.offset, req.limit);
    ListDetectorsResponse(true, page.items, page.totalCount, page.hasMore)
  }
}
