/** Pattern search over function and contract names. The regular
    expression is abstract: a compiled pattern is a predicate on strings
    (already folding case when the search is case-insensitive), and a
    pattern that does not compile is the compiler's error text. */
module Search {
  import opened Common
  import opened Dicts
  import opened Keys
  import opened Model
  import opened Signatures
  import opened Pagination

  /** `pattern.search(text)` for a compiled pattern. */
  type Matcher = string -> bool

  /** The outcome of compiling the request's pattern. */
  type Compiled = Result<Matcher, string>

  // ---------------------------------------------------------------------
  // search_functions

  datatype SearchFunctionsRequest = SearchFunctionsRequest(
    searchSignatures: bool,
    excludePaths: seq<string>,
    deduplicate: bool,
    offset: int,
    limit: Option<int>)

  datatype SearchResponse<T> = SearchResponse(
    success: bool,
    matches: seq<T>,
    totalCount: nat,
    hasMore: bool,
    errorMessage: Option<string>)

  /** What the pattern is run against: the name, or the full signature. */
  function SearchTarget(searchSignatures: bool, sig: string): string {
    if searchSignatures then sig else ExtractFunctionName(sig)
  }

  /** The key of `sig` in contract `k`. */
  function KeyIn(k: ContractKey, sig: string): FunctionKey {
    FunctionKey(sig, k.contractName, k.path)
  }

  function KeysIn(k: ContractKey, sigs: seq<string>): (r: seq<FunctionKey>)
    ensures |r| == |sigs|
    ensures forall fk :: fk in r <==> fk.Context() == k && fk.signature in sigs
  {
    if |sigs| == 0 then []
    else
      assert forall s :: s in sigs <==> s == sigs[0] || s in sigs[1..] by {
        assert sigs == [sigs[0]] + sigs[1..];
      }
      [KeyIn(k, sigs[0])] + KeysIn(k, sigs[1..])
  }

  /** Every function of the contracts `ks`, in order: per contract its
      declared functions, then its inherited ones. */
  function AllFunctionKeys(facts: ProjectFacts, ks: seq<ContractKey>): (r: seq<FunctionKey>)
    requires forall k :: k in ks ==> k in facts.contracts.entries
    ensures forall fk :: fk in r <==>
      fk.Context() in ks
      && (fk.signature in facts.contracts.entries[fk.Context()].functionsDeclared.entries
          || fk.signature in facts.contracts.entries[fk.Context()].functionsInherited.entries)
  {
    if |ks| == 0 then []
    else
      var c := facts.contracts.entries[ks[0]];
      assert forall k :: k in ks <==> k == ks[0] || k in ks[1..] by {
        assert ks == [ks[0]] + ks[1..];
      }
      KeysIn(ks[0], c.functionsDeclared.order) + KeysIn(ks[0], c.functionsInherited.order)
        + AllFunctionKeys(facts, ks[1..])
  }

  /** A function is a match when its contract is not excluded and the
      pattern finds its search target. */
  predicate FunctionHit(m: Matcher, req: SearchFunctionsRequest, fk: FunctionKey) {
    !PathMatchesExclusion(fk.path, req.excludePaths) && m(SearchTarget(req.searchSignatures, fk.signature))
  }

  /** The contract name and signature: the deduplication key. The path is ignored. */
  function NameAndSignature(fk: FunctionKey): (string, string) {
    (fk.contractName, fk.signature)
  }

  /** Every function the pattern finds, in scanning order. */
  function Hits(facts: ProjectFacts, m: Matcher, req: SearchFunctionsRequest): (r: seq<FunctionKey>)
    ensures forall fk :: fk in r <==> fk in AllFunctionKeys(facts, facts.contracts.order) && FunctionHit(m, req, fk)
  {
    Filter(AllFunctionKeys(facts, facts.contracts.order), (fk: FunctionKey) => FunctionHit(m, req, fk))
  }

  /** All matches before paging, in scanning order; with `deduplicate`, only
      the first match of each (contract name, signature) pair. */
  function FunctionMatches(facts: ProjectFacts, m: Matcher, req: SearchFunctionsRequest): (r: seq<FunctionKey>)
    ensures forall fk :: fk in r ==> fk in AllFunctionKeys(facts, facts.contracts.order) && FunctionHit(m, req, fk)
    ensures req.deduplicate ==> forall i, j :: 0 <= i < j < |r| ==> NameAndSignature(r[i]) != NameAndSignature(r[j])
    ensures req.deduplicate ==> var hits := Hits(facts, m, req);
      forall i :: 0 <= i < |hits| && (forall j :: 0 <= j < i ==> NameAndSignature(hits[j]) != NameAndSignature(hits[i])) ==>
        hits[i] in r
    ensures !req.deduplicate ==>
      forall fk :: fk in AllFunctionKeys(facts, facts.contracts.order) && FunctionHit(m, req, fk) ==> fk in r
  {
    var hits := Hits(facts, m, req);
    if req.deduplicate then
      forall i | 0 <= i < |hits| && (forall j :: 0 <= j < i ==> NameAndSignature(hits[j]) != NameAndSignature(hits[i]))
        ensures hits[i] in DedupBy(hits, NameAndSignature, {})
      {
        DedupByKeepsFirst(hits, NameAndSignature, {}, i);
      }
      DedupBy(hits, NameAndSignature, {})
    else hits
  }

  /** The matches keep the scanning order: contracts in the facts' order,
      declared before inherited within each. */
  lemma FunctionMatchesInOrder(facts: ProjectFacts, m: Matcher, req: SearchFunctionsRequest)
    ensures Subsequence(FunctionMatches(facts, m, req), AllFunctionKeys(facts, facts.contracts.order))
  {
    var all := AllFunctionKeys(facts, facts.contracts.order);
    var p := (fk: FunctionKey) => FunctionHit(m, req, fk);
    var hits := Hits(facts, m, req);
    FilterSubsequence(all, p);
    assert hits == Filter(all, p);
    if req.deduplicate {
      DedupBySubsequence(hits, NameAndSignature, {});
      SubsequenceTransitive(DedupBy(hits, NameAndSignature, {}), hits, all);
    }
  }

  /** With deduplication every matching function is still represented by
      a match of the same contract name and signature. */
  lemma FunctionMatchesCover(facts: ProjectFacts, m: Matcher, req: SearchFunctionsRequest, fk: FunctionKey)
    requires fk in AllFunctionKeys(facts, facts.contracts.order) && FunctionHit(m, req, fk)
    ensures exists g :: g in FunctionMatches(facts, m, req) && NameAndSignature(g) == NameAndSignature(fk)
  {
    var hits := Hits(facts, m, req);
    if req.deduplicate {
      DedupByCovers(hits, NameAndSignature, {}, fk);
    } else {
      assert fk in FunctionMatches(facts, m, req);
    }
  }

  /** A pattern that does not compile fails with its error; otherwise the matches are paged. */
  function SearchFunctions(facts: ProjectFacts, compiled: Compiled, req: SearchFunctionsRequest): (r: SearchResponse<FunctionKey>)
    ensures r.success <==> compiled.Ok?
    ensures !r.success ==> r.matches == [] && r.totalCount == 0 && r.errorMessage == Some(compiled.error)
    ensures r.success ==>
      r.errorMessage.None?
      && Page(r.matches, r.totalCount, r.hasMore) == ApplyPagination(FunctionMatches(facts, compiled.value, req), req.offset, req.limit)
      && forall fk :: fk in r.matches ==>
        fk.Context() in facts.contracts.entries
        && !PathMatchesExclusion(fk.path, req.excludePaths)
        && compiled.value(SearchTarget(req.searchSignatures, fk.signature))
  {
    match compiled
    case Err(e) => SearchResponse(false, [], 0, false, Some(e))
    case Ok(m) =>
      var page := ApplyPagination(FunctionMatches(facts, m, req), req.offset, req.limit);
      SearchResponse(true, page.items, page.totalCount, page.hasMore, None)
  }

  // ---------------------------------------------------------------------
  // search_contracts

  datatype SearchContractsRequest = SearchContractsRequest(
    excludePaths: seq<string>,
    offset: int,
    limit: Option<int>)

  /** The keys whose contract name the pattern finds, then those whose path
      is not excluded, in the facts' order. */
  function ContractMatches(facts: ProjectFacts, m: Matcher, req: SearchContractsRequest): (r: seq<ContractKey>)
    ensures forall k :: k in r <==>
      k in facts.contracts.entries && m(k.contractName) && !PathMatchesExclusion(k.path, req.excludePaths)
    ensures Subsequence(r, facts.contracts.order)
  {
    var named := Filter(facts.contracts.order, (k: ContractKey) => m(k.contractName));
    var kept := Filter(named, (k: ContractKey) => !PathMatchesExclusion(k.path, req.excludePaths));
    FilterSubsequence(facts.contracts.order, (k: ContractKey) => m(k.contractName));
    FilterSubsequence(named, (k: ContractKey) => !PathMatchesExclusion(k.path, req.excludePaths));
    SubsequenceTransitive(kept, named, facts.contracts.order);
    kept
  }

  function SearchContracts(facts: ProjectFacts, compiled: Compiled, req: SearchContractsRequest): (r: SearchResponse<ContractKey>)
    ensures r.success <==> compiled.Ok?
    ensures !r.success ==> r.matches == [] && r.totalCount == 0 && r.errorMessage == Some(compiled.error)
    ensures r.success ==>
      r.errorMessage.None?
      && Page(r.matches, r.totalCount, r.hasMore) == ApplyPagination(ContractMatches(facts, compiled.value, req), req.offset, req.limit)
      && forall k :: k in r.matches ==>
        k in facts.contracts.entries && compiled.value(k.contractName) && !PathMatchesExclusion(k.path, req.excludePaths)
  {
    match compiled
    case Err(e) => SearchResponse(false, [], 0, false, Some(e))
    case Ok(m) =>
      var page := ApplyPagination(ContractMatches(facts, m, req), req.offset, req.limit);
      SearchResponse(true, page.items, page.totalCount, page.hasMore, None)
  }
}
