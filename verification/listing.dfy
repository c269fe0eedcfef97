/** The two listing tools: every contract with a type filter and path
    exclusion, and the functions of one contract with visibility and
    modifier filters. Both optionally sort stably, then page. */
module Listing {
  import opened Common
  import opened Dicts
  import opened Keys
  import opened Model
  import opened Signatures
  import opened Pagination
  import Sorting

  datatype SortOrder = Asc | Desc

  // ---------------------------------------------------------------------
  // Contracts

  /** `filter_type`; an absent filter lists everything, as `All` does. */
  datatype ContractFilter = All | Concrete | Interface | Library | Abstract

  predicate PassesFilter(filter: ContractFilter, c: ContractModel) {
    match filter
    case All => true
    case Concrete => !c.isInterface && !c.isLibrary && !c.isAbstract
    case Interface => c.isInterface
    case Library => c.isLibrary
    case Abstract => c.isAbstract
  }

  datatype ContractInfo = ContractInfo(
    key: ContractKey,
    isAbstract: bool,
    isInterface: bool,
    isLibrary: bool,
    isFullyImplemented: bool,
    functionCount: nat)

  /** Declared plus inherited functions. */
  function FunctionCount(c: ContractModel): nat {
    |c.functionsDeclared.order| + |c.functionsInherited.order|
  }

  function InfoOf(k: ContractKey, c: ContractModel): ContractInfo {
    ContractInfo(k, c.isAbstract, c.isInterface, c.isLibrary, c.isFullyImplemented, FunctionCount(c))
  }

  datatype ContractSortField = ByName | ByPath | ByFunctionCount

  /** An empty `excludePaths` stands for an absent one: neither excludes anything. */
  datatype ListContractsRequest = ListContractsRequest(
    filter: ContractFilter,
    sortBy: Option<ContractSortField>,
    sortOrder: SortOrder,
    excludePaths: seq<string>,
    offset: int,
    limit: Option<int>)

  datatype ListContractsResponse = ListContractsResponse(
    success: bool,
    contracts: seq<ContractInfo>,
    totalCount: nat,
    hasMore: bool)

  /** Survives the path exclusion and the type filter. */
  predicate Listed(req: ListContractsRequest, k: ContractKey, c: ContractModel) {
    !PathMatchesExclusion(k.path, req.excludePaths) && PassesFilter(req.filter, c)
  }

  /** The listed contracts, in the facts' order. */
  function ListedKeys(facts: ProjectFacts, req: ListContractsRequest): (r: seq<ContractKey>)
    ensures Subsequence(r, facts.contracts.order)
    ensures forall k :: k in r <==> k in facts.contracts.entries && Listed(req, k, facts.contracts.entries[k])
  {
    var p := (k: ContractKey) => k in facts.contracts.entries && Listed(req, k, facts.contracts.entries[k]);
    FilterSubsequence(facts.contracts.order, p);
    Filter(facts.contracts.order, p)
  }

  function ContractInfoKeys(rows: seq<ContractInfo>): (r: seq<ContractKey>)
    ensures |r| == |rows| && forall i :: 0 <= i < |rows| ==> r[i] == rows[i].key
  {
    seq(|rows|, i requires 0 <= i < |rows| => rows[i].key)
  }

  /** Python's `str.lower()` of the name or path, or the function count. */
  function ContractSortKey(field: ContractSortField): ContractInfo -> Sorting.Key {
    (info: ContractInfo) =>
      match field
      case ByName => [Sorting.Text(Lower(info.key.contractName))]
      case ByPath => [Sorting.Text(Lower(info.key.path))]
      case ByFunctionCount => [Sorting.Num(info.functionCount)]
  }

  /** The listed contracts in the facts' order, before any sorting. */
  function UnsortedContracts(facts: ProjectFacts, req: ListContractsRequest): (r: seq<ContractInfo>)
    ensures ContractInfoKeys(r) == ListedKeys(facts, req)
    ensures forall info :: info in r ==>
      info.key in facts.contracts.entries && Listed(req, info.key, facts.contracts.entries[info.key])
      && info == InfoOf(info.key, facts.contracts.entries[info.key])
    ensures forall k :: k in facts.contracts.entries && Listed(req, k, facts.contracts.entries[k]) ==>
      InfoOf(k, facts.contracts.entries[k]) in r
  {
    var ks := ListedKeys(facts, req);
    var r := seq(|ks|, i requires 0 <= i < |ks| => InfoOf(ks[i], facts.contracts.entries[ks[i]]));
    assert forall k :: k in ks ==> InfoOf(k, facts.contracts.entries[k]) in r by {
      forall k | k in ks ensures InfoOf(k, facts.contracts.entries[k]) in r {
        var i :| 0 <= i < |ks| && ks[i] == k;
        assert r[i] in r;
      }
    }
    r
  }

  /** The whole answer before paging: the listed contracts, sorted when a
      sort field is given and in the facts' order otherwise. */
  function ContractsBeforePaging(facts: ProjectFacts, req: ListContractsRequest): (r: seq<ContractInfo>)
    ensures forall info :: info in r <==> info in UnsortedContracts(facts, req)
    ensures |r| == |ListedKeys(facts, req)|
    ensures req.sortBy.None? ==> Subsequence(ContractInfoKeys(r), facts.contracts.order)
    ensures req.sortBy.Some? ==> Sorting.SortedBy(r, ContractSortKey(req.sortBy.value), req.sortOrder == Desc)
  {
    var rows := UnsortedContracts(facts, req);
    match req.sortBy
    case None => rows
    case Some(field) =>
      var key := ContractSortKey(field);
      Sorting.SortBySorted(rows, key, req.sortOrder == Desc);
      Sorting.SortByMembers(rows, key, req.sortOrder == Desc);
      Sorting.SortBy(rows, key, req.sortOrder == Desc)
  }

  /** Always succeeds; the count is taken before paging. */
  function ListContracts(facts: ProjectFacts, req: ListContractsRequest): (r: ListContractsResponse)
    ensures r.success
    ensures r.totalCount == |ListedKeys(facts, req)|
    ensures forall info :: info in r.contracts ==>
      info.key in facts.contracts.entries && Listed(req, info.key, facts.contracts.entries[info.key])
      && info.functionCount == FunctionCount(facts.contracts.entries[info.key])
    ensures Page(r.contracts, r.totalCount, r.hasMore) == ApplyPagination(ContractsBeforePaging(facts, req), req.offset, req.limit)
  {
    var page := ApplyPagination(ContractsBeforePaging(facts, req), req.offset, req.limit);
    ListContractsResponse(true, page.items, page.totalCount, page.hasMore)
  }

  /** Contracts with equal sort keys keep the facts' order. */
  lemma ListContractsStable(facts: ProjectFacts, req: ListContractsRequest, k: Sorting.Key)
    requires req.sortBy.Some?
    ensures var key := ContractSortKey(req.sortBy.value);
      Sorting.WithKey(ContractsBeforePaging(facts, req), key, k) == Sorting.WithKey(UnsortedContracts(facts, req), key, k)
  {
    Sorting.SortByStable(UnsortedContracts(facts, req), ContractSortKey(req.sortBy.value), req.sortOrder == Desc, k);
  }

  // ---------------------------------------------------------------------
  // Functions of one contract

  datatype FunctionInfo = FunctionInfo(
    functionKey: FunctionKey,
    visibility: string,
    solidityModifiers: seq<string>,
    isDeclared: bool,
    lineCount: int)

  datatype FunctionSortField = BySignature | ByVisibility | ByLineCount

  /** Empty `visibility` or `hasModifiers` lists stand for absent ones: no filtering. */
  datatype ListFunctionsRequest = ListFunctionsRequest(
    contractKey: ContractKey,
    visibility: seq<string>,
    hasModifiers: seq<string>,
    sortBy: Option<FunctionSortField>,
    sortOrder: SortOrder,
    offset: int,
    limit: Option<int>)

  datatype ListFunctionsResponse = ListFunctionsResponse(
    success: bool,
    functions: seq<FunctionInfo>,
    totalCount: nat,
    hasMore: bool,
    errorMessage: Option<string>)

  /** Exact, case-sensitive visibility membership, and at least one of the
      wanted modifiers. */
  predicate KeepsFunction(req: ListFunctionsRequest, fm: FunctionModel) {
    (|req.visibility| == 0 || fm.visibility in req.visibility)
    && (|req.hasModifiers| == 0 || exists m :: m in req.hasModifiers && m in fm.solidityModifiers)
  }

  function LineCount(fm: FunctionModel): int {
    fm.lineEnd - fm.lineStart + 1
  }

  /** `info` is the row for the function stored under its signature in `fns`. */
  predicate RowOf(ck: ContractKey, fns: Dict<string, FunctionModel>, declared: bool, info: FunctionInfo) {
    var sig := info.functionKey.signature;
    info.functionKey.Context() == ck && info.isDeclared == declared && sig in fns.entries
    && info.visibility == fns.entries[sig].visibility
    && info.solidityModifiers == fns.entries[sig].solidityModifiers
    && info.lineCount == LineCount(fns.entries[sig])
  }

  function RowFor(ck: ContractKey, fns: Dict<string, FunctionModel>, declared: bool, sig: string): FunctionInfo
    requires sig in fns.entries
  {
    var fm := fns.entries[sig];
    FunctionInfo(FunctionKey(sig, ck.contractName, ck.path), fm.visibility, fm.solidityModifiers, declared, LineCount(fm))
  }

  /** The kept functions of one map, in its order. */
  function FunctionRows(ck: ContractKey, fns: Dict<string, FunctionModel>, declared: bool, req: ListFunctionsRequest): (r: seq<FunctionInfo>)
    ensures forall info :: info in r ==>
      RowOf(ck, fns, declared, info) && KeepsFunction(req, fns.entries[info.functionKey.signature])
    ensures forall sig :: sig in fns.entries && KeepsFunction(req, fns.entries[sig]) ==> RowFor(ck, fns, declared, sig) in r
  {
    var sigs := Filter(fns.order, (s: string) => s in fns.entries && KeepsFunction(req, fns.entries[s]));
    var r := seq(|sigs|, i requires 0 <= i < |sigs| => RowFor(ck, fns, declared, sigs[i]));
    assert forall sig :: sig in sigs ==> RowFor(ck, fns, declared, sig) in r by {
      forall sig | sig in sigs ensures RowFor(ck, fns, declared, sig) in r {
        var i :| 0 <= i < |sigs| && sigs[i] == sig;
        assert r[i] == RowFor(ck, fns, declared, sig);
      }
    }
    assert forall info :: info in r ==> RowOf(ck, fns, declared, info) && KeepsFunction(req, fns.entries[info.functionKey.signature]) by {
      forall info | info in r ensures RowOf(ck, fns, declared, info) && KeepsFunction(req, fns.entries[info.functionKey.signature]) {
        var i :| 0 <= i < |r| && r[i] == info;
        assert sigs[i] in sigs;
      }
    }
    r
  }

  /** `visibility_order.get(visibility.lower(), 4)`. */
  function VisibilityRank(visibility: string): (r: nat)
    ensures r <= 4
  {
    match Lower(visibility)
    case "external" => 0
    case "public" => 1
    case "internal" => 2
    case "private" => 3
    case _ => 4
  }

  function FunctionSortKey(field: FunctionSortField): FunctionInfo -> Sorting.Key {
    (info: FunctionInfo) =>
      match field
      case BySignature => [Sorting.Text(Lower(info.functionKey.signature))]
      case ByVisibility => [Sorting.Num(VisibilityRank(info.visibility))]
      case ByLineCount => [Sorting.Num(info.lineCount)]
  }

  /** Declared rows, then inherited rows: every kept function of the
      contract, each carrying the queried contract's name and path. */
  function UnsortedFunctions(ck: ContractKey, c: ContractModel, req: ListFunctionsRequest): (r: seq<FunctionInfo>)
    ensures forall i, j :: 0 <= i < j < |r| && !r[i].isDeclared ==> !r[j].isDeclared
    ensures forall info :: info in r ==>
      (RowOf(ck, c.functionsDeclared, true, info) && KeepsFunction(req, c.functionsDeclared.entries[info.functionKey.signature]))
      || (RowOf(ck, c.functionsInherited, false, info) && KeepsFunction(req, c.functionsInherited.entries[info.functionKey.signature]))
    ensures forall sig :: sig in c.functionsDeclared.entries && KeepsFunction(req, c.functionsDeclared.entries[sig]) ==>
      RowFor(ck, c.functionsDeclared, true, sig) in r
    ensures forall sig :: sig in c.functionsInherited.entries && KeepsFunction(req, c.functionsInherited.entries[sig]) ==>
      RowFor(ck, c.functionsInherited, false, sig) in r
  {
    FunctionRows(ck, c.functionsDeclared, true, req) + FunctionRows(ck, c.functionsInherited, false, req)
  }

  /** The rows, sorted when a field is requested; unsorted they stay in
      declared-then-inherited order. */
  function FunctionsBeforePaging(ck: ContractKey, c: ContractModel, req: ListFunctionsRequest): (r: seq<FunctionInfo>)
    ensures forall info :: info in r <==> info in UnsortedFunctions(ck, c, req)
    ensures req.sortBy.None? ==> r == UnsortedFunctions(ck, c, req)
    ensures req.sortBy.Some? ==> Sorting.SortedBy(r, FunctionSortKey(req.sortBy.value), req.sortOrder == Desc)
  {
    var rows := UnsortedFunctions(ck, c, req);
    match req.sortBy
    case None => rows
    case Some(field) =>
      var key := FunctionSortKey(field);
      Sorting.SortBySorted(rows, key, req.sortOrder == Desc);
      Sorting.SortByMembers(rows, key, req.sortOrder == Desc);
      Sorting.SortBy(rows, key, req.sortOrder == Desc)
  }

  function ContractNotFoundMessage(name: string): string {
    "Contract not found: " + name
  }

  /** An unknown contract fails with nothing listed; otherwise the rows are paged. */
  function ListFunctions(facts: ProjectFacts, req: ListFunctionsRequest): (r: ListFunctionsResponse)
    ensures !r.success <==> req.contractKey !in facts.contracts.entries
    ensures !r.success ==>
      r.functions == [] && r.totalCount == 0 && !r.hasMore
      && r.errorMessage == Some(ContractNotFoundMessage(req.contractKey.contractName))
    ensures r.success ==>
      var c := facts.contracts.entries[req.contractKey];
      r.errorMessage.None?
      && Page(r.functions, r.totalCount, r.hasMore) == ApplyPagination(FunctionsBeforePaging(req.contractKey, c, req), req.offset, req.limit)
      && forall info :: info in r.functions ==>
        info.functionKey.Context() == req.contractKey
        && (if info.isDeclared then info.functionKey.signature in c.functionsDeclared.entries
            else info.functionKey.signature in c.functionsInherited.entries)
  {
    if req.contractKey !in facts.contracts.entries then
      ListFunctionsResponse(false, [], 0, false, Some(ContractNotFoundMessage(req.contractKey.contractName)))
    else
      var c := facts.contracts.entries[req.contractKey];
      var page := ApplyPagination(FunctionsBeforePaging(req.contractKey, c, req), req.offset, req.limit);
      ListFunctionsResponse(true, page.items, page.totalCount, page.hasMore, None)
  }

  /** Sorted by visibility, externals come first, then publics, internals,
      privates and the rest (the reverse when descending). */
  lemma ByVisibilityRanks(ck: ContractKey, c: ContractModel, req: ListFunctionsRequest, i: nat, j: nat)
    requires req.sortBy == Some(ByVisibility)
    requires i < j < |FunctionsBeforePaging(ck, c, req)|
    ensures var r := FunctionsBeforePaging(ck, c, req);
      if req.sortOrder == Asc then VisibilityRank(r[i].visibility) <= VisibilityRank(r[j].visibility)
      else VisibilityRank(r[i].visibility) >= VisibilityRank(r[j].visibility)
  {
    var r := FunctionsBeforePaging(ck, c, req);
    Sorting.SortedByNum(r, FunctionSortKey(ByVisibility), req.sortOrder == Desc, i, j,
                        VisibilityRank(r[i].visibility), VisibilityRank(r[j].visibility));
  }

  /** Functions with equal sort keys keep declared-then-inherited order. */
  lemma ListFunctionsStable(ck: ContractKey, c: ContractModel, req: ListFunctionsRequest, k: Sorting.Key)
    requires req.sortBy.Some?
    ensures var key := FunctionSortKey(req.sortBy.value);
      Sorting.WithKey(FunctionsBeforePaging(ck, c, req), key, k) == Sorting.WithKey(UnsortedFunctions(ck, c, req), key, k)
  {
    Sorting.SortByStable(UnsortedFunctions(ck, c, req), FunctionSortKey(req.sortBy.value), req.sortOrder == Desc, k);
  }
}
