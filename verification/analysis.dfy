/** Project-wide analyses that scan every contract (or one requested
    contract) and report rows with a summary: functions with low-level
    calls, state variables and events. */
module Analysis {
  import opened Common
  import opened Dicts
  import opened Keys
  import opened Model
  import opened Pagination
  import Sorting
  import Listing

  // ---------------------------------------------------------------------
  // Scanning contracts

  /** A requested contract key limits the scan to that contract. */
  predicate Scanned(only: Option<ContractKey>, k: ContractKey) {
    only.None? || k == only.value
  }

  /** The rows of every scanned contract of `ks`, contract by contract. */
  function Gather<R(!new)>(cs: Dict<ContractKey, ContractModel>, ks: seq<ContractKey>, only: Option<ContractKey>,
                           rows: (ContractKey, ContractModel) -> seq<R>): (r: seq<R>)
    requires forall k :: k in ks ==> k in cs.entries
    ensures forall x :: x in r <==> exists k :: k in ks && Scanned(only, k) && x in rows(k, cs.entries[k])
  {
    if |ks| == 0 then []
    else
      assert forall k :: k in ks <==> k == ks[0] || k in ks[1..] by {
        assert ks == [ks[0]] + ks[1..];
      }
      (if Scanned(only, ks[0]) then rows(ks[0], cs.entries[ks[0]]) else []) + Gather(cs, ks[1..], only, rows)
  }

  /** Without a contract restriction two keys gather their rows in order. */
  lemma GatherTwo<R(!new)>(cs: Dict<ContractKey, ContractModel>, ks: seq<ContractKey>, rows: (ContractKey, ContractModel) -> seq<R>)
    requires |ks| == 2 && ks[0] in cs.entries && ks[1] in cs.entries
    ensures Gather(cs, ks, None, rows) == rows(ks[0], cs.entries[ks[0]]) + rows(ks[1], cs.entries[ks[1]])
  {
    var tail := ks[1..];
    assert tail[0] == ks[1] && tail[1..] == [];
    assert Gather(cs, tail, None, rows) == rows(ks[1], cs.entries[ks[1]]) + Gather(cs, [], None, rows);
    assert Gather(cs, ks, None, rows) == rows(ks[0], cs.entries[ks[0]]) + Gather(cs, tail, None, rows);
  }

  /** `filter` is empty, or equals `value` ignoring case. */
  predicate SameVisibility(filter: string, value: string) {
    filter == "" || Lower(value) == Lower(filter)
  }

  /** The rows, a per-key count, and the page. */
  datatype AnalysisResponse<T> = AnalysisResponse(
    success: bool,
    items: seq<T>,
    totalCount: nat,
    hasMore: bool,
    summary: Dict<string, nat>)

  /** Page the sorted rows and tally the rows' summary keys in scanning order. */
  function Respond<T(!new)>(rows: seq<T>, sorted: seq<T>, summaryKey: T -> string, offset: int, limit: Option<int>): (r: AnalysisResponse<T>)
    requires |sorted| == |rows|
    ensures r.success
    ensures Page(r.items, r.totalCount, r.hasMore) == ApplyPagination(sorted, offset, limit)
    ensures r.totalCount == |rows|
    ensures SumValues(r.summary) == r.totalCount
    ensures forall v :: v in r.summary.entries <==> exists x :: x in rows && summaryKey(x) == v
    ensures forall v :: v in r.summary.entries ==> r.summary.entries[v] == Occurrences(MapSeq(rows, summaryKey), v)
  {
    var keys := MapSeq(rows, summaryKey);
    TallySum(keys);
    var page := ApplyPagination(sorted, offset, limit);
    AnalysisResponse(true, page.items, page.totalCount, page.hasMore, Tally(keys))
  }

  // ---------------------------------------------------------------------
  // analyze_low_level_calls

  datatype LowLevelCallInfo = LowLevelCallInfo(
    functionKey: FunctionKey,
    visibility: string,
    isPayable: bool,
    solidityModifiers: seq<string>,
    customModifiers: seq<string>)

  datatype LowLevelCallsRequest = LowLevelCallsRequest(
    contractKey: Option<ContractKey>,
    visibilityFilter: string,
    offset: int,
    limit: Option<int>)

  /** The function makes a low-level call and has the requested visibility. */
  predicate ReportsCall(filter: string, f: FunctionModel) {
    f.callees.hasLowLevelCalls && SameVisibility(filter, f.visibility)
  }

  function CallInfo(k: ContractKey, sig: string, f: FunctionModel): LowLevelCallInfo {
    LowLevelCallInfo(FunctionKey(sig, k.contractName, k.path), f.visibility,
                     "payable" in f.solidityModifiers, f.solidityModifiers, f.functionModifiers)
  }

  /** The declared functions of one contract that make low-level calls, in declaration order. */
  function CallRows(k: ContractKey, c: ContractModel, filter: string): (r: seq<LowLevelCallInfo>)
    ensures forall x :: x in r <==>
      exists sig :: sig in c.functionsDeclared.entries && ReportsCall(filter, c.functionsDeclared.entries[sig])
        && x == CallInfo(k, sig, c.functionsDeclared.entries[sig])
  {
    var d := c.functionsDeclared;
    Collect(d, d.order, (sig: string, f: FunctionModel) => ReportsCall(filter, f), (sig: string, f: FunctionModel) => CallInfo(k, sig, f))
  }

  /** Every reported call, in scanning order. */
  function LowLevelCalls(facts: ProjectFacts, req: LowLevelCallsRequest): (r: seq<LowLevelCallInfo>)
    ensures forall x :: x in r <==>
      exists k :: k in facts.contracts.entries && Scanned(req.contractKey, k) && x in CallRows(k, facts.contracts.entries[k], req.visibilityFilter)
  {
    Gather(facts.contracts, facts.contracts.order, req.contractKey,
           (k: ContractKey, c: ContractModel) => CallRows(k, c, req.visibilityFilter))
  }

  /** External first, then public, internal, private, anything else. */
  function ExposureKey(x: LowLevelCallInfo): Sorting.Key {
    [Sorting.Num(Listing.VisibilityRank(x.visibility))]
  }

  function LoweredVisibility(x: LowLevelCallInfo): string {
    Lower(x.visibility)
  }

  /** The reported calls, most exposed first; ties keep the scanning order. */
  function RankedCalls(facts: ProjectFacts, req: LowLevelCallsRequest): (r: seq<LowLevelCallInfo>)
    ensures |r| == |LowLevelCalls(facts, req)|
    ensures forall x :: x in r <==> x in LowLevelCalls(facts, req)
    ensures Sorting.SortedBy(r, ExposureKey, false)
  {
    var rows := LowLevelCalls(facts, req);
    Sorting.SortByMembers(rows, ExposureKey, false);
    Sorting.SortBySorted(rows, ExposureKey, false);
    Sorting.SortBy(rows, ExposureKey, false)
  }

  /** The ranked calls, paged; the summary counts the calls per lowered
      visibility. */
  function AnalyzeLowLevelCalls(facts: ProjectFacts, req: LowLevelCallsRequest): (r: AnalysisResponse<LowLevelCallInfo>)
    ensures r.success
    ensures r.totalCount == |LowLevelCalls(facts, req)|
    ensures SumValues(r.summary) == r.totalCount
    ensures forall v :: v in r.summary.entries <==> exists x :: x in LowLevelCalls(facts, req) && Lower(x.visibility) == v
    ensures forall v :: v in r.summary.entries ==>
      r.summary.entries[v] == Occurrences(MapSeq(LowLevelCalls(facts, req), LoweredVisibility), v)
    ensures forall x :: x in r.items ==>
      x.isPayable == ("payable" in x.solidityModifiers)
      && x.functionKey.Context() in facts.contracts.entries
      && Scanned(req.contractKey, x.functionKey.Context())
      && x.functionKey.signature in facts.contracts.entries[x.functionKey.Context()].functionsDeclared.entries
    ensures Page(r.items, r.totalCount, r.hasMore) == ApplyPagination(RankedCalls(facts, req), req.offset, req.limit)
  {
    Respond(LowLevelCalls(facts, req), RankedCalls(facts, req), LoweredVisibility, req.offset, req.limit)
  }

  /** Every page lists the more exposed functions first. */
  lemma LowLevelCallsByExposure(facts: ProjectFacts, req: LowLevelCallsRequest)
    ensures var items := AnalyzeLowLevelCalls(facts, req).items;
      forall i, j :: 0 <= i < j < |items| ==>
        Listing.VisibilityRank(items[i].visibility) <= Listing.VisibilityRank(items[j].visibility)
  {
    PageOfSorted(RankedCalls(facts, req), ExposureKey, false, req.offset, req.limit);
    ExposureRanks(AnalyzeLowLevelCalls(facts, req).items);
  }

  /** A page of a sorted sequence is sorted. */
  lemma PageOfSorted<T(!new)>(sorted: seq<T>, key: T -> Sorting.Key, descending: bool, offset: int, limit: Option<int>)
    requires Sorting.SortedBy(sorted, key, descending)
    ensures Sorting.SortedBy(ApplyPagination(sorted, offset, limit).items, key, descending)
  {
    var items := ApplyPagination(sorted, offset, limit).items;
    var a := PageSlice(sorted, offset, limit);
    Sorting.SortedSlice(sorted, key, descending, a, a + |items|);
  }

  /** A page of sorted rows is sorted. */
  lemma SortedPage<T(!new)>(rows: seq<T>, key: T -> Sorting.Key, offset: int, limit: Option<int>)
    ensures Sorting.SortedBy(ApplyPagination(Sorting.SortBy(rows, key, false), offset, limit).items, key, false)
  {
    Sorting.SortBySorted(rows, key, false);
    PageOfSorted(Sorting.SortBy(rows, key, false), key, false, offset, limit);
  }

  /** Sorted by `ExposureKey` means the visibility ranks never decrease. */
  lemma ExposureRanks(items: seq<LowLevelCallInfo>)
    requires Sorting.SortedBy(items, ExposureKey, false)
    ensures forall i, j :: 0 <= i < j < |items| ==>
      Listing.VisibilityRank(items[i].visibility) <= Listing.VisibilityRank(items[j].visibility)
  {
    forall i, j | 0 <= i < j < |items|
      ensures Listing.VisibilityRank(items[i].visibility) <= Listing.VisibilityRank(items[j].visibility)
    {
      Sorting.SortedByNum(items, ExposureKey, false, i, j,
                          Listing.VisibilityRank(items[i].visibility), Listing.VisibilityRank(items[j].visibility));
    }
  }

  // ---------------------------------------------------------------------
  // analyze_state_variables

  datatype StateVariableInfo = StateVariableInfo(contractKey: ContractKey, variable: StateVariableModel)

  datatype StateVariablesRequest = StateVariablesRequest(
    contractKey: Option<ContractKey>,
    visibilityFilter: string,
    includeConstants: bool,
    includeImmutables: bool,
    offset: int,
    limit: Option<int>)

  /** The visibility filter, then the constant and immutable switches. */
  predicate KeepsVariable(req: StateVariablesRequest, v: StateVariableModel) {
    SameVisibility(req.visibilityFilter, v.visibility)
    && (req.includeConstants || !v.isConstant)
    && (req.includeImmutables || !v.isImmutable)
  }

  function VariableRows(k: ContractKey, c: ContractModel, req: StateVariablesRequest): (r: seq<StateVariableInfo>)
    ensures forall x :: x in r <==> exists v :: v in c.stateVariables && KeepsVariable(req, v) && x == StateVariableInfo(k, v)
  {
    MapSeq(Filter(c.stateVariables, (v: StateVariableModel) => KeepsVariable(req, v)),
           (v: StateVariableModel) => StateVariableInfo(k, v))
  }

  function StateVariables(facts: ProjectFacts, req: StateVariablesRequest): (r: seq<StateVariableInfo>)
    ensures forall x :: x in r <==>
      x.contractKey in facts.contracts.entries && Scanned(req.contractKey, x.contractKey)
      && x.variable in facts.contracts.entries[x.contractKey].stateVariables && KeepsVariable(req, x.variable)
  {
    Gather(facts.contracts, facts.contracts.order, req.contractKey,
           (k: ContractKey, c: ContractModel) => VariableRows(k, c, req))
  }

  /** `(contract_key.contract_name, variable.name)`, compared as Python compares tuples of strings. */
  function VariableKey(x: StateVariableInfo): Sorting.Key {
    [Sorting.Text(x.contractKey.contractName), Sorting.Text(x.variable.name)]
  }

  function VariableVisibility(x: StateVariableInfo): string {
    Lower(x.variable.visibility)
  }

  /** The kept variables sorted by contract name then variable name, paged;
      the summary counts them per lowered visibility. */
  function AnalyzeStateVariables(facts: ProjectFacts, req: StateVariablesRequest): (r: AnalysisResponse<StateVariableInfo>)
    ensures r.success
    ensures r.totalCount == |StateVariables(facts, req)|
    ensures SumValues(r.summary) == r.totalCount
    ensures forall v :: v in r.summary.entries <==> exists x :: x in StateVariables(facts, req) && Lower(x.variable.visibility) == v
    ensures forall v :: v in r.summary.entries ==>
      r.summary.entries[v] == Occurrences(MapSeq(StateVariables(facts, req), VariableVisibility), v)
    ensures Page(r.items, r.totalCount, r.hasMore)
      == ApplyPagination(Sorting.SortBy(StateVariables(facts, req), VariableKey, false), req.offset, req.limit)
  {
    var rows := StateVariables(facts, req);
    Respond(rows, Sorting.SortBy(rows, VariableKey, false), VariableVisibility, req.offset, req.limit)
  }

  /** Every page is ordered by contract name, then variable name. */
  lemma StateVariablesByName(facts: ProjectFacts, req: StateVariablesRequest)
    ensures Sorting.SortedBy(AnalyzeStateVariables(facts, req).items, VariableKey, false)
  {
    SortedPage(StateVariables(facts, req), VariableKey, req.offset, req.limit);
  }

  /** Without any filter every state variable of every contract is reported. */
  lemma StateVariablesUnfiltered(facts: ProjectFacts, req: StateVariablesRequest, k: ContractKey, v: StateVariableModel)
    requires req.contractKey.None? && req.visibilityFilter == "" && req.includeConstants && req.includeImmutables
    requires k in facts.contracts.entries && v in facts.contracts.entries[k].stateVariables
    ensures StateVariableInfo(k, v) in StateVariables(facts, req)
  {
  }

  // ---------------------------------------------------------------------
  // analyze_events

  datatype EventInfo = EventInfo(contractKey: ContractKey, event: EventModel, indexedParamCount: nat)

  datatype EventsRequest = EventsRequest(
    contractKey: Option<ContractKey>,
    nameFilter: string,
    offset: int,
    limit: Option<int>)

  /** `filter.lower() in name.lower()`; an empty filter keeps everything. */
  predicate NameContains(filter: string, name: string) {
    filter == "" || IsInfix(Lower(filter), Lower(name))
  }

  function EventInfoOf(k: ContractKey, e: EventModel): (r: EventInfo)
    ensures r.indexedParamCount == Count(e.parameters, (p: EventParameter) => p.indexed)
    ensures r.indexedParamCount <= |e.parameters|
  {
    EventInfo(k, e, Count(e.parameters, (p: EventParameter) => p.indexed))
  }

  function EventRows(k: ContractKey, c: ContractModel, filter: string): (r: seq<EventInfo>)
    ensures forall x :: x in r <==> exists e :: e in c.events && NameContains(filter, e.name) && x == EventInfoOf(k, e)
  {
    MapSeq(Filter(c.events, (e: EventModel) => NameContains(filter, e.name)), (e: EventModel) => EventInfoOf(k, e))
  }

  function Events(facts: ProjectFacts, req: EventsRequest): (r: seq<EventInfo>)
    ensures forall x :: x in r <==>
      x.contractKey in facts.contracts.entries && Scanned(req.contractKey, x.contractKey)
      && x.event in facts.contracts.entries[x.contractKey].events && NameContains(req.nameFilter, x.event.name)
      && x == EventInfoOf(x.contractKey, x.event)
  {
    Gather(facts.contracts, facts.contracts.order, req.contractKey,
           (k: ContractKey, c: ContractModel) => EventRows(k, c, req.nameFilter))
  }

  function EventKey(x: EventInfo): Sorting.Key {
    [Sorting.Text(x.contractKey.contractName), Sorting.Text(x.event.name)]
  }

  function EventContract(x: EventInfo): string {
    x.contractKey.contractName
  }

  /** The kept events sorted by contract name then event name, paged; the
      summary counts the kept events per contract name. */
  function AnalyzeEvents(facts: ProjectFacts, req: EventsRequest): (r: AnalysisResponse<EventInfo>)
    ensures r.success
    ensures r.totalCount == |Events(facts, req)|
    ensures SumValues(r.summary) == r.totalCount
    ensures forall n :: n in r.summary.entries <==> exists x :: x in Events(facts, req) && x.contractKey.contractName == n
    ensures forall n :: n in r.summary.entries ==>
      r.summary.entries[n] == Occurrences(MapSeq(Events(facts, req), EventContract), n)
    ensures forall x :: x in r.items ==> x in Events(facts, req)
    ensures Page(r.items, r.totalCount, r.hasMore)
      == ApplyPagination(Sorting.SortBy(Events(facts, req), EventKey, false), req.offset, req.limit)
  {
    var rows := Events(facts, req);
    Sorting.SortByMembers(rows, EventKey, false);
    Respond(rows, Sorting.SortBy(rows, EventKey, false), EventContract, req.offset, req.limit)
  }

  /** Every page is ordered by contract name, then event name. */
  lemma EventsByName(facts: ProjectFacts, req: EventsRequest)
    ensures Sorting.SortedBy(AnalyzeEvents(facts, req).items, EventKey, false)
  {
    SortedPage(Events(facts, req), EventKey, req.offset, req.limit);
  }
}
