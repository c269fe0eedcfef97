/** The call-graph queries over one function: its callees, the functions
    calling it, and the contracts implementing it below a given contract. */
module CallQueries {
  import opened Common
  import opened Dicts
  import opened Keys
  import opened Signatures
  import opened Model
  import opened Resolution
  import opened Pagination

  // ---------------------------------------------------------------------
  // Callees

  datatype CalleesResponse = CalleesResponse(
    success: bool,
    queryContext: Option<QueryContext>,
    callees: Option<FunctionCallees>,
    error: Option<LookupError>)

  /** The stored callees of the function a key resolves to. */
  function ListFunctionCallees(facts: ProjectFacts, fk: FunctionKey, includeQueryContext: bool): (r: CalleesResponse)
    ensures r.success <==> ResolveFunctionByKey(facts, fk).error.None?
    ensures r.success <==>
      fk.Context() in facts.contracts.entries
      && DoesContractContainFunction(facts.contracts.entries[fk.Context()], fk.signature)
    ensures !r.success ==> r.callees.None? && r.error.Some?
    ensures r.success ==>
      var c := facts.contracts.entries[fk.Context()];
      r.error.None?
      && exists s :: (HasExactFunction(c, s) && r.callees == Some(StoredFunction(c, s).callees)
                      && NormalizeSignature(s) == NormalizeSignature(fk.signature))
    ensures r.queryContext.Some? <==> includeQueryContext
  {
    var res := ResolveFunctionByKey(facts, fk);
    var qc := if includeQueryContext then Some(res.qc) else None;
    if res.error.Some? then CalleesResponse(false, qc, None, res.error)
    else CalleesResponse(true, qc, Some(res.fn.value.callees), None)
  }

  // ---------------------------------------------------------------------
  // Callers

  datatype CallKind = InternalCall | ExternalCall | LibraryCall

  function CalleeList(c: FunctionCallees, kind: CallKind): seq<string> {
    match kind
    case InternalCall => c.internalCallees
    case ExternalCall => c.externalCallees
    case LibraryCall => c.libraryCallees
  }

  /** A callee name refers to the target exactly or after normalisation. */
  predicate MatchesTarget(callee: string, target: string) {
    callee == target || NormalizeSignature(callee) == NormalizeSignature(target)
  }

  predicate AnyMatches(callees: seq<string>, target: string) {
    exists i :: 0 <= i < |callees| && MatchesTarget(callees[i], target)
  }

  /** Declared and inherited functions together; on a shared signature the
      inherited model wins. */
  function AllFunctions(c: ContractModel): (r: Dict<string, FunctionModel>)
    ensures r.entries.Keys == c.functionsDeclared.entries.Keys + c.functionsInherited.entries.Keys
    ensures forall s :: s in c.functionsInherited.entries ==> r.entries[s] == c.functionsInherited.entries[s]
    ensures forall s :: s in c.functionsDeclared.entries && s !in c.functionsInherited.entries ==>
      r.entries[s] == c.functionsDeclared.entries[s]
  {
    Merge(c.functionsDeclared, c.functionsInherited)
  }

  /** `k` names a function of a known contract whose callee list of the given kind mentions the target. */
  predicate IsCaller(facts: ProjectFacts, target: string, kind: CallKind, k: FunctionKey) {
    k.Context() in facts.contracts.entries
    && var all := AllFunctions(facts.contracts.entries[k.Context()]);
    k.signature in all.entries && AnyMatches(CalleeList(all.entries[k.signature].callees, kind), target)
  }

  /** Every function of every contract whose callee list of the given kind mentions the target. */
  function CallersOf(facts: ProjectFacts, target: string, kind: CallKind): (r: set<FunctionKey>)
    ensures forall k :: k in r <==> IsCaller(facts, target, kind, k)
  {
    set ck, s | ck in facts.contracts.entries && s in AllFunctions(facts.contracts.entries[ck]).entries
                && AnyMatches(CalleeList(AllFunctions(facts.contracts.entries[ck]).entries[s].callees, kind), target)
      :: FunctionKey(s, ck.contractName, ck.path)
  }

  /** Callers of each kind; the source returns each group as a list built
      from a set, so it holds no key twice. */
  datatype Callers = Callers(internalCallers: set<FunctionKey>, externalCallers: set<FunctionKey>, libraryCallers: set<FunctionKey>)

  datatype CallersResponse = CallersResponse(
    success: bool,
    queryContext: Option<QueryContext>,
    callers: Option<Callers>,
    error: Option<LookupError>)

  /** The `Contract.sig` text callee lists are matched against: built from the request, not from the stored signature. */
  function TargetOf(fk: FunctionKey): string {
    fk.contractName + "." + fk.signature
  }

  /** Every function of every contract whose callees mention the target, grouped by call kind. */
  function ListFunctionCallers(facts: ProjectFacts, fk: FunctionKey, includeQueryContext: bool): (r: CallersResponse)
    ensures r.success <==> ResolveFunctionByKey(facts, fk).error.None?
    ensures !r.success ==> r.callers.None? && r.error.Some?
    ensures r.success ==> r.callers.Some? && r.error.None?
    ensures r.success ==> forall k ::
      (k in r.callers.value.internalCallers <==> IsCaller(facts, TargetOf(fk), InternalCall, k))
      && (k in r.callers.value.externalCallers <==> IsCaller(facts, TargetOf(fk), ExternalCall, k))
      && (k in r.callers.value.libraryCallers <==> IsCaller(facts, TargetOf(fk), LibraryCall, k))
    ensures r.queryContext.Some? <==> includeQueryContext
  {
    var res := ResolveFunctionByKey(facts, fk);
    var qc := if includeQueryContext then Some(res.qc) else None;
    if res.error.Some? then CallersResponse(false, qc, None, res.error)
    else
      var target := TargetOf(fk);
      CallersResponse(true, qc, Some(Callers(
        CallersOf(facts, target, InternalCall),
        CallersOf(facts, target, ExternalCall),
        CallersOf(facts, target, LibraryCall))), None)
  }

  // ---------------------------------------------------------------------
  // Implementations

  datatype ImplementationInfo = ImplementationInfo(
    contractKey: ContractKey,
    isAbstract: bool,
    isInterface: bool,
    functionVisibility: string,
    functionModifiers: seq<string>)

  function InfoOf(m: ContractModel, sig: string): ImplementationInfo
    requires sig in m.functionsDeclared.entries
  {
    var fm := m.functionsDeclared.entries[sig];
    ImplementationInfo(m.key, m.isAbstract, m.isInterface, fm.visibility, fm.functionModifiers)
  }

  /** The contracts that declare `sig` themselves, summarised; those that only inherit it are dropped. */
  function DeclaringInfos(ms: seq<ContractModel>, sig: string): (r: seq<ImplementationInfo>)
    ensures |r| <= |ms|
    ensures forall info :: info in r ==> exists m :: m in ms && sig in m.functionsDeclared.entries && info == InfoOf(m, sig)
    ensures forall m :: m in ms && sig in m.functionsDeclared.entries ==> InfoOf(m, sig) in r
  {
    if |ms| == 0 then []
    else
      var rest := DeclaringInfos(ms[1..], sig);
      assert forall m :: m in ms <==> m == ms[0] || m in ms[1..];
      if sig in ms[0].functionsDeclared.entries then [InfoOf(ms[0], sig)] + rest else rest
  }

  datatype ImplementationsResponse = ImplementationsResponse(
    success: bool,
    implementations: Option<seq<ImplementationInfo>>,
    totalCount: nat,
    hasMore: bool,
    error: Option<LookupError>)

  /** Contracts below `key` that declare `sig` themselves, one page at a
      time. The inheritance graph must be acyclic (`rank` witnesses it):
      the source walks it without a visited set. */
  function ListFunctionImplementations(facts: ProjectFacts, key: ContractKey, sig: string, offset: int, limit: Option<int>, ghost rank: map<ContractKey, nat>): (r: ImplementationsResponse)
    requires Layered(facts, rank)
    ensures key !in facts.contracts.entries ==>
      !r.success && r.error == Some(ContractNotFound(key.contractName, key.path))
    ensures key in facts.contracts.entries && !DoesContractContainFunction(facts.contracts.entries[key], sig) ==>
      !r.success && r.error == Some(FunctionNotFound(sig, key.contractName))
    ensures r.success <==> key in facts.contracts.entries && DoesContractContainFunction(facts.contracts.entries[key], sig)
    ensures !r.success ==> r.implementations.None? && r.totalCount == 0 && !r.hasMore
    ensures r.success ==> r.implementations.Some? && r.error.None? && |r.implementations.value| <= r.totalCount
    ensures r.success ==> forall info :: info in r.implementations.value ==>
      info.contractKey in facts.contracts.entries
      && var m := facts.contracts.entries[info.contractKey];
      sig in m.functionsDeclared.entries && info == InfoOf(m, sig)
      && key in GetFullInheritance(facts, m, rank)
    ensures r.success ==> Page(r.implementations.value, r.totalCount, r.hasMore) == ApplyPagination(
      DeclaringInfos(ResolveFunctionImplementations(facts, facts.contracts.entries[key], sig, rank), sig), offset, limit)
  {
    if key !in facts.contracts.entries then
      ImplementationsResponse(false, None, 0, false, Some(ContractNotFound(key.contractName, key.path)))
    else
      var c := facts.contracts.entries[key];
      if !DoesContractContainFunction(c, sig) then
        ImplementationsResponse(false, None, 0, false, Some(FunctionNotFound(sig, key.contractName)))
      else
        var ms := ResolveFunctionImplementations(facts, c, sig, rank);
        var infos := DeclaringInfos(ms, sig);
        var page := ApplyPagination(infos, offset, limit);
        forall m | m in ms ensures c.key in GetFullInheritance(facts, m, rank) {
          ImplementationsExact(facts, c, sig, rank, m);
        }
        ImplementationsResponse(true, Some(page.items), page.totalCount, page.hasMore, None)
  }

  /** The implementations counted before paging are exactly the known
      contracts that declare `sig` themselves and inherit, directly or not,
      from the queried contract. */
  lemma ImplementationsListed(facts: ProjectFacts, key: ContractKey, sig: string, rank: map<ContractKey, nat>, m: ContractModel)
    requires Layered(facts, rank) && key in facts.contracts.entries
    requires m.key in facts.contracts.entries && facts.contracts.entries[m.key] == m && sig in m.functionsDeclared.entries
    ensures InfoOf(m, sig) in DeclaringInfos(ResolveFunctionImplementations(facts, facts.contracts.entries[key], sig, rank), sig)
      <==> key in GetFullInheritance(facts, m, rank)
  {
    var c := facts.contracts.entries[key];
    var ms := ResolveFunctionImplementations(facts, c, sig, rank);
    ImplementationsExact(facts, c, sig, rank, m);
    if InfoOf(m, sig) in DeclaringInfos(ms, sig) {
      var m' :| m' in ms && sig in m'.functionsDeclared.entries && InfoOf(m, sig) == InfoOf(m', sig);
      ImplementationsExact(facts, c, sig, rank, m');
      assert m'.key == m.key;
    }
  }
}
