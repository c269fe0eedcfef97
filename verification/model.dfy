/** The fact graph: contracts, their functions, state variables and events,
    detector results, and the lookups a single contract answers. */
module Model {
  import opened Common
  import opened Dicts
  import opened Keys
  import opened Signatures

  /** Names of called functions, each written `Contract.sig`. */
  datatype FunctionCallees = FunctionCallees(
    internalCallees: seq<string>,
    externalCallees: seq<string>,
    libraryCallees: seq<string>,
    hasLowLevelCalls: bool)

  datatype StateVariableModel = StateVariableModel(
    name: string,
    typeStr: string,
    visibility: string,
    isConstant: bool,
    isImmutable: bool,
    lineNumber: Option<int>)

  datatype EventParameter = EventParameter(name: string, typeStr: string, indexed: bool)

  datatype EventModel = EventModel(name: string, parameters: seq<EventParameter>, lineNumber: Option<int>)

  datatype SourceLocation = SourceLocation(filePath: string, startLine: int, endLine: int)

  datatype DetectorMetadata = DetectorMetadata(
    name: string,
    description: string,
    impact: string,
    confidence: string)

  datatype DetectorResult = DetectorResult(
    detectorName: string,
    check: string,
    impact: string,
    confidence: string,
    description: string,
    sourceLocations: seq<SourceLocation>)

  datatype FunctionModel = FunctionModel(
    signature: string,
    implementationContract: ContractKey,
    solidityModifiers: seq<string>,
    visibility: string,
    functionModifiers: seq<string>,
    arguments: seq<string>,
    returnTypes: seq<string>,
    path: string,
    lineStart: int,
    lineEnd: int,
    callees: FunctionCallees)

  datatype ContractModel = ContractModel(
    name: string,
    key: ContractKey,
    path: string,
    isAbstract: bool,
    isFullyImplemented: bool,
    isInterface: bool,
    isLibrary: bool,
    directlyInherits: seq<ContractKey>,
    scopes: seq<ContractKey>,
    functionsDeclared: Dict<string, FunctionModel>,
    functionsInherited: Dict<string, FunctionModel>,
    stateVariables: seq<StateVariableModel>,
    events: seq<EventModel>)

  /** Everything known about one project. */
  datatype ProjectFacts = ProjectFacts(
    contracts: Dict<ContractKey, ContractModel>,
    projectDir: string,
    detectorResults: Dict<string, seq<DetectorResult>>,
    availableDetectors: seq<DetectorMetadata>)

  /** What a failed or successful lookup searched for. */
  datatype QueryContext = QueryContext(
    searchedCallingContext: Option<string>,
    searchedFunction: Option<string>,
    searchedContract: Option<string>)

  const EmptyQueryContext := QueryContext(None, None, None)

  /** `visibility.lower()` is "public" or "external". */
  predicate IsPublicOrExternal(visibility: string) {
    Lower(visibility) in {"public", "external"}
  }

  /** `functions_inherited` when `inherited`, else `functions_declared`. */
  function FunctionTable(c: ContractModel, inherited: bool): Dict<string, FunctionModel> {
    if inherited then c.functionsInherited else c.functionsDeclared
  }

  /** The contract stores a function under exactly this signature. */
  predicate HasExactFunction(c: ContractModel, sig: string) {
    sig in c.functionsDeclared.entries || sig in c.functionsInherited.entries
  }

  /** Some stored signature of `keys` normalises to `norm`. */
  predicate SomeNormalizesTo(keys: seq<string>, norm: string) {
    exists i :: 0 <= i < |keys| && NormalizeSignature(keys[i]) == norm
  }

  /** Exact match in either map, else a normalised match in either map. */
  function DoesContractContainFunction(c: ContractModel, sig: string): (r: bool)
    ensures r <==>
      HasExactFunction(c, sig)
      || (exists s :: s in c.functionsDeclared.entries && NormalizeSignature(s) == NormalizeSignature(sig))
      || (exists s :: s in c.functionsInherited.entries && NormalizeSignature(s) == NormalizeSignature(sig))
  {
    if sig in c.functionsDeclared.entries then true
    else if sig in c.functionsInherited.entries then true
    else
      var norm := NormalizeSignature(sig);
      SomeNormalizesTo(c.functionsDeclared.order, norm) || SomeNormalizesTo(c.functionsInherited.order, norm)
  }

  /** The stored signature a query refers to: exact before normalised,
      declared before inherited. */
  function FindFunctionSignature(c: ContractModel, sig: string): (r: Option<string>)
    ensures r.Some? ==> r.value in c.functionsDeclared.entries || r.value in c.functionsInherited.entries
    ensures r.Some? ==> NormalizeSignature(r.value) == NormalizeSignature(sig)
    ensures HasExactFunction(c, sig) ==> r == Some(sig)
    ensures !HasExactFunction(c, sig) && r.Some? && SomeNormalizesTo(c.functionsDeclared.order, NormalizeSignature(sig)) ==>
      r.value in c.functionsDeclared.entries
      && forall j :: 0 <= j < |c.functionsDeclared.order| && c.functionsDeclared.order[j] == r.value ==>
           forall i :: 0 <= i < j ==> NormalizeSignature(c.functionsDeclared.order[i]) != NormalizeSignature(sig)
    ensures !HasExactFunction(c, sig) && r.Some? && !SomeNormalizesTo(c.functionsDeclared.order, NormalizeSignature(sig)) ==>
      r.value in c.functionsInherited.entries
      && forall j :: 0 <= j < |c.functionsInherited.order| && c.functionsInherited.order[j] == r.value ==>
           forall i :: 0 <= i < j ==> NormalizeSignature(c.functionsInherited.order[i]) != NormalizeSignature(sig)
    ensures r.None? <==>
      !HasExactFunction(c, sig)
      && (forall s :: s in c.functionsDeclared.entries ==> NormalizeSignature(s) != NormalizeSignature(sig))
      && (forall s :: s in c.functionsInherited.entries ==> NormalizeSignature(s) != NormalizeSignature(sig))
  {
    if sig in c.functionsDeclared.entries then Some(sig)
    else if sig in c.functionsInherited.entries then Some(sig)
    else
      var norm := NormalizeSignature(sig);
      match FirstNormalized(c.functionsDeclared.order, norm)
      case Some(i) => Some(c.functionsDeclared.order[i])
      case None =>
        match FirstNormalized(c.functionsInherited.order, norm)
        case Some(j) => Some(c.functionsInherited.order[j])
        case None => None
  }

  /** A normalised match exists exactly when the first one is found. */
  lemma SomeIffFirst(keys: seq<string>, norm: string)
    ensures SomeNormalizesTo(keys, norm) <==> FirstNormalized(keys, norm).Some?
  {
    if SomeNormalizesTo(keys, norm) {
      var i :| 0 <= i < |keys| && NormalizeSignature(keys[i]) == norm;
    }
  }

  /** The two lookups agree: a contract contains a function exactly when a
      stored signature for it can be found. */
  lemma ContainsIffFound(c: ContractModel, sig: string)
    ensures DoesContractContainFunction(c, sig) <==> FindFunctionSignature(c, sig).Some?
  {
    var norm := NormalizeSignature(sig);
    SomeIffFirst(c.functionsDeclared.order, norm);
    SomeIffFirst(c.functionsInherited.order, norm);
  }

  /** Some scope of the contract carries the given contract name. */
  predicate IsContractInContext(c: ContractModel, contractName: string) {
    exists i :: 0 <= i < |c.scopes| && c.scopes[i].contractName == contractName
  }

  /** The first scope whose name is the contract part of `Contract.sig`. */
  function GetFunctionCallContext(c: ContractModel, ext: string): (r: Result<ContractKey, string>)
    ensures r.Ok? ==> r.value in c.scopes && r.value.contractName == ContractOfExt(ext)
    ensures r.Ok? <==> IsContractInContext(c, ContractOfExt(ext))
    ensures r.Err? ==> r.error == "Contract '" + ContractOfExt(ext) + "' not found in scopes"
  {
    var name := ContractOfExt(ext);
    match FirstScopeNamed(c.scopes, name)
    case Some(i) => Ok(c.scopes[i])
    case None => Err("Contract '" + name + "' not found in scopes")
  }

  function FirstScopeNamed(scopes: seq<ContractKey>, name: string): (r: Option<nat>)
    ensures r.Some? ==> r.value < |scopes| && scopes[r.value].contractName == name
    ensures r.Some? ==> forall j :: 0 <= j < r.value ==> scopes[j].contractName != name
    ensures r.None? <==> forall j :: 0 <= j < |scopes| ==> scopes[j].contractName != name
  {
    if |scopes| == 0 then None
    else if scopes[0].contractName == name then Some(0)
    else match FirstScopeNamed(scopes[1..], name)
      case None => None
      case Some(i) => Some(i + 1)
  }

  /** A context contract that is unknown has nothing in scope. */
  predicate ProjectIsContractInContext(facts: ProjectFacts, context: ContractKey, contractName: string) {
    context in facts.contracts.entries && IsContractInContext(facts.contracts.entries[context], contractName)
  }
}
