/** Functions that nothing in the project calls. A function counts as
    called when some declared function of some contract lists its
    `Contract.sig` text among its internal, external or library callees. */
module DeadCode {
  import opened Common
  import opened Dicts
  import opened Keys
  import opened Model
  import opened Pagination

  /** Names with a lifecycle or framework meaning: never reported. */
  const SpecialFunctionNames: set<string> := {"constructor", "receive", "fallback", "setUp", "run"}

  /** Foundry test functions start with this prefix. */
  const TestFunctionPrefix: string := "test"

  /** The function name is a special name or starts with the test prefix. */
  predicate IsSpecialFunction(sig: string) {
    var name := Before(sig, '(');
    name in SpecialFunctionNames || TestFunctionPrefix <= name
  }

  /** Public or external (in any letter case), or a special function. */
  predicate IsEntryPoint(visibility: string, sig: string) {
    IsPublicOrExternal(visibility) || IsSpecialFunction(sig)
  }

  datatype DeadReason = InternalNoCallers | NeverCalled | InheritedNeverCalled
  {
    function Text(): string {
      match this
      case InternalNoCallers => "Internal/private function with no internal callers"
      case NeverCalled => "Function is never called from within the codebase"
      case InheritedNeverCalled => "Inherited function is never called from within the codebase"
    }
  }

  datatype DeadCodeFunction = DeadCodeFunction(
    functionKey: FunctionKey,
    visibility: string,
    isEntryPoint: bool,
    reason: DeadReason)

  function AllCallees(c: FunctionCallees): seq<string> {
    c.internalCallees + c.externalCallees + c.libraryCallees
  }

  /** Every callee name of every declared function of every contract. */
  function CalledFunctions(facts: ProjectFacts): (r: set<string>)
    ensures forall n :: n in r <==>
      exists k, s :: k in facts.contracts.entries && s in facts.contracts.entries[k].functionsDeclared.entries
        && n in AllCallees(facts.contracts.entries[k].functionsDeclared.entries[s].callees)
  {
    set k, s, n | k in facts.contracts.entries && s in facts.contracts.entries[k].functionsDeclared.entries
      && n in AllCallees(facts.contracts.entries[k].functionsDeclared.entries[s].callees) :: n
  }

  /** The `Contract.sig` text callee lists use for a function of contract `ck`. */
  function ExtSig(ck: ContractKey, sig: string): string {
    ck.contractName + "." + sig
  }

  /** A stored function of contract `ck` that should be reported. */
  predicate IsDead(ck: ContractKey, called: set<string>, fm: FunctionModel, sig: string, excludeEntryPoints: bool) {
    ExtSig(ck, sig) !in called
    && !(excludeEntryPoints && IsEntryPoint(fm.visibility, sig))
    && !IsSpecialFunction(sig)
  }

  function ReasonFor(declared: bool, visibility: string): DeadReason {
    if !declared then InheritedNeverCalled
    else if Lower(visibility) in {"internal", "private"} then InternalNoCallers
    else NeverCalled
  }

  /** What is reported for function `sig` of contract `ck`. */
  predicate DescribesDead(ck: ContractKey, called: set<string>, fns: Dict<string, FunctionModel>, declared: bool, excludeEntryPoints: bool, d: DeadCodeFunction) {
    d.functionKey.Context() == ck
    && var sig := d.functionKey.signature;
    sig in fns.entries
    && IsDead(ck, called, fns.entries[sig], sig, excludeEntryPoints)
    && d.visibility == fns.entries[sig].visibility
    && d.isEntryPoint == IsEntryPoint(fns.entries[sig].visibility, sig)
    && d.reason == ReasonFor(declared, fns.entries[sig].visibility)
  }

  /** The dead functions among `fns.order[j..]`, in order. */
  function DeadAmong(ck: ContractKey, called: set<string>, fns: Dict<string, FunctionModel>, declared: bool, excludeEntryPoints: bool, j: nat): (r: seq<DeadCodeFunction>)
    requires j <= |fns.order|
    ensures forall d :: d in r ==> DescribesDead(ck, called, fns, declared, excludeEntryPoints, d)
    ensures forall d :: d in r ==> d.functionKey.signature in fns.order[j..]
    ensures forall s :: s in fns.order[j..] && IsDead(ck, called, fns.entries[s], s, excludeEntryPoints) ==>
      exists d :: d in r && d.functionKey == FunctionKey(s, ck.contractName, ck.path)
        && d.reason == ReasonFor(declared, fns.entries[s].visibility)
    decreases |fns.order| - j
  {
    if j == |fns.order| then []
    else
      var s := fns.order[j];
      var fm := fns.entries[s];
      var rest := DeadAmong(ck, called, fns, declared, excludeEntryPoints, j + 1);
      assert fns.order[j..] == [s] + fns.order[j + 1..];
      if IsDead(ck, called, fm, s, excludeEntryPoints) then
        var d := DeadCodeFunction(FunctionKey(s, ck.contractName, ck.path), fm.visibility,
                                  IsEntryPoint(fm.visibility, s), ReasonFor(declared, fm.visibility));
        assert d.functionKey.Context() == ck;
        [d] + rest
      else rest
  }

  /** Interfaces and libraries are skipped; inherited functions are examined only on request. */
  function DeadInContract(ck: ContractKey, c: ContractModel, called: set<string>, excludeEntryPoints: bool, includeInherited: bool): (r: seq<DeadCodeFunction>)
    ensures c.isInterface || c.isLibrary ==> r == []
    ensures forall d :: d in r ==>
      DescribesDead(ck, called, c.functionsDeclared, true, excludeEntryPoints, d)
      || (includeInherited && DescribesDead(ck, called, c.functionsInherited, false, excludeEntryPoints, d))
    ensures !c.isInterface && !c.isLibrary ==>
      forall s :: s in c.functionsDeclared.entries && IsDead(ck, called, c.functionsDeclared.entries[s], s, excludeEntryPoints) ==>
        exists d :: d in r && d.functionKey == FunctionKey(s, ck.contractName, ck.path)
          && d.reason == ReasonFor(true, c.functionsDeclared.entries[s].visibility)
    ensures !c.isInterface && !c.isLibrary && includeInherited ==>
      forall s :: s in c.functionsInherited.entries && IsDead(ck, called, c.functionsInherited.entries[s], s, excludeEntryPoints) ==>
        exists d :: d in r && d.functionKey == FunctionKey(s, ck.contractName, ck.path) && d.reason == InheritedNeverCalled
    ensures !includeInherited ==> forall d :: d in r ==> d.reason != InheritedNeverCalled
  {
    if c.isInterface || c.isLibrary then []
    else
      var fromDeclared := DeadAmong(ck, called, c.functionsDeclared, true, excludeEntryPoints, 0);
      var fromInherited := if includeInherited then DeadAmong(ck, called, c.functionsInherited, false, excludeEntryPoints, 0) else [];
      assert forall s :: s in c.functionsDeclared.entries ==> s in c.functionsDeclared.order[0..];
      assert forall s :: s in c.functionsInherited.entries ==> s in c.functionsInherited.order[0..];
      fromDeclared + fromInherited
  }

  /** Every reported function belongs to a listed contract that is neither
      an interface nor a library, and is dead there. */
  predicate DeadSound(facts: ProjectFacts, keys: seq<ContractKey>, called: set<string>, excludeEntryPoints: bool, includeInherited: bool, r: seq<DeadCodeFunction>)
    requires forall k :: k in keys ==> k in facts.contracts.entries
  {
    forall d :: d in r ==>
      (d.functionKey.Context() in keys
       && var c := facts.contracts.entries[d.functionKey.Context()];
       !c.isInterface && !c.isLibrary
       && (DescribesDead(d.functionKey.Context(), called, c.functionsDeclared, true, excludeEntryPoints, d)
           || (includeInherited && DescribesDead(d.functionKey.Context(), called, c.functionsInherited, false, excludeEntryPoints, d))))
  }

  /** Every dead function of one table (declared, or inherited) of a
      listed contract that is neither an interface nor a library is
      reported, with the reason that table gives. */
  predicate DeadCompleteIn(facts: ProjectFacts, keys: seq<ContractKey>, called: set<string>, excludeEntryPoints: bool, inherited: bool, r: seq<DeadCodeFunction>)
    requires forall k :: k in keys ==> k in facts.contracts.entries
  {
    forall k, s ::
      (k in keys && s in FunctionTable(facts.contracts.entries[k], inherited).entries
       && !facts.contracts.entries[k].isInterface && !facts.contracts.entries[k].isLibrary
       && IsDead(k, called, FunctionTable(facts.contracts.entries[k], inherited).entries[s], s, excludeEntryPoints)) ==>
      exists d :: d in r && d.functionKey == FunctionKey(s, k.contractName, k.path)
        && d.reason == ReasonFor(!inherited, FunctionTable(facts.contracts.entries[k], inherited).entries[s].visibility)
  }

  /** Every dead declared function, and on request every dead inherited
      one, is reported. */
  predicate DeadComplete(facts: ProjectFacts, keys: seq<ContractKey>, called: set<string>, excludeEntryPoints: bool, includeInherited: bool, r: seq<DeadCodeFunction>)
    requires forall k :: k in keys ==> k in facts.contracts.entries
  {
    DeadCompleteIn(facts, keys, called, excludeEntryPoints, false, r)
    && (includeInherited ==> DeadCompleteIn(facts, keys, called, excludeEntryPoints, true, r))
  }

  function DeadInContracts(facts: ProjectFacts, keys: seq<ContractKey>, called: set<string>, excludeEntryPoints: bool, includeInherited: bool): (r: seq<DeadCodeFunction>)
    requires forall k :: k in keys ==> k in facts.contracts.entries
    ensures DeadSound(facts, keys, called, excludeEntryPoints, includeInherited, r)
    ensures DeadComplete(facts, keys, called, excludeEntryPoints, includeInherited, r)
  {
    if |keys| == 0 then []
    else
      var rest := DeadInContracts(facts, keys[1..], called, excludeEntryPoints, includeInherited);
      DeadSoundStep(facts, keys, called, excludeEntryPoints, includeInherited, rest);
      DeadCompleteStep(facts, keys, called, excludeEntryPoints, includeInherited, rest);
      DeadInContract(keys[0], facts.contracts.entries[keys[0]], called, excludeEntryPoints, includeInherited) + rest
  }

  /** The first contract's dead functions followed by the rest's are sound for all the keys. */
  lemma DeadSoundStep(facts: ProjectFacts, keys: seq<ContractKey>, called: set<string>, excludeEntryPoints: bool, includeInherited: bool, rest: seq<DeadCodeFunction>)
    requires |keys| > 0 && forall k :: k in keys ==> k in facts.contracts.entries
    requires DeadSound(facts, keys[1..], called, excludeEntryPoints, includeInherited, rest)
    ensures DeadSound(facts, keys, called, excludeEntryPoints, includeInherited,
                      DeadInContract(keys[0], facts.contracts.entries[keys[0]], called, excludeEntryPoints, includeInherited) + rest)
  {
    var k0 := keys[0];
    var here := DeadInContract(k0, facts.contracts.entries[k0], called, excludeEntryPoints, includeInherited);
    assert forall k :: k in keys[1..] ==> k in keys;
    forall d | d in here + rest
      ensures d.functionKey.Context() in keys
    {
      if d in here {
        assert d.functionKey.Context() == k0;
      }
    }
  }

  /** The first contract's dead functions followed by the rest's are complete for all the keys. */
  lemma DeadCompleteStep(facts: ProjectFacts, keys: seq<ContractKey>, called: set<string>, excludeEntryPoints: bool, includeInherited: bool, rest: seq<DeadCodeFunction>)
    requires |keys| > 0 && forall k :: k in keys ==> k in facts.contracts.entries
    requires DeadComplete(facts, keys[1..], called, excludeEntryPoints, includeInherited, rest)
    ensures DeadComplete(facts, keys, called, excludeEntryPoints, includeInherited,
                         DeadInContract(keys[0], facts.contracts.entries[keys[0]], called, excludeEntryPoints, includeInherited) + rest)
  {
    DeadCompleteInStep(facts, keys, called, excludeEntryPoints, includeInherited, false, rest);
    if includeInherited {
      DeadCompleteInStep(facts, keys, called, excludeEntryPoints, includeInherited, true, rest);
    }
  }

  /** One table at a time: the first contract's dead functions of the
      table, followed by the rest's, are complete for all the keys. */
  lemma DeadCompleteInStep(facts: ProjectFacts, keys: seq<ContractKey>, called: set<string>, excludeEntryPoints: bool, includeInherited: bool, inherited: bool, rest: seq<DeadCodeFunction>)
    requires |keys| > 0 && forall k :: k in keys ==> k in facts.contracts.entries
    requires inherited ==> includeInherited
    requires DeadCompleteIn(facts, keys[1..], called, excludeEntryPoints, inherited, rest)
    ensures DeadCompleteIn(facts, keys, called, excludeEntryPoints, inherited,
                           DeadInContract(keys[0], facts.contracts.entries[keys[0]], called, excludeEntryPoints, includeInherited) + rest)
  {
    var k0 := keys[0];
    var c0 := facts.contracts.entries[k0];
    var here := DeadInContract(k0, c0, called, excludeEntryPoints, includeInherited);
    assert forall k :: k in keys ==> k == k0 || k in keys[1..] by {
      assert keys == [k0] + keys[1..];
    }
    forall k, s | k in keys && s in FunctionTable(facts.contracts.entries[k], inherited).entries
        && !facts.contracts.entries[k].isInterface && !facts.contracts.entries[k].isLibrary
        && IsDead(k, called, FunctionTable(facts.contracts.entries[k], inherited).entries[s], s, excludeEntryPoints)
      ensures exists d :: (d in here + rest && d.functionKey == FunctionKey(s, k.contractName, k.path)
        && d.reason == ReasonFor(!inherited, FunctionTable(facts.contracts.entries[k], inherited).entries[s].visibility))
    {
      if k == k0 {
        DeadHere(k0, c0, called, excludeEntryPoints, includeInherited, inherited, s);
        var d :| d in here && d.functionKey == FunctionKey(s, k.contractName, k.path)
          && d.reason == ReasonFor(!inherited, FunctionTable(c0, inherited).entries[s].visibility);
        assert d in here + rest;
      } else {
        var d :| d in rest && d.functionKey == FunctionKey(s, k.contractName, k.path)
          && d.reason == ReasonFor(!inherited, FunctionTable(facts.contracts.entries[k], inherited).entries[s].visibility);
        assert d in here + rest;
      }
    }
  }

  /** A dead function of one table of a contract that is neither an
      interface nor a library is reported there, with the table's reason. */
  lemma DeadHere(ck: ContractKey, c: ContractModel, called: set<string>, excludeEntryPoints: bool, includeInherited: bool, inherited: bool, s: string)
    requires !c.isInterface && !c.isLibrary && (inherited ==> includeInherited)
    requires s in FunctionTable(c, inherited).entries
    requires IsDead(ck, called, FunctionTable(c, inherited).entries[s], s, excludeEntryPoints)
    ensures exists d :: (d in DeadInContract(ck, c, called, excludeEntryPoints, includeInherited)
      && d.functionKey == FunctionKey(s, ck.contractName, ck.path)
      && d.reason == ReasonFor(!inherited, FunctionTable(c, inherited).entries[s].visibility))
  {
    var r := DeadInContract(ck, c, called, excludeEntryPoints, includeInherited);
    var fk := FunctionKey(s, ck.contractName, ck.path);
    if inherited {
      assert s in c.functionsInherited.entries && IsDead(ck, called, c.functionsInherited.entries[s], s, excludeEntryPoints);
      var d :| d in r && d.functionKey == fk && d.reason == InheritedNeverCalled;
    } else {
      var fm := c.functionsDeclared.entries[s];
      assert s in c.functionsDeclared.entries && IsDead(ck, called, fm, s, excludeEntryPoints);
      var d :| d in r && d.functionKey == fk && d.reason == ReasonFor(true, fm.visibility);
    }
  }

  datatype DeadCodeResponse = DeadCodeResponse(
    success: bool,
    deadFunctions: seq<DeadCodeFunction>,
    totalCount: nat,
    hasMore: bool,
    error: Option<ContractKey>)

  /** "Contract not found: 'Name' at 'path'" */
  function NotFoundMessage(k: ContractKey): string {
    "Contract not found: '" + k.contractName + "' at '" + k.path + "'"
  }

  /** The contracts the search covers: the requested one, or all in facts order. */
  function ContractsToCheck(facts: ProjectFacts, contractKey: Option<ContractKey>): (r: seq<ContractKey>)
    requires contractKey.Some? ==> contractKey.value in facts.contracts.entries
    ensures forall k :: k in r <==> k in facts.contracts.entries && (contractKey.Some? ==> k == contractKey.value)
  {
    if contractKey.Some? then [contractKey.value] else facts.contracts.order
  }

  /** Every dead function of the covered contracts, before pagination. */
  function DeadCandidates(facts: ProjectFacts, contractKey: Option<ContractKey>, excludeEntryPoints: bool, includeInherited: bool): (r: seq<DeadCodeFunction>)
    requires contractKey.Some? ==> contractKey.value in facts.contracts.entries
    ensures forall d :: d in r ==>
      var k := d.functionKey.Context();
      k in facts.contracts.entries && (contractKey.Some? ==> k == contractKey.value)
      && ExtSig(k, d.functionKey.signature) !in CalledFunctions(facts)
      && !IsSpecialFunction(d.functionKey.signature)
      && (excludeEntryPoints ==> !d.isEntryPoint)
      && !facts.contracts.entries[k].isInterface && !facts.contracts.entries[k].isLibrary
      && (!includeInherited ==> d.functionKey.signature in facts.contracts.entries[k].functionsDeclared.entries)
  {
    DeadInContracts(facts, ContractsToCheck(facts, contractKey), CalledFunctions(facts), excludeEntryPoints, includeInherited)
  }

  /** A declared function (or, on request, an inherited one) nothing
      calls, of a covered contract that is neither interface nor library,
      that is not special and not an excluded entry point, is reported with
      the reason its table and visibility give. */
  lemma DeadCandidatesComplete(facts: ProjectFacts, contractKey: Option<ContractKey>, excludeEntryPoints: bool, includeInherited: bool,
                               inherited: bool, k: ContractKey, s: string)
    requires contractKey.Some? ==> contractKey.value in facts.contracts.entries
    requires k in facts.contracts.entries && (contractKey.Some? ==> k == contractKey.value)
    requires !facts.contracts.entries[k].isInterface && !facts.contracts.entries[k].isLibrary
    requires inherited ==> includeInherited
    requires s in FunctionTable(facts.contracts.entries[k], inherited).entries
    requires ExtSig(k, s) !in CalledFunctions(facts) && !IsSpecialFunction(s)
    requires !(excludeEntryPoints && IsEntryPoint(FunctionTable(facts.contracts.entries[k], inherited).entries[s].visibility, s))
    ensures exists d :: (d in DeadCandidates(facts, contractKey, excludeEntryPoints, includeInherited)
                         && d.functionKey == FunctionKey(s, k.contractName, k.path)
                         && d.reason == ReasonFor(!inherited, FunctionTable(facts.contracts.entries[k], inherited).entries[s].visibility))
  {
    var keys := ContractsToCheck(facts, contractKey);
    var called := CalledFunctions(facts);
    var fm := FunctionTable(facts.contracts.entries[k], inherited).entries[s];
    assert k in keys;
    assert IsDead(k, called, fm, s, excludeEntryPoints);
    var r := DeadInContracts(facts, keys, called, excludeEntryPoints, includeInherited);
    assert r == DeadCandidates(facts, contractKey, excludeEntryPoints, includeInherited);
    assert DeadCompleteIn(facts, keys, called, excludeEntryPoints, inherited, r);
    var d :| d in r && d.functionKey == FunctionKey(s, k.contractName, k.path) && d.reason == ReasonFor(!inherited, fm.visibility);
  }

  /** Dead functions one page at a time; an unknown requested contract fails. */
  function FindDeadCode(facts: ProjectFacts, contractKey: Option<ContractKey>, excludeEntryPoints: bool, includeInherited: bool, offset: int, limit: Option<int>): (r: DeadCodeResponse)
    ensures contractKey.Some? && contractKey.value !in facts.contracts.entries ==>
      !r.success && r.deadFunctions == [] && r.totalCount == 0 && r.error == contractKey
    ensures r.success <==> contractKey.None? || contractKey.value in facts.contracts.entries
    ensures r.success ==> r.totalCount == |DeadCandidates(facts, contractKey, excludeEntryPoints, includeInherited)|
    ensures r.success ==> forall d :: d in r.deadFunctions ==>
      d in DeadCandidates(facts, contractKey, excludeEntryPoints, includeInherited)
    ensures r.success ==>
      Page(r.deadFunctions, r.totalCount, r.hasMore)
        == ApplyPagination(DeadCandidates(facts, contractKey, excludeEntryPoints, includeInherited), offset, limit)
  {
    if contractKey.Some? && contractKey.value !in facts.contracts.entries then
      DeadCodeResponse(false, [], 0, false, contractKey)
    else
      var page := ApplyPagination(DeadCandidates(facts, contractKey, excludeEntryPoints, includeInherited), offset, limit);
      DeadCodeResponse(true, page.items, page.totalCount, page.hasMore, None)
  }
}
