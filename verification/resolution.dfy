/** Resolving functions across the fact graph: by function key, by
    `Contract.sig` reference from a calling context, through the full
    ancestry of a contract, and down to every implementation below it. */
module Resolution {
  import opened Common
  import opened Dicts
  import opened Keys
  import opened Signatures
  import opened Model

  /** The outcome of a lookup: what was searched, and either the contract and
      function found or an error message. */
  datatype Resolution = Resolution(
    qc: QueryContext,
    contract: Option<ContractModel>,
    fn: Option<FunctionModel>,
    error: Option<LookupError>)

  /** A computation that either returns or raises Python's `KeyError`. */
  datatype Outcome<T> = Returns(value: T) | RaisesKeyError(missing: string)

  /** Why a lookup failed; `Message` renders the text the tools report. */
  datatype LookupError =
    | ContractNotFound(name: string, path: string)
    | FunctionNotFound(sig: string, contractName: string)
    | InvalidExtFormat(ext: string)
    | NotInScope(name: string, contextName: string)
  {
    function Message(): string {
      match this
      case ContractNotFound(name, path) =>
        "Contract not found: '" + name + "' at '" + path + "'. "
        + "Use search_contracts or list_contracts to find available contracts."
      case FunctionNotFound(sig, contractName) =>
        "Function '" + sig + "' not found in contract '" + contractName + "'. "
        + "Use list_functions with this contract_key to see available functions, "
        + "or search_functions to find functions by pattern."
      case InvalidExtFormat(ext) =>
        "Invalid external function signature format. Expected 'ContractName.functionSignature(args)', got: '"
        + ext + "'"
      case NotInScope(name, contextName) =>
        "Contract '" + name + "' is not in scope for '" + contextName + "'. "
        + "Use get_contract to check the 'scopes' field for available contracts in context."
    }
  }

  /** The model stored under an exact signature, declared before inherited. */
  function StoredFunction(c: ContractModel, sig: string): FunctionModel
    requires HasExactFunction(c, sig)
  {
    if sig in c.functionsDeclared.entries then c.functionsDeclared.entries[sig]
    else c.functionsInherited.entries[sig]
  }

  // ---------------------------------------------------------------------
  // resolve_function_by_key

  /** Looks the key's contract up, then the signature with normalised matching. */
  function ResolveFunctionByKey(facts: ProjectFacts, fk: FunctionKey): (r: Resolution)
    ensures r.error.None? <==>
      fk.Context() in facts.contracts.entries
      && DoesContractContainFunction(facts.contracts.entries[fk.Context()], fk.signature)
    ensures r.error.Some? ==> r.contract.None? && r.fn.None?
    ensures r.error.None? ==> r.contract == Some(facts.contracts.entries[fk.Context()]) && r.fn.Some?
    ensures r.error.None? ==>
      var c := facts.contracts.entries[fk.Context()];
      exists s :: HasExactFunction(c, s) && r.fn.value == StoredFunction(c, s)
        && NormalizeSignature(s) == NormalizeSignature(fk.signature)
    ensures r.error.None? && HasExactFunction(facts.contracts.entries[fk.Context()], fk.signature) ==>
      r.fn == Some(StoredFunction(facts.contracts.entries[fk.Context()], fk.signature))
    ensures r.qc.searchedCallingContext == Some(ContractKeyToString(fk.Context()))
    ensures r.qc.searchedFunction == Some(fk.contractName + "." + fk.signature)
    ensures r.qc.searchedContract == if fk.Context() in facts.contracts.entries then Some(fk.contractName) else None
  {
    var ck := fk.Context();
    var searched := fk.contractName + "." + fk.signature;
    if ck !in facts.contracts.entries then
      Resolution(QueryContext(Some(ContractKeyToString(ck)), Some(searched), None), None, None,
                 Some(ContractNotFound(fk.contractName, fk.path)))
    else
      var c := facts.contracts.entries[ck];
      var qc := QueryContext(Some(ContractKeyToString(ck)), Some(searched), Some(ck.contractName));
      ContainsIffFound(c, fk.signature);
      match FindFunctionSignature(c, fk.signature)
      case None => Resolution(qc, None, None, Some(FunctionNotFound(fk.signature, ck.contractName)))
      case Some(actual) => Resolution(qc, Some(c), Some(StoredFunction(c, actual)), None)
  }

  // ---------------------------------------------------------------------
  // resolve_function

  /** `Contract.sig` resolved from a calling context, as written: membership
      is checked with normalised matching but the function is then fetched by
      the exact signature, and the scope's contract is fetched without a
      membership check. */
  function ResolveFunction(facts: ProjectFacts, ext: string, context: ContractKey): (r: Outcome<Resolution>)
    ensures '.' !in ext ==> r == Returns(Resolution(EmptyQueryContext, None, None, Some(InvalidExtFormat(ext))))
    ensures r.Returns? && r.value.error.None? ==>
      '.' in ext && context in facts.contracts.entries
      && var target := GetFunctionCallContext(facts.contracts.entries[context], ext);
      target.Ok? && target.value in facts.contracts.entries
      && HasExactFunction(facts.contracts.entries[target.value], ExtToFuncSig(ext))
      && r.value.fn == Some(StoredFunction(facts.contracts.entries[target.value], ExtToFuncSig(ext)))
    ensures r.Returns? ==> (r.value.error.None? <==> r.value.fn.Some?)
  {
    if '.' !in ext then
      Returns(Resolution(EmptyQueryContext, None, None, Some(InvalidExtFormat(ext))))
    else if context !in facts.contracts.entries then
      Returns(Resolution(QueryContext(Some(ContractKeyToString(context)), None, None), None, None,
                         Some(ContractNotFound(context.contractName, context.path))))
    else
      var name := ContractOfExt(ext);
      if !ProjectIsContractInContext(facts, context, name) then
        Returns(Resolution(QueryContext(Some(ContractKeyToString(context)), Some(ext), None), None, None,
                           Some(NotInScope(name, context.contractName))))
      else
        var target := GetFunctionCallContext(facts.contracts.entries[context], ext).value;
        if target !in facts.contracts.entries then RaisesKeyError(ContractKeyToString(target))
        else
          var qc := QueryContext(Some(ContractKeyToString(context)), Some(ext), Some(target.contractName));
          FetchExact(facts.contracts.entries[target], target, ExtToFuncSig(ext), qc)
  }

  /** The membership check with normalised matching, then the exact lookup. */
  function FetchExact(t: ContractModel, target: ContractKey, sig: string, qc: QueryContext): (r: Outcome<Resolution>)
    ensures r.Returns? && r.value.error.None? ==>
      HasExactFunction(t, sig) && r.value.fn == Some(StoredFunction(t, sig)) && r.value.contract == Some(t)
    ensures r.Returns? ==> (r.value.error.None? <==> r.value.fn.Some?)
    ensures r.RaisesKeyError? <==> DoesContractContainFunction(t, sig) && !HasExactFunction(t, sig)
    ensures r.RaisesKeyError? ==> r.missing == sig
  {
    if !DoesContractContainFunction(t, sig) then
      Returns(Resolution(qc, None, None, Some(FunctionNotFound(sig, target.contractName))))
    else if sig in t.functionsDeclared.entries then
      Returns(Resolution(qc, Some(t), Some(t.functionsDeclared.entries[sig]), None))
    else if sig in t.functionsInherited.entries then
      Returns(Resolution(qc, Some(t), Some(t.functionsInherited.entries[sig]), None))
    else RaisesKeyError(sig)
  }

  /** A reference that matches a stored signature only after normalisation
      raises `KeyError` instead of resolving. */
  lemma ResolveFunctionRaisesOnNormalizedMatch(facts: ProjectFacts, ext: string, context: ContractKey, target: ContractKey)
    requires '.' in ext && context in facts.contracts.entries
    requires GetFunctionCallContext(facts.contracts.entries[context], ext) == Ok(target)
    requires target in facts.contracts.entries
    requires !HasExactFunction(facts.contracts.entries[target], ExtToFuncSig(ext))
    requires SomeNormalizesTo(facts.contracts.entries[target].functionsDeclared.order, NormalizeSignature(ExtToFuncSig(ext)))
    ensures ResolveFunction(facts, ext, context) == RaisesKeyError(ExtToFuncSig(ext))
  {
  }

  /** `C.f(I.P)` against a contract that stores only `f(P)`: the reference is
      accepted by the membership check and then crashes. */
  lemma ResolveFunctionQualifiedCrash(facts: ProjectFacts, context: ContractKey, target: ContractKey, name: string, q: string, t: string)
    requires '.' !in target.contractName && '(' !in name && '.' !in name
    requires '.' !in q && ',' !in q && '.' !in t && ',' !in t
    requires |t| > 0 && t[|t| - 1] != ')' && !IsSpace(t[|t| - 1]) && !EndsWith(t, "[]")
    requires !IsSpace((q + "." + t)[0]) && !IsSpace(t[0])
    requires context in facts.contracts.entries && target in facts.contracts.entries
    requires GetFunctionCallContext(facts.contracts.entries[context], target.contractName + "." + (name + "(" + (q + "." + t) + ")")) == Ok(target)
    requires facts.contracts.entries[target].functionsDeclared.order == [name + "(" + t + ")"]
    requires |facts.contracts.entries[target].functionsInherited.order| == 0
    ensures ResolveFunction(facts, target.contractName + "." + (name + "(" + (q + "." + t) + ")"), context)
      == RaisesKeyError(name + "(" + (q + "." + t) + ")")
  {
    var sig := name + "(" + (q + "." + t) + ")";
    var stored := name + "(" + t + ")";
    var ext := target.contractName + "." + sig;
    assert ext[|target.contractName|] == '.';
    ExtJoinSplit(target.contractName, sig);
    NormalizeQualified(name, q, t);
    NormalizePlain(name, t);
    var c := facts.contracts.entries[target];
    assert SomeNormalizesTo(c.functionsDeclared.order, NormalizeSignature(sig)) by {
      assert c.functionsDeclared.order[0] == stored;
    }
    assert sig != stored by {
      assert |sig| == |stored| + |q| + 1;
    }
    ResolveFunctionRaisesOnNormalizedMatch(facts, ext, context, target);
  }

  /** `Contract.sig` resolved from a calling context with the stored signature
      found by normalised matching, and an unknown scope contract reported as
      an error. */
  function ResolveFunctionFixed(facts: ProjectFacts, ext: string, context: ContractKey): (r: Resolution)
    ensures r.error.None? <==>
      '.' in ext && context in facts.contracts.entries
      && var target := GetFunctionCallContext(facts.contracts.entries[context], ext);
      target.Ok? && target.value in facts.contracts.entries
      && DoesContractContainFunction(facts.contracts.entries[target.value], ExtToFuncSig(ext))
    ensures r.error.None? ==> r.fn.Some? && r.contract.Some?
    ensures r.error.None? ==>
      exists s :: HasExactFunction(r.contract.value, s) && r.fn.value == StoredFunction(r.contract.value, s)
        && NormalizeSignature(s) == NormalizeSignature(ExtToFuncSig(ext))
  {
    if '.' !in ext then
      Resolution(EmptyQueryContext, None, None, Some(InvalidExtFormat(ext)))
    else if context !in facts.contracts.entries then
      Resolution(QueryContext(Some(ContractKeyToString(context)), None, None), None, None,
                 Some(ContractNotFound(context.contractName, context.path)))
    else
      var name := ContractOfExt(ext);
      if !ProjectIsContractInContext(facts, context, name) then
        Resolution(QueryContext(Some(ContractKeyToString(context)), Some(ext), None), None, None,
                   Some(NotInScope(name, context.contractName)))
      else
        var sig := ExtToFuncSig(ext);
        var target := GetFunctionCallContext(facts.contracts.entries[context], ext).value;
        if target !in facts.contracts.entries then
          Resolution(QueryContext(Some(ContractKeyToString(context)), Some(ext), None), None, None,
                     Some(ContractNotFound(target.contractName, target.path)))
        else
          var t := facts.contracts.entries[target];
          var qc := QueryContext(Some(ContractKeyToString(context)), Some(ext), Some(target.contractName));
          ContainsIffFound(t, sig);
          match FindFunctionSignature(t, sig)
          case None => Resolution(qc, None, None, Some(FunctionNotFound(sig, target.contractName)))
          case Some(actual) => Resolution(qc, Some(t), Some(StoredFunction(t, actual)), None)
  }

  /** Wherever the code as written returns, the corrected resolution returns
      the same answer. */
  lemma ResolveFunctionFixedAgrees(facts: ProjectFacts, ext: string, context: ContractKey)
    requires ResolveFunction(facts, ext, context).Returns?
    ensures ResolveFunctionFixed(facts, ext, context) == ResolveFunction(facts, ext, context).value
  {
  }

  // ---------------------------------------------------------------------
  // Ancestry

  /** Every parent is a known contract of strictly lower rank, and every
      contract is stored under its own key: the inheritance graph is acyclic. */
  ghost predicate Layered(facts: ProjectFacts, rank: map<ContractKey, nat>) {
    forall k :: k in facts.contracts.entries ==>
      k in rank && facts.contracts.entries[k].key == k
      && forall p :: p in facts.contracts.entries[k].directlyInherits ==>
        p in facts.contracts.entries && p in rank && rank[p] < rank[k]
  }

  /** The parents of known contract `k`. */
  function ParentsOf(facts: ProjectFacts, k: ContractKey): seq<ContractKey>
    requires k in facts.contracts.entries
  {
    facts.contracts.entries[k].directlyInherits
  }

  ghost function RankAbove(rank: map<ContractKey, nat>, keys: seq<ContractKey>): (b: nat)
    requires forall k :: k in keys ==> k in rank
    ensures forall k :: k in keys ==> rank[k] < b
  {
    if |keys| == 0 then 0
    else
      var rest := RankAbove(rank, keys[1..]);
      if rank[keys[0]] < rest then rest else rank[keys[0]] + 1
  }

  /** Every key reachable from `parents` through `directly_inherits`. */
  function AncestorsOf(facts: ProjectFacts, parents: seq<ContractKey>, ghost rank: map<ContractKey, nat>, ghost bound: nat): (r: set<ContractKey>)
    requires Layered(facts, rank)
    requires forall p :: p in parents ==> p in facts.contracts.entries && rank[p] < bound
    ensures forall p :: p in parents ==> p in r
    ensures forall a :: a in r ==> a in facts.contracts.entries
    decreases bound, |parents|
  {
    if |parents| == 0 then {}
    else
      var p := parents[0];
      {p} + AncestorsOf(facts, ParentsOf(facts, p), rank, rank[p])
          + AncestorsOf(facts, parents[1..], rank, bound)
  }

  /** Every contract the given one inherits from, directly or not. */
  function GetFullInheritance(facts: ProjectFacts, c: ContractModel, ghost rank: map<ContractKey, nat>): (r: set<ContractKey>)
    requires Layered(facts, rank)
    requires forall p :: p in c.directlyInherits ==> p in facts.contracts.entries
    ensures forall p :: p in c.directlyInherits ==> p in r
    ensures forall a :: a in r ==> a in facts.contracts.entries
  {
    AncestorsOf(facts, c.directlyInherits, rank, RankAbove(rank, c.directlyInherits))
  }

  /** No known contract in `s` has a parent outside `s`. */
  ghost predicate ClosedUnderParents(facts: ProjectFacts, s: set<ContractKey>) {
    forall a :: a in s && a in facts.contracts.entries ==>
      forall p :: p in facts.contracts.entries[a].directlyInherits ==> p in s
  }

  lemma {:induction false} AncestorsClosed(facts: ProjectFacts, parents: seq<ContractKey>, rank: map<ContractKey, nat>, bound: nat)
    requires Layered(facts, rank)
    requires forall p :: p in parents ==> p in facts.contracts.entries && rank[p] < bound
    ensures ClosedUnderParents(facts, AncestorsOf(facts, parents, rank, bound))
    decreases bound, |parents|
  {
    if |parents| > 0 {
      var p := parents[0];
      AncestorsClosed(facts, ParentsOf(facts, p), rank, rank[p]);
      AncestorsClosed(facts, parents[1..], rank, bound);
    }
  }

  lemma {:induction false} AncestorsLeast(facts: ProjectFacts, parents: seq<ContractKey>, rank: map<ContractKey, nat>, bound: nat, s: set<ContractKey>)
    requires Layered(facts, rank)
    requires forall p :: p in parents ==> p in facts.contracts.entries && rank[p] < bound
    requires forall p :: p in parents ==> p in s
    requires ClosedUnderParents(facts, s)
    ensures AncestorsOf(facts, parents, rank, bound) <= s
    decreases bound, |parents|
  {
    if |parents| > 0 {
      var p := parents[0];
      AncestorsLeast(facts, ParentsOf(facts, p), rank, rank[p], s);
      AncestorsLeast(facts, parents[1..], rank, bound, s);
    }
  }

  /** The full inheritance is the least set that holds the direct parents and
      is closed under taking parents. */
  lemma FullInheritanceIsClosure(facts: ProjectFacts, c: ContractModel, rank: map<ContractKey, nat>, s: set<ContractKey>)
    requires Layered(facts, rank)
    requires forall p :: p in c.directlyInherits ==> p in facts.contracts.entries
    ensures ClosedUnderParents(facts, GetFullInheritance(facts, c, rank))
    ensures (forall p :: p in c.directlyInherits ==> p in s) && ClosedUnderParents(facts, s)
      ==> GetFullInheritance(facts, c, rank) <= s
  {
    var b := RankAbove(rank, c.directlyInherits);
    AncestorsClosed(facts, c.directlyInherits, rank, b);
    if (forall p :: p in c.directlyInherits ==> p in s) && ClosedUnderParents(facts, s) {
      AncestorsLeast(facts, c.directlyInherits, rank, b, s);
    }
  }

  // ---------------------------------------------------------------------
  // resolve_function_implementations

  /** A rank no known contract exceeds. */
  ghost function RankCeiling(facts: ProjectFacts, rank: map<ContractKey, nat>): (b: nat)
    requires Layered(facts, rank)
    ensures forall k :: k in facts.contracts.entries ==> rank[k] < b
  {
    RankAbove(rank, facts.contracts.order)
  }

  /** For every contract directly inheriting `parent`, in facts order: the
      contract itself when it stores `f`, then everything below it. */
  function ImplementationsBelow(facts: ProjectFacts, parent: ContractKey, f: string, ghost rank: map<ContractKey, nat>, ghost bound: nat): (r: seq<ContractModel>)
    requires Layered(facts, rank) && parent in rank && rank[parent] < bound
    requires forall k :: k in facts.contracts.entries ==> rank[k] < bound
    ensures forall m :: m in r ==> m.key in facts.contracts.entries && facts.contracts.entries[m.key] == m
    decreases bound - rank[parent], |facts.contracts.order| + 1, 0
  {
    ScanChildren(facts, parent, f, 0, rank, bound)
  }

  function ScanChildren(facts: ProjectFacts, parent: ContractKey, f: string, i: nat, ghost rank: map<ContractKey, nat>, ghost bound: nat): (r: seq<ContractModel>)
    requires Layered(facts, rank) && parent in rank && rank[parent] < bound
    requires forall k :: k in facts.contracts.entries ==> rank[k] < bound
    ensures forall m :: m in r ==> m.key in facts.contracts.entries && facts.contracts.entries[m.key] == m
    decreases bound - rank[parent], |facts.contracts.order| - i, 1
  {
    if i >= |facts.contracts.order| then []
    else ChildContribution(facts, parent, f, i, rank, bound) + ScanChildren(facts, parent, f, i + 1, rank, bound)
  }

  /** What the contract at index `i` adds to the scan below `parent`: the
      contract itself when it directly inherits `parent` and stores `f`, then
      everything below it; nothing when it does not inherit `parent`. */
  function ChildContribution(facts: ProjectFacts, parent: ContractKey, f: string, i: nat, ghost rank: map<ContractKey, nat>, ghost bound: nat): (r: seq<ContractModel>)
    requires Layered(facts, rank) && parent in rank && rank[parent] < bound
    requires forall k :: k in facts.contracts.entries ==> rank[k] < bound
    requires i < |facts.contracts.order|
    ensures forall m :: m in r ==> m.key in facts.contracts.entries && facts.contracts.entries[m.key] == m
    decreases bound - rank[parent], |facts.contracts.order| - i, 0
  {
    var m := facts.contracts.entries[facts.contracts.order[i]];
    if parent in m.directlyInherits then
      (if HasExactFunction(m, f) then [m] else []) + ImplementationsBelow(facts, m.key, f, rank, bound)
    else []
  }

  /** Every contract that implements `f` somewhere below the given contract. */
  function ResolveFunctionImplementations(facts: ProjectFacts, c: ContractModel, f: string, ghost rank: map<ContractKey, nat>): (r: seq<ContractModel>)
    requires Layered(facts, rank) && c.key in facts.contracts.entries
    ensures forall m :: m in r ==> m.key in facts.contracts.entries && facts.contracts.entries[m.key] == m
  {
    ImplementationsBelow(facts, c.key, f, rank, RankCeiling(facts, rank))
  }

  // Implementations: soundness and completeness against the full inheritance.

  /** Everything a contract directly inheriting `parent` contributes is in the scan from any earlier index. */
  lemma {:induction false} ScanIncludes(facts: ProjectFacts, parent: ContractKey, f: string, rank: map<ContractKey, nat>, bound: nat, i: nat, j: nat)
    requires Layered(facts, rank) && parent in rank && rank[parent] < bound
    requires forall k :: k in facts.contracts.entries ==> rank[k] < bound
    requires i <= j < |facts.contracts.order|
    requires parent in facts.contracts.entries[facts.contracts.order[j]].directlyInherits
    ensures var x := facts.contracts.entries[facts.contracts.order[j]];
      (HasExactFunction(x, f) ==> x in ScanChildren(facts, parent, f, i, rank, bound))
      && forall y :: y in ImplementationsBelow(facts, x.key, f, rank, bound) ==> y in ScanChildren(facts, parent, f, i, rank, bound)
    decreases j - i
  {
    if i < j {
      var here := ChildContribution(facts, parent, f, i, rank, bound);
      var rest := ScanChildren(facts, parent, f, i + 1, rank, bound);
      assert ScanChildren(facts, parent, f, i, rank, bound) == here + rest;
      ScanIncludes(facts, parent, f, rank, bound, i + 1, j);
      InSuffix(here, rest);
    } else {
      ScanHead(facts, parent, f, rank, bound, i);
    }
  }

  /** The scan from a child of `parent` starts with that child's contribution. */
  lemma ScanHead(facts: ProjectFacts, parent: ContractKey, f: string, rank: map<ContractKey, nat>, bound: nat, i: nat)
    requires Layered(facts, rank) && parent in rank && rank[parent] < bound
    requires forall k :: k in facts.contracts.entries ==> rank[k] < bound
    requires i < |facts.contracts.order|
    requires parent in facts.contracts.entries[facts.contracts.order[i]].directlyInherits
    ensures var x := facts.contracts.entries[facts.contracts.order[i]];
      (HasExactFunction(x, f) ==> x in ScanChildren(facts, parent, f, i, rank, bound))
      && forall y :: y in ImplementationsBelow(facts, x.key, f, rank, bound) ==> y in ScanChildren(facts, parent, f, i, rank, bound)
  {
    var here := ChildContribution(facts, parent, f, i, rank, bound);
    var rest := ScanChildren(facts, parent, f, i + 1, rank, bound);
    assert ScanChildren(facts, parent, f, i, rank, bound) == here + rest;
    var x := facts.contracts.entries[facts.contracts.order[i]];
    var below := ImplementationsBelow(facts, x.key, f, rank, bound);
    var own := if HasExactFunction(x, f) then [x] else [];
    assert here == own + below;
    InPrefix(here, rest);
    InSuffix(own, below);
  }

  /** Whatever occurs in a suffix occurs in the whole sequence. */
  lemma InSuffix<T>(a: seq<T>, b: seq<T>)
    ensures forall y :: y in b ==> y in a + b
  {
  }

  /** Whatever occurs in a prefix occurs in the whole sequence. */
  lemma InPrefix<T>(a: seq<T>, b: seq<T>)
    ensures forall y :: y in a ==> y in a + b
  {
  }

  /** A child of `parent` that stores `f` is found below `parent`, and so is everything found below the child. */
  lemma ChildIncluded(facts: ProjectFacts, parent: ContractKey, f: string, rank: map<ContractKey, nat>, bound: nat, k: ContractKey)
    requires Layered(facts, rank) && parent in rank && rank[parent] < bound
    requires forall k :: k in facts.contracts.entries ==> rank[k] < bound
    requires k in facts.contracts.entries && parent in facts.contracts.entries[k].directlyInherits
    ensures var x := facts.contracts.entries[k];
      (HasExactFunction(x, f) ==> x in ImplementationsBelow(facts, parent, f, rank, bound))
      && forall y :: y in ImplementationsBelow(facts, k, f, rank, bound) ==> y in ImplementationsBelow(facts, parent, f, rank, bound)
  {
    var j :| 0 <= j < |facts.contracts.order| && facts.contracts.order[j] == k;
    ScanIncludes(facts, parent, f, rank, bound, 0, j);
  }

  lemma {:induction false} ScanSound(facts: ProjectFacts, parent: ContractKey, f: string, i: nat, rank: map<ContractKey, nat>, bound: nat, m: ContractModel)
    requires Layered(facts, rank) && parent in rank && rank[parent] < bound
    requires forall k :: k in facts.contracts.entries ==> rank[k] < bound
    requires m in ScanChildren(facts, parent, f, i, rank, bound)
    ensures HasExactFunction(m, f)
    ensures parent in GetFullInheritance(facts, m, rank)
    decreases bound - rank[parent], |facts.contracts.order| - i
  {
    var x := facts.contracts.entries[facts.contracts.order[i]];
    var below := ImplementationsBelow(facts, x.key, f, rank, bound);
    if parent in x.directlyInherits && m in below {
      BelowSound(facts, x.key, f, rank, bound, m);
      FullInheritanceIsClosure(facts, m, rank, {});
    } else if parent in x.directlyInherits && HasExactFunction(x, f) && m == x {
    } else {
      ScanSound(facts, parent, f, i + 1, rank, bound, m);
    }
  }

  lemma {:induction false} BelowSound(facts: ProjectFacts, parent: ContractKey, f: string, rank: map<ContractKey, nat>, bound: nat, m: ContractModel)
    requires Layered(facts, rank) && parent in rank && rank[parent] < bound
    requires forall k :: k in facts.contracts.entries ==> rank[k] < bound
    requires m in ImplementationsBelow(facts, parent, f, rank, bound)
    ensures HasExactFunction(m, f)
    ensures parent in GetFullInheritance(facts, m, rank)
    decreases bound - rank[parent], |facts.contracts.order| + 1
  {
    ScanSound(facts, parent, f, 0, rank, bound, m);
  }

  /** A contract is reported as an implementation of `f` below `c` exactly
      when it is a known contract that stores `f` and inherits, directly or
      not, from `c`. */
  lemma ImplementationsExact(facts: ProjectFacts, c: ContractModel, f: string, rank: map<ContractKey, nat>, m: ContractModel)
    requires Layered(facts, rank) && c.key in facts.contracts.entries
    ensures m in ResolveFunctionImplementations(facts, c, f, rank) <==>
      m.key in facts.contracts.entries && facts.contracts.entries[m.key] == m
      && HasExactFunction(m, f) && c.key in GetFullInheritance(facts, m, rank)
  {
    if m in ResolveFunctionImplementations(facts, c, f, rank) {
      BelowSound(facts, c.key, f, rank, RankCeiling(facts, rank), m);
    } else if m.key in facts.contracts.entries && facts.contracts.entries[m.key] == m && HasExactFunction(m, f) {
      ImplementationsComplete(facts, c, f, rank, m);
    }
  }

  /** A known contract that stores `f` and inherits from `c` is reported. */
  lemma ImplementationsComplete(facts: ProjectFacts, c: ContractModel, f: string, rank: map<ContractKey, nat>, m: ContractModel)
    requires Layered(facts, rank) && c.key in facts.contracts.entries
    requires m.key in facts.contracts.entries && facts.contracts.entries[m.key] == m && HasExactFunction(m, f)
    requires m !in ResolveFunctionImplementations(facts, c, f, rank)
    ensures c.key !in GetFullInheritance(facts, m, rank)
  {
    var bound := RankCeiling(facts, rank);
    var s := set a | a in facts.contracts.entries && m in ImplementationsBelow(facts, a, f, rank, bound);
    forall p | p in m.directlyInherits ensures p in s {
      ChildIncluded(facts, p, f, rank, bound, m.key);
    }
    forall a, p | a in s && a in facts.contracts.entries && p in facts.contracts.entries[a].directlyInherits
      ensures p in s
    {
      ChildIncluded(facts, p, f, rank, bound, a);
    }
    FullInheritanceIsClosure(facts, m, rank, s);
  }
}
