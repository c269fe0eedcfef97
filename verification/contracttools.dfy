/** Fetching one contract, optionally without its members, and the source
    text of one function cut from its file by line numbers. */
module ContractTools {
  import opened Common
  import opened Dicts
  import opened Keys
  import opened Model
  import Resolution
  import Listing

  // ---------------------------------------------------------------------
  // get_contract

  datatype GetContractRequest = GetContractRequest(contractKey: ContractKey, includeFunctions: bool)

  datatype GetContractResponse = GetContractResponse(
    success: bool,
    contract: Option<ContractModel>,
    errorMessage: Option<string>)

  /** Two contract models agree on everything but their members: the
      functions, state variables and events. */
  predicate SameHeader(a: ContractModel, b: ContractModel) {
    a.name == b.name && a.key == b.key && a.path == b.path
    && a.isAbstract == b.isAbstract && a.isFullyImplemented == b.isFullyImplemented
    && a.isInterface == b.isInterface && a.isLibrary == b.isLibrary
    && a.directlyInherits == b.directlyInherits && a.scopes == b.scopes
  }

  /** The contract has no functions, state variables or events. */
  predicate Bare(c: ContractModel) {
    c.functionsDeclared.order == [] && c.functionsInherited.order == []
    && c.stateVariables == [] && c.events == []
  }

  /** The copy built when functions are not wanted: the header is kept, both
      function dictionaries are empty, and the state variables and events
      take their empty defaults. */
  function WithoutFunctions(c: ContractModel): (r: ContractModel)
    ensures SameHeader(r, c) && Bare(r)
  {
    ContractModel(c.name, c.key, c.path, c.isAbstract, c.isFullyImplemented, c.isInterface, c.isLibrary,
                  c.directlyInherits, c.scopes, Empty(), Empty(), [], [])
  }

  /** A bare contract is left as it is, so stripping twice strips once. */
  lemma WithoutFunctionsFixes(c: ContractModel)
    ensures Bare(c) <==> WithoutFunctions(c) == c
    ensures WithoutFunctions(WithoutFunctions(c)) == WithoutFunctions(c)
  {
    if Bare(c) {
      assert c.functionsDeclared == Empty() && c.functionsInherited == Empty();
    }
  }

  /** Stripping identifies exactly the contracts with the same header. */
  lemma WithoutFunctionsKeepsHeader(a: ContractModel, b: ContractModel)
    ensures WithoutFunctions(a) == WithoutFunctions(b) <==> SameHeader(a, b)
  {
  }

  /** An unknown key fails with the contract's name; otherwise the stored
      model, stripped when functions are not wanted. */
  function GetContract(facts: ProjectFacts, req: GetContractRequest): (r: GetContractResponse)
    ensures r.success <==> req.contractKey in facts.contracts.entries
    ensures !r.success ==>
      r.contract.None? && r.errorMessage == Some(Listing.ContractNotFoundMessage(req.contractKey.contractName))
    ensures r.success ==> r.errorMessage.None? && r.contract.Some?
    ensures r.success && req.includeFunctions ==> r.contract == Some(facts.contracts.entries[req.contractKey])
    ensures r.success && !req.includeFunctions ==>
      Bare(r.contract.value) && SameHeader(r.contract.value, facts.contracts.entries[req.contractKey])
  {
    if req.contractKey !in facts.contracts.entries then
      GetContractResponse(false, None, Some(Listing.ContractNotFoundMessage(req.contractKey.contractName)))
    else
      var c := facts.contracts.entries[req.contractKey];
      GetContractResponse(true, Some(if req.includeFunctions then c else WithoutFunctions(c)), None)
  }

  // ---------------------------------------------------------------------
  // get_function_source

  /** The readable files: each path with its lines, every line keeping its
      line terminator as `readlines()` returns it. */
  type Files = map<string, seq<string>>

  datatype FunctionSourceResponse = FunctionSourceResponse(
    success: bool,
    sourceCode: Option<string>,
    filePath: Option<string>,
    lineStart: Option<int>,
    lineEnd: Option<int>,
    errorMessage: Option<string>)

  /** An integer in decimal, with a minus sign when negative. */
  function SignedDecimal(n: int): (r: string)
    ensures n < 0 <==> |r| > 0 && r[0] == '-'
  {
    var digits := Decimal(if n < 0 then -n else n);
    DecimalDigits(if n < 0 then -n else n);
    assert digits[0] in digits;
    if n < 0 then "-" + digits else digits
  }

  /** Different integers render differently. */
  lemma SignedDecimalInjective(a: int, b: int)
    requires SignedDecimal(a) == SignedDecimal(b)
    ensures a == b
  {
    if a < 0 {
      assert SignedDecimal(a)[1..] == Decimal(-a) && SignedDecimal(b)[1..] == Decimal(-b);
      DecimalInjective(-a, -b);
    } else {
      DecimalInjective(a, b);
    }
  }

  /** A range of 1-based line numbers that starts at a positive line and
      does not run backwards. */
  predicate ValidRange(first: int, last: int) {
    first > 0 && last > 0 && first <= last
  }

  /** The text of lines `first` to `last` inclusive, counted from 1. */
  function LinesBetween(lines: seq<string>, first: int, last: int): string
    requires ValidRange(first, last) && last <= |lines|
  {
    Join(lines[first - 1..last], "")
  }

  /** `"".join(a + b)` is `"".join(a) + "".join(b)`. */
  lemma {:induction false} JoinConcat(a: seq<string>, b: seq<string>)
    ensures Join(a + b, "") == Join(a, "") + Join(b, "")
    decreases |a|
  {
    if |a| == 0 {
      assert a + b == b;
    } else if |b| == 0 {
      assert a + b == a;
    } else if |a| == 1 {
      assert (a + b)[1..] == b;
    } else {
      assert (a + b)[1..] == a[1..] + b;
      JoinConcat(a[1..], b);
    }
  }

  /** Two adjacent ranges together give the text of the range they cover. */
  lemma LinesBetweenSplit(lines: seq<string>, first: int, mid: int, last: int)
    requires 0 < first <= mid < last <= |lines|
    ensures LinesBetween(lines, first, last) == LinesBetween(lines, first, mid) + LinesBetween(lines, mid + 1, last)
  {
    assert lines[first - 1..last] == lines[first - 1..mid] + lines[mid..last];
    JoinConcat(lines[first - 1..mid], lines[mid..last]);
  }

  /** A single line's text is that line. */
  lemma LinesBetweenOne(lines: seq<string>, n: int)
    requires 0 < n <= |lines|
    ensures LinesBetween(lines, n, n) == lines[n - 1]
  {
    assert lines[n - 1..n] == [lines[n - 1]];
  }

  function Failure(message: string): FunctionSourceResponse {
    FunctionSourceResponse(false, None, None, None, None, Some(message))
  }

  /** Resolve the key; then the function's file must exist, its range be
      valid and lie within the file; the answer is the text of that range. */
  function GetFunctionSource(facts: ProjectFacts, files: Files, fk: FunctionKey): (r: FunctionSourceResponse)
    ensures var res := Resolution.ResolveFunctionByKey(facts, fk);
      r.success <==>
        res.error.None?
        && res.fn.value.path in files
        && ValidRange(res.fn.value.lineStart, res.fn.value.lineEnd)
        && res.fn.value.lineEnd <= |files[res.fn.value.path]|
    ensures var res := Resolution.ResolveFunctionByKey(facts, fk);
      res.error.Some? ==> r == Failure(res.error.value.Message())
    ensures var res := Resolution.ResolveFunctionByKey(facts, fk);
      res.error.None? && res.fn.value.path !in files ==> r == Failure("Source file not found: " + res.fn.value.path)
    ensures var res := Resolution.ResolveFunctionByKey(facts, fk);
      res.error.None? && res.fn.value.path in files && !ValidRange(res.fn.value.lineStart, res.fn.value.lineEnd) ==>
        r == Failure("Invalid line range: " + SignedDecimal(res.fn.value.lineStart) + "-" + SignedDecimal(res.fn.value.lineEnd))
    ensures var res := Resolution.ResolveFunctionByKey(facts, fk);
      res.error.None? && res.fn.value.path in files && ValidRange(res.fn.value.lineStart, res.fn.value.lineEnd)
      && res.fn.value.lineEnd > |files[res.fn.value.path]| ==>
        r == Failure("Line range " + Decimal(res.fn.value.lineStart) + "-" + Decimal(res.fn.value.lineEnd)
                     + " exceeds file length (" + Decimal(|files[res.fn.value.path]|) + " lines)")
    ensures r.success ==>
      var f := Resolution.ResolveFunctionByKey(facts, fk).fn.value;
      r.errorMessage.None? && r.filePath == Some(f.path)
      && r.lineStart == Some(f.lineStart) && r.lineEnd == Some(f.lineEnd)
      && r.sourceCode == Some(LinesBetween(files[f.path], f.lineStart, f.lineEnd))
  {
    var res := Resolution.ResolveFunctionByKey(facts, fk);
    if res.error.Some? then Failure(res.error.value.Message())
    else if res.fn.None? then Failure("Function not found")
    else
      var f := res.fn.value;
      if f.path !in files then Failure("Source file not found: " + f.path)
      else if f.lineStart <= 0 || f.lineEnd <= 0 || f.lineStart > f.lineEnd then
        Failure("Invalid line range: " + SignedDecimal(f.lineStart) + "-" + SignedDecimal(f.lineEnd))
      else
        var lines := files[f.path];
        if f.lineStart > |lines| || f.lineEnd > |lines| then
          Failure("Line range " + Decimal(f.lineStart) + "-" + Decimal(f.lineEnd)
                  + " exceeds file length (" + Decimal(|lines|) + " lines)")
        else
          FunctionSourceResponse(true, Some(LinesBetween(lines, f.lineStart, f.lineEnd)), Some(f.path),
                                 Some(f.lineStart), Some(f.lineEnd), None)
  }

  /** A function whose range is the whole file gets the whole file's text. */
  lemma WholeFileSource(facts: ProjectFacts, files: Files, fk: FunctionKey)
    requires Resolution.ResolveFunctionByKey(facts, fk).error.None?
    requires var f := Resolution.ResolveFunctionByKey(facts, fk).fn.value;
      f.path in files && f.lineStart == 1 && f.lineEnd == |files[f.path]| > 0
    ensures var f := Resolution.ResolveFunctionByKey(facts, fk).fn.value;
      GetFunctionSource(facts, files, fk).sourceCode == Some(Join(files[f.path], ""))
  {
    var f := Resolution.ResolveFunctionByKey(facts, fk).fn.value;
    assert files[f.path][0..|files[f.path]|] == files[f.path];
  }
}
