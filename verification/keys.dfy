/** Contract and function identities and their string encodings. */
module Keys {
  import opened Common

  /** A contract is identified by its name and the short path of its file. */
  datatype ContractKey = ContractKey(contractName: string, path: string)

  /** A function is identified by its signature and the contract it belongs to. */
  datatype FunctionKey = FunctionKey(signature: string, contractName: string, path: string)
  {
    /** The key of the contract the function belongs to. */
    function Context(): ContractKey {
      ContractKey(contractName, path)
    }
  }

  /** Why a key string could not be decoded. */
  datatype KeyParseError =
    | InvalidFormat(input: string)          // a required separator is missing
    | WrongPartCount(parts: nat)            // `contract, sig = full.split(".")` does not unpack

  // ---------------------------------------------------------------------
  // ContractKey

  /** `Name@path` with every '/' of the path written as '!'. */
  function ContractKeyToString(k: ContractKey): (s: string)
    ensures '@' in s
    ensures '@' !in k.contractName ==>
      Before(s, '@') == k.contractName
      && After(s, '@') == ReplaceChar(k.path, '/', '!') && '/' !in After(s, '@')
  {
    var s := k.contractName + "@" + ReplaceChar(k.path, '/', '!');
    if '@' !in k.contractName then
      BeforeAfterOf(k.contractName, '@', ReplaceChar(k.path, '/', '!'));
      s
    else s
  }

  /** Splits at the first '@' and maps '!' back to '/'; no '@' is an error. */
  function ContractKeyFromString(s: string): (r: Result<ContractKey, KeyParseError>)
    ensures r.Err? <==> '@' !in s
    ensures r.Err? ==> r.error == InvalidFormat(s)
    ensures r.Ok? ==> '@' !in r.value.contractName && '!' !in r.value.path
  {
    if '@' !in s then Err(InvalidFormat(s))
    else Ok(ContractKey(Before(s, '@'), ReplaceChar(After(s, '@'), '!', '/')))
  }

  /** Encoding then decoding a contract key gives it back. */
  lemma ContractKeyRoundTrip(k: ContractKey)
    requires '@' !in k.contractName && '!' !in k.path
    ensures ContractKeyFromString(ContractKeyToString(k)) == Ok(k)
  {
    var enc := ReplaceChar(k.path, '/', '!');
    BeforeAfterOf(k.contractName, '@', enc);
    ReplaceCharInverse(k.path, '/', '!');
  }

  /** Decoding then encoding gives the string back when the path part has no '/'. */
  lemma ContractKeyStringRoundTrip(s: string)
    requires '@' in s && '/' !in After(s, '@')
    ensures ContractKeyFromString(s).Ok?
    ensures ContractKeyToString(ContractKeyFromString(s).value) == s
  {
    BeforeAfter(s, '@');
    ReplaceCharInverse(After(s, '@'), '!', '/');
  }

  // ---------------------------------------------------------------------
  // FunctionKey

  /** `Contract.sig@path` with every '/' of the path written as '-'. */
  function FunctionKeyToString(k: FunctionKey): (s: string)
    ensures '@' in s && '.' in s
    ensures '@' !in k.contractName && '@' !in k.signature ==>
      Before(s, '@') == k.contractName + "." + k.signature
      && After(s, '@') == ReplaceChar(k.path, '/', '-') && '/' !in After(s, '@')
  {
    var head := k.contractName + "." + k.signature;
    var s := head + "@" + ReplaceChar(k.path, '/', '-');
    if '@' !in head then
      BeforeAfterOf(head, '@', ReplaceChar(k.path, '/', '-'));
      s
    else s
  }

  /** Needs both '@' and '.' somewhere; the part before the first '@' must
      hold exactly one '.', and '-' in the path maps back to '/'. */
  function FunctionKeyFromString(s: string): (r: Result<FunctionKey, KeyParseError>)
    ensures '@' !in s || '.' !in s ==> r == Err(InvalidFormat(s))
    ensures r.Ok? ==> '.' !in r.value.contractName && '.' !in r.value.signature && '@' !in r.value.signature
    ensures r.Ok? ==> '-' !in r.value.path
    ensures r.Ok? <==> '@' in s && |Split(Before(s, '@'), '.')| == 2
  {
    if '@' !in s || '.' !in s then Err(InvalidFormat(s))
    else
      var full := Before(s, '@');
      var path := ReplaceChar(After(s, '@'), '-', '/');
      var parts := Split(full, '.');
      if |parts| != 2 then Err(WrongPartCount(|parts|))
      else
        assert parts[1] <= full[|parts[0]| + 1..] by { SplitTwo(full, '.'); }
        Ok(FunctionKey(parts[1], parts[0], path))
  }

  /** A string splitting into exactly two pieces is the two pieces around the separator. */
  lemma SplitTwo(s: string, c: char)
    requires |Split(s, c)| == 2
    ensures Split(s, c)[0] + [c] + Split(s, c)[1] == s
    ensures Split(s, c)[1] <= s[|Split(s, c)[0]| + 1..]
  {
    JoinSplit(s, c);
    var parts := Split(s, c);
    assert Join(parts, [c]) == parts[0] + [c] + Join(parts[1..], [c]);
    assert parts[1..] == [parts[1]];
    assert s[|parts[0]| + 1..] == parts[1];
  }

  /** Encoding then decoding a function key gives it back. */
  lemma FunctionKeyRoundTrip(k: FunctionKey)
    requires '.' !in k.contractName && '@' !in k.contractName
    requires '.' !in k.signature && '@' !in k.signature
    requires '-' !in k.path
    ensures FunctionKeyFromString(FunctionKeyToString(k)) == Ok(k)
  {
    var head := k.contractName + "." + k.signature;
    var enc := ReplaceChar(k.path, '/', '-');
    var s := head + "@" + enc;
    assert s[|k.contractName|] == '.';
    BeforeAfterOf(head, '@', enc);
    SplitJoin([k.contractName, k.signature], '.');
    assert Join([k.contractName, k.signature], ".") == head;
    ReplaceCharInverse(k.path, '/', '-');
  }

  /** Decoding then encoding gives the string back when the path part has no '/'. */
  lemma FunctionKeyStringRoundTrip(s: string)
    requires FunctionKeyFromString(s).Ok?
    requires '/' !in After(s, '@')
    ensures FunctionKeyToString(FunctionKeyFromString(s).value) == s
  {
    var full := Before(s, '@');
    SplitTwo(full, '.');
    BeforeAfter(s, '@');
    ReplaceCharInverse(After(s, '@'), '-', '/');
  }
}
