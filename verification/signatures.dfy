/** Function signature strings: building them, splitting `Contract.sig`
    references, normalising qualified parameter types, and path exclusion. */
module Signatures {
  import opened Common

  /** `name(arg1,arg2,...)`: the name comes back by name extraction and
      the arguments sit between the first '(' and the closing ')'. */
  function GetFuncSig(name: string, args: seq<string>): (r: string)
    ensures |r| >= |name| + 2 && r[|r| - 1] == ')'
    ensures '(' !in name ==> ExtractFunctionName(r) == name && After(r, '(') == Join(args, ",") + ")"
  {
    var tail := Join(args, ",") + ")";
    var r := name + "(" + tail;
    if '(' in name then r
    else
      BeforeAfterOf(name, '(', tail);
      r
  }

  /** The function name of a signature: the text before the first '(', or all of it. */
  function ExtractFunctionName(sig: string): (r: string)
    ensures r <= sig && '(' !in r
    ensures '(' !in sig ==> r == sig
    ensures '(' in sig ==> |r| < |sig| && sig[|r|] == '('
  {
    Before(sig, '(')
  }

  /** The contract part of `Contract.sig` (everything before the first '.'). */
  function ContractOfExt(ext: string): (r: string)
    ensures '.' !in r && r <= ext
    ensures '.' !in ext ==> r == ext
    ensures '.' in ext ==> |r| < |ext| && ext[|r|] == '.'
  {
    Before(ext, '.')
  }

  /** The signature part of `Contract.sig` (everything after the first '.', or ""). */
  function ExtToFuncSig(ext: string): (r: string)
  {
    After(ext, '.')
  }

  /** Any reference with a '.' is its contract part, a '.', and its signature part. */
  lemma ExtSplitJoin(ext: string)
    requires '.' in ext
    ensures ContractOfExt(ext) + "." + ExtToFuncSig(ext) == ext
  {
    BeforeAfter(ext, '.');
  }

  /** Building `Contract.sig` from a dot-free name and splitting it again gives the parts back. */
  lemma ExtJoinSplit(contract: string, sig: string)
    requires '.' !in contract
    ensures ContractOfExt(contract + "." + sig) == contract
    ensures ExtToFuncSig(contract + "." + sig) == sig
  {
    BeforeAfterOf(contract, '.', sig);
  }

  // ---------------------------------------------------------------------
  // Normalisation

  /** One parameter type: whitespace stripped, a trailing "[]" kept aside,
      and everything up to the last '.' dropped. */
  function NormalizeParam(param: string): (r: string)
    ensures '.' !in r
  {
    var p := Strip(param);
    var suffix := if EndsWith(p, "[]") then "[]" else "";
    var base := p[..|p| - |suffix|];
    var parts := Split(base, '.');
    var last := if '.' in base then parts[|parts| - 1] else base;
    last + suffix
  }

  function NormalizeParams(params: seq<string>): (r: seq<string>)
    ensures |r| == |params|
    ensures forall i :: 0 <= i < |r| ==> r[i] == NormalizeParam(params[i])
  {
    if |params| == 0 then [] else [NormalizeParam(params[0])] + NormalizeParams(params[1..])
  }

  /** Rewrites `swap(PoolKey,IPoolManager.SwapParams)` to `swap(PoolKey,SwapParams)`.
      Every trailing ')' is stripped before the parameters are split. */
  function NormalizeSignature(sig: string): (r: string)
  {
    if '(' !in sig then sig
    else
      var name := Before(sig, '(');
      var params := RStripChar(After(sig, '('), ')');
      if params == "" then sig
      else name + "(" + Join(NormalizeParams(Split(params, ',')), ",") + ")"
  }

  lemma {:induction false} JoinAvoids(parts: seq<string>, sep: string, c: char)
    requires c !in sep
    requires forall i :: 0 <= i < |parts| ==> c !in parts[i]
    ensures c !in Join(parts, sep)
  {
    if |parts| > 1 {
      JoinAvoids(parts[1..], sep, c);
    }
  }

  /** Normalisation leaves the function name alone and leaves no '.' in the parameter list. */
  lemma NormalizeSignatureShape(sig: string)
    ensures Before(NormalizeSignature(sig), '(') == Before(sig, '(')
    ensures '.' !in After(NormalizeSignature(sig), '(')
    ensures '(' !in sig ==> NormalizeSignature(sig) == sig
    ensures '(' in sig && RStripChar(After(sig, '('), ')') == "" ==> NormalizeSignature(sig) == sig
  {
    var r := NormalizeSignature(sig);
    if '(' !in sig {
      AfterAbsent(sig, '(');
    } else {
      var name := Before(sig, '(');
      var rest := After(sig, '(');
      var params := RStripChar(rest, ')');
      if params == "" {
        BeforeAfter(sig, '(');
        BeforeAfterOf(name, '(', rest);
        assert forall i :: 0 <= i < |rest| ==> rest[i] == ')';
      } else {
        var body := Join(NormalizeParams(Split(params, ',')), ",") + ")";
        JoinAvoids(NormalizeParams(Split(params, ',')), ",", '.');
        assert r == name + "(" + body;
        BeforeAfterOf(name, '(', body);
      }
    }
  }

  lemma StripUnpadded(s: string)
    requires |s| > 0 && !IsSpace(s[0]) && !IsSpace(s[|s| - 1])
    ensures Strip(s) == s
  {
  }

  lemma RStripOne(s: string, c: char)
    requires |s| > 0 && s[|s| - 1] != c
    ensures RStripChar(s + [c], c) == s
    ensures RStripChar(s + [c, c], c) == s
  {
    assert (s + [c])[..|s|] == s;
    assert (s + [c, c])[..|s| + 1] == s + [c];
  }

  /** A parameter with no padding, no array suffix and no qualifier is kept as it is. */
  lemma NormalizePlainParam(p: string)
    requires |p| > 0 && !IsSpace(p[0]) && !IsSpace(p[|p| - 1])
    requires !EndsWith(p, "[]") && '.' !in p
    ensures NormalizeParam(p) == p
  {
    StripUnpadded(p);
    assert p[..|p| - 0] == p;
  }

  /** A qualified parameter keeps only the part after its last '.'. */
  lemma NormalizeQualifiedParam(q: string, t: string)
    requires '.' !in q && '.' !in t
    requires |t| > 0 && !IsSpace(t[|t| - 1]) && !EndsWith(t, "[]")
    requires !IsSpace((q + "." + t)[0])
    ensures NormalizeParam(q + "." + t) == t
  {
    var p := q + "." + t;
    StripUnpadded(p);
    QualifiedNoArraySuffix(q, t);
    QualifiedSplit(q, t);
    assert p[|q|] == '.';
    assert p[..|p| - 0] == p;
  }

  lemma QualifiedNoArraySuffix(q: string, t: string)
    requires '.' !in t && |t| > 0 && !EndsWith(t, "[]")
    ensures !EndsWith(q + "." + t, "[]")
  {
    var p := q + "." + t;
    if |t| >= 2 {
      assert p[|p| - 2..] == t[|t| - 2..];
    } else {
      assert p[|p| - 2] == '.';
    }
  }

  lemma QualifiedSplit(q: string, t: string)
    requires '.' !in q && '.' !in t
    ensures Split(q + "." + t, '.') == [q, t]
  {
    assert Join([q, t], ".") == q + "." + t;
    SplitJoin([q, t], '.');
  }

  /** A one-parameter signature normalises its parameter and nothing else. */
  lemma NormalizeOneParam(name: string, p: string)
    requires '(' !in name && ',' !in p
    requires |p| > 0 && p[|p| - 1] != ')'
    ensures NormalizeSignature(name + "(" + p + ")") == name + "(" + NormalizeParam(p) + ")"
  {
    assert name + "(" + p + ")" == name + "(" + (p + [')']);
    BeforeAfterOf(name, '(', p + [')']);
    RStripOne(p, ')');
    assert Split(p, ',') == [p];
    assert NormalizeParams([p]) == [NormalizeParam(p)];
  }

  /** `name(I.T)` normalises to `name(T)`: a qualified type loses its qualifier. */
  lemma NormalizeQualified(name: string, q: string, t: string)
    requires '(' !in name
    requires '.' !in q && ',' !in q && '.' !in t && ',' !in t
    requires |t| > 0 && t[|t| - 1] != ')' && !IsSpace(t[|t| - 1]) && !EndsWith(t, "[]")
    requires !IsSpace((q + "." + t)[0])
    ensures NormalizeSignature(name + "(" + (q + "." + t) + ")") == name + "(" + t + ")"
  {
    var p := q + "." + t;
    assert p[|p| - 1] == t[|t| - 1];
    NormalizeOneParam(name, p);
    NormalizeQualifiedParam(q, t);
  }

  /** `name(T)` with a bare type is already normal. */
  lemma NormalizePlain(name: string, t: string)
    requires '(' !in name
    requires '.' !in t && ',' !in t
    requires |t| > 0 && t[|t| - 1] != ')' && !IsSpace(t[0]) && !IsSpace(t[|t| - 1]) && !EndsWith(t, "[]")
    ensures NormalizeSignature(name + "(" + t + ")") == name + "(" + t + ")"
  {
    NormalizeOneParam(name, t);
    NormalizePlainParam(t);
  }

  /** A bare type name: no separators, brackets, qualifiers or whitespace. */
  predicate PlainType(s: string) {
    |s| > 0 &&
    forall i :: 0 <= i < |s| ==>
      s[i] != '.' && s[i] != ',' && s[i] != '(' && s[i] != ')' && s[i] != '[' && s[i] != ']' && !IsSpace(s[i])
  }

  lemma PlainTypeSplit(a: string, b: string)
    requires PlainType(a) && PlainType(b)
    ensures Split("(" + a + "," + b, ',') == ["(" + a, b]
  {
    assert ',' !in "(" + a by {
      forall i | 0 <= i < |a| ensures a[i] != ',' { }
    }
    assert ',' !in b;
    assert Join(["(" + a, b], ",") == "(" + a + "," + b;
    SplitJoin(["(" + a, b], ',');
  }

  lemma PlainTypeParams(a: string, b: string)
    requires PlainType(a) && PlainType(b)
    ensures NormalizeParams(["(" + a, b]) == ["(" + a, b]
  {
    var pa := "(" + a;
    assert pa[|pa| - 1] == a[|a| - 1];
    assert '.' !in pa by {
      forall i | 1 <= i < |pa| ensures pa[i] != '.' { assert pa[i] == a[i - 1]; }
    }
    assert '.' !in b;
    NormalizePlainParam(pa);
    NormalizePlainParam(b);
  }

  /** `name((a,b))` normalises to `name((a,b)`: a trailing tuple parameter
      loses its closing parenthesis, because every trailing ')' is stripped
      before the parameter list is split. */
  lemma NormalizeTrailingTuple(name: string, a: string, b: string)
    requires '(' !in name
    requires PlainType(a) && PlainType(b)
    ensures var tuple := "(" + a + "," + b + ")";
      NormalizeSignature(name + "(" + tuple + ")") == name + "(" + tuple
  {
    var p := "(" + a + "," + b;
    PlainTypeSplit(a, b);
    PlainTypeParams(a, b);
    assert Join(["(" + a, b], ",") == p;
    NormalizeDoubleClose(name, p, ["(" + a, b]);
    assert "(" + a + "," + b + ")" == p + ")";
  }

  /** A parameter list that ends in ')' loses that ')' once normalised,
      when its own parts already normalise to themselves. */
  lemma NormalizeDoubleClose(name: string, p: string, parts: seq<string>)
    requires '(' !in name
    requires |p| > 0 && p[|p| - 1] != ')'
    requires Split(p, ',') == parts && Join(NormalizeParams(parts), ",") == p
    ensures NormalizeSignature(name + "(" + (p + ")") + ")") == name + "(" + (p + ")")
  {
    var sig := name + "(" + (p + ")") + ")";
    assert sig == name + "(" + (p + [')', ')']);
    TupleFront(name, p, p[|p| - 1]);
    NormalizeSignatureParts(sig, name, p);
  }

  /** The normalised form of a signature with a non-empty parameter list. */
  lemma NormalizeSignatureParts(sig: string, name: string, params: string)
    requires '(' in sig && Before(sig, '(') == name && RStripChar(After(sig, '('), ')') == params && params != ""
    ensures NormalizeSignature(sig) == name + "(" + Join(NormalizeParams(Split(params, ',')), ",") + ")"
  {
  }

  lemma TupleFront(name: string, p: string, last: char)
    requires '(' !in name
    requires |p| > 0 && p[|p| - 1] == last && last != ')'
    ensures Before(name + "(" + (p + [')', ')']), '(') == name
    ensures RStripChar(After(name + "(" + (p + [')', ')']), '('), ')') == p
  {
    BeforeAfterOf(name, '(', p + [')', ')']);
    RStripOne(p, ')');
  }

  // ---------------------------------------------------------------------
  // Signature lookup

  /** The first key in `keys` whose normalised form is `norm`. */
  function FirstNormalized(keys: seq<string>, norm: string): (r: Option<nat>)
    ensures r.Some? ==> r.value < |keys| && NormalizeSignature(keys[r.value]) == norm
    ensures r.Some? ==> forall j :: 0 <= j < r.value ==> NormalizeSignature(keys[j]) != norm
    ensures r.None? <==> forall j :: 0 <= j < |keys| ==> NormalizeSignature(keys[j]) != norm
  {
    FirstImage(keys, norm, NormalizeSignature)
  }

  /** The first index whose image under `f` is `v`. */
  function FirstImage(xs: seq<string>, v: string, f: string -> string): (r: Option<nat>)
    ensures r.Some? ==> r.value < |xs| && f(xs[r.value]) == v
    ensures r.Some? ==> forall j :: 0 <= j < r.value ==> f(xs[j]) != v
    ensures r.None? <==> forall j :: 0 <= j < |xs| ==> f(xs[j]) != v
  {
    if |xs| == 0 then None
    else if f(xs[0]) == v then Some(0)
    else match FirstImage(xs[1..], v, f)
      case None => None
      case Some(i) => Some(i + 1)
  }

  /** The target itself when it is a key; else the first key that normalises
      to the same string; else nothing. */
  function FindMatchingSignature(target: string, keys: seq<string>): (r: Option<string>)
    ensures target in keys ==> r == Some(target)
    ensures r.Some? ==> r.value in keys && NormalizeSignature(r.value) == NormalizeSignature(target)
    ensures r.None? <==> forall j :: 0 <= j < |keys| ==> keys[j] != target && NormalizeSignature(keys[j]) != NormalizeSignature(target)
  {
    if target in keys then Some(target)
    else match FirstNormalized(keys, NormalizeSignature(target))
      case None => None
      case Some(i) => Some(keys[i])
  }

  // ---------------------------------------------------------------------
  // Path exclusion

  /** One pattern, trailing '/' removed, against a '/'-separated path: a
      prefix directory, the whole path, or a path component run. */
  predicate PatternMatches(path: string, pattern: string) {
    var p := RStripChar(pattern, '/');
    (p + "/" <= path) || path == p || IsInfix("/" + p + "/", "/" + path + "/")
  }

  /** True when any pattern matches the path with '\' read as '/'. */
  function PathMatchesExclusion(path: string, patterns: seq<string>): (r: bool)
    ensures r <==> exists i :: 0 <= i < |patterns| && PatternMatches(ReplaceChar(path, '\\', '/'), patterns[i])
  {
    if |patterns| == 0 then false
    else
      PatternMatches(ReplaceChar(path, '\\', '/'), patterns[0])
      || (PathMatchesExclusion(path, patterns[1..]) && assert patterns[1..][0..] == patterns[1..]; true)
  }

  /** The prefix and equality checks add nothing: a pattern matches exactly
      when `/p/` occurs inside `/path/`. */
  lemma PatternMatchesIsComponent(path: string, pattern: string)
    ensures PatternMatches(path, pattern) <==>
      IsInfix("/" + RStripChar(pattern, '/') + "/", "/" + path + "/")
  {
    var p := RStripChar(pattern, '/');
    var needle := "/" + p + "/";
    var hay := "/" + path + "/";
    if p + "/" <= path {
      assert hay[0..|needle|] == needle;
      IsInfixAt(needle, hay, 0);
    } else if path == p {
      assert hay[0..|needle|] == needle;
      IsInfixAt(needle, hay, 0);
    }
  }
}
