/** Shared building blocks: optional values, results, and the few Python
    string and sequence operations the fact graph relies on. Characters are
    Unicode code points; case folding is ASCII-only. */
module Common {

  datatype Option<T> = None | Some(value: T)

  datatype Result<T, E> = Ok(value: T) | Err(error: E)

  /** No element occurs twice. */
  predicate Distinct<T(==)>(s: seq<T>) {
    forall i, j :: 0 <= i < j < |s| ==> s[i] != s[j]
  }

  // ---------------------------------------------------------------------
  // Searching and splitting

  /** Python `s.find(c)`: the index of the first occurrence of `c`. */
  function Find(s: string, c: char): (r: Option<nat>)
    ensures r.Some? ==> r.value < |s| && s[r.value] == c && c !in s[..r.value]
    ensures r.None? <==> c !in s
  {
    if |s| == 0 then None
    else if s[0] == c then Some(0)
    else match Find(s[1..], c)
      case None => None
      case Some(i) =>
        assert s[..i + 1] == [s[0]] + s[1..][..i];
        Some(i + 1)
  }

  lemma FindAfterPrefix(a: string, c: char, b: string)
    requires c !in a
    ensures Find(a + [c] + b, c) == Some(|a|)
  {
    var s := a + [c] + b;
    assert s[..|a|] == a;
    assert s[|a|] == c;
  }

  /** Python `s.split(c)` with a one-character separator. */
  function Split(s: string, c: char): (parts: seq<string>)
    ensures |parts| >= 1
    ensures forall i :: 0 <= i < |parts| ==> c !in parts[i]
    decreases |s|
  {
    match Find(s, c)
    case None => [s]
    case Some(i) => [s[..i]] + Split(s[i + 1..], c)
  }

  /** Python `sep.join(parts)`. */
  function Join(parts: seq<string>, sep: string): string
  {
    if |parts| == 0 then ""
    else if |parts| == 1 then parts[0]
    else parts[0] + sep + Join(parts[1..], sep)
  }

  /** The joined text starts with the first piece. */
  lemma JoinStartsWith(parts: seq<string>, sep: string)
    requires |parts| >= 1
    ensures parts[0] <= Join(parts, sep)
  {
  }

  /** The joined text ends with the last piece. */
  lemma {:induction false} JoinEndsWith(parts: seq<string>, sep: string)
    requires |parts| >= 1
    ensures EndsWith(Join(parts, sep), parts[|parts| - 1])
    decreases |parts|
  {
    if |parts| > 1 {
      JoinEndsWith(parts[1..], sep);
      var rest, last := Join(parts[1..], sep), parts[|parts| - 1];
      var s := parts[0] + sep + rest;
      assert s[|s| - |rest|..] == rest;
      assert s[|s| - |last|..] == rest[|rest| - |last|..];
    }
  }

  /** Joining the pieces of a split with the separator gives back the input. */
  lemma {:induction false} JoinSplit(s: string, c: char)
    ensures Join(Split(s, c), [c]) == s
    decreases |s|
  {
    match Find(s, c)
    case None =>
    case Some(i) =>
      var tail := Split(s[i + 1..], c);
      JoinSplit(s[i + 1..], c);
      var parts := [s[..i]] + tail;
      assert Split(s, c) == parts;
      assert parts[1..] == tail;
      assert Join(parts, [c]) == s[..i] + [c] + Join(tail, [c]);
      assert s == s[..i] + [c] + s[i + 1..];
  }

  /** Splitting a join of separator-free pieces gives back the pieces. */
  lemma {:induction false} SplitJoin(parts: seq<string>, c: char)
    requires |parts| >= 1
    requires forall i :: 0 <= i < |parts| ==> c !in parts[i]
    ensures Split(Join(parts, [c]), c) == parts
  {
    if |parts| == 1 {
      assert Find(parts[0], c) == None;
    } else {
      var rest := Join(parts[1..], [c]);
      assert Join(parts, [c]) == parts[0] + [c] + rest;
      FindAfterPrefix(parts[0], c, rest);
      var s := parts[0] + [c] + rest;
      assert s[..|parts[0]|] == parts[0];
      assert s[|parts[0]| + 1..] == rest;
      SplitJoin(parts[1..], c);
    }
  }

  /** The text before the first `c`, or all of `s` (Python `s.split(c)[0]`). */
  function Before(s: string, c: char): (r: string)
    ensures r <= s && c !in r
    ensures c in s ==> |r| < |s| && s[|r|] == c
  {
    match Find(s, c)
    case None => s
    case Some(i) => s[..i]
  }

  /** A prefix without `c` passes through `Before` untouched. */
  lemma BeforeConcat(a: string, b: string, c: char)
    requires c !in a
    ensures Before(a + b, c) == a + Before(b, c)
  {
    var s := a + b;
    match Find(b, c)
    case None =>
      assert forall x :: x in s ==> x in a || x in b;
    case Some(w) =>
      assert s[|a| + w] == c;
      var v := Find(s, c).value;
      assert s[..v] == a + b[..w];
  }

  /** The text after the first `c`, or "" (Python `c.join(s.split(c)[1:])`). */
  function After(s: string, c: char): (r: string)
  {
    Join(Split(s, c)[1..], [c])
  }

  /** A string with a separator is the part before it, the separator and the part after it. */
  lemma BeforeAfter(s: string, c: char)
    requires c in s
    ensures Before(s, c) + [c] + After(s, c) == s
  {
    JoinSplit(s, c);
    var parts := Split(s, c);
    var i := Find(s, c).value;
    assert parts == [s[..i]] + Split(s[i + 1..], c);
    assert |parts| >= 2;
    assert Join(parts, [c]) == parts[0] + [c] + Join(parts[1..], [c]);
  }

  /** Without the separator there is nothing after it. */
  lemma AfterAbsent(s: string, c: char)
    requires c !in s
    ensures After(s, c) == "" && Before(s, c) == s
  {
  }

  /** Splitting `a + [c] + b` at its first `c` when `a` has none gives `a` and `b`. */
  lemma BeforeAfterOf(a: string, c: char, b: string)
    requires c !in a
    ensures Before(a + [c] + b, c) == a
    ensures After(a + [c] + b, c) == b
  {
    var s := a + [c] + b;
    FindAfterPrefix(a, c, b);
    assert s[..|a|] == a;
    assert s[|a| + 1..] == b;
    JoinSplit(b, c);
  }

  /** `needle` occurs somewhere inside `hay` (Python `needle in hay`). */
  predicate IsInfix(needle: string, hay: string)
    decreases |hay|
  {
    needle <= hay || (|hay| > 0 && IsInfix(needle, hay[1..]))
  }

  lemma {:induction false} IsInfixAt(needle: string, hay: string, i: nat)
    requires i + |needle| <= |hay| && hay[i..i + |needle|] == needle
    ensures IsInfix(needle, hay)
    decreases i
  {
    if i == 0 {
      assert needle <= hay;
    } else {
      assert hay[1..][i - 1..i - 1 + |needle|] == needle;
      IsInfixAt(needle, hay[1..], i - 1);
    }
  }

  predicate EndsWith(s: string, suffix: string) {
    |suffix| <= |s| && s[|s| - |suffix|..] == suffix
  }

  // ---------------------------------------------------------------------
  // Character maps

  /** Python `s.replace(a, b)` for one-character strings. */
  function ReplaceChar(s: string, a: char, b: char): (r: string)
    ensures |r| == |s|
    ensures forall i :: 0 <= i < |s| ==> r[i] == (if s[i] == a then b else s[i])
  {
    seq(|s|, i requires 0 <= i < |s| => if s[i] == a then b else s[i])
  }

  /** Replacing a character that does not occur and then mapping it back is the identity. */
  lemma ReplaceCharInverse(s: string, a: char, b: char)
    requires b !in s
    ensures ReplaceChar(ReplaceChar(s, a, b), b, a) == s
  {
  }

  function LowerChar(c: char): char {
    if 'A' <= c <= 'Z' then (c as int + 32) as char else c
  }

  /** Python `s.lower()` restricted to ASCII letters. */
  function Lower(s: string): (r: string)
    ensures |r| == |s|
    ensures forall i :: 0 <= i < |s| ==> r[i] == LowerChar(s[i])
  {
    seq(|s|, i requires 0 <= i < |s| => LowerChar(s[i]))
  }

  lemma LowerIdempotent(s: string)
    ensures Lower(Lower(s)) == Lower(s)
  {
  }

  /** The characters Python's `str.isspace` accepts. */
  predicate IsSpace(c: char) {
    var n := c as int;
    (9 <= n <= 13) || (28 <= n <= 32) || n == 0x85 || n == 0xA0 || n == 0x1680
    || (0x2000 <= n <= 0x200A) || n == 0x2028 || n == 0x2029 || n == 0x202F
    || n == 0x205F || n == 0x3000
  }

  function StripStart(s: string): string
  {
    if |s| > 0 && IsSpace(s[0]) then StripStart(s[1..]) else s
  }

  function StripEnd(s: string): string
  {
    if |s| > 0 && IsSpace(s[|s| - 1]) then StripEnd(s[..|s| - 1]) else s
  }

  /** Python `s.strip()`. */
  function Strip(s: string): string {
    StripEnd(StripStart(s))
  }

  /** Python `s.rstrip(c)`: removes every trailing `c`. */
  function RStripChar(s: string, c: char): (r: string)
    ensures r <= s
    ensures |r| == 0 || r[|r| - 1] != c
    ensures forall i :: |r| <= i < |s| ==> s[i] == c
  {
    if |s| > 0 && s[|s| - 1] == c then RStripChar(s[..|s| - 1], c) else s
  }

  // ---------------------------------------------------------------------
  // Sequences

  /** The elements of `s` in first-occurrence order, each once: one admissible
      iteration order of Python's `list(set(s))`. */
  function Dedup<T(==,!new)>(s: seq<T>): (r: seq<T>)
    ensures Distinct(r)
    ensures forall x :: x in r <==> x in s
    ensures |r| <= |s|
  {
    if |s| == 0 then []
    else
      var r := Dedup(s[..|s| - 1]);
      assert forall x :: x in s <==> x in s[..|s| - 1] || x == s[|s| - 1] by {
        assert s == s[..|s| - 1] + [s[|s| - 1]];
      }
      if s[|s| - 1] in r then r else r + [s[|s| - 1]]
  }

  /** `[x for x in s if p(x)]`. */
  function Filter<T(!new)>(s: seq<T>, p: T -> bool): (r: seq<T>)
    ensures |r| <= |s|
    ensures forall x :: x in r <==> x in s && p(x)
  {
    if |s| == 0 then []
    else
      assert forall x :: x in s <==> x == s[0] || x in s[1..] by {
        assert s == [s[0]] + s[1..];
      }
      (if p(s[0]) then [s[0]] else []) + Filter(s[1..], p)
  }

  /** `a` is `b` with some elements left out and the rest kept in order. */
  predicate Subsequence<T(==)>(a: seq<T>, b: seq<T>)
    decreases |b|
  {
    |a| == 0 || (|b| > 0 && ((a[0] == b[0] && Subsequence(a[1..], b[1..])) || Subsequence(a, b[1..])))
  }

  lemma {:induction false} FilterSubsequence<T(!new)>(s: seq<T>, p: T -> bool)
    ensures Subsequence(Filter(s, p), s)
    decreases |s|
  {
    if |s| > 0 {
      FilterSubsequence(s[1..], p);
      if p(s[0]) {
        assert Filter(s, p) == [s[0]] + Filter(s[1..], p);
        assert Filter(s, p)[1..] == Filter(s[1..], p);
      } else {
        assert Filter(s, p) == Filter(s[1..], p);
      }
    }
  }

  lemma {:induction false} SubsequenceTransitive<T>(a: seq<T>, b: seq<T>, c: seq<T>)
    requires Subsequence(a, b) && Subsequence(b, c)
    ensures Subsequence(a, c)
    decreases |c|
  {
    if |a| > 0 {
      if b[0] == c[0] && Subsequence(b[1..], c[1..]) {
        if a[0] == b[0] && Subsequence(a[1..], b[1..]) {
          SubsequenceTransitive(a[1..], b[1..], c[1..]);
        } else {
          SubsequenceTransitive(a, b[1..], c[1..]);
        }
      } else {
        SubsequenceTransitive(a, b, c[1..]);
      }
    }
  }

  lemma {:induction false} SubsequenceRefl<T>(s: seq<T>)
    ensures Subsequence(s, s)
    decreases |s|
  {
    if |s| > 0 {
      SubsequenceRefl(s[1..]);
    }
  }

  /** Elements put in front of the larger sequence can be skipped. */
  lemma {:induction false} SubsequenceSkip<T>(a: seq<T>, x: seq<T>, b: seq<T>)
    requires Subsequence(a, b)
    ensures Subsequence(a, x + b)
    decreases |x|
  {
    if |x| == 0 {
      assert x + b == b;
    } else {
      SubsequenceSkip(a, x[1..], b);
      assert (x + b)[1..] == x[1..] + b;
    }
  }

  /** Subsequences of two parts make a subsequence of the whole. */
  lemma {:induction false} SubsequenceAppend<T>(a1: seq<T>, b1: seq<T>, a2: seq<T>, b2: seq<T>)
    requires Subsequence(a1, b1) && Subsequence(a2, b2)
    ensures Subsequence(a1 + a2, b1 + b2)
    decreases |b1|
  {
    if |a1| == 0 {
      assert a1 + a2 == a2;
      SubsequenceSkip(a2, b1, b2);
    } else {
      assert (b1 + b2)[1..] == b1[1..] + b2;
      if a1[0] == b1[0] && Subsequence(a1[1..], b1[1..]) {
        SubsequenceAppend(a1[1..], b1[1..], a2, b2);
        assert (a1 + a2)[1..] == a1[1..] + a2;
      } else {
        SubsequenceAppend(a1, b1[1..], a2, b2);
      }
    }
  }

  /** Keep an element only when its `f` value is neither in `seen` nor the
      value of an element kept before it. */
  function DedupBy<T(==,!new), K(==)>(s: seq<T>, f: T -> K, seen: set<K>): (r: seq<T>)
    ensures |r| <= |s|
    ensures forall x :: x in r ==> x in s && f(x) !in seen
    ensures forall i, j :: 0 <= i < j < |r| ==> f(r[i]) != f(r[j])
  {
    if |s| == 0 then []
    else if f(s[0]) in seen then DedupBy(s[1..], f, seen)
    else [s[0]] + DedupBy(s[1..], f, seen + {f(s[0])})
  }

  /** Every element whose value was not already seen is represented in the result. */
  lemma {:induction false} DedupByCovers<T(!new), K>(s: seq<T>, f: T -> K, seen: set<K>, x: T)
    requires x in s && f(x) !in seen
    ensures exists y :: y in DedupBy(s, f, seen) && f(y) == f(x)
    decreases |s|
  {
    if f(s[0]) in seen {
      DedupByCovers(s[1..], f, seen, x);
    } else if f(s[0]) != f(x) {
      DedupByCovers(s[1..], f, seen + {f(s[0])}, x);
      var y :| y in DedupBy(s[1..], f, seen + {f(s[0])}) && f(y) == f(x);
      assert y in DedupBy(s, f, seen);
    } else {
      assert s[0] in DedupBy(s, f, seen);
    }
  }

  /** The first element with a given unseen value is the one kept. */
  lemma {:induction false} DedupByKeepsFirst<T(!new), K>(s: seq<T>, f: T -> K, seen: set<K>, i: nat)
    requires i < |s| && f(s[i]) !in seen
    requires forall j :: 0 <= j < i ==> f(s[j]) != f(s[i])
    ensures s[i] in DedupBy(s, f, seen)
    decreases i
  {
    if i > 0 {
      assert s[1..][i - 1] == s[i];
      if f(s[0]) in seen {
        DedupByKeepsFirst(s[1..], f, seen, i - 1);
      } else {
        DedupByKeepsFirst(s[1..], f, seen + {f(s[0])}, i - 1);
      }
    }
  }

  lemma {:induction false} DedupBySubsequence<T(!new), K>(s: seq<T>, f: T -> K, seen: set<K>)
    ensures Subsequence(DedupBy(s, f, seen), s)
    decreases |s|
  {
    if |s| > 0 {
      if f(s[0]) in seen {
        DedupBySubsequence(s[1..], f, seen);
      } else {
        DedupBySubsequence(s[1..], f, seen + {f(s[0])});
        assert DedupBy(s, f, seen)[1..] == DedupBy(s[1..], f, seen + {f(s[0])});
      }
    }
  }

  /** `[f(x) for x in s]`. */
  function MapSeq<T, R(!new)>(s: seq<T>, f: T -> R): (r: seq<R>)
    ensures |r| == |s|
    ensures forall i :: 0 <= i < |s| ==> r[i] == f(s[i])
    ensures forall x :: x in r <==> exists y :: y in s && x == f(y)
  {
    var r := seq(|s|, i requires 0 <= i < |s| => f(s[i]));
    assert forall y :: y in s ==> f(y) in r by {
      forall y | y in s ensures f(y) in r {
        var i :| 0 <= i < |s| && s[i] == y;
        assert r[i] == f(y);
      }
    }
    r
  }

  /** `sum(1 for x in s if p(x))`. */
  function Count<T(!new)>(s: seq<T>, p: T -> bool): (n: nat)
    ensures n <= |s|
    ensures n == 0 <==> forall x :: x in s ==> !p(x)
    ensures n == |s| <==> forall x :: x in s ==> p(x)
  {
    if |s| == 0 then 0
    else
      assert forall x :: x in s <==> x == s[0] || x in s[1..] by {
        assert s == [s[0]] + s[1..];
      }
      (if p(s[0]) then 1 else 0) + Count(s[1..], p)
  }

  function Min(a: int, b: int): int {
    if a < b then a else b
  }

  /** Python `s[:n]` for any integer `n`: a negative `n` drops the last `-n` elements. */
  function PySliceTo<T>(s: seq<T>, n: int): (r: seq<T>)
    ensures r <= s
    ensures n >= 0 ==> |r| == Min(n, |s|)
    ensures n < 0 ==> |r| == (if |s| + n > 0 then |s| + n else 0)
  {
    if n >= 0 then s[..if n < |s| then n else |s|]
    else if |s| + n > 0 then s[..|s| + n]
    else []
  }

  /** Python `s[n:]` for any integer `n`: a negative `n` keeps the last `-n` elements. */
  function PySliceFrom<T>(s: seq<T>, n: int): (r: seq<T>)
    ensures |r| <= |s| && r == s[|s| - |r|..]
    ensures n >= 0 ==> |r| == (if n < |s| then |s| - n else 0)
    ensures n < 0 ==> |r| == Min(-n, |s|)
  {
    if n >= 0 then (if n < |s| then s[n..] else [])
    else if |s| + n > 0 then s[|s| + n..]
    else s
  }

  /** Visiting an element removes it from the unvisited ones, if it was one of them. */
  lemma UnvisitedShrinks<T>(keys: set<T>, visited: set<T>, key: T)
    requires key !in visited
    ensures key in keys ==> |keys - (visited + {key})| < |keys - visited|
    ensures key !in keys ==> keys - (visited + {key}) == keys - visited
  {
    if key in keys {
      assert keys - (visited + {key}) == (keys - visited) - {key};
    }
  }

  /** Visiting more never leaves more unvisited. */
  lemma UnvisitedMonotone<T>(keys: set<T>, visited: set<T>, more: set<T>)
    requires visited <= more
    ensures |keys - more| <= |keys - visited|
  {
    var a, b := keys - more, keys - visited;
    assert b == a + (b - a);
  }

  // ---------------------------------------------------------------------
  // Decimal numerals
  // ---------------------------------------------------------------------

  function Digit(d: nat): (c: char)
    requires d < 10
    ensures '0' <= c <= '9'
  {
    ('0' as int + d) as char
  }

  /** Decimal rendering of a natural number, without leading zeros. */
  function Decimal(n: nat): (r: string)
    ensures |r| >= 1
    ensures n < 10 <==> |r| == 1
  {
    if n < 10 then [Digit(n)] else Decimal(n / 10) + [Digit(n % 10)]
  }

  /** Different numbers render differently. */
  lemma {:induction false} DecimalInjective(a: nat, b: nat)
    requires Decimal(a) == Decimal(b)
    ensures a == b
    decreases a
  {
    if a >= 10 {
      var da, db := Decimal(a), Decimal(b);
      assert da[..|da| - 1] == Decimal(a / 10);
      assert db[..|db| - 1] == Decimal(b / 10);
      DecimalInjective(a / 10, b / 10);
      assert da[|da| - 1] == Digit(a % 10);
    }
  }

  lemma {:induction false} DecimalDigits(n: nat)
    ensures forall c :: c in Decimal(n) ==> '0' <= c <= '9'
  {
    if n >= 10 {
      DecimalDigits(n / 10);
    }
  }
}
