/** Python's `sorted(xs, key=..., reverse=...)`: a stable sort by a key
    compared the way Python compares ints, strings and tuples of them. A
    descending sort still keeps equal keys in their original order. */
module Sorting {

  /** One component of a sort key. */
  datatype KeyPart = Num(n: int) | Text(s: string)

  /** A sort key: a tuple of components, compared left to right. */
  type Key = seq<KeyPart>

  /** Python `str < str`: code point by code point, a proper prefix first. */
  predicate TextLess(a: string, b: string)
    decreases |a|
  {
    if |a| == 0 then |b| > 0
    else if |b| == 0 then false
    else if a[0] == b[0] then TextLess(a[1..], b[1..])
    else a[0] < b[0]
  }

  lemma {:induction false} TextLessIrreflexive(a: string)
    ensures !TextLess(a, a)
    decreases |a|
  {
    if |a| > 0 {
      TextLessIrreflexive(a[1..]);
    }
  }

  lemma {:induction false} TextLessTransitive(a: string, b: string, c: string)
    requires TextLess(a, b) && TextLess(b, c)
    ensures TextLess(a, c)
    decreases |a|
  {
    if |a| > 0 && |b| > 0 && |c| > 0 && a[0] == b[0] && b[0] == c[0] {
      TextLessTransitive(a[1..], b[1..], c[1..]);
    }
  }

  lemma {:induction false} TextLessTotal(a: string, b: string)
    requires a != b
    ensures TextLess(a, b) || TextLess(b, a)
    decreases |a|
  {
    if |a| > 0 && |b| > 0 && a[0] == b[0] {
      assert a == [a[0]] + a[1..] && b == [b[0]] + b[1..];
      TextLessTotal(a[1..], b[1..]);
    }
  }

  /** Numbers before text; the tools never compare a number with text. */
  predicate PartLess(a: KeyPart, b: KeyPart) {
    match (a, b)
    case (Num(x), Num(y)) => x < y
    case (Text(x), Text(y)) => TextLess(x, y)
    case (Num(_), Text(_)) => true
    case (Text(_), Num(_)) => false
  }

  /** Python tuple comparison. */
  predicate KeyLess(a: Key, b: Key)
    decreases |a|
  {
    if |a| == 0 then |b| > 0
    else if |b| == 0 then false
    else if a[0] == b[0] then KeyLess(a[1..], b[1..])
    else PartLess(a[0], b[0])
  }

  lemma PartLessIrreflexive(a: KeyPart)
    ensures !PartLess(a, a)
  {
    if a.Text? {
      TextLessIrreflexive(a.s);
    }
  }

  lemma PartLessTransitive(a: KeyPart, b: KeyPart, c: KeyPart)
    requires PartLess(a, b) && PartLess(b, c)
    ensures PartLess(a, c)
  {
    if a.Text? && b.Text? && c.Text? {
      TextLessTransitive(a.s, b.s, c.s);
    }
  }

  lemma PartLessTotal(a: KeyPart, b: KeyPart)
    requires a != b
    ensures PartLess(a, b) || PartLess(b, a)
  {
    if a.Text? && b.Text? {
      TextLessTotal(a.s, b.s);
    }
  }

  lemma {:induction false} KeyLessIrreflexive(a: Key)
    ensures !KeyLess(a, a)
    decreases |a|
  {
    if |a| > 0 {
      KeyLessIrreflexive(a[1..]);
    }
  }

  lemma {:induction false} KeyLessTransitive(a: Key, b: Key, c: Key)
    requires KeyLess(a, b) && KeyLess(b, c)
    ensures KeyLess(a, c)
    decreases |a|
  {
    if |a| > 0 && |b| > 0 && |c| > 0 {
      if a[0] == b[0] && b[0] == c[0] {
        KeyLessTransitive(a[1..], b[1..], c[1..]);
      } else if a[0] != b[0] && b[0] != c[0] {
        PartLessTransitive(a[0], b[0], c[0]);
        if a[0] == c[0] {
          PartLessIrreflexive(a[0]);
        }
      }
    }
  }

  lemma {:induction false} KeyLessTotal(a: Key, b: Key)
    requires a != b
    ensures KeyLess(a, b) || KeyLess(b, a)
    decreases |a|
  {
    if |a| > 0 && |b| > 0 {
      if a[0] == b[0] {
        assert a == [a[0]] + a[1..] && b == [b[0]] + b[1..];
        KeyLessTotal(a[1..], b[1..]);
      } else {
        PartLessTotal(a[0], b[0]);
      }
    }
  }

  /** `a` must come strictly before `b` in the result. */
  predicate Before(a: Key, b: Key, descending: bool) {
    if descending then KeyLess(b, a) else KeyLess(a, b)
  }

  lemma BeforeTransitive(a: Key, b: Key, c: Key, descending: bool)
    requires Before(a, b, descending) && Before(b, c, descending)
    ensures Before(a, c, descending)
  {
    if descending {
      KeyLessTransitive(c, b, a);
    } else {
      KeyLessTransitive(a, b, c);
    }
  }

  lemma BeforeTotal(a: Key, b: Key, descending: bool)
    ensures a == b || Before(a, b, descending) || Before(b, a, descending)
    ensures !Before(a, a, descending)
  {
    KeyLessIrreflexive(a);
    if a != b {
      KeyLessTotal(a, b);
    }
  }

  /** No element is strictly before an earlier one. */
  predicate SortedBy<T(!new)>(r: seq<T>, key: T -> Key, descending: bool) {
    forall i, j :: 0 <= i < j < |r| ==> !Before(key(r[j]), key(r[i]), descending)
  }

  /** In a sequence sorted by one-number keys the numbers are in order. */
  lemma SortedByNum<T(!new)>(r: seq<T>, key: T -> Key, descending: bool, i: nat, j: nat, a: int, b: int)
    requires SortedBy(r, key, descending) && i < j < |r|
    requires key(r[i]) == [Num(a)] && key(r[j]) == [Num(b)]
    ensures if descending then a >= b else a <= b
  {
    assert !Before(key(r[j]), key(r[i]), descending);
    assert [Num(a)][1..] == [] && [Num(b)][1..] == [];
  }

  /** A slice of a sorted sequence is sorted. */
  lemma SortedSlice<T(!new)>(r: seq<T>, key: T -> Key, descending: bool, a: nat, b: nat)
    requires SortedBy(r, key, descending) && a <= b <= |r|
    ensures SortedBy(r[a..b], key, descending)
  {
    var s := r[a..b];
    forall i, j | 0 <= i < j < |s| ensures !Before(key(s[j]), key(s[i]), descending) {
      assert s[i] == r[a + i] && s[j] == r[a + j];
    }
  }

  /** The elements with key `k`, in order. */
  function WithKey<T(!new)>(s: seq<T>, key: T -> Key, k: Key): (r: seq<T>)
    ensures |r| <= |s|
  {
    if |s| == 0 then []
    else (if key(s[0]) == k then [s[0]] else []) + WithKey(s[1..], key, k)
  }

  lemma {:induction false} WithKeyAppend<T(!new)>(a: seq<T>, b: seq<T>, key: T -> Key, k: Key)
    ensures WithKey(a + b, key, k) == WithKey(a, key, k) + WithKey(b, key, k)
    decreases |a|
  {
    if |a| > 0 {
      assert (a + b)[1..] == a[1..] + b;
      WithKeyAppend(a[1..], b, key, k);
    } else {
      assert a + b == b;
    }
  }

  /** Put `x` after every element it is not strictly before. */
  function Insert<T(!new)>(x: T, r: seq<T>, key: T -> Key, descending: bool): (q: seq<T>)
    ensures multiset(q) == multiset(r) + multiset{x}
    ensures |q| == |r| + 1
  {
    if |r| == 0 then [x]
    else if Before(key(x), key(r[0]), descending) then [x] + r
    else
      assert r == [r[0]] + r[1..];
      [r[0]] + Insert(x, r[1..], key, descending)
  }

  lemma {:induction false} InsertSorted<T(!new)>(x: T, r: seq<T>, key: T -> Key, descending: bool)
    requires SortedBy(r, key, descending)
    ensures SortedBy(Insert(x, r, key, descending), key, descending)
    decreases |r|
  {
    if |r| > 0 && !Before(key(x), key(r[0]), descending) {
      var rest := Insert(x, r[1..], key, descending);
      InsertSorted(x, r[1..], key, descending);
      var q := [r[0]] + rest;
      forall j | 0 < j < |q| ensures !Before(key(q[j]), key(q[0]), descending) {
        assert q[j] in multiset(rest);
        assert q[j] == x || q[j] in r[1..];
        if q[j] == x {
        } else {
          var m :| 0 <= m < |r[1..]| && r[1..][m] == q[j];
          assert r[m + 1] == q[j];
        }
      }
    } else if |r| > 0 {
      var q := [x] + r;
      forall i, j | 0 <= i < j < |q| ensures !Before(key(q[j]), key(q[i]), descending) {
        if i == 0 {
          BeforeTotal(key(x), key(r[0]), descending);
          BeforeTotal(key(r[j - 1]), key(r[0]), descending);
          if Before(key(r[j - 1]), key(x), descending) {
            BeforeTransitive(key(r[j - 1]), key(x), key(r[0]), descending);
          }
        }
      }
    }
  }

  lemma SortedTail<T(!new)>(r: seq<T>, key: T -> Key, descending: bool)
    requires |r| > 0 && SortedBy(r, key, descending)
    ensures SortedBy(r[1..], key, descending)
  {
    forall i, j | 0 <= i < j < |r| - 1 ensures !Before(key(r[1..][j]), key(r[1..][i]), descending) {
      assert r[1..][j] == r[j + 1] && r[1..][i] == r[i + 1];
    }
  }

  /** An element strictly before the first of a sorted list shares its key with none of them. */
  lemma InsertStableFront<T(!new)>(x: T, r: seq<T>, key: T -> Key, descending: bool, k: Key)
    requires SortedBy(r, key, descending) && |r| > 0 && Before(key(x), key(r[0]), descending)
    ensures WithKey([x] + r, key, k) == WithKey(r, key, k) + (if key(x) == k then [x] else [])
  {
    WithKeyAppend([x], r, key, k);
    assert WithKey([x], key, k) == (if key(x) == k then [x] else []) + WithKey([], key, k);
    if key(x) == k {
      forall m | 0 <= m < |r| ensures key(r[m]) != k {
        BeforeTotal(key(x), key(x), descending);
      }
      NoneWithKey(r, key, k);
    }
  }

  /** Inserting puts `x` after every element sharing its key. */
  lemma {:induction false} InsertStable<T(!new)>(x: T, r: seq<T>, key: T -> Key, descending: bool, k: Key)
    requires SortedBy(r, key, descending)
    ensures WithKey(Insert(x, r, key, descending), key, k)
      == WithKey(r, key, k) + (if key(x) == k then [x] else [])
    decreases |r|
  {
    if |r| == 0 {
      assert Insert(x, r, key, descending) == [x];
      assert WithKey([x], key, k) == (if key(x) == k then [x] else []) + WithKey([], key, k);
    } else if Before(key(x), key(r[0]), descending) {
      InsertStableFront(x, r, key, descending, k);
    } else {
      SortedTail(r, key, descending);
      InsertStable(x, r[1..], key, descending, k);
      InsertStableStep(x, r, key, descending, k);
    }
  }

  /** Inserting past the first element leaves it in front. */
  lemma InsertStableStep<T(!new)>(x: T, r: seq<T>, key: T -> Key, descending: bool, k: Key)
    requires |r| > 0 && !Before(key(x), key(r[0]), descending)
    requires WithKey(Insert(x, r[1..], key, descending), key, k)
      == WithKey(r[1..], key, k) + (if key(x) == k then [x] else [])
    ensures WithKey(Insert(x, r, key, descending), key, k)
      == WithKey(r, key, k) + (if key(x) == k then [x] else [])
  {
    var tail := if key(x) == k then [x] else [];
    var a, b := WithKey([r[0]], key, k), WithKey(r[1..], key, k);
    assert Insert(x, r, key, descending) == [r[0]] + Insert(x, r[1..], key, descending);
    WithKeyAppend([r[0]], Insert(x, r[1..], key, descending), key, k);
    WithKeyAppend([r[0]], r[1..], key, k);
    assert r == [r[0]] + r[1..];
    assert a + (b + tail) == (a + b) + tail;
  }

  lemma {:induction false} NoneWithKey<T(!new)>(r: seq<T>, key: T -> Key, k: Key)
    requires forall m :: 0 <= m < |r| ==> key(r[m]) != k
    ensures WithKey(r, key, k) == []
    decreases |r|
  {
    if |r| > 0 {
      NoneWithKey(r[1..], key, k);
    }
  }

  /** Python `sorted(s, key=key, reverse=descending)`. */
  function SortBy<T(!new)>(s: seq<T>, key: T -> Key, descending: bool): (r: seq<T>)
    ensures multiset(r) == multiset(s)
    ensures |r| == |s|
  {
    if |s| == 0 then []
    else
      assert s == s[..|s| - 1] + [s[|s| - 1]];
      Insert(s[|s| - 1], SortBy(s[..|s| - 1], key, descending), key, descending)
  }

  /** The result is in key order. */
  lemma {:induction false} SortBySorted<T(!new)>(s: seq<T>, key: T -> Key, descending: bool)
    ensures SortedBy(SortBy(s, key, descending), key, descending)
    decreases |s|
  {
    if |s| > 0 {
      SortBySorted(s[..|s| - 1], key, descending);
      InsertSorted(s[|s| - 1], SortBy(s[..|s| - 1], key, descending), key, descending);
    }
  }

  /** Elements with equal keys keep their original relative order. */
  lemma {:induction false} SortByStable<T(!new)>(s: seq<T>, key: T -> Key, descending: bool, k: Key)
    ensures WithKey(SortBy(s, key, descending), key, k) == WithKey(s, key, k)
    decreases |s|
  {
    if |s| > 0 {
      var init, x := s[..|s| - 1], s[|s| - 1];
      SortByStable(init, key, descending, k);
      SortBySorted(init, key, descending);
      InsertStable(x, SortBy(init, key, descending), key, descending, k);
      SortBySnoc(s, key, descending);
      WithKeySnoc(s, key, k);
    }
  }

  lemma SortBySnoc<T(!new)>(s: seq<T>, key: T -> Key, descending: bool)
    requires |s| > 0
    ensures SortBy(s, key, descending) == Insert(s[|s| - 1], SortBy(s[..|s| - 1], key, descending), key, descending)
  {
  }

  lemma WithKeySnoc<T(!new)>(s: seq<T>, key: T -> Key, k: Key)
    requires |s| > 0
    ensures WithKey(s, key, k) == WithKey(s[..|s| - 1], key, k) + (if key(s[|s| - 1]) == k then [s[|s| - 1]] else [])
  {
    var init, x := s[..|s| - 1], s[|s| - 1];
    SplitLast(s);
    WithKeyAppend(init, [x], key, k);
    assert WithKey([x], key, k) == (if key(x) == k then [x] else []) + WithKey([], key, k);
  }

  lemma SplitLast<T>(s: seq<T>)
    requires |s| > 0
    ensures s == s[..|s| - 1] + [s[|s| - 1]]
  {
  }

  /** Sorting keeps every element and adds none. */
  lemma SortByMembers<T(!new)>(s: seq<T>, key: T -> Key, descending: bool)
    ensures forall x :: x in SortBy(s, key, descending) <==> x in s
  {
    var r := SortBy(s, key, descending);
    assert forall x :: x in r <==> x in multiset(r);
    assert forall x :: x in s <==> x in multiset(s);
  }
}
