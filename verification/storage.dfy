/** Storage layout of a contract: the byte size of each Solidity type, the
    types that always open a fresh slot, the state variables gathered in
    inheritance order, and the packing of those variables into 32-byte slots. */
module Storage {
  import opened Common
  import opened Dicts
  import opened Keys
  import opened Model
  import opened Pagination
  import Resolution

  /** Bytes in one storage slot. */
  const SlotSize: nat := 32

  // ---------------------------------------------------------------------
  // Type sizes
  // ---------------------------------------------------------------------

  /** The size table of elementary types: `bool` 1, `address` 20, `uint` and
      `int` 32, `uintN`/`intN` N/8 for N = 8, 16, ..., 256, `bytesK` K for
      K = 1, ..., 32; `None` for every other type name. */
  function ElementarySize(t: string): (r: Option<nat>)
    ensures r.Some? ==> 1 <= r.value <= SlotSize
  {
    if t == "bool" then Some(1)
    else if t == "address" then Some(20)
    else if t == "uint" || t == "int" then Some(32)
    else WidthSize(t, 1)
  }

  /** Searches the sized names `uint(8k)`, `int(8k)`, `bytesk` from `k` on. */
  function WidthSize(t: string, k: nat): (r: Option<nat>)
    requires 1 <= k
    ensures r.Some? ==> k <= r.value <= SlotSize
    decreases 33 - k
  {
    if k > 32 then None
    else if t == "uint" + Decimal(8 * k) || t == "int" + Decimal(8 * k) || t == "bytes" + Decimal(k) then Some(k)
    else WidthSize(t, k + 1)
  }

  /** A sized name of width `k` names width `k` only. */
  predicate SizedName(t: string, k: nat) {
    t == "uint" + Decimal(8 * k) || t == "int" + Decimal(8 * k) || t == "bytes" + Decimal(k)
  }

  lemma SizedNameUnique(t: string, j: nat, k: nat)
    requires SizedName(t, j) && SizedName(t, k)
    ensures j == k
  {
    SizedNameShape(t, j);
    if t[0] == 'u' {
      assert t[4..] == Decimal(8 * j) && t[4..] == Decimal(8 * k);
      DecimalInjective(8 * j, 8 * k);
    } else if t[0] == 'i' {
      assert t[3..] == Decimal(8 * j) && t[3..] == Decimal(8 * k);
      DecimalInjective(8 * j, 8 * k);
    } else {
      assert t[5..] == Decimal(j) && t[5..] == Decimal(k);
      DecimalInjective(j, k);
    }
  }

  /** What a sized name looks like: a `uint`, `int` or `bytes` stem and decimal digits. */
  lemma SizedNameShape(t: string, k: nat)
    requires SizedName(t, k)
    ensures |t| >= 4 && t[0] in "uib" && '0' <= t[|t| - 1] <= '9' && '[' !in t
    ensures t[0] == 'u' ==> t[..4] == "uint"
    ensures t[0] == 'i' ==> t[..3] == "int" && '0' <= t[3] <= '9'
    ensures t[0] == 'b' ==> t[..5] == "bytes" && |t| >= 6
  {
    var n := if "bytes" <= t then k else 8 * k;
    var p := if "uint" <= t then "uint" else if "int" <= t then "int" else "bytes";
    DecimalDigits(n);
    assert t == p + Decimal(n);
    assert t[|t| - 1] in Decimal(n);
    assert t[|p|] in Decimal(n);
    assert forall c :: c in t ==> c in p || c in Decimal(n);
  }

  lemma {:induction false} WidthSizeFinds(t: string, j: nat, k: nat)
    requires 1 <= j <= k <= 32 && SizedName(t, k)
    ensures WidthSize(t, j) == Some(k)
    decreases k - j
  {
    if j < k {
      if SizedName(t, j) {
        SizedNameUnique(t, j, k);
      }
      WidthSizeFinds(t, j + 1, k);
    }
  }

  /** Every sized type name of the table has its width as size. */
  lemma ElementarySizeOfSized(t: string, k: nat)
    requires 1 <= k <= 32 && SizedName(t, k)
    ensures ElementarySize(t) == Some(k)
  {
    assert |t| >= 4 by { assert |Decimal(k)| >= 1; }
    assert t != "bool" && t != "address" && t != "uint" && t != "int" by {
      if t == "uint" + Decimal(8 * k) {
        assert t[0] == 'u' && |t| >= 5;
      } else if t == "int" + Decimal(8 * k) {
        assert t[0] == 'i' && t[1] == 'n' && |t| >= 4;
        assert 8 * k >= 8;
        assert t != "int";
      } else {
        assert t[0] == 'b' && t[1] == 'y' && |t| >= 6;
      }
    }
    WidthSizeFinds(t, 1, k);
  }

  /** Storage size in bytes of a type string, after surrounding whitespace is
      removed: contract and interface references take 20 bytes, mappings,
      arrays, strings, dynamic bytes and structs a full slot, enums 1 byte,
      function types 24 bytes, elementary types their table size, and any
      other type a full slot. */
  function TypeSize(typeStr: string): (r: nat)
    ensures 1 <= r <= SlotSize
  {
    StrippedSize(Strip(typeStr))
  }

  function StrippedSize(t: string): (r: nat)
    ensures 1 <= r <= SlotSize
  {
    if "contract " <= t then 20
    else if "interface " <= t then 20
    else if "mapping(" <= t then SlotSize
    else if EndsWith(t, "[]") then SlotSize
    else if t == "string" || t == "bytes" then SlotSize
    else if "struct " <= t then SlotSize
    else if "enum " <= t then 1
    else if "function" <= t then 24
    else if '[' in t && !EndsWith(t, "[]") then SlotSize
    else match ElementarySize(t)
      case Some(n) => n
      case None => SlotSize
  }

  /** Whether a variable of this type always starts a fresh slot: mappings,
      dynamic and fixed arrays, strings, dynamic bytes and structs. */
  predicate RequiresNewSlot(typeStr: string) {
    StrippedNeedsSlot(Strip(typeStr))
  }

  predicate StrippedNeedsSlot(t: string) {
    "mapping(" <= t || EndsWith(t, "[]") || t == "string" || t == "bytes" || "struct " <= t || '[' in t
  }

  /** A type that starts a fresh slot also fills it, unless its name is read
      first as a contract, interface, enum or function type. */
  lemma NewSlotFillsSlot(typeStr: string)
    requires RequiresNewSlot(typeStr)
    ensures (
      var t := Strip(typeStr);
      TypeSize(typeStr) == SlotSize
      || "contract " <= t || "interface " <= t || "enum " <= t || "function" <= t)
  {
  }

  /** Elementary types that share a slot are sized by the table. */
  lemma TypeSizeOfSized(typeStr: string, k: nat)
    requires 1 <= k <= 32 && SizedName(Strip(typeStr), k)
    ensures TypeSize(typeStr) == k
    ensures !RequiresNewSlot(typeStr)
  {
    StrippedSizeOfSized(Strip(typeStr), k);
  }

  lemma StrippedSizeOfSized(t: string, k: nat)
    requires 1 <= k <= 32 && SizedName(t, k)
    ensures StrippedSize(t) == k
    ensures !StrippedNeedsSlot(t)
  {
    ElementarySizeOfSized(t, k);
    SizedNotSpecial(t, k);
  }

  /** A sized name matches none of the special forms read before the table. */
  lemma SizedNotSpecial(t: string, k: nat)
    requires SizedName(t, k)
    ensures !("contract " <= t) && !("interface " <= t) && !("mapping(" <= t) && !("struct " <= t)
    ensures !("enum " <= t) && !("function" <= t)
    ensures !EndsWith(t, "[]") && t != "string" && t != "bytes" && '[' !in t
  {
    SizedNameShape(t, k);
    NotPrefix("contract ", t, 0);
    NotPrefix("interface ", t, if t[0] == 'i' then 3 else 0);
    NotPrefix("mapping(", t, 0);
    NotPrefix("struct ", t, 0);
    NotPrefix("enum ", t, 0);
    NotPrefix("function", t, 0);
    NoBracketSuffix(t);
    assert t != "string" && t != "bytes" by {
      assert t[|t| - 1] != 'g' && t[|t| - 1] != 's';
    }
  }

  lemma NotPrefix(p: string, t: string, i: nat)
    requires i < |p| && i < |t| && p[i] != t[i]
    ensures !(p <= t)
  {
  }

  lemma NoBracketSuffix(t: string)
    requires '[' !in t
    ensures !EndsWith(t, "[]")
  {
    if |t| >= 2 {
      assert t[|t| - 2] in t;
    }
  }

  // ---------------------------------------------------------------------
  // Variables in inheritance order
  // ---------------------------------------------------------------------

  /** A state variable together with the name of the contract declaring it. */
  datatype Owned = Owned(variable: StateVariableModel, contractName: string)

  /** Constants and immutables take no storage. */
  predicate Stored(v: StateVariableModel) {
    !v.isConstant && !v.isImmutable
  }

  /** The stored variables of `vs`, in order, tagged with `name`. */
  function OwnedFrom(vs: seq<StateVariableModel>, name: string): (r: seq<Owned>)
    ensures forall o :: o in r <==> o.contractName == name && o.variable in vs && Stored(o.variable)
  {
    if |vs| == 0 then []
    else (if Stored(vs[0]) then [Owned(vs[0], name)] else []) + OwnedFrom(vs[1..], name)
  }

  function OwnVars(c: ContractModel): seq<Owned> {
    OwnedFrom(c.stateVariables, c.name)
  }

  /** The stored variables of the contracts `cs`, contract after contract. */
  function OwnAll(facts: ProjectFacts, cs: seq<ContractKey>): seq<Owned>
    requires forall k :: k in cs ==> k in facts.contracts.entries
  {
    if |cs| == 0 then []
    else OwnAll(facts, cs[..|cs| - 1]) + OwnVars(facts.contracts.entries[cs[|cs| - 1]])
  }

  lemma {:induction false} OwnAllAppend(facts: ProjectFacts, a: seq<ContractKey>, b: seq<ContractKey>)
    requires forall k :: k in a + b ==> k in facts.contracts.entries
    ensures OwnAll(facts, a + b) == OwnAll(facts, a) + OwnAll(facts, b)
    decreases |b|
  {
    if |b| > 0 {
      var b0 := b[..|b| - 1];
      assert (a + b)[..|a + b| - 1] == a + b0;
      OwnAllAppend(facts, a, b0);
    } else {
      assert a + b == a;
    }
  }

  /** The outcome of a walk: contracts whose variables were taken, in order;
      the variables taken; the keys visited so far. */
  datatype Gathered = Gathered(contracts: seq<ContractKey>, vars: seq<Owned>, visited: set<ContractKey>)

  /** Depth-first, leftmost parent first, with one visited set shared by the
      whole walk: a key already visited is skipped, an unknown key is marked
      and skipped, and a known contract contributes its parents' variables
      and then its own. */
  function CollectFrom(facts: ProjectFacts, ck: ContractKey, visited: set<ContractKey>): (r: Gathered)
    ensures visited <= r.visited
    decreases |facts.contracts.entries.Keys - visited|, 0, 0
  {
    if ck in visited then Gathered([], [], visited)
    else
      var marked := visited + {ck};
      if ck !in facts.contracts.entries then Gathered([], [], marked)
      else
        var c := facts.contracts.entries[ck];
        UnvisitedShrinks(facts.contracts.entries.Keys, visited, ck);
        var g := CollectParents(facts, c.directlyInherits, 0, marked);
        Gathered(g.contracts + [ck], g.vars + OwnVars(c), g.visited)
  }

  /** Walks `ps[i..]` in order, threading the visited set. */
  function CollectParents(facts: ProjectFacts, ps: seq<ContractKey>, i: nat, visited: set<ContractKey>): (r: Gathered)
    requires i <= |ps|
    ensures visited <= r.visited
    decreases |facts.contracts.entries.Keys - visited|, 1, |ps| - i
  {
    if i == |ps| then Gathered([], [], visited)
    else
      var g1 := CollectFrom(facts, ps[i], visited);
      UnvisitedMonotone(facts.contracts.entries.Keys, visited, g1.visited);
      var g2 := CollectParents(facts, ps, i + 1, g1.visited);
      Gathered(g1.contracts + g2.contracts, g1.vars + g2.vars, g2.visited)
  }

  /** The stored variables of `ck` and of everything it inherits, parents first. */
  function CollectInherited(facts: ProjectFacts, ck: ContractKey): seq<Owned> {
    CollectFrom(facts, ck, {}).vars
  }

  ghost predicate WalkShape(facts: ProjectFacts, visited: set<ContractKey>, g: Gathered) {
    && (forall k :: k in g.contracts ==> k in facts.contracts.entries && k !in visited && k in g.visited)
    && (forall k :: k in g.visited ==> k in visited || k in g.contracts || k !in facts.contracts.entries)
    && Distinct(g.contracts)
    && g.vars == OwnAll(facts, g.contracts)
  }

  lemma DistinctAppend<T>(a: seq<T>, b: seq<T>)
    requires Distinct(a) && Distinct(b)
    requires forall x :: x in a ==> x !in b
    ensures Distinct(a + b)
  {
    forall i, j | 0 <= i < j < |a + b| ensures (a + b)[i] != (a + b)[j] {
      if j >= |a| && i < |a| {
        assert (a + b)[i] in a && (a + b)[j] in b;
      }
    }
  }

  /** The walk from `ck` takes every contract at most once, only known ones
      not visited before, marks them visited, and its variables are exactly
      those contracts' stored variables in walk order. */
  lemma {:induction false} CollectFromShape(facts: ProjectFacts, ck: ContractKey, visited: set<ContractKey>)
    ensures WalkShape(facts, visited, CollectFrom(facts, ck, visited))
    decreases |facts.contracts.entries.Keys - visited|, 0, 1
  {
    if ck in visited {
      assert CollectFrom(facts, ck, visited) == Gathered([], [], visited);
    } else if ck !in facts.contracts.entries {
      assert CollectFrom(facts, ck, visited) == Gathered([], [], visited + {ck});
    } else {
      CollectKnownShape(facts, ck, visited);
    }
  }

  lemma {:induction false} CollectKnownShape(facts: ProjectFacts, ck: ContractKey, visited: set<ContractKey>)
    requires ck !in visited && ck in facts.contracts.entries
    ensures WalkShape(facts, visited, CollectFrom(facts, ck, visited))
    decreases |facts.contracts.entries.Keys - visited|, 0, 0
  {
    var c := facts.contracts.entries[ck];
    var marked := visited + {ck};
    UnvisitedShrinks(facts.contracts.entries.Keys, visited, ck);
    var g := CollectParents(facts, c.directlyInherits, 0, marked);
    CollectParentsShape(facts, c.directlyInherits, 0, marked);
    WalkShapeFinish(facts, visited, ck, g);
    assert CollectFrom(facts, ck, visited) == Gathered(g.contracts + [ck], g.vars + OwnVars(c), g.visited);
  }

  lemma WalkShapeFinish(facts: ProjectFacts, visited: set<ContractKey>, ck: ContractKey, g: Gathered)
    requires ck !in visited && ck in facts.contracts.entries
    requires visited + {ck} <= g.visited && WalkShape(facts, visited + {ck}, g)
    ensures WalkShape(facts, visited, Gathered(g.contracts + [ck], g.vars + OwnVars(facts.contracts.entries[ck]), g.visited))
  {
    DistinctAppend(g.contracts, [ck]);
    assert (g.contracts + [ck])[..|g.contracts|] == g.contracts;
  }

  lemma WalkShapeConcat(facts: ProjectFacts, visited: set<ContractKey>, g1: Gathered, g2: Gathered)
    requires visited <= g1.visited <= g2.visited
    requires WalkShape(facts, visited, g1) && WalkShape(facts, g1.visited, g2)
    ensures WalkShape(facts, visited, Gathered(g1.contracts + g2.contracts, g1.vars + g2.vars, g2.visited))
  {
    DistinctAppend(g1.contracts, g2.contracts);
    OwnAllAppend(facts, g1.contracts, g2.contracts);
  }

  lemma {:induction false} CollectParentsShape(facts: ProjectFacts, ps: seq<ContractKey>, i: nat, visited: set<ContractKey>)
    requires i <= |ps|
    ensures WalkShape(facts, visited, CollectParents(facts, ps, i, visited))
    decreases |facts.contracts.entries.Keys - visited|, 1, |ps| - i
  {
    if i < |ps| {
      var g1 := CollectFrom(facts, ps[i], visited);
      CollectFromShape(facts, ps[i], visited);
      UnvisitedMonotone(facts.contracts.entries.Keys, visited, g1.visited);
      var g2 := CollectParents(facts, ps, i + 1, g1.visited);
      CollectParentsShape(facts, ps, i + 1, g1.visited);
      WalkShapeConcat(facts, visited, g1, g2);
    }
  }

  /** The variables of a known contract come last, after all inherited ones;
      each contract of the hierarchy contributes once; an unknown key gives none. */
  lemma CollectInheritedOrder(facts: ProjectFacts, ck: ContractKey)
    ensures ck !in facts.contracts.entries ==> CollectInherited(facts, ck) == []
    ensures (
      ck in facts.contracts.entries ==>
        var w := CollectFrom(facts, ck, {});
        && |w.contracts| >= 1
        && w.contracts[|w.contracts| - 1] == ck
        && Distinct(w.contracts)
        && (forall k :: k in w.contracts ==> k in facts.contracts.entries)
        && CollectInherited(facts, ck) == OwnAll(facts, w.contracts)
        && EndsWithSeq(CollectInherited(facts, ck), OwnVars(facts.contracts.entries[ck])))
  {
    CollectFromShape(facts, ck, {});
  }

  predicate EndsWithSeq<T(==)>(s: seq<T>, suffix: seq<T>) {
    |suffix| <= |s| && s[|s| - |suffix|..] == suffix
  }

  // ---------------------------------------------------------------------
  // Parents before children
  // ---------------------------------------------------------------------

  /** Every contract of `cs` is known, and each of its parents is in `done`
      or earlier in `cs`. */
  ghost predicate ParentsBefore(facts: ProjectFacts, done: set<ContractKey>, cs: seq<ContractKey>) {
    forall i :: 0 <= i < |cs| ==>
      cs[i] in facts.contracts.entries
      && forall p :: p in facts.contracts.entries[cs[i]].directlyInherits ==> p in done || p in cs[..i]
  }

  /** `done` holds known contracts only, together with all their parents. */
  ghost predicate DoneClosed(facts: ProjectFacts, done: set<ContractKey>) {
    forall k :: k in done ==>
      k in facts.contracts.entries
      && forall p :: p in facts.contracts.entries[k].directlyInherits ==> p in done
  }

  /** Every contract that is visited but not finished has rank above `floor`. */
  ghost predicate ActiveAbove(facts: ProjectFacts, rank: map<ContractKey, nat>, visited: set<ContractKey>, done: set<ContractKey>, floor: int) {
    forall a :: a in visited && a in facts.contracts.entries && a !in done ==> a in rank && rank[a] > floor
  }

  lemma ParentsBeforeCloses(facts: ProjectFacts, done: set<ContractKey>, cs: seq<ContractKey>)
    requires DoneClosed(facts, done) && ParentsBefore(facts, done, cs)
    ensures DoneClosed(facts, done + set k | k in cs)
  {
    forall k | k in done + set k | k in cs
      ensures k in facts.contracts.entries
      ensures forall p :: p in facts.contracts.entries[k].directlyInherits ==> p in done + set k | k in cs
    {
      if k !in done {
        var i :| 0 <= i < |cs| && cs[i] == k;
        assert forall p :: p in cs[..i] ==> p in cs;
      }
    }
  }

  lemma ParentsBeforeConcat(facts: ProjectFacts, done: set<ContractKey>, a: seq<ContractKey>, b: seq<ContractKey>)
    requires ParentsBefore(facts, done, a)
    requires ParentsBefore(facts, done + (set k | k in a), b)
    ensures ParentsBefore(facts, done, a + b)
  {
    var cs := a + b;
    forall n | 0 <= n < |cs|
      ensures cs[n] in facts.contracts.entries
      ensures forall q :: q in facts.contracts.entries[cs[n]].directlyInherits ==> q in done || q in cs[..n]
    {
      if n < |a| {
        assert cs[..n] == a[..n];
      } else {
        var m := n - |a|;
        assert cs[n] == b[m];
        assert cs[..n] == a + b[..m];
      }
    }
  }

  /** A walk that keeps the visited-set shape finishes whatever it newly visits. */
  lemma ActiveKept(facts: ProjectFacts, rank: map<ContractKey, nat>, visited: set<ContractKey>, done: set<ContractKey>,
                   floor: int, g: Gathered)
    requires ActiveAbove(facts, rank, visited, done, floor)
    requires WalkShape(facts, visited, g)
    ensures ActiveAbove(facts, rank, g.visited, done + (set k | k in g.contracts), floor)
  {
  }

  lemma ActiveMarked(facts: ProjectFacts, rank: map<ContractKey, nat>, visited: set<ContractKey>, done: set<ContractKey>,
                     ck: ContractKey)
    requires ck in rank && ActiveAbove(facts, rank, visited, done, rank[ck])
    ensures ActiveAbove(facts, rank, visited + {ck}, done, rank[ck] as int - 1)
  {
  }

  lemma LastParentsBefore(facts: ProjectFacts, done: set<ContractKey>, ck: ContractKey)
    requires ck in facts.contracts.entries
    requires forall q :: q in facts.contracts.entries[ck].directlyInherits ==> q in done
    ensures ParentsBefore(facts, done, [ck])
  {
  }

  /** In an acyclic hierarchy the walk from `ck` finishes `ck` and takes each
      contract only after all of its parents. */
  lemma {:induction false} CollectFromParentsFirst(facts: ProjectFacts, rank: map<ContractKey, nat>, ck: ContractKey,
                                                   visited: set<ContractKey>, done: set<ContractKey>)
    requires Resolution.Layered(facts, rank)
    requires done <= visited && DoneClosed(facts, done)
    requires ck in facts.contracts.entries ==> ActiveAbove(facts, rank, visited, done, rank[ck])
    ensures ParentsBefore(facts, done, CollectFrom(facts, ck, visited).contracts)
    ensures ck in facts.contracts.entries ==> ck in done || ck in CollectFrom(facts, ck, visited).contracts
    decreases |facts.contracts.entries.Keys - visited|, 0, 0
  {
    if ck !in visited && ck in facts.contracts.entries {
      var c := facts.contracts.entries[ck];
      var marked := visited + {ck};
      UnvisitedShrinks(facts.contracts.entries.Keys, visited, ck);
      var g := CollectParents(facts, c.directlyInherits, 0, marked);
      ActiveMarked(facts, rank, visited, done, ck);
      CollectParentsParentsFirst(facts, rank, ck, c.directlyInherits, 0, marked, done);
      forall q | q in c.directlyInherits ensures q in done + (set k | k in g.contracts) {
        var j :| 0 <= j < |c.directlyInherits| && c.directlyInherits[j] == q;
      }
      LastParentsBefore(facts, done + (set k | k in g.contracts), ck);
      ParentsBeforeConcat(facts, done, g.contracts, [ck]);
    }
  }

  lemma {:induction false} CollectParentsParentsFirst(facts: ProjectFacts, rank: map<ContractKey, nat>, owner: ContractKey,
                                                      ps: seq<ContractKey>, i: nat, visited: set<ContractKey>, done: set<ContractKey>)
    requires Resolution.Layered(facts, rank)
    requires owner in facts.contracts.entries && ps == facts.contracts.entries[owner].directlyInherits
    requires i <= |ps|
    requires done <= visited && DoneClosed(facts, done)
    requires ActiveAbove(facts, rank, visited, done, rank[owner] as int - 1)
    ensures ParentsBefore(facts, done, CollectParents(facts, ps, i, visited).contracts)
    ensures forall j :: i <= j < |ps| ==> ps[j] in done || ps[j] in CollectParents(facts, ps, i, visited).contracts
    decreases |facts.contracts.entries.Keys - visited|, 1, |ps| - i
  {
    if i < |ps| {
      var p := ps[i];
      assert p in ps;
      var g1 := CollectFrom(facts, p, visited);
      CollectFromParentsFirst(facts, rank, p, visited, done);
      CollectFromShape(facts, p, visited);
      UnvisitedMonotone(facts.contracts.entries.Keys, visited, g1.visited);
      var done1 := done + set k | k in g1.contracts;
      ParentsBeforeCloses(facts, done, g1.contracts);
      ActiveKept(facts, rank, visited, done, rank[owner] as int - 1, g1);
      var g2 := CollectParents(facts, ps, i + 1, g1.visited);
      CollectParentsParentsFirst(facts, rank, owner, ps, i + 1, g1.visited, done1);
      ParentsBeforeConcat(facts, done, g1.contracts, g2.contracts);
      CoveredConcat(ps, i, done, g1.contracts, g2.contracts);
    }
  }

  lemma CoveredConcat(ps: seq<ContractKey>, i: nat, done: set<ContractKey>, a: seq<ContractKey>, b: seq<ContractKey>)
    requires i < |ps|
    requires ps[i] in done || ps[i] in a
    requires forall j :: i + 1 <= j < |ps| ==> ps[j] in done + (set k | k in a) || ps[j] in b
    ensures forall j :: i <= j < |ps| ==> ps[j] in done || ps[j] in a + b
  {
  }

  /** In an acyclic hierarchy every contract's variables follow those of all
      its parents, and every ancestor of a known contract contributes. */
  lemma CollectInheritedParentsFirst(facts: ProjectFacts, rank: map<ContractKey, nat>, ck: ContractKey)
    requires Resolution.Layered(facts, rank)
    ensures ParentsBefore(facts, {}, CollectFrom(facts, ck, {}).contracts)
    ensures DoneClosed(facts, set k | k in CollectFrom(facts, ck, {}).contracts)
  {
    CollectFromParentsFirst(facts, rank, ck, {}, {});
    ParentsBeforeCloses(facts, {}, CollectFrom(facts, ck, {}).contracts);
    assert {} + (set k | k in CollectFrom(facts, ck, {}).contracts) == set k | k in CollectFrom(facts, ck, {}).contracts;
  }

  // ---------------------------------------------------------------------
  // Packing into slots
  // ---------------------------------------------------------------------

  /** A variable to place: the declaring contract and whether it is inherited. */
  datatype Placed = Placed(variable: StateVariableModel, declaringContract: string, isInherited: bool)

  /** Where one variable lives: slot number, byte offset within the slot, size. */
  datatype SlotInfo = SlotInfo(
    variableName: string,
    slot: nat,
    offset: nat,
    size: nat,
    typeStr: string,
    isInherited: bool,
    declaringContract: string)

  /** Each entry fits inside its slot; the first opens slot 0; every later one
      either continues its predecessor's slot right after it or opens the next. */
  predicate WellPacked(slots: seq<SlotInfo>) {
    && (forall i :: 0 <= i < |slots| ==> slots[i].offset < SlotSize && slots[i].offset + slots[i].size <= SlotSize)
    && (|slots| > 0 ==> slots[0].slot == 0 && slots[0].offset == 0)
    && (forall i :: 0 < i < |slots| ==>
          if slots[i].offset > 0 then
            slots[i].slot == slots[i - 1].slot && slots[i].offset == slots[i - 1].offset + slots[i - 1].size
          else slots[i].slot == slots[i - 1].slot + 1)
  }

  /** End of an entry within its slot. */
  function EndOf(s: SlotInfo): nat {
    s.offset + s.size
  }

  /** Entry `s` records variable `p` with its type size. */
  predicate Mirrors(p: Placed, s: SlotInfo) {
    && s.variableName == p.variable.name
    && s.typeStr == p.variable.typeStr
    && s.size == TypeSize(p.variable.typeStr)
    && s.isInherited == p.isInherited
    && s.declaringContract == p.declaringContract
  }

  /** Entry `j` of `slots` opens a fresh slot when its type demands one, and
      shares its predecessor's slot exactly when it may and fits. */
  predicate Decided(vars: seq<Placed>, slots: seq<SlotInfo>, j: nat)
    requires j < |slots| && j < |vars|
  {
    && (RequiresNewSlot(vars[j].variable.typeStr) ==> slots[j].offset == 0)
    && (j > 0 ==>
          (slots[j].offset > 0 <==> !RequiresNewSlot(vars[j].variable.typeStr) && EndOf(slots[j - 1]) + slots[j].size <= SlotSize))
  }

  /** Lays the variables out in order: a variable that needs a fresh slot, or
      does not fit in what is left of the current one, moves to the next slot
      (unless the current one is still empty); a full slot is closed. The total
      counts the slots touched. */
  method PackSlots(vars: seq<Placed>) returns (slots: seq<SlotInfo>, totalSlots: nat)
    ensures |slots| == |vars|
    ensures forall i :: 0 <= i < |slots| ==> Mirrors(vars[i], slots[i])
    ensures WellPacked(slots)
    ensures forall i :: 0 <= i < |slots| ==> Decided(vars, slots, i)
    ensures totalSlots == if |slots| == 0 then 0 else slots[|slots| - 1].slot + 1
  {
    slots := [];
    var slot: nat := 0;
    var offset: nat := 0;
    var i := 0;
    while i < |vars|
      invariant 0 <= i <= |vars| && |slots| == i
      invariant offset < SlotSize
      invariant forall j :: 0 <= j < i ==> Mirrors(vars[j], slots[j])
      invariant WellPacked(slots)
      invariant forall j :: 0 <= j < i ==> Decided(vars, slots, j)
      invariant i == 0 ==> slot == 0 && offset == 0
      invariant i > 0 ==>
        if EndOf(slots[i - 1]) < SlotSize then slot == slots[i - 1].slot && offset == EndOf(slots[i - 1])
        else slot == slots[i - 1].slot + 1 && offset == 0
    {
      var v := vars[i].variable;
      var size := TypeSize(v.typeStr);
      var needsNewSlot := RequiresNewSlot(v.typeStr);
      if needsNewSlot || (offset > 0 && offset + size > SlotSize) {
        if offset > 0 {
          slot := slot + 1;
          offset := 0;
        }
      }
      var e := SlotInfo(v.name, slot, offset, size, v.typeStr, vars[i].isInherited, vars[i].declaringContract);
      WellPackedSnoc(slots, e);
      MirrorsSnoc(vars, slots, e);
      assert i > 0 ==> (e.offset > 0 <==> !needsNewSlot && EndOf(slots[i - 1]) + size <= SlotSize);
      DecidedSnoc(vars, slots, e);
      slots := slots + [e];
      offset := offset + size;
      if offset >= SlotSize {
        slot := slot + 1;
        offset := 0;
      }
      i := i + 1;
    }
    totalSlots := slot + (if offset > 0 then 1 else 0);
  }

  lemma MirrorsSnoc(vars: seq<Placed>, slots: seq<SlotInfo>, e: SlotInfo)
    requires |slots| < |vars|
    requires forall j :: 0 <= j < |slots| ==> Mirrors(vars[j], slots[j])
    requires Mirrors(vars[|slots|], e)
    ensures forall j :: 0 <= j <= |slots| ==> Mirrors(vars[j], (slots + [e])[j])
  {
    assert forall j :: 0 <= j < |slots| ==> (slots + [e])[j] == slots[j];
  }

  lemma DecidedSnoc(vars: seq<Placed>, slots: seq<SlotInfo>, e: SlotInfo)
    requires |slots| < |vars|
    requires forall j :: 0 <= j < |slots| ==> Decided(vars, slots, j)
    requires RequiresNewSlot(vars[|slots|].variable.typeStr) ==> e.offset == 0
    requires |slots| > 0 ==>
      (e.offset > 0 <==> !RequiresNewSlot(vars[|slots|].variable.typeStr) && EndOf(slots[|slots| - 1]) + e.size <= SlotSize)
    ensures forall j :: 0 <= j <= |slots| ==> Decided(vars, slots + [e], j)
  {
    var t := slots + [e];
    forall j | 0 <= j <= |slots| ensures Decided(vars, t, j) {
      if j < |slots| {
        assert Decided(vars, slots, j);
        assert t[j] == slots[j];
        assert j > 0 ==> t[j - 1] == slots[j - 1];
      }
    }
  }

  lemma WellPackedSnoc(slots: seq<SlotInfo>, e: SlotInfo)
    requires WellPacked(slots)
    requires e.offset < SlotSize && e.offset + e.size <= SlotSize
    requires |slots| == 0 ==> e.slot == 0 && e.offset == 0
    requires |slots| > 0 ==>
      if e.offset > 0 then e.slot == slots[|slots| - 1].slot && e.offset == EndOf(slots[|slots| - 1])
      else e.slot == slots[|slots| - 1].slot + 1
    ensures WellPacked(slots + [e])
  {
    var t := slots + [e];
    forall i | 0 < i < |t|
      ensures if t[i].offset > 0 then t[i].slot == t[i - 1].slot && t[i].offset == t[i - 1].offset + t[i - 1].size
              else t[i].slot == t[i - 1].slot + 1
    {
      if i < |slots| {
        assert t[i] == slots[i] && t[i - 1] == slots[i - 1];
      }
    }
  }

  /** Packed entries never share bytes: an earlier entry ends in an earlier
      slot or at or before the later entry's offset. */
  lemma {:induction false} WellPackedDisjoint(slots: seq<SlotInfo>, i: nat, j: nat)
    requires WellPacked(slots)
    requires i < j < |slots|
    ensures slots[i].slot < slots[j].slot || EndOf(slots[i]) <= slots[j].offset
    decreases j - i
  {
    if j > i + 1 {
      WellPackedDisjoint(slots, i, j - 1);
      WellPackedMonotone(slots, i, j - 1);
    }
  }

  /** Slots never go back, and each entry opens at most one new slot. */
  lemma {:induction false} WellPackedMonotone(slots: seq<SlotInfo>, i: nat, j: nat)
    requires WellPacked(slots)
    requires i <= j < |slots|
    ensures slots[i].slot <= slots[j].slot <= slots[i].slot + (j - i)
    decreases j - i
  {
    if j > i {
      WellPackedMonotone(slots, i, j - 1);
    }
  }

  /** A layout never uses more slots than it has variables. */
  lemma TotalSlotsBound(slots: seq<SlotInfo>, totalSlots: nat)
    requires WellPacked(slots)
    requires totalSlots == if |slots| == 0 then 0 else slots[|slots| - 1].slot + 1
    ensures totalSlots <= |slots|
    ensures |slots| > 0 ==> totalSlots >= 1
  {
    if |slots| > 0 {
      WellPackedMonotone(slots, 0, |slots| - 1);
    }
  }

  /** `slots` and `totalSlots` are the layout of `vars`. */
  predicate LayoutOf(vars: seq<Placed>, slots: seq<SlotInfo>, totalSlots: nat) {
    && |slots| == |vars|
    && (forall i :: 0 <= i < |slots| ==> Mirrors(vars[i], slots[i]))
    && WellPacked(slots)
    && (forall i :: 0 <= i < |slots| ==> Decided(vars, slots, i))
    && totalSlots == (if |slots| == 0 then 0 else slots[|slots| - 1].slot + 1)
  }

  /** The layout rules leave no choice: two layouts of the same variables agree. */
  lemma LayoutUnique(vars: seq<Placed>, a: seq<SlotInfo>, ta: nat, b: seq<SlotInfo>, tb: nat)
    requires LayoutOf(vars, a, ta) && LayoutOf(vars, b, tb)
    ensures a == b && ta == tb
  {
    forall j | 0 <= j < |vars| ensures a[j] == b[j] {
      LayoutAgree(vars, a, ta, b, tb, j);
    }
  }

  lemma {:induction false} LayoutAgree(vars: seq<Placed>, a: seq<SlotInfo>, ta: nat, b: seq<SlotInfo>, tb: nat, j: nat)
    requires LayoutOf(vars, a, ta) && LayoutOf(vars, b, tb)
    requires j < |vars|
    ensures a[j] == b[j]
    decreases j
  {
    var x, y := a[j], b[j];
    assert Mirrors(vars[j], x) && Mirrors(vars[j], y);
    if j > 0 {
      LayoutAgree(vars, a, ta, b, tb, j - 1);
      var need := RequiresNewSlot(vars[j].variable.typeStr);
      assert Decided(vars, a, j) && Decided(vars, b, j);
      StepAgree(need, a[j - 1], x, y);
    }
  }

  /** After the same predecessor, the same decision gives the same place. */
  lemma StepAgree(need: bool, prev: SlotInfo, x: SlotInfo, y: SlotInfo)
    requires x.size == y.size
    requires x.offset > 0 <==> !need && EndOf(prev) + x.size <= SlotSize
    requires y.offset > 0 <==> !need && EndOf(prev) + y.size <= SlotSize
    requires if x.offset > 0 then x.slot == prev.slot && x.offset == EndOf(prev) else x.slot == prev.slot + 1
    requires if y.offset > 0 then y.slot == prev.slot && y.offset == EndOf(prev) else y.slot == prev.slot + 1
    ensures x.slot == y.slot && x.offset == y.offset
  {
  }

  // ---------------------------------------------------------------------
  // get_storage_layout
  // ---------------------------------------------------------------------

  datatype StorageLayoutRequest = StorageLayoutRequest(
    contractKey: ContractKey,
    includeInherited: bool,
    offset: int,
    limit: Option<int>)

  datatype StorageLayoutResponse = StorageLayoutResponse(
    success: bool,
    contractKey: Option<ContractKey>,
    storageSlots: seq<SlotInfo>,
    totalCount: nat,
    totalSlotsUsed: nat,
    hasMore: bool,
    errorMessage: Option<string>)

  /** Variables seen from contract `name`: inherited exactly when another
      contract name declares them. */
  function Tag(os: seq<Owned>, name: string): (r: seq<Placed>)
    ensures |r| == |os|
    ensures forall i :: 0 <= i < |r| ==>
      r[i].variable == os[i].variable && r[i].declaringContract == os[i].contractName
      && (r[i].isInherited <==> os[i].contractName != name)
  {
    seq(|os|, i requires 0 <= i < |os| => Placed(os[i].variable, os[i].contractName, os[i].contractName != name))
  }

  /** The variables to lay out: the whole hierarchy's, or only the contract's own. */
  function LayoutVariables(facts: ProjectFacts, ck: ContractKey, includeInherited: bool): seq<Placed>
    requires ck in facts.contracts.entries
  {
    var c := facts.contracts.entries[ck];
    if includeInherited then Tag(CollectInherited(facts, ck), c.name) else Tag(OwnVars(c), c.name)
  }

  /** Without inheritance, only the contract's own stored variables appear,
      none marked inherited. */
  lemma OwnLayoutVariables(facts: ProjectFacts, ck: ContractKey)
    requires ck in facts.contracts.entries
    ensures forall p :: p in LayoutVariables(facts, ck, false) ==>
      !p.isInherited && p.declaringContract == facts.contracts.entries[ck].name
      && p.variable in facts.contracts.entries[ck].stateVariables && Stored(p.variable)
  {
    var c := facts.contracts.entries[ck];
    var os := OwnVars(c);
    forall p | p in LayoutVariables(facts, ck, false)
      ensures !p.isInherited && p.declaringContract == c.name && p.variable in c.stateVariables && Stored(p.variable)
    {
      var i :| 0 <= i < |os| && LayoutVariables(facts, ck, false)[i] == p;
      assert os[i] in os;
    }
  }

  /** An unknown contract is an error; an interface has an empty layout;
      otherwise the variables are packed and the layout is paged. */
  method GetStorageLayout(facts: ProjectFacts, req: StorageLayoutRequest) returns (r: StorageLayoutResponse)
    ensures r.contractKey == Some(req.contractKey)
    ensures r.success <==> req.contractKey in facts.contracts.entries
    ensures !r.success ==>
      && r.storageSlots == [] && r.totalCount == 0 && r.totalSlotsUsed == 0 && !r.hasMore
      && r.errorMessage == Some(Resolution.ContractNotFound(req.contractKey.contractName, req.contractKey.path).Message())
    ensures r.success ==> r.errorMessage.None?
    ensures r.success && facts.contracts.entries[req.contractKey].isInterface ==>
      r.storageSlots == [] && r.totalCount == 0 && r.totalSlotsUsed == 0 && !r.hasMore
    ensures r.success && !facts.contracts.entries[req.contractKey].isInterface ==>
      exists full :: LayoutOf(LayoutVariables(facts, req.contractKey, req.includeInherited), full, r.totalSlotsUsed)
        && ApplyPagination(full, req.offset, req.limit) == Page(r.storageSlots, r.totalCount, r.hasMore)
  {
    if req.contractKey !in facts.contracts.entries {
      var msg := Resolution.ContractNotFound(req.contractKey.contractName, req.contractKey.path).Message();
      return StorageLayoutResponse(false, Some(req.contractKey), [], 0, 0, false, Some(msg));
    }
    var c := facts.contracts.entries[req.contractKey];
    if c.isInterface {
      return StorageLayoutResponse(true, Some(req.contractKey), [], 0, 0, false, None);
    }
    var vars := LayoutVariables(facts, req.contractKey, req.includeInherited);
    var full, total := PackSlots(vars);
    var page := ApplyPagination(full, req.offset, req.limit);
    r := StorageLayoutResponse(true, Some(req.contractKey), page.items, page.totalCount, total, page.hasMore, None);
    assert LayoutOf(vars, full, total);
  }
}
