/** The contract dependency map: who inherits from, calls or uses as a
    library whom, mirrored in both directions, and the cycles a depth-first
    walk of the resulting graph runs into. */
module Dependencies {
  import opened Common
  import opened Dicts
  import opened Keys
  import opened Model

  datatype Relationship = Inherits | Calls | UsesLibrary {
    function Text(): string {
      match this
      case Inherits => "inherits"
      case Calls => "calls"
      case UsesLibrary => "uses_library"
    }
  }

  /** One edge end: the contract at the other end and why the edge exists. */
  datatype Dependency = Dependency(contractKey: ContractKey, relationship: Relationship)

  /** The contracts a list of edges reaches, as a set. */
  function KeySet(ds: seq<Dependency>): set<ContractKey> {
    set d | d in ds :: d.contractKey
  }

  /** The contracts a list of edges reaches, in order. */
  function KeyList(ds: seq<Dependency>): (r: seq<ContractKey>)
    ensures |r| == |ds| && forall i :: 0 <= i < |ds| ==> r[i] == ds[i].contractKey
    ensures forall k :: k in r <==> k in KeySet(ds)
  {
    var r := seq(|ds|, i requires 0 <= i < |ds| => ds[i].contractKey);
    assert forall k :: k in KeySet(ds) ==> k in r by {
      forall k | k in KeySet(ds) ensures k in r {
        var d :| d in ds && d.contractKey == k;
        var i :| 0 <= i < |ds| && ds[i] == d;
        assert r[i] == k;
      }
    }
    r
  }

  function InheritDeps(parents: seq<ContractKey>): (r: seq<Dependency>)
    ensures |r| == |parents| && forall i :: 0 <= i < |parents| ==> r[i] == Dependency(parents[i], Inherits)
  {
    seq(|parents|, i requires 0 <= i < |parents| => Dependency(parents[i], Inherits))
  }

  // ---------------------------------------------------------------------
  // Call targets

  /** The callee list a target name is read from. */
  function CalleesOf(f: FunctionModel, library: bool): seq<string> {
    if library then f.callees.libraryCallees else f.callees.externalCallees
  }

  /** The contract part (the text before the first dot) of every callee of the given kind. */
  function TargetNames(fns: seq<FunctionModel>, library: bool): (r: seq<string>)
    ensures forall n :: n in r <==>
      exists f, callee :: f in fns && callee in CalleesOf(f, library) && n == Before(callee, '.')
  {
    if |fns| == 0 then []
    else
      var cs := CalleesOf(fns[0], library);
      var here := seq(|cs|, i requires 0 <= i < |cs| => Before(cs[i], '.'));
      var rest := TargetNames(fns[1..], library);
      assert forall f :: f in fns <==> f == fns[0] || f in fns[1..];
      assert forall n :: n in here <==> exists callee :: callee in cs && n == Before(callee, '.') by {
        forall n | n in here ensures exists callee :: callee in cs && n == Before(callee, '.') {
          var i :| 0 <= i < |here| && here[i] == n;
          assert cs[i] in cs;
        }
        forall n, callee | callee in cs && n == Before(callee, '.') ensures n in here {
          var i :| 0 <= i < |cs| && cs[i] == callee;
          assert here[i] == n;
        }
      }
      here + rest
  }

  predicate IsTarget(k: ContractKey, name: string, self: ContractKey) {
    k.contractName == name && k != self
  }

  /** The first contract in `order[i..]` with the given name, other than the caller itself. */
  function ResolveFrom(order: seq<ContractKey>, name: string, self: ContractKey, i: nat): (r: Option<ContractKey>)
    requires i <= |order|
    ensures r.Some? ==> r.value in order[i..] && IsTarget(r.value, name, self)
    decreases |order| - i
  {
    if i == |order| then None
    else if IsTarget(order[i], name, self) then Some(order[i])
    else ResolveFrom(order, name, self, i + 1)
  }

  /** A name resolves to nothing exactly when no contract of `order[i..]`
      other than `self` carries it, and otherwise to the first one that does. */
  lemma {:induction false} ResolveFromFirst(order: seq<ContractKey>, name: string, self: ContractKey, i: nat)
    requires i <= |order|
    ensures ResolveFrom(order, name, self, i).None? <==> forall j :: i <= j < |order| ==> !IsTarget(order[j], name, self)
    ensures ResolveFrom(order, name, self, i).Some? ==>
      exists j :: (i <= j < |order| && order[j] == ResolveFrom(order, name, self, i).value
        && forall j' :: i <= j' < j ==> !IsTarget(order[j'], name, self))
    decreases |order| - i
  {
    if i < |order| && !IsTarget(order[i], name, self) {
      ResolveFromFirst(order, name, self, i + 1);
    }
  }

  /** The contracts the given names resolve to. */
  function Resolved(order: seq<ContractKey>, names: seq<string>, self: ContractKey): (r: set<ContractKey>)
    ensures forall k :: k in r ==> k in order && k != self
    ensures forall n :: n in names && ResolveFrom(order, n, self, 0).Some? ==> ResolveFrom(order, n, self, 0).value in r
  {
    set n | n in names && ResolveFrom(order, n, self, 0).Some? :: ResolveFrom(order, n, self, 0).value
  }

  lemma ResolvedCons(order: seq<ContractKey>, names: seq<string>, self: ContractKey)
    requires |names| > 0
    ensures Resolved(order, names, self) == Resolved(order, names[1..], self)
      + (if ResolveFrom(order, names[0], self, 0).Some? then {ResolveFrom(order, names[0], self, 0).value} else {})
  {
    assert forall n :: n in names <==> n == names[0] || n in names[1..];
  }

  lemma KeySetSnoc(ds: seq<Dependency>, d: Dependency)
    ensures KeySet(ds + [d]) == KeySet(ds) + {d.contractKey}
  {
    assert forall e :: e in ds + [d] <==> e in ds || e == d;
  }

  /** One step of `AddTargets`: an edge to what `name` resolves to, unless
      the list already reaches that contract. */
  function AddTarget(order: seq<ContractKey>, self: ContractKey, name: string, rel: Relationship, acc: seq<Dependency>): (r: seq<Dependency>)
  {
    match ResolveFrom(order, name, self, 0)
    case Some(o) => if o in KeySet(acc) then acc else acc + [Dependency(o, rel)]
    case None => acc
  }

  /** Adds an edge of kind `rel` for each resolvable target name, unless the
      list already holds an edge (of any kind) to that contract. */
  function AddTargets(order: seq<ContractKey>, self: ContractKey, names: seq<string>, rel: Relationship, acc: seq<Dependency>): (r: seq<Dependency>)
    ensures acc <= r
    ensures forall i :: |acc| <= i < |r| ==> r[i].relationship == rel
    decreases |names|
  {
    if |names| == 0 then acc
    else AddTargets(order, self, names[1..], rel, AddTarget(order, self, names[0], rel, acc))
  }

  /** Each added edge reaches a contract that one of the names resolves to
      and that no earlier edge reaches. */
  lemma {:induction false} AddTargetsFresh(order: seq<ContractKey>, self: ContractKey, names: seq<string>, rel: Relationship, acc: seq<Dependency>)
    ensures forall i :: |acc| <= i < |AddTargets(order, self, names, rel, acc)| ==>
      AddTargets(order, self, names, rel, acc)[i].contractKey in Resolved(order, names, self)
    ensures forall i, j :: |acc| <= i < |AddTargets(order, self, names, rel, acc)| && 0 <= j < i ==>
      AddTargets(order, self, names, rel, acc)[j].contractKey != AddTargets(order, self, names, rel, acc)[i].contractKey
    decreases |names|
  {
    if |names| > 0 {
      var next := AddTarget(order, self, names[0], rel, acc);
      var r := AddTargets(order, self, names[1..], rel, next);
      AddTargetsFresh(order, self, names[1..], rel, next);
      ResolvedCons(order, names, self);
      var o := ResolveFrom(order, names[0], self, 0);
      assert |next| > |acc| ==> o.Some? && o.value !in KeySet(acc) && next == acc + [Dependency(o.value, rel)];
      forall i | |acc| <= i < |r| ensures r[i].contractKey in Resolved(order, names, self) {
        if i < |next| {
          assert r[i] == next[i];
          assert r[i].contractKey == o.value;
        } else {
          assert r[i].contractKey in Resolved(order, names[1..], self);
        }
      }
      forall i, j | |acc| <= i < |r| && 0 <= j < i ensures r[j].contractKey != r[i].contractKey {
        if i < |next| {
          assert r[i] == next[i] && r[j] == acc[j] && acc[j] in acc;
          assert acc[j].contractKey in KeySet(acc);
        }
      }
    }
  }

  /** Afterwards the list reaches exactly what it reached before plus every
      contract a name resolves to. */
  lemma {:induction false} AddTargetsComplete(order: seq<ContractKey>, self: ContractKey, names: seq<string>, rel: Relationship, acc: seq<Dependency>)
    ensures KeySet(AddTargets(order, self, names, rel, acc)) == KeySet(acc) + Resolved(order, names, self)
    decreases |names|
  {
    if |names| == 0 {
      assert Resolved(order, names, self) == {};
    } else {
      var next := AddTarget(order, self, names[0], rel, acc);
      AddTargetsComplete(order, self, names[1..], rel, next);
      ResolvedCons(order, names, self);
      if next != acc {
        KeySetSnoc(acc, next[|acc|]);
        assert next == acc + [next[|acc|]];
      }
    }
  }

  /** The edges of one contract: an inheritance edge per direct parent, then
      call edges for the external target names, then library edges for the
      library target names. */
  function Edges(order: seq<ContractKey>, self: ContractKey, parents: seq<ContractKey>, external: seq<string>, library: seq<string>): (r: seq<Dependency>)
    ensures InheritDeps(parents) <= r
    ensures forall i :: |parents| <= i < |r| ==> r[i].relationship != Inherits
    ensures |external| == 0 ==> forall i :: 0 <= i < |r| ==> r[i].relationship != Calls
    ensures |library| == 0 ==> forall i :: 0 <= i < |r| ==> r[i].relationship != UsesLibrary
  {
    var mid := AddTargets(order, self, external, Calls, InheritDeps(parents));
    AddTargets(order, self, library, UsesLibrary, mid)
  }

  /** Inheritance edges are exactly the direct parents. */
  lemma EdgesInherit(order: seq<ContractKey>, self: ContractKey, parents: seq<ContractKey>, external: seq<string>, library: seq<string>, p: ContractKey)
    ensures Dependency(p, Inherits) in Edges(order, self, parents, external, library) <==> p in parents
  {
    var r := Edges(order, self, parents, external, library);
    if p in parents {
      var i :| 0 <= i < |parents| && parents[i] == p;
      assert r[i] == InheritDeps(parents)[i];
    }
    if Dependency(p, Inherits) in r {
      var k :| 0 <= k < |r| && r[k] == Dependency(p, Inherits);
      assert r[k] == InheritDeps(parents)[k];
    }
  }

  /** Call and library edges reach what their names resolve to, each a
      contract no earlier edge reaches, and every such contract is reached. */
  lemma EdgesCalls(order: seq<ContractKey>, self: ContractKey, parents: seq<ContractKey>, external: seq<string>, library: seq<string>)
    ensures var r := Edges(order, self, parents, external, library);
      forall i, j :: |parents| <= i < |r| && 0 <= j < i ==> r[j].contractKey != r[i].contractKey
    ensures var r := Edges(order, self, parents, external, library);
      forall i :: 0 <= i < |r| && r[i].relationship == Calls ==> r[i].contractKey in Resolved(order, external, self)
    ensures var r := Edges(order, self, parents, external, library);
      forall i :: 0 <= i < |r| && r[i].relationship == UsesLibrary ==> r[i].contractKey in Resolved(order, library, self)
    ensures Resolved(order, external, self) + Resolved(order, library, self) <= KeySet(Edges(order, self, parents, external, library))
  {
    var inherits := InheritDeps(parents);
    var mid := AddTargets(order, self, external, Calls, inherits);
    var r := AddTargets(order, self, library, UsesLibrary, mid);
    AddTargetsFresh(order, self, external, Calls, inherits);
    AddTargetsFresh(order, self, library, UsesLibrary, mid);
    AddTargetsComplete(order, self, external, Calls, inherits);
    AddTargetsComplete(order, self, library, UsesLibrary, mid);
    forall i | |inherits| <= i < |mid| ensures r[i] == mid[i] {
    }
  }

  // ---------------------------------------------------------------------
  // The two directions

  /** The target names of one kind a contract's declared functions mention,
      each once; none when that kind is not asked for. */
  function NamesOf(facts: ProjectFacts, c: ContractKey, library: bool, wanted: bool): (r: seq<string>)
    requires c in facts.contracts.entries
    ensures forall n :: n in r <==> wanted && n in TargetNames(Values(facts.contracts.entries[c].functionsDeclared), library)
  {
    if wanted then Dedup(TargetNames(Values(facts.contracts.entries[c].functionsDeclared), library)) else []
  }

  /** What contract `c` depends on: every direct parent first (an
      inheritance edge each), then one call edge per newly reached contract
      named by an external callee, then one library edge per newly reached
      contract named by a library callee. */
  function DependsOn(facts: ProjectFacts, c: ContractKey, includeExternal: bool, includeLibrary: bool): (r: seq<Dependency>)
    requires c in facts.contracts.entries
    ensures InheritDeps(facts.contracts.entries[c].directlyInherits) <= r
    ensures forall i :: |facts.contracts.entries[c].directlyInherits| <= i < |r| ==> r[i].relationship != Inherits
    ensures !includeExternal ==> forall i :: 0 <= i < |r| ==> r[i].relationship != Calls
    ensures !includeLibrary ==> forall i :: 0 <= i < |r| ==> r[i].relationship != UsesLibrary
  {
    Edges(facts.contracts.order, c, facts.contracts.entries[c].directlyInherits,
      NamesOf(facts, c, false, includeExternal), NamesOf(facts, c, true, includeLibrary))
  }

  /** Call edges go to contracts named by external callees, library edges to
      contracts named by library callees, never to `c` itself nor to a
      contract an earlier edge reaches; and every contract such a callee names
      is reached when that kind is asked for. */
  lemma DependsOnCalls(facts: ProjectFacts, c: ContractKey, includeExternal: bool, includeLibrary: bool)
    requires c in facts.contracts.entries
    ensures var r := DependsOn(facts, c, includeExternal, includeLibrary);
      forall i, j :: (|facts.contracts.entries[c].directlyInherits| <= i < |r| && 0 <= j < i ==>
        r[j].contractKey != r[i].contractKey)
    ensures var r := DependsOn(facts, c, includeExternal, includeLibrary);
      forall i :: (0 <= i < |r| && r[i].relationship == Calls ==>
        r[i].contractKey != c && r[i].contractKey in facts.contracts.entries
        && r[i].contractKey in Resolved(facts.contracts.order, TargetNames(Values(facts.contracts.entries[c].functionsDeclared), false), c))
    ensures var r := DependsOn(facts, c, includeExternal, includeLibrary);
      forall i :: (0 <= i < |r| && r[i].relationship == UsesLibrary ==>
        r[i].contractKey != c && r[i].contractKey in facts.contracts.entries
        && r[i].contractKey in Resolved(facts.contracts.order, TargetNames(Values(facts.contracts.entries[c].functionsDeclared), true), c))
    ensures includeExternal ==>
      Resolved(facts.contracts.order, TargetNames(Values(facts.contracts.entries[c].functionsDeclared), false), c)
        <= KeySet(DependsOn(facts, c, includeExternal, includeLibrary))
    ensures includeLibrary ==>
      Resolved(facts.contracts.order, TargetNames(Values(facts.contracts.entries[c].functionsDeclared), true), c)
        <= KeySet(DependsOn(facts, c, includeExternal, includeLibrary))
  {
    var order := facts.contracts.order;
    var fns := Values(facts.contracts.entries[c].functionsDeclared);
    var external := NamesOf(facts, c, false, includeExternal);
    var library := NamesOf(facts, c, true, includeLibrary);
    EdgesCalls(order, c, facts.contracts.entries[c].directlyInherits, external, library);
    assert includeExternal ==> Resolved(order, external, c) == Resolved(order, TargetNames(fns, false), c);
    assert includeLibrary ==> Resolved(order, library, c) == Resolved(order, TargetNames(fns, true), c);
    assert Resolved(order, external, c) <= Resolved(order, TargetNames(fns, false), c);
    assert Resolved(order, library, c) <= Resolved(order, TargetNames(fns, true), c);
  }

  /** The edges of kind Inherits (or, with `inherits` false, of the other
      kinds) that the contracts `ks` have towards `t`, seen from `t`. */
  function IncomingFrom(facts: ProjectFacts, t: ContractKey, includeExternal: bool, includeLibrary: bool, inherits: bool, ks: seq<ContractKey>)
    : (r: seq<Dependency>)
    requires forall c :: c in ks ==> c in facts.contracts.entries
    ensures forall c, rel :: Dependency(c, rel) in r <==>
      c in ks && (rel == Inherits) == inherits
      && Dependency(t, rel) in DependsOn(facts, c, includeExternal, includeLibrary)
  {
    if |ks| == 0 then []
    else
      var c := ks[0];
      var here := Reversed(DependsOn(facts, c, includeExternal, includeLibrary), c, t, inherits);
      assert forall k :: k in ks <==> k == c || k in ks[1..] by {
        assert ks == [c] + ks[1..];
      }
      here + IncomingFrom(facts, t, includeExternal, includeLibrary, inherits, ks[1..])
  }

  /** The edges of `ds` that end at `t` and are (or are not) inheritance
      edges, each turned round to start at `from`. */
  function Reversed(ds: seq<Dependency>, from: ContractKey, t: ContractKey, inherits: bool): (r: seq<Dependency>)
    ensures forall d :: d in r ==> d.contractKey == from
    ensures forall rel :: Dependency(from, rel) in r <==> Dependency(t, rel) in ds && (rel == Inherits) == inherits
  {
    if |ds| == 0 then []
    else
      var rest := Reversed(ds[1..], from, t, inherits);
      assert forall d :: d in ds <==> d == ds[0] || d in ds[1..];
      if ds[0].contractKey == t && (ds[0].relationship == Inherits) == inherits then
        [Dependency(from, ds[0].relationship)] + rest
      else rest
  }

  /** What depends on `t`: the inheritance pass over every contract first,
      then the call and library pass. Each edge listed here is the mirror of
      an edge in the other contract's `DependsOn`, and each edge there that
      ends at a known contract is mirrored here. */
  function DependedBy(facts: ProjectFacts, t: ContractKey, includeExternal: bool, includeLibrary: bool): (r: seq<Dependency>)
    ensures forall c, rel :: Dependency(c, rel) in r <==>
      c in facts.contracts.entries && Dependency(t, rel) in DependsOn(facts, c, includeExternal, includeLibrary)
  {
    IncomingFrom(facts, t, includeExternal, includeLibrary, true, facts.contracts.order)
      + IncomingFrom(facts, t, includeExternal, includeLibrary, false, facts.contracts.order)
  }

  /** Every entry of a `DependedBy` list names a known contract. */
  lemma DependedByKnown(facts: ProjectFacts, t: ContractKey, includeExternal: bool, includeLibrary: bool, d: Dependency)
    requires d in DependedBy(facts, t, includeExternal, includeLibrary)
    ensures d.contractKey in facts.contracts.entries
    ensures Dependency(t, d.relationship) in DependsOn(facts, d.contractKey, includeExternal, includeLibrary)
  {
    assert Dependency(d.contractKey, d.relationship) == d;
  }

  /** An edge between two known contracts is listed from both ends. */
  lemma DependencyMirror(facts: ProjectFacts, c: ContractKey, t: ContractKey, rel: Relationship, includeExternal: bool, includeLibrary: bool)
    requires c in facts.contracts.entries && t in facts.contracts.entries
    ensures Dependency(t, rel) in DependsOn(facts, c, includeExternal, includeLibrary)
      <==> Dependency(c, rel) in DependedBy(facts, t, includeExternal, includeLibrary)
  {
  }

  /** Every direct parent appears as an inheritance edge, and inheritance
      edges are exactly the direct parents. */
  lemma InheritanceEdges(facts: ProjectFacts, c: ContractKey, p: ContractKey, includeExternal: bool, includeLibrary: bool)
    requires c in facts.contracts.entries
    ensures Dependency(p, Inherits) in DependsOn(facts, c, includeExternal, includeLibrary)
      <==> p in facts.contracts.entries[c].directlyInherits
  {
    EdgesInherit(facts.contracts.order, c, facts.contracts.entries[c].directlyInherits,
      NamesOf(facts, c, false, includeExternal), NamesOf(facts, c, true, includeLibrary), p);
  }

  // ---------------------------------------------------------------------
  // The graph and its cycles

  type Graph = map<ContractKey, seq<ContractKey>>

  /** Each known contract's neighbours: the contracts it depends on, each once,
      in the order the edges were added. */
  function DependencyGraph(facts: ProjectFacts, includeExternal: bool, includeLibrary: bool): (g: Graph)
    ensures g.Keys == facts.contracts.entries.Keys
    ensures forall c :: c in g ==> Distinct(g[c])
    ensures forall c, k :: c in g ==> (k in g[c] <==> k in KeySet(DependsOn(facts, c, includeExternal, includeLibrary)))
  {
    map c | c in facts.contracts.entries :: Dedup(KeyList(DependsOn(facts, c, includeExternal, includeLibrary)))
  }

  function Neighbors(g: Graph, n: ContractKey): seq<ContractKey> {
    if n in g then g[n] else []
  }

  /** Every node of the graph: its keys and everything they point to. */
  ghost function Nodes(g: Graph): set<ContractKey> {
    g.Keys + set k, n | k in g && n in g[k] :: n
  }

  predicate IsEdge(g: Graph, a: ContractKey, b: ContractKey) {
    b in Neighbors(g, a)
  }

  predicate IsPath(g: Graph, p: seq<ContractKey>) {
    forall i :: 0 <= i < |p| - 1 ==> IsEdge(g, p[i], p[i + 1])
  }

  /** A closed walk: it starts and ends at the same contract and follows edges. */
  predicate IsCycle(g: Graph, c: seq<ContractKey>) {
    |c| >= 2 && c[0] == c[|c| - 1] && IsPath(g, c)
  }

  predicate AllCycles(g: Graph, cs: seq<seq<ContractKey>>) {
    forall c :: c in cs ==> IsCycle(g, c)
  }

  /** The position of the first occurrence of `x`. */
  function IndexOf(s: seq<ContractKey>, x: ContractKey): (r: nat)
    requires x in s
    ensures r < |s| && s[r] == x && x !in s[..r]
  {
    if s[0] == x then 0
    else
      assert x in s[1..];
      var r := IndexOf(s[1..], x);
      assert s[..r + 1] == [s[0]] + s[1..][..r];
      r + 1
  }

  /** The walk's memory: the nodes already entered and the cycles found so far. */
  datatype Walk = Walk(visited: set<ContractKey>, cycles: seq<seq<ContractKey>>)

  /** Enter `node` below the nodes of `path` (the nodes still being explored),
      then look at its neighbours. Each node is entered at most once: it must be
      unvisited on entry and is visited afterwards. */
  function Dfs(g: Graph, node: ContractKey, path: seq<ContractKey>, w: Walk): (r: Walk)
    requires node in Nodes(g) && node !in w.visited
    requires IsPath(g, path) && (|path| > 0 ==> IsEdge(g, path[|path| - 1], node))
    requires AllCycles(g, w.cycles)
    ensures w.visited + {node} <= r.visited
    ensures w.cycles <= r.cycles && AllCycles(g, r.cycles)
    decreases |Nodes(g) - w.visited|, 0, 0
  {
    var p := path + [node];
    PathSnoc(g, path, node);
    UnvisitedShrinks(Nodes(g), w.visited, node);
    ScanNeighbors(g, p, Neighbors(g, node), 0, Walk(w.visited + {node}, w.cycles))
  }

  lemma PathSnoc(g: Graph, path: seq<ContractKey>, node: ContractKey)
    requires IsPath(g, path) && (|path| > 0 ==> IsEdge(g, path[|path| - 1], node))
    ensures IsPath(g, path + [node])
  {
    var p := path + [node];
    forall i | 0 <= i < |p| - 1 ensures IsEdge(g, p[i], p[i + 1]) {
      if i + 1 < |path| {
        assert p[i] == path[i] && p[i + 1] == path[i + 1];
      }
    }
  }

  /** Look at the neighbours `nbrs[j..]` of the last node of `path`: enter an
      unvisited one, record a cycle for one still on the path, skip the rest. */
  function ScanNeighbors(g: Graph, path: seq<ContractKey>, nbrs: seq<ContractKey>, j: nat, w: Walk): (r: Walk)
    requires |path| > 0 && IsPath(g, path) && nbrs == Neighbors(g, path[|path| - 1]) && j <= |nbrs|
    requires AllCycles(g, w.cycles)
    ensures w.visited <= r.visited
    ensures w.cycles <= r.cycles && AllCycles(g, r.cycles)
    ensures j < |nbrs| && nbrs[j] in w.visited && nbrs[j] in path ==> |r.cycles| > |w.cycles|
    decreases |Nodes(g) - w.visited|, 1, |nbrs| - j
  {
    if j == |nbrs| then w
    else
      var nb := nbrs[j];
      if nb !in w.visited then
        assert nb in Nodes(g) by {
          var last := path[|path| - 1];
          assert last in g && nb in g[last];
        }
        var w' := Dfs(g, nb, path, w);
        UnvisitedMonotone(Nodes(g), w.visited, w'.visited);
        ScanNeighbors(g, path, nbrs, j + 1, w')
      else if nb in path then
        var start := IndexOf(path, nb);
        var cycle := path[start..] + [nb];
        assert IsCycle(g, cycle) by {
          forall i | 0 <= i < |cycle| - 1 ensures IsEdge(g, cycle[i], cycle[i + 1]) {
            if i < |path| - start - 1 {
              assert cycle[i] == path[start + i] && cycle[i + 1] == path[start + i + 1];
            }
          }
        }
        ScanNeighbors(g, path, nbrs, j + 1, Walk(w.visited, w.cycles + [cycle]))
      else ScanNeighbors(g, path, nbrs, j + 1, w)
  }

  /** Start a walk from every node of `order[i..]` not yet visited. */
  function DetectFrom(g: Graph, order: seq<ContractKey>, i: nat, w: Walk): (r: Walk)
    requires forall k :: k in order ==> k in g
    requires i <= |order| && AllCycles(g, w.cycles)
    ensures w.visited <= r.visited && forall k :: k in order[i..] ==> k in r.visited
    ensures w.cycles <= r.cycles && AllCycles(g, r.cycles)
    decreases |order| - i
  {
    if i == |order| then w
    else
      var node := order[i];
      var w' := if node !in w.visited then Dfs(g, node, [], w) else w;
      assert order[i..] == [node] + order[i + 1..];
      DetectFrom(g, order, i + 1, w')
  }

  /** The cycles a depth-first walk over the graph's keys, in order, runs into;
      every one is a closed walk along the graph's edges. */
  function DetectCycles(g: Graph, order: seq<ContractKey>): (r: seq<seq<ContractKey>>)
    requires forall k :: k in order ==> k in g
    ensures AllCycles(g, r)
  {
    DetectFrom(g, order, 0, Walk({}, [])).cycles
  }

  /** A graph whose edges never come back to a node is reported cycle-free. */
  lemma NoCycleOnStrictRanks(g: Graph, order: seq<ContractKey>, rank: map<ContractKey, nat>)
    requires forall k :: k in order ==> k in g
    requires forall a, b :: IsEdge(g, a, b) ==> a in rank && b in rank && rank[b] < rank[a]
    ensures DetectCycles(g, order) == []
  {
    var cs := DetectCycles(g, order);
    if |cs| > 0 {
      var c := cs[0];
      assert IsCycle(g, c);
      RanksFall(g, rank, c, |c| - 1);
      assert false;
    }
  }

  lemma {:induction false} RanksFall(g: Graph, rank: map<ContractKey, nat>, c: seq<ContractKey>, i: nat)
    requires forall a, b :: IsEdge(g, a, b) ==> a in rank && b in rank && rank[b] < rank[a]
    requires IsPath(g, c) && 0 < i < |c|
    ensures c[0] in rank && c[i] in rank && rank[c[i]] < rank[c[0]]
  {
    assert IsEdge(g, c[i - 1], c[i]);
    if i > 1 {
      RanksFall(g, rank, c, i - 1);
    }
  }

  // Completeness: while no cycle has been recorded, the nodes the walk has
  // finished (visited and no longer on the path) can be ranked so that
  // every edge leaving one of them reaches another finished node of lower
  // rank. No closed walk can start at a finished node.

  /** The visited nodes that are no longer on the path. */
  ghost function Done(visited: set<ContractKey>, path: seq<ContractKey>): set<ContractKey> {
    set x | x in visited && x !in path
  }

  /** `fin` ranks the nodes of `done` below `|done|`, and every edge out of
      `done` stays inside it and lowers the rank. */
  ghost predicate Finished(g: Graph, done: set<ContractKey>, fin: map<ContractKey, nat>) {
    fin.Keys == done
    && (forall a :: a in done ==> fin[a] < |done|)
    && (forall a, b :: a in done && IsEdge(g, a, b) ==> b in done && fin[b] < fin[a])
  }

  /** A walk entering `node` without recording a cycle finishes it, and
      keeps the finished nodes ranked. */
  lemma DfsFinishes(g: Graph, node: ContractKey, path: seq<ContractKey>, w: Walk, fin: map<ContractKey, nat>)
    returns (fin': map<ContractKey, nat>)
    requires node in Nodes(g) && node !in w.visited
    requires IsPath(g, path) && (|path| > 0 ==> IsEdge(g, path[|path| - 1], node))
    requires AllCycles(g, w.cycles)
    requires forall x :: x in path ==> x in w.visited
    requires Finished(g, Done(w.visited, path), fin)
    requires |Dfs(g, node, path, w).cycles| == |w.cycles|
    ensures Finished(g, Done(Dfs(g, node, path, w).visited, path), fin')
    ensures Done(w.visited, path) + {node} <= Done(Dfs(g, node, path, w).visited, path)
    decreases |Nodes(g) - w.visited|, 0, 0, 0
  {
    var p := path + [node];
    PathSnoc(g, path, node);
    UnvisitedShrinks(Nodes(g), w.visited, node);
    var w1 := Walk(w.visited + {node}, w.cycles);
    DoneEnter(w.visited, path, node);
    var r := ScanNeighbors(g, p, Neighbors(g, node), 0, w1);
    var f1 := ScanFinishes(g, p, Neighbors(g, node), 0, w1, fin);
    DoneLeave(r.visited, path, node);
    fin' := FinishNode(g, Done(r.visited, p), f1, node);
  }

  /** Entering an unvisited node puts it on the path: the finished nodes
      stay the same. */
  lemma DoneEnter(visited: set<ContractKey>, path: seq<ContractKey>, node: ContractKey)
    requires node !in visited
    ensures Done(visited + {node}, path + [node]) == Done(visited, path)
  {
    assert forall x :: x in path + [node] <==> x in path || x == node;
  }

  /** Leaving a visited node takes it off the path: it becomes finished. */
  lemma DoneLeave(visited: set<ContractKey>, path: seq<ContractKey>, node: ContractKey)
    requires node in visited && node !in path
    ensures Done(visited, path) == Done(visited, path + [node]) + {node}
  {
    assert forall x :: x in path + [node] <==> x in path || x == node;
  }

  /** A node whose every successor is finished becomes finished itself,
      ranked above all the others. */
  lemma FinishNode(g: Graph, done: set<ContractKey>, fin: map<ContractKey, nat>, node: ContractKey)
    returns (fin': map<ContractKey, nat>)
    requires Finished(g, done, fin) && node !in done
    requires forall b :: b in Neighbors(g, node) ==> b in done
    ensures Finished(g, done + {node}, fin')
  {
    fin' := fin[node := |done|];
    forall a, b | a in done + {node} && IsEdge(g, a, b) ensures b in done + {node} && fin'[b] < fin'[a] {
      if a == node {
        assert b in Neighbors(g, node);
      }
    }
  }

  /** Scanning the neighbours of the path's last node without recording a
      cycle finishes every one of them, and keeps the finished nodes ranked. */
  lemma ScanFinishes(g: Graph, path: seq<ContractKey>, nbrs: seq<ContractKey>, j: nat, w: Walk, fin: map<ContractKey, nat>)
    returns (fin': map<ContractKey, nat>)
    requires |path| > 0 && IsPath(g, path) && nbrs == Neighbors(g, path[|path| - 1]) && j <= |nbrs|
    requires AllCycles(g, w.cycles)
    requires forall x :: x in path ==> x in w.visited
    requires Finished(g, Done(w.visited, path), fin)
    requires forall k :: 0 <= k < j ==> nbrs[k] in Done(w.visited, path)
    requires |ScanNeighbors(g, path, nbrs, j, w).cycles| == |w.cycles|
    ensures Finished(g, Done(ScanNeighbors(g, path, nbrs, j, w).visited, path), fin')
    ensures forall nb :: nb in nbrs ==> nb in Done(ScanNeighbors(g, path, nbrs, j, w).visited, path)
    decreases |Nodes(g) - w.visited|, 1, |nbrs| - j, 1
  {
    if j == |nbrs| {
      fin' := fin;
    } else if nbrs[j] !in w.visited {
      fin' := EnterFinishes(g, path, nbrs, j, w, fin);
    } else if nbrs[j] in path {
      assert false;
    } else {
      fin' := SkipFinishes(g, path, nbrs, j, w, fin);
    }
  }

  /** The scan step that passes over a neighbour already finished. */
  lemma SkipFinishes(g: Graph, path: seq<ContractKey>, nbrs: seq<ContractKey>, j: nat, w: Walk, fin: map<ContractKey, nat>)
    returns (fin': map<ContractKey, nat>)
    requires |path| > 0 && IsPath(g, path) && nbrs == Neighbors(g, path[|path| - 1]) && j < |nbrs|
    requires AllCycles(g, w.cycles) && nbrs[j] in w.visited && nbrs[j] !in path
    requires forall x :: x in path ==> x in w.visited
    requires Finished(g, Done(w.visited, path), fin)
    requires forall k :: 0 <= k < j ==> nbrs[k] in Done(w.visited, path)
    requires |ScanNeighbors(g, path, nbrs, j, w).cycles| == |w.cycles|
    ensures Finished(g, Done(ScanNeighbors(g, path, nbrs, j, w).visited, path), fin')
    ensures forall nb :: nb in nbrs ==> nb in Done(ScanNeighbors(g, path, nbrs, j, w).visited, path)
    decreases |Nodes(g) - w.visited|, 1, |nbrs| - j, 0
  {
    assert ScanNeighbors(g, path, nbrs, j, w) == ScanNeighbors(g, path, nbrs, j + 1, w);
    fin' := ScanFinishes(g, path, nbrs, j + 1, w, fin);
  }

  /** The scan step that enters an unvisited neighbour: the neighbour is
      finished when the walk below it returns. */
  lemma EnterFinishes(g: Graph, path: seq<ContractKey>, nbrs: seq<ContractKey>, j: nat, w: Walk, fin: map<ContractKey, nat>)
    returns (fin': map<ContractKey, nat>)
    requires |path| > 0 && IsPath(g, path) && nbrs == Neighbors(g, path[|path| - 1]) && j < |nbrs|
    requires AllCycles(g, w.cycles) && nbrs[j] !in w.visited
    requires forall x :: x in path ==> x in w.visited
    requires Finished(g, Done(w.visited, path), fin)
    requires forall k :: 0 <= k < j ==> nbrs[k] in Done(w.visited, path)
    requires |ScanNeighbors(g, path, nbrs, j, w).cycles| == |w.cycles|
    ensures Finished(g, Done(ScanNeighbors(g, path, nbrs, j, w).visited, path), fin')
    ensures forall nb :: nb in nbrs ==> nb in Done(ScanNeighbors(g, path, nbrs, j, w).visited, path)
    decreases |Nodes(g) - w.visited|, 1, |nbrs| - j, 0
  {
    var nb := nbrs[j];
    assert nb in Nodes(g) by {
      var last := path[|path| - 1];
      assert last in g && nb in g[last];
    }
    var w' := Dfs(g, nb, path, w);
    assert ScanNeighbors(g, path, nbrs, j, w) == ScanNeighbors(g, path, nbrs, j + 1, w');
    var f1 := DfsFinishes(g, nb, path, w, fin);
    UnvisitedMonotone(Nodes(g), w.visited, w'.visited);
    assert |w'.cycles| == |w.cycles|;
    assert |ScanNeighbors(g, path, nbrs, j + 1, w').cycles| == |w'.cycles|;
    assert forall x :: x in path ==> x in w'.visited;
    assert forall k :: 0 <= k < j + 1 ==> nbrs[k] in Done(w'.visited, path);
    fin' := ScanFinishes(g, path, nbrs, j + 1, w', f1);
  }

  /** Walks started from `order[i..]` that record no cycle leave every
      visited node finished and ranked. */
  lemma {:induction false} DetectFinishes(g: Graph, order: seq<ContractKey>, i: nat, w: Walk, fin: map<ContractKey, nat>)
    returns (fin': map<ContractKey, nat>)
    requires forall k :: k in order ==> k in g
    requires i <= |order| && AllCycles(g, w.cycles)
    requires Finished(g, w.visited, fin)
    requires |DetectFrom(g, order, i, w).cycles| == |w.cycles|
    ensures Finished(g, DetectFrom(g, order, i, w).visited, fin')
    decreases |order| - i
  {
    if i == |order| {
      fin' := fin;
    } else {
      var node := order[i];
      assert Done(w.visited, []) == w.visited;
      if node !in w.visited {
        var w' := Dfs(g, node, [], w);
        var f1 := DfsFinishes(g, node, [], w, fin);
        assert Done(w'.visited, []) == w'.visited;
        fin' := DetectFinishes(g, order, i + 1, w', f1);
      } else {
        fin' := DetectFinishes(g, order, i + 1, w, fin);
      }
    }
  }

  /** Along a walk that starts at a finished node, every later node is
      finished and ranked lower than the start. */
  lemma {:induction false} RankedFall(g: Graph, done: set<ContractKey>, fin: map<ContractKey, nat>, c: seq<ContractKey>, i: nat)
    requires Finished(g, done, fin)
    requires IsPath(g, c) && 0 < i < |c| && c[0] in done
    ensures c[i] in done && fin[c[i]] < fin[c[0]]
  {
    assert IsEdge(g, c[i - 1], c[i]);
    if i > 1 {
      RankedFall(g, done, fin, c, i - 1);
    }
  }

  /** A closed walk starting at a node of `order` is always found: some
      cycle is reported. */
  lemma DetectCyclesComplete(g: Graph, order: seq<ContractKey>, c: seq<ContractKey>)
    requires forall k :: k in order ==> k in g
    requires IsCycle(g, c) && c[0] in order
    ensures DetectCycles(g, order) != []
  {
    var w0 := Walk({}, []);
    if DetectCycles(g, order) == [] {
      var w := DetectFrom(g, order, 0, w0);
      var fin := DetectFinishes(g, order, 0, w0, map[]);
      assert c[0] in w.visited;
      RankedFall(g, w.visited, fin, c, |c| - 1);
      assert false;
    }
  }

  /** Walking from every key, cycles are reported iff the graph has a
      closed walk. */
  lemma DetectCyclesExact(g: Graph, order: seq<ContractKey>)
    requires forall k :: k in order <==> k in g
    ensures DetectCycles(g, order) != [] <==> exists c :: IsCycle(g, c)
  {
    if DetectCycles(g, order) != [] {
      assert IsCycle(g, DetectCycles(g, order)[0]);
    }
    if c :| IsCycle(g, c) {
      assert IsEdge(g, c[0], c[1]);
      DetectCyclesComplete(g, order, c);
    }
  }

  // ---------------------------------------------------------------------
  // The tool

  datatype DependencyRequest = DependencyRequest(
    contractKey: Option<ContractKey>,
    includeExternalCalls: bool,
    includeLibraryUsage: bool,
    detectCircular: bool)

  datatype ContractDependencies = ContractDependencies(
    contractKey: ContractKey,
    dependsOn: seq<Dependency>,
    dependedBy: seq<Dependency>)

  datatype DependencyError = DependencyContractNotFound(key: ContractKey) {
    function Message(): string {
      "Contract not found: '" + key.contractName + "' at '" + key.path + "'"
    }
  }

  datatype DependenciesResponse = DependenciesResponse(
    success: bool,
    dependencies: Option<seq<ContractDependencies>>,
    circularDependencies: Option<seq<seq<ContractKey>>>,
    error: Option<DependencyError>)

  function EntryFor(facts: ProjectFacts, req: DependencyRequest, k: ContractKey): ContractDependencies
    requires k in facts.contracts.entries
  {
    ContractDependencies(k,
      DependsOn(facts, k, req.includeExternalCalls, req.includeLibraryUsage),
      DependedBy(facts, k, req.includeExternalCalls, req.includeLibraryUsage))
  }

  /** The dependency entries for one requested contract or for every contract
      in order, and, when asked for, the cycles of the dependency graph. */
  function GetContractDependencies(facts: ProjectFacts, req: DependencyRequest): (r: DependenciesResponse)
    ensures r.success <==> req.contractKey.None? || req.contractKey.value in facts.contracts.entries
    ensures !r.success ==>
      r.error == Some(DependencyContractNotFound(req.contractKey.value))
      && r.dependencies.None? && r.circularDependencies.None?
    ensures r.success ==> r.error.None? && r.dependencies.Some?
    ensures r.success && req.contractKey.Some? ==>
      r.dependencies.value == [EntryFor(facts, req, req.contractKey.value)]
    ensures r.success && req.contractKey.None? ==>
      |r.dependencies.value| == |facts.contracts.order|
      && forall i :: (0 <= i < |facts.contracts.order| ==>
        r.dependencies.value[i] == EntryFor(facts, req, facts.contracts.order[i]))
    ensures !req.detectCircular ==> r.circularDependencies.None?
    ensures r.circularDependencies.Some? ==>
      |r.circularDependencies.value| > 0
      && AllCycles(DependencyGraph(facts, req.includeExternalCalls, req.includeLibraryUsage), r.circularDependencies.value)
    ensures r.success && req.detectCircular ==>
      (r.circularDependencies.Some? <==> exists c :: IsCycle(DependencyGraph(facts, req.includeExternalCalls, req.includeLibraryUsage), c))
  {
    if req.contractKey.Some? && req.contractKey.value !in facts.contracts.entries then
      DependenciesResponse(false, None, None, Some(DependencyContractNotFound(req.contractKey.value)))
    else
      var order := facts.contracts.order;
      var deps := if req.contractKey.Some? then [EntryFor(facts, req, req.contractKey.value)]
        else seq(|order|, i requires 0 <= i < |order| => EntryFor(facts, req, order[i]));
      var g := DependencyGraph(facts, req.includeExternalCalls, req.includeLibraryUsage);
      var cycles := if req.detectCircular then DetectCycles(g, order) else [];
      DetectCyclesExact(g, order);
      DependenciesResponse(true, Some(deps), if |cycles| > 0 then Some(cycles) else None, None)
  }
}
