/** Inheritance trees: the parents of a contract (optionally depth
    limited), the unlimited hierarchy, and the contracts derived from it.
    Each branch carries its own copy of the keys visited on the way down,
    so a diamond is expanded once per path and a cycle ends in a leaf. */
module Trees {
  import opened Common
  import opened Dicts
  import opened Keys
  import opened Model
  import opened Resolution

  /** Depth limit used when a request gives none. */
  const DefaultMaxDepth: int := 3

  datatype Node = Node(key: ContractKey, children: seq<Node>)

  /** A tree and whether any node had relatives hidden by the depth limit. */
  datatype Built = Built(tree: Node, truncated: bool)

  /** The trees of a list of siblings, and whether any of them was cut. */
  datatype Forest = Forest(trees: seq<Node>, truncated: bool)

  function Leaf(key: ContractKey): Node {
    Node(key, [])
  }

  function ParentsOfKey(facts: ProjectFacts, key: ContractKey): seq<ContractKey>
    requires key in facts.contracts.entries
  {
    facts.contracts.entries[key].directlyInherits
  }

  // ---------------------------------------------------------------------
  // Tree shapes

  function KeysOf(ns: seq<Node>): (r: seq<ContractKey>)
    ensures |r| == |ns| && forall i :: 0 <= i < |ns| ==> r[i] == ns[i].key
  {
    seq(|ns|, i requires 0 <= i < |ns| => ns[i].key)
  }

  /** A node whose key already occurs on the path above it has no children:
      only a leaf may repeat a key of its path. */
  predicate RepeatsOnlyAtLeaves(n: Node, above: set<ContractKey>) {
    (n.key in above ==> |n.children| == 0)
    && forall c :: c in n.children ==> RepeatsOnlyAtLeaves(c, above + {n.key})
  }

  /** No node at depth `max` or deeper has children. */
  predicate DepthCapped(n: Node, depth: int, max: int) {
    (depth >= max ==> |n.children| == 0)
    && forall c :: c in n.children ==> DepthCapped(c, depth + 1, max)
  }

  lemma KeysOfCons(head: Node, rest: seq<Node>)
    ensures KeysOf([head] + rest) == [head.key] + KeysOf(rest)
  {
  }

  /** Every node with children is a known contract whose children are its
      direct parents, in declaration order. */
  predicate FollowsParents(facts: ProjectFacts, n: Node) {
    (|n.children| > 0 ==> n.key in facts.contracts.entries && KeysOf(n.children) == ParentsOfKey(facts, n.key))
    && forall c :: c in n.children ==> FollowsParents(facts, c)
  }

  /** Some node of the tree is a known contract, first seen on its path, at
      or below the depth limit, with parents the tree does not show. */
  predicate ParentsCut(facts: ProjectFacts, n: Node, above: set<ContractKey>, depth: int, max: int) {
    (n.key !in above && n.key in facts.contracts.entries && depth >= max && |ParentsOfKey(facts, n.key)| > 0)
    || exists c :: c in n.children && ParentsCut(facts, c, above + {n.key}, depth + 1, max)
  }

  /** The limit, if any, still allows expanding a node at `depth`. */
  predicate Within(depth: int, max: Option<int>) {
    max.None? || depth < max.value
  }

  /** Every known contract first seen on its path, above the depth limit,
      shows all of its direct parents, in declaration order. */
  predicate ExpandsParents(facts: ProjectFacts, n: Node, above: set<ContractKey>, depth: int, max: Option<int>) {
    (n.key !in above && n.key in facts.contracts.entries && Within(depth, max) ==>
       KeysOf(n.children) == ParentsOfKey(facts, n.key))
    && forall c :: c in n.children ==> ExpandsParents(facts, c, above + {n.key}, depth + 1, max)
  }

  // ---------------------------------------------------------------------
  // Inherited contracts, with an optional depth limit

  /** The parent tree of `key`; `visited` holds the keys on the path above. */
  function BuildInherited(facts: ProjectFacts, key: ContractKey, visited: set<ContractKey>, depth: int, maxDepth: Option<int>): (r: Built)
    ensures r.tree.key == key
    ensures key in visited || key !in facts.contracts.entries ==> r == Built(Leaf(key), false)
    ensures key !in visited && key in facts.contracts.entries && (maxDepth.None? || depth < maxDepth.value) ==>
      KeysOf(r.tree.children) == ParentsOfKey(facts, key)
    ensures maxDepth.None? ==> !r.truncated
    decreases |facts.contracts.entries.Keys - visited|, 0
  {
    if key in visited then Built(Leaf(key), false)
    else if key !in facts.contracts.entries then Built(Leaf(key), false)
    else
      var parents := ParentsOfKey(facts, key);
      if maxDepth.Some? && depth >= maxDepth.value then Built(Leaf(key), |parents| > 0)
      else
        UnvisitedShrinks(facts.contracts.entries.Keys, visited, key);
        var f := BuildInheritedForest(facts, parents, 0, visited + {key}, depth + 1, maxDepth);
        Built(Node(key, f.trees), f.truncated)
  }

  function BuildInheritedForest(facts: ProjectFacts, keys: seq<ContractKey>, i: nat, visited: set<ContractKey>, depth: int, maxDepth: Option<int>): (r: Forest)
    requires i <= |keys|
    ensures KeysOf(r.trees) == keys[i..]
    ensures maxDepth.None? ==> !r.truncated
    decreases |facts.contracts.entries.Keys - visited|, 1, |keys| - i
  {
    if i == |keys| then Forest([], false)
    else
      var head := BuildInherited(facts, keys[i], visited, depth, maxDepth);
      var rest := BuildInheritedForest(facts, keys, i + 1, visited, depth, maxDepth);
      KeysOfCons(head.tree, rest.trees);
      assert keys[i..] == [keys[i]] + keys[i + 1..];
      Forest([head.tree] + rest.trees, head.truncated || rest.truncated)
  }

  /** The parent tree follows declared parents, repeats a key of its own path
      only at a leaf, stops at the depth limit, and is flagged truncated
      exactly when the limit hid the parents of some contract. */
  lemma {:induction false} InheritedShape(facts: ProjectFacts, key: ContractKey, visited: set<ContractKey>, depth: int, maxDepth: Option<int>)
    ensures var r := BuildInherited(facts, key, visited, depth, maxDepth);
      RepeatsOnlyAtLeaves(r.tree, visited) && FollowsParents(facts, r.tree)
      && ExpandsParents(facts, r.tree, visited, depth, maxDepth)
      && (maxDepth.Some? ==>
            DepthCapped(r.tree, depth, maxDepth.value)
            && (r.truncated <==> ParentsCut(facts, r.tree, visited, depth, maxDepth.value)))
    decreases |facts.contracts.entries.Keys - visited|, 0
  {
    if key !in visited && key in facts.contracts.entries && !(maxDepth.Some? && depth >= maxDepth.value) {
      UnvisitedShrinks(facts.contracts.entries.Keys, visited, key);
      InheritedForestShape(facts, ParentsOfKey(facts, key), 0, visited + {key}, depth + 1, maxDepth);
    }
  }

  lemma {:induction false} InheritedForestShape(facts: ProjectFacts, keys: seq<ContractKey>, i: nat, visited: set<ContractKey>, depth: int, maxDepth: Option<int>)
    requires i <= |keys|
    ensures var f := BuildInheritedForest(facts, keys, i, visited, depth, maxDepth);
      (forall t :: t in f.trees ==>
        RepeatsOnlyAtLeaves(t, visited) && FollowsParents(facts, t)
        && ExpandsParents(facts, t, visited, depth, maxDepth)
        && (maxDepth.Some? ==> DepthCapped(t, depth, maxDepth.value)))
      && (maxDepth.Some? ==>
            (f.truncated <==> exists t :: t in f.trees && ParentsCut(facts, t, visited, depth, maxDepth.value)))
    decreases |facts.contracts.entries.Keys - visited|, 1, |keys| - i
  {
    if i < |keys| {
      InheritedShape(facts, keys[i], visited, depth, maxDepth);
      InheritedForestShape(facts, keys, i + 1, visited, depth, maxDepth);
    }
  }

  /** The i-th tree of a forest is the tree of the i-th remaining key. */
  lemma {:induction false} InheritedForestAt(facts: ProjectFacts, keys: seq<ContractKey>, i: nat, visited: set<ContractKey>, depth: int, maxDepth: Option<int>, j: nat)
    requires i + j < |keys|
    ensures BuildInheritedForest(facts, keys, i, visited, depth, maxDepth).trees[j]
         == BuildInherited(facts, keys[i + j], visited, depth, maxDepth).tree
    decreases j
  {
    var head := BuildInherited(facts, keys[i], visited, depth, maxDepth);
    var rest := BuildInheritedForest(facts, keys, i + 1, visited, depth, maxDepth);
    assert BuildInheritedForest(facts, keys, i, visited, depth, maxDepth).trees == [head.tree] + rest.trees;
    if j > 0 {
      InheritedForestAt(facts, keys, i + 1, visited, depth, maxDepth, j - 1);
    }
  }

  /** The shape determines the tree: a tree that repeats keys only at
      leaves, follows and fully expands the declared parents, and stops at
      the depth limit is the one BuildInherited produces. */
  lemma {:induction false} InheritedTreeUnique(facts: ProjectFacts, n: Node, above: set<ContractKey>, depth: int, maxDepth: Option<int>)
    requires RepeatsOnlyAtLeaves(n, above) && FollowsParents(facts, n) && ExpandsParents(facts, n, above, depth, maxDepth)
    requires maxDepth.Some? ==> DepthCapped(n, depth, maxDepth.value)
    ensures n == BuildInherited(facts, n.key, above, depth, maxDepth).tree
    decreases n
  {
    var b := BuildInherited(facts, n.key, above, depth, maxDepth).tree;
    if n.key in above || n.key !in facts.contracts.entries || !Within(depth, maxDepth) {
      assert |n.children| == 0;
    } else {
      var parents := ParentsOfKey(facts, n.key);
      var f := BuildInheritedForest(facts, parents, 0, above + {n.key}, depth + 1, maxDepth);
      assert b == Node(n.key, f.trees);
      assert KeysOf(n.children) == parents;
      assert |f.trees| == |n.children| by { assert KeysOf(f.trees) == parents[0..]; }
      forall j | 0 <= j < |n.children| ensures n.children[j] == f.trees[j] {
        var c := n.children[j];
        assert c in n.children;
        InheritedTreeUnique(facts, c, above + {n.key}, depth + 1, maxDepth);
        InheritedForestAt(facts, parents, 0, above + {n.key}, depth + 1, maxDepth, j);
      }
    }
  }

  /** `max_depth` must be at least 1 when given. */
  function ValidateMaxDepth(maxDepth: Option<int>): (r: Result<Option<int>, string>)
    ensures r.Ok? <==> maxDepth.None? || maxDepth.value >= 1
    ensures r.Ok? ==> r.value == maxDepth
  {
    if maxDepth.Some? && maxDepth.value < 1 then Err("max_depth must be >= 1") else Ok(maxDepth)
  }

  datatype InheritedResponse = InheritedResponse(
    success: bool,
    contractKey: ContractKey,
    fullInheritance: Option<Node>,
    truncated: bool,
    error: Option<LookupError>)

  /** The parent tree of a known contract, or a not-found error. */
  function GetInheritedContracts(facts: ProjectFacts, key: ContractKey, maxDepth: Option<int>): (r: InheritedResponse)
    ensures r.contractKey == key
    ensures r.success <==> key in facts.contracts.entries
    ensures !r.success ==>
      r.fullInheritance.None? && !r.truncated && r.error == Some(ContractNotFound(key.contractName, key.path))
    ensures r.success ==> r.fullInheritance.Some? && r.fullInheritance.value.key == key && r.error.None?
    ensures r.success ==>
      r.fullInheritance == Some(BuildInherited(facts, key, {}, 0, maxDepth).tree)
      && r.truncated == BuildInherited(facts, key, {}, 0, maxDepth).truncated
    ensures r.success ==>
      RepeatsOnlyAtLeaves(r.fullInheritance.value, {}) && FollowsParents(facts, r.fullInheritance.value)
      && ExpandsParents(facts, r.fullInheritance.value, {}, 0, maxDepth)
    ensures r.success && maxDepth.Some? ==>
      DepthCapped(r.fullInheritance.value, 0, maxDepth.value)
      && (r.truncated <==> ParentsCut(facts, r.fullInheritance.value, {}, 0, maxDepth.value))
  {
    if key !in facts.contracts.entries then
      InheritedResponse(false, key, None, false, Some(ContractNotFound(key.contractName, key.path)))
    else
      var b := BuildInherited(facts, key, {}, 0, maxDepth);
      InheritedShape(facts, key, {}, 0, maxDepth);
      InheritedResponse(true, key, Some(b.tree), b.truncated, None)
  }

  // ---------------------------------------------------------------------
  // Inheritance hierarchy: the same tree without a depth limit

  function BuildHierarchy(facts: ProjectFacts, key: ContractKey, visited: set<ContractKey>): (r: Node)
    ensures r.key == key
    ensures key in visited || key !in facts.contracts.entries ==> r == Leaf(key)
    decreases |facts.contracts.entries.Keys - visited|, 0
  {
    if key in visited then Leaf(key)
    else if key !in facts.contracts.entries then Leaf(key)
    else
      UnvisitedShrinks(facts.contracts.entries.Keys, visited, key);
      Node(key, BuildHierarchyForest(facts, ParentsOfKey(facts, key), 0, visited + {key}))
  }

  function BuildHierarchyForest(facts: ProjectFacts, keys: seq<ContractKey>, i: nat, visited: set<ContractKey>): (r: seq<Node>)
    requires i <= |keys|
    ensures |r| == |keys| - i
    decreases |facts.contracts.entries.Keys - visited|, 1, |keys| - i
  {
    if i == |keys| then []
    else [BuildHierarchy(facts, keys[i], visited)] + BuildHierarchyForest(facts, keys, i + 1, visited)
  }

  /** The hierarchy is the inherited-contracts tree with no depth limit. */
  lemma {:induction false} HierarchyIsUnlimited(facts: ProjectFacts, key: ContractKey, visited: set<ContractKey>, depth: int)
    ensures BuildHierarchy(facts, key, visited) == BuildInherited(facts, key, visited, depth, None).tree
    decreases |facts.contracts.entries.Keys - visited|, 0
  {
    if key !in visited && key in facts.contracts.entries {
      UnvisitedShrinks(facts.contracts.entries.Keys, visited, key);
      HierarchyForestIsUnlimited(facts, ParentsOfKey(facts, key), 0, visited + {key}, depth + 1);
    }
  }

  lemma {:induction false} HierarchyForestIsUnlimited(facts: ProjectFacts, keys: seq<ContractKey>, i: nat, visited: set<ContractKey>, depth: int)
    requires i <= |keys|
    ensures BuildHierarchyForest(facts, keys, i, visited) == BuildInheritedForest(facts, keys, i, visited, depth, None).trees
    decreases |facts.contracts.entries.Keys - visited|, 1, |keys| - i
  {
    if i < |keys| {
      HierarchyIsUnlimited(facts, keys[i], visited, depth);
      HierarchyForestIsUnlimited(facts, keys, i + 1, visited, depth);
    }
  }

  /** The hierarchy follows and fully expands declared parents, and repeats
      a key of its own path only at a leaf. */
  lemma HierarchyShape(facts: ProjectFacts, key: ContractKey)
    ensures RepeatsOnlyAtLeaves(BuildHierarchy(facts, key, {}), {})
    ensures FollowsParents(facts, BuildHierarchy(facts, key, {}))
    ensures ExpandsParents(facts, BuildHierarchy(facts, key, {}), {}, 0, None)
  {
    HierarchyIsUnlimited(facts, key, {}, 0);
    InheritedShape(facts, key, {}, 0, None);
  }

  /** Why a hierarchy could not be built. */
  datatype HierarchyError = HierarchyContractNotFound(name: string)
  {
    function Message(): string {
      "Contract not found: " + name
    }
  }

  datatype HierarchyResponse = HierarchyResponse(
    success: bool,
    contractKey: ContractKey,
    fullInheritance: Option<Node>,
    error: Option<HierarchyError>)

  function GetInheritanceHierarchy(facts: ProjectFacts, key: ContractKey): (r: HierarchyResponse)
    ensures r.contractKey == key
    ensures r.success <==> key in facts.contracts.entries
    ensures !r.success ==> r.fullInheritance.None? && r.error == Some(HierarchyContractNotFound(key.contractName))
    ensures r.success ==>
      r.error.None? && r.fullInheritance == Some(BuildInherited(facts, key, {}, 0, None).tree)
    ensures r.success ==>
      RepeatsOnlyAtLeaves(r.fullInheritance.value, {}) && FollowsParents(facts, r.fullInheritance.value)
      && ExpandsParents(facts, r.fullInheritance.value, {}, 0, None)
  {
    if key !in facts.contracts.entries then
      HierarchyResponse(false, key, None, Some(HierarchyContractNotFound(key.contractName)))
    else
      HierarchyIsUnlimited(facts, key, {}, 0);
      HierarchyShape(facts, key);
      HierarchyResponse(true, key, Some(BuildHierarchy(facts, key, {})), None)
  }

  // ---------------------------------------------------------------------
  // Derived contracts, with an optional depth limit

  /** The known contracts that list `key` as a direct parent, in facts order. */
  function DirectChildren(facts: ProjectFacts, key: ContractKey): (r: seq<ContractKey>)
    ensures forall c :: c in r <==> c in facts.contracts.entries && key in facts.contracts.entries[c].directlyInherits
    ensures Distinct(r)
  {
    ChildrenFrom(facts, key, 0)
  }

  function ChildrenFrom(facts: ProjectFacts, key: ContractKey, i: nat): (r: seq<ContractKey>)
    requires i <= |facts.contracts.order|
    ensures forall c :: c in r <==> c in facts.contracts.order[i..] && key in facts.contracts.entries[c].directlyInherits
    ensures Distinct(r)
    decreases |facts.contracts.order| - i
  {
    if i == |facts.contracts.order| then []
    else
      var c := facts.contracts.order[i];
      var rest := ChildrenFrom(facts, key, i + 1);
      assert facts.contracts.order[i..] == [c] + facts.contracts.order[i + 1..];
      if key in facts.contracts.entries[c].directlyInherits then [c] + rest else rest
  }

  /** Every node with children has exactly its direct children below it, in facts order. */
  predicate FollowsChildren(facts: ProjectFacts, n: Node) {
    (|n.children| > 0 ==> KeysOf(n.children) == DirectChildren(facts, n.key))
    && forall c :: c in n.children ==> FollowsChildren(facts, c)
  }

  /** In a derived tree every child lists its parent node among its direct parents. */
  lemma ChildInheritsFromNode(facts: ProjectFacts, n: Node, i: nat)
    requires FollowsChildren(facts, n) && i < |n.children|
    ensures n.children[i].key in facts.contracts.entries
    ensures n.key in facts.contracts.entries[n.children[i].key].directlyInherits
  {
    assert n.children[i].key == DirectChildren(facts, n.key)[i];
  }

  /** Every contract first seen on its path, above the depth limit, shows
      all of its direct children, in facts order. */
  predicate ExpandsChildren(facts: ProjectFacts, n: Node, above: set<ContractKey>, depth: int, max: Option<int>) {
    (n.key !in above && Within(depth, max) ==> KeysOf(n.children) == DirectChildren(facts, n.key))
    && forall c :: c in n.children ==> ExpandsChildren(facts, c, above + {n.key}, depth + 1, max)
  }

  /** Some node, first seen on its path, at or below the depth limit, has children the tree does not show. */
  predicate ChildrenCut(facts: ProjectFacts, n: Node, above: set<ContractKey>, depth: int, max: int) {
    (n.key !in above && depth >= max && |DirectChildren(facts, n.key)| > 0)
    || exists c :: c in n.children && ChildrenCut(facts, c, above + {n.key}, depth + 1, max)
  }

  function KeyRank(facts: ProjectFacts, key: ContractKey): nat {
    if key in facts.contracts.entries then 0 else 1
  }

  /** The tree of contracts deriving from `key`; `visited` holds the keys on the path above. */
  function BuildDerived(facts: ProjectFacts, key: ContractKey, visited: set<ContractKey>, depth: int, maxDepth: Option<int>): (r: Built)
    ensures r.tree.key == key
    ensures key in visited ==> r == Built(Leaf(key), false)
    ensures key !in visited && (maxDepth.None? || depth < maxDepth.value) ==>
      KeysOf(r.tree.children) == DirectChildren(facts, key)
    ensures maxDepth.None? ==> !r.truncated
    decreases |facts.contracts.entries.Keys - visited|, KeyRank(facts, key), 0, 0
  {
    if key in visited then Built(Leaf(key), false)
    else
      var kids := DirectChildren(facts, key);
      if maxDepth.Some? && depth >= maxDepth.value then Built(Leaf(key), |kids| > 0)
      else
        UnvisitedShrinks(facts.contracts.entries.Keys, visited, key);
        var f := BuildDerivedForest(facts, kids, 0, visited + {key}, depth + 1, maxDepth);
        Built(Node(key, f.trees), f.truncated)
  }

  function BuildDerivedForest(facts: ProjectFacts, keys: seq<ContractKey>, i: nat, visited: set<ContractKey>, depth: int, maxDepth: Option<int>): (r: Forest)
    requires i <= |keys|
    requires forall k :: k in keys ==> k in facts.contracts.entries
    ensures KeysOf(r.trees) == keys[i..]
    ensures maxDepth.None? ==> !r.truncated
    decreases |facts.contracts.entries.Keys - visited|, 0, 1, |keys| - i
  {
    if i == |keys| then Forest([], false)
    else
      var head := BuildDerived(facts, keys[i], visited, depth, maxDepth);
      var rest := BuildDerivedForest(facts, keys, i + 1, visited, depth, maxDepth);
      KeysOfCons(head.tree, rest.trees);
      assert keys[i..] == [keys[i]] + keys[i + 1..];
      Forest([head.tree] + rest.trees, head.truncated || rest.truncated)
  }

  /** The derived tree lists exactly the direct children of every expanded
      node, repeats a key of its own path only at a leaf, stops at the depth
      limit, and is flagged truncated exactly when the limit hid children. */
  lemma {:induction false} DerivedShape(facts: ProjectFacts, key: ContractKey, visited: set<ContractKey>, depth: int, maxDepth: Option<int>)
    ensures var r := BuildDerived(facts, key, visited, depth, maxDepth);
      RepeatsOnlyAtLeaves(r.tree, visited) && FollowsChildren(facts, r.tree)
      && ExpandsChildren(facts, r.tree, visited, depth, maxDepth)
      && (maxDepth.Some? ==>
            DepthCapped(r.tree, depth, maxDepth.value)
            && (r.truncated <==> ChildrenCut(facts, r.tree, visited, depth, maxDepth.value)))
    decreases |facts.contracts.entries.Keys - visited|, KeyRank(facts, key), 0, 0
  {
    if key !in visited && !(maxDepth.Some? && depth >= maxDepth.value) {
      UnvisitedShrinks(facts.contracts.entries.Keys, visited, key);
      DerivedForestShape(facts, DirectChildren(facts, key), 0, visited + {key}, depth + 1, maxDepth);
    }
  }

  lemma {:induction false} DerivedForestShape(facts: ProjectFacts, keys: seq<ContractKey>, i: nat, visited: set<ContractKey>, depth: int, maxDepth: Option<int>)
    requires i <= |keys|
    requires forall k :: k in keys ==> k in facts.contracts.entries
    ensures var f := BuildDerivedForest(facts, keys, i, visited, depth, maxDepth);
      (forall t :: t in f.trees ==>
        RepeatsOnlyAtLeaves(t, visited) && FollowsChildren(facts, t)
        && ExpandsChildren(facts, t, visited, depth, maxDepth)
        && (maxDepth.Some? ==> DepthCapped(t, depth, maxDepth.value)))
      && (maxDepth.Some? ==>
            (f.truncated <==> exists t :: t in f.trees && ChildrenCut(facts, t, visited, depth, maxDepth.value)))
    decreases |facts.contracts.entries.Keys - visited|, 0, 1, |keys| - i
  {
    if i < |keys| {
      DerivedShape(facts, keys[i], visited, depth, maxDepth);
      DerivedForestShape(facts, keys, i + 1, visited, depth, maxDepth);
    }
  }

  /** The i-th tree of a derived forest is the tree of the i-th remaining key. */
  lemma {:induction false} DerivedForestAt(facts: ProjectFacts, keys: seq<ContractKey>, i: nat, visited: set<ContractKey>, depth: int, maxDepth: Option<int>, j: nat)
    requires i + j < |keys|
    requires forall k :: k in keys ==> k in facts.contracts.entries
    ensures BuildDerivedForest(facts, keys, i, visited, depth, maxDepth).trees[j]
         == BuildDerived(facts, keys[i + j], visited, depth, maxDepth).tree
    decreases j
  {
    var head := BuildDerived(facts, keys[i], visited, depth, maxDepth);
    var rest := BuildDerivedForest(facts, keys, i + 1, visited, depth, maxDepth);
    assert BuildDerivedForest(facts, keys, i, visited, depth, maxDepth).trees == [head.tree] + rest.trees;
    if j > 0 {
      DerivedForestAt(facts, keys, i + 1, visited, depth, maxDepth, j - 1);
    }
  }

  /** The shape determines the derived tree: a tree that repeats keys only
      at leaves, fully expands the direct children and stops at the depth
      limit is the one BuildDerived produces. */
  lemma {:induction false} DerivedTreeUnique(facts: ProjectFacts, n: Node, above: set<ContractKey>, depth: int, maxDepth: Option<int>)
    requires RepeatsOnlyAtLeaves(n, above) && ExpandsChildren(facts, n, above, depth, maxDepth)
    requires maxDepth.Some? ==> DepthCapped(n, depth, maxDepth.value)
    ensures n == BuildDerived(facts, n.key, above, depth, maxDepth).tree
    decreases n
  {
    var b := BuildDerived(facts, n.key, above, depth, maxDepth).tree;
    if n.key in above || !Within(depth, maxDepth) {
      assert |n.children| == 0;
    } else {
      var kids := DirectChildren(facts, n.key);
      var f := BuildDerivedForest(facts, kids, 0, above + {n.key}, depth + 1, maxDepth);
      assert b == Node(n.key, f.trees);
      assert KeysOf(n.children) == kids;
      assert |f.trees| == |n.children| by { assert KeysOf(f.trees) == kids[0..]; }
      forall j | 0 <= j < |n.children| ensures n.children[j] == f.trees[j] {
        var c := n.children[j];
        assert c in n.children;
        DerivedTreeUnique(facts, c, above + {n.key}, depth + 1, maxDepth);
        DerivedForestAt(facts, kids, 0, above + {n.key}, depth + 1, maxDepth, j);
      }
    }
  }

  datatype DerivedResponse = DerivedResponse(
    success: bool,
    contractKey: ContractKey,
    fullDerived: Option<Node>,
    truncated: bool,
    error: Option<LookupError>)

  /** The derived tree of a known contract, or a not-found error. */
  function GetDerivedContracts(facts: ProjectFacts, key: ContractKey, maxDepth: Option<int>): (r: DerivedResponse)
    ensures r.contractKey == key
    ensures r.success <==> key in facts.contracts.entries
    ensures !r.success ==>
      r.fullDerived.None? && !r.truncated && r.error == Some(ContractNotFound(key.contractName, key.path))
    ensures r.success ==> r.fullDerived.Some? && r.fullDerived.value.key == key && r.error.None?
    ensures r.success ==>
      r.fullDerived == Some(BuildDerived(facts, key, {}, 0, maxDepth).tree)
      && r.truncated == BuildDerived(facts, key, {}, 0, maxDepth).truncated
    ensures r.success ==>
      RepeatsOnlyAtLeaves(r.fullDerived.value, {}) && FollowsChildren(facts, r.fullDerived.value)
      && ExpandsChildren(facts, r.fullDerived.value, {}, 0, maxDepth)
    ensures r.success && maxDepth.Some? ==>
      DepthCapped(r.fullDerived.value, 0, maxDepth.value)
      && (r.truncated <==> ChildrenCut(facts, r.fullDerived.value, {}, 0, maxDepth.value))
  {
    if key !in facts.contracts.entries then
      DerivedResponse(false, key, None, false, Some(ContractNotFound(key.contractName, key.path)))
    else
      var b := BuildDerived(facts, key, {}, 0, maxDepth);
      DerivedShape(facts, key, {}, 0, maxDepth);
      DerivedResponse(true, key, Some(b.tree), b.truncated, None)
  }
}
