# slither-mcp query core in Dafny

slither-mcp is a Model Context Protocol server. It runs Slither on a Solidity project once and caches the result as an immutable `ProjectFacts` value. It then answers many small queries from that value: listing and searching contracts and functions, inheritance trees, callers and callees, dead code, contract dependencies, call-graph export, storage layout, aggregate statistics and detector results.

This project models that query core as pure Dafny functions over one `ProjectFacts` value and proves what each query promises.

Modules follow the source layout:

| Module | Models |
|---|---|
| `Keys` | the string encodings of contract and function keys |
| `Signatures` | signature helpers, `normalize_signature` and `path_matches_exclusion` |
| `Model` | the fact graph and the per-contract lookups |
| `Resolution` | `ProjectFacts` resolution and the inheritance closure |
| `Pagination` | paging and its validators |
| `Trees` | the three inheritance-tree tools |
| `Callees` and `CallQueries` | the call-graph queries |
| `DeadCode` | `find_dead_code` |
| `Dependencies` | `get_contract_dependencies`, including its DFS cycle search |
| `ExportGraph` | `export_call_graph` |
| `Storage` | `get_storage_layout` |
| `Artifacts` | the cache envelope |
| `Listing`, `Search`, `Overview`, `Analysis`, `Modifiers`, `Detectors`, `ContractTools` | the remaining tools |

`Common`, `Dicts` and `Sorting` are shared helpers:

- **`Dicts`** models a Python dict as a map plus a key-order sequence, because dict iteration order shows up in outputs.
- **`Sorting`** models Python's stable `list.sort`, with `reverse=True` keeping equal keys in their original order.

Regex matching, JSON (de)serialisation, SHA-256 and `os.path` are function-typed parameters. File contents are given as maps from paths to lines.

## Model

| member | source | states |
|---|---|---|
| Keys.ContractKeyToString | slither_mcp/types.py:244-246 | the encoding holds an `@`; when the name has none, the text before the first `@` is the name and the text after it is the path with every `/` turned into `!` |
| Keys.ContractKeyFromString | slither_mcp/types.py:248-254 | parsing fails exactly when there is no `@`, with the input in the error; a parsed name has no `@` and a parsed path no `!` |
| Keys.ContractKeyRoundTrip | slither_mcp/types.py:244-254 | decoding the encoding gives the key back when the name has no `@` and the path no `!` |
| Keys.ContractKeyStringRoundTrip | slither_mcp/types.py:244-254 | encoding a decoded string gives the string back when the part after `@` has no `/` |
| Keys.FunctionKeyToString | slither_mcp/types.py:288-290 | the encoding holds `@` and `.`; when neither name nor signature has an `@`, the text before the first `@` is `name.sig` and the text after it is the path with every `/` turned into `-` |
| Keys.FunctionKeyFromString | slither_mcp/types.py:292-299 | a string without `@` or `.` is rejected; parsing succeeds iff the text before `@` splits on `.` into exactly two parts; parsed parts contain no `.`, `@` or `-` where the format forbids them |
| Keys.FunctionKeyRoundTrip | slither_mcp/types.py:288-299 | decoding the encoding gives the key back when names and signature have no `.` or `@` and the path has no `-` |
| Keys.FunctionKeyStringRoundTrip | slither_mcp/types.py:288-299 | encoding a decoded string gives the string back when the part after `@` has no `/` |
| Signatures.GetFuncSig | slither_mcp/types.py:716-719 | the signature ends with `)`; for a name without `(`, name extraction gives the name back and the text after the first `(` is the arguments joined by `,` and the closing `)` |
| Signatures.ExtractFunctionName | slither_mcp/tools/search_functions.py:154-167 | the name is the text before the first `(`: a `(`-free prefix followed by `(`, or the whole string when there is no `(` |
| Signatures.ContractOfExt | slither_mcp/types.py:727-729 | the contract part is the text before the first `.`: a `.`-free prefix followed by `.`, or the whole string when there is no `.` |
| Signatures.ExtSplitJoin | slither_mcp/types.py:722-729 | contract part, `.` and signature part rebuild any string that contains `.` |
| Signatures.ExtJoinSplit | slither_mcp/types.py:722-729 | splitting `C.sig` for a `.`-free `C` gives back `C` and `sig` |
| Signatures.NormalizeParams | slither_mcp/types.py:758-770 | each parameter is normalised on its own, in place |
| Signatures.NormalizeSignatureShape | slither_mcp/types.py:732-772 | the name before `(` never changes; no parameter of the result contains `.`; input without `(` or with an empty parameter list comes back unchanged |
| Signatures.NormalizeOneParam | slither_mcp/types.py:752-772 | a one-parameter signature normalises to the name around the normalised parameter |
| Signatures.NormalizeQualified | slither_mcp/types.py:764-770 | `f(Q.T)` normalises to `f(T)` |
| Signatures.NormalizePlain | slither_mcp/types.py:752-772 | `f(T)` with an unqualified, non-array `T` is left as it is |
| Signatures.NormalizeTrailingTuple | slither_mcp/types.py:753 | `f((a,b))` normalises to `f((a,b)`: stripping every trailing `)` loses the tuple's closing parenthesis |
| Signatures.FirstNormalized | slither_mcp/types.py:395-418 | the index of the first key whose normal form is the given one, and None iff there is no such key |
| Signatures.FindMatchingSignature | slither_mcp/types.py:801-823 | an exact key is preferred; any result is a key with the target's normal form; None iff no key equals the target or normalises like it |
| Signatures.PathMatchesExclusion | slither_mcp/types.py:775-798 | true iff some pattern, trailing `/` removed, matches the backslash-normalised path as a prefix directory, the whole path, or an inner component |
| Signatures.PatternMatchesIsComponent | slither_mcp/types.py:789-796 | the prefix and equality tests are subsumed: a pattern matches iff `/p/` occurs in `/path/` |
| Model.DoesContractContainFunction | slither_mcp/types.py:372-393 | true iff the contract stores the exact signature, or some declared or inherited key normalises like it |
| Model.FindFunctionSignature | slither_mcp/types.py:395-418 | an exact key is returned as it is; otherwise the first declared key normalising like the query, else the first such inherited key; none iff no key matches exactly or after normalisation |
| Model.SomeIffFirst | slither_mcp/types.py:404-418 | some key normalises to the form iff the first-match search finds one |
| Model.ContainsIffFound | slither_mcp/types.py:372-418 | a contract contains a function iff the signature search finds a key |
| Model.GetFunctionCallContext | slither_mcp/types.py:426-433 | succeeds iff a scope has the contract part's name, returning that scope; otherwise the "not found in scopes" message |
| Model.FirstScopeNamed | slither_mcp/types.py:420-433 | the first scope with the name, and None iff no scope has it |
| Resolution.ResolveFunctionByKey | slither_mcp/types.py:540-612 | no error iff the contract is known and contains the signature; on success the model stored under a key normalising like the request, the exact key when it exists; the query context echoes the request |
| Resolution.ResolveFunction | slither_mcp/types.py:614-705 | input without `.` is an error; a successful resolution found the scope contract and the exact stored signature; an error carries no function |
| Resolution.FetchExact | slither_mcp/types.py:680-705 | the exact lookup raises KeyError exactly when the contract contains the signature only through normalisation |
| Resolution.ResolveFunctionRaisesOnNormalizedMatch | slither_mcp/types.py:680-705 | a signature found only by normalised matching makes `resolve_function` raise KeyError |
| Resolution.ResolveFunctionQualifiedCrash | slither_mcp/types.py:680-705 | a concrete crash: `C.f(Q.T)` against a contract storing `f(T)` raises KeyError |
| Resolution.ResolveFunctionFixed | slither_mcp/types.py:614-705 | succeeds iff the scope contract is known and contains the signature up to normalisation, returning the model stored under a key that normalises like it |
| Resolution.ResolveFunctionFixedAgrees | slither_mcp/types.py:614-705 | wherever the source returns without raising, the corrected resolution gives the same answer |
| Resolution.GetFullInheritance | slither_mcp/types.py:435-444 | every direct parent is in the result and every result is a known contract |
| Resolution.AncestorsClosed | slither_mcp/types.py:435-444 | the ancestor set contains the parents of each of its members |
| Resolution.AncestorsLeast | slither_mcp/types.py:435-444 | the ancestor set lies inside every parent-closed set that contains the starting parents |
| Resolution.FullInheritanceIsClosure | slither_mcp/types.py:435-444 | the full inheritance is the least parent-closed set containing the direct parents |
| Resolution.ResolveFunctionImplementations | slither_mcp/types.py:497-538 | every returned model is the stored model of a known contract |
| Resolution.ScanSound | slither_mcp/types.py:513-536 | each model found while scanning stores the signature and inherits from the parent |
| Resolution.BelowSound | slither_mcp/types.py:513-536 | each implementation below a parent stores the signature and has the parent in its full inheritance |
| Resolution.ChildIncluded | slither_mcp/types.py:513-536 | a direct child that stores the signature is collected |
| Resolution.ImplementationsExact | slither_mcp/types.py:497-538 | a model is returned iff it is a known contract that stores the exact signature and has the queried contract in its full inheritance |
| Resolution.ImplementationsComplete | slither_mcp/types.py:497-538 | a known model storing the signature that is not returned does not inherit from the queried contract |
| Pagination.ValidatePageRequest | slither_mcp/pagination.py:24-47 | accepted iff the limit is absent or at least 1 and the offset is not negative; each violation is reported, at most two errors |
| Pagination.ApplyPagination | slither_mcp/pagination.py:50-76 | the total is the input length; the page is `items[offset:offset+limit]` (to the end without a limit); `has_more` iff items remain after the page |
| Pagination.PageSlice | slither_mcp/pagination.py:68-73 | every page is a contiguous slice of the input |
| Pagination.PagesTile | slither_mcp/pagination.py:68-76 | the page at `offset` followed by the rest from `offset+limit` is the rest from `offset` |
| Pagination.AllPagesIsSuffix | slither_mcp/pagination.py:68-76 | following `has_more` page by page from an offset yields exactly the input from that offset |
| Pagination.PagingCoversAll | slither_mcp/pagination.py:68-76 | paging from 0 to the end returns every item once, in order |
| Trees.BuildInherited | slither_mcp/tools/get_inherited_contracts.py:65-123 | the root is the requested key; a visited or unknown key is a leaf, not truncated; without a depth limit nothing is truncated |
| Trees.InheritedShape | slither_mcp/tools/get_inherited_contracts.py:93-121 | keys repeat on a path only at leaves; a node with children is a known contract whose children are its direct parents in order; every known contract first seen on its path and above the limit shows all its direct parents; under a limit no node below it has children, and truncated iff a known, unvisited node at the limit has parents |
| Trees.InheritedTreeUnique | slither_mcp/tools/get_inherited_contracts.py:93-121 | any tree with those properties (leaf-only repeats, parents followed and fully expanded, capped at the limit) is the tree the builder produces, so the properties pin the answer down |
| Trees.BuildInheritedForest | slither_mcp/tools/get_inherited_contracts.py:110-121 | one subtree per parent, in order |
| Trees.ValidateMaxDepth | slither_mcp/tools/get_inherited_contracts.py:45-50 | a depth limit below 1 is rejected; anything else is kept |
| Trees.GetInheritedContracts | slither_mcp/tools/get_inherited_contracts.py:126-167 | succeeds iff the key is known, echoing it; failure has no tree and a not-found error; on success the tree and the truncated flag are those of the parent-tree builder from the key, so every known contract first seen on its path and above the limit shows all its parents; the tree is capped at the limit, with truncation as above |
| Trees.BuildHierarchy | slither_mcp/tools/get_inheritance_hierarchy.py:44-83 | the root is the key; a visited or unknown key is a leaf |
| Trees.HierarchyIsUnlimited | slither_mcp/tools/get_inheritance_hierarchy.py:44-83 | the hierarchy tree is the inherited-contracts tree without a depth limit |
| Trees.HierarchyShape | slither_mcp/tools/get_inheritance_hierarchy.py:64-83 | keys repeat on a path only at leaves; a node with children shows its direct parents in order, and every known contract first seen on its path shows all of them |
| Trees.GetInheritanceHierarchy | slither_mcp/tools/get_inheritance_hierarchy.py:86-118 | succeeds iff the key is known; failure carries the not-found message with the name; success returns the unlimited tree, in which every known contract first seen on its path shows all its direct parents |
| Trees.DirectChildren | slither_mcp/tools/get_derived_contracts.py:98-102 | exactly the known contracts that list the key as a direct parent, each once |
| Trees.ChildInheritsFromNode | slither_mcp/tools/get_derived_contracts.py:98-123 | every child of a derived-tree node directly inherits from that node |
| Trees.BuildDerived | slither_mcp/tools/get_derived_contracts.py:65-125 | the root is the key; a visited key is a leaf; without a limit nothing is truncated |
| Trees.DerivedShape | slither_mcp/tools/get_derived_contracts.py:93-123 | keys repeat on a path only at leaves; every contract first seen on its path and above the limit shows exactly its direct children in facts order; under a limit truncated iff an unvisited node at the limit has children |
| Trees.DerivedTreeUnique | slither_mcp/tools/get_derived_contracts.py:93-123 | any tree with leaf-only repeats, fully expanded direct children and the depth cap is the tree the builder produces |
| Trees.GetDerivedContracts | slither_mcp/tools/get_derived_contracts.py:128-169 | succeeds iff the key is known, echoing it; on success the tree and the truncated flag are those of the derived-tree builder from the key, so every contract first seen on its path and above the limit shows all its direct children; capped at the limit, with truncation iff children were hidden |
| Callees.GetCallees | slither_mcp/callees.py:9-46 | internal and library callees are the call names without duplicates; external callees are the external calls minus the library calls, so the two are disjoint; the low-level flag iff there are low-level calls |
| CallQueries.ListFunctionCallees | slither_mcp/tools/list_function_callees.py:38-63 | fails with no callees exactly when resolution fails; on success the callees stored for a signature that normalises like the requested one; the query context only on request |
| CallQueries.AllFunctions | slither_mcp/tools/list_function_callers.py:96-99 | declared and inherited functions together, inherited winning on a shared signature |
| CallQueries.CallersOf | slither_mcp/tools/list_function_callers.py:89-114 | exactly the functions whose callee list of that kind holds the target or a name normalising like it |
| CallQueries.ListFunctionCallers | slither_mcp/tools/list_function_callers.py:52-123 | fails iff the target does not resolve; on success each caller group holds exactly the matching callers, keyed by the scanning contract |
| CallQueries.DeclaringInfos | slither_mcp/tools/list_function_implementations.py:106-118 | exactly the implementations that declare the signature, with the declared model's visibility and modifiers |
| CallQueries.ListFunctionImplementations | slither_mcp/tools/list_function_implementations.py:57-127 | an unknown contract or a signature the contract does not contain fails; on success the response is the requested page of the declaring contracts below the queried one, each entry summarising a contract that declares the signature and inherits from the queried one |
| CallQueries.ImplementationsListed | slither_mcp/tools/list_function_implementations.py:99-118 | a known contract declaring the signature is counted before paging iff it inherits, directly or not, from the queried contract |
| DeadCode.CalledFunctions | slither_mcp/tools/find_dead_code.py:123-135 | exactly the internal, external and library callees of every declared function |
| DeadCode.DeadAmong | slither_mcp/tools/find_dead_code.py:161-196 | every entry is a dead function of the dictionary with its visibility, entry-point flag and reason; every dead function is listed |
| DeadCode.DeadInContract | slither_mcp/tools/find_dead_code.py:156-222 | interfaces and libraries report nothing; otherwise every dead declared function is reported with a declared reason, and, when asked, every dead inherited one with the inherited reason; without the request no inherited reason appears |
| DeadCode.DeadInContracts | slither_mcp/tools/find_dead_code.py:141-222 | sound (only dead functions of listed, non-interface, non-library contracts) and complete (every dead declared function, and every dead inherited one when asked, with its reason) |
| DeadCode.DeadSoundStep | slither_mcp/tools/find_dead_code.py:156-225 | soundness extends to one more contract |
| DeadCode.DeadCompleteStep | slither_mcp/tools/find_dead_code.py:156-222 | completeness for both tables extends to one more contract |
| DeadCode.DeadCompleteInStep | slither_mcp/tools/find_dead_code.py:161-222 | completeness for one table, with the table's reason, extends to one more contract |
| DeadCode.DeadHere | slither_mcp/tools/find_dead_code.py:161-222 | a dead function of either table of a non-interface, non-library contract is reported there with the table's reason |
| DeadCode.ContractsToCheck | slither_mcp/tools/find_dead_code.py:141-153 | the requested contract alone, or every contract |
| DeadCode.DeadCandidates | slither_mcp/tools/find_dead_code.py:104-225 | each reported function is uncalled, not special, not an excluded entry point, in a covered non-interface, non-library contract, and declared unless inherited ones are asked for |
| DeadCode.DeadCandidatesComplete | slither_mcp/tools/find_dead_code.py:161-222 | every uncalled, non-special, non-excluded declared function of a covered contract, and when asked every such inherited one, is reported with the reason its table and visibility give |
| DeadCode.FindDeadCode | slither_mcp/tools/find_dead_code.py:104-245 | an unknown requested contract fails with nothing reported; otherwise the page, total and has-more flag are the pagination of exactly the dead functions |
| Dependencies.KeyList | slither_mcp/tools/get_contract_dependencies.py:129-137 | the keys of the dependency list, in order |
| Dependencies.InheritDeps | slither_mcp/tools/get_contract_dependencies.py:143-146 | one "inherits" dependency per direct parent, in order |
| Dependencies.TargetNames | slither_mcp/tools/get_contract_dependencies.py:160-170 | exactly the contract prefixes of the external (or library) callees of the given functions |
| Dependencies.ResolveFrom | slither_mcp/tools/get_contract_dependencies.py:173-186 | a result is a contract with the name that is not the caller |
| Dependencies.ResolveFromFirst | slither_mcp/tools/get_contract_dependencies.py:173-186 | nothing is found iff no later contract qualifies; otherwise it is the first that does |
| Dependencies.Resolved | slither_mcp/tools/get_contract_dependencies.py:173-210 | every resolved name's contract is in the set, and none is the caller |
| Dependencies.AddTargets | slither_mcp/tools/get_contract_dependencies.py:188-210 | existing dependencies are kept and added ones carry the given relationship |
| Dependencies.AddTargetsFresh | slither_mcp/tools/get_contract_dependencies.py:188-210 | each added key is a resolved target not already present under any relationship |
| Dependencies.AddTargetsComplete | slither_mcp/tools/get_contract_dependencies.py:188-210 | afterwards the keys are the previous keys plus every resolved target |
| Dependencies.Edges | slither_mcp/tools/get_contract_dependencies.py:139-210 | the inherits edges come first; no later edge inherits; no calls edges without external names; no uses_library edges without library names |
| Dependencies.EdgesInherit | slither_mcp/tools/get_contract_dependencies.py:143-146 | an inherits edge to `p` exists iff `p` is a direct parent |
| Dependencies.EdgesCalls | slither_mcp/tools/get_contract_dependencies.py:154-210 | every resolved call or library target ends up as a dependency |
| Dependencies.DependsOn | slither_mcp/tools/get_contract_dependencies.py:139-210 | as for `Edges`, with the include flags switching off calls and uses_library edges |
| Dependencies.DependsOnCalls | slither_mcp/tools/get_contract_dependencies.py:154-210 | with a flag on, every resolved target of that kind is a dependency |
| Dependencies.IncomingFrom | slither_mcp/tools/get_contract_dependencies.py:147-152 | exactly the contracts whose dependencies of the selected kind point at the target |
| Dependencies.Reversed | slither_mcp/tools/get_contract_dependencies.py:147-152 | the mirror of one contract's dependencies on the target |
| Dependencies.DependedBy | slither_mcp/tools/get_contract_dependencies.py:139-210 | `(c, rel)` is a dependant of `t` iff `c` is known and depends on `t` with `rel` |
| Dependencies.DependedByKnown | slither_mcp/tools/get_contract_dependencies.py:147-152 | every dependant is a known contract with the mirrored dependency |
| Dependencies.DependencyMirror | slither_mcp/tools/get_contract_dependencies.py:147-210 | every dependency of a known contract on a known target is mirrored among the target's dependants |
| Dependencies.InheritanceEdges | slither_mcp/tools/get_contract_dependencies.py:143-146 | every direct parent is an inherits dependency |
| Dependencies.DependencyGraph | slither_mcp/tools/get_contract_dependencies.py:242-245 | one node per contract; its neighbours are its dependency keys, each once |
| Dependencies.IndexOf | slither_mcp/tools/get_contract_dependencies.py:92-94 | the first position of a node on the path |
| Dependencies.Dfs | slither_mcp/tools/get_contract_dependencies.py:80-104 | the node becomes visited; cycles only grow, and each is a closed walk along graph edges |
| Dependencies.ScanNeighbors | slither_mcp/tools/get_contract_dependencies.py:90-97 | visited nodes and cycles only grow; a neighbour still on the path records a cycle; every recorded cycle is a closed walk |
| Dependencies.DetectFrom | slither_mcp/tools/get_contract_dependencies.py:100-104 | every start node becomes visited, and every cycle is a closed walk |
| Dependencies.DetectCycles | slither_mcp/tools/get_contract_dependencies.py:80-104 | every reported cycle starts and ends at the same key and follows dependency edges |
| Dependencies.NoCycleOnStrictRanks | slither_mcp/tools/get_contract_dependencies.py:80-104 | a graph whose edges strictly lower a rank yields no cycles |
| Dependencies.DfsFinishes | slither_mcp/tools/get_contract_dependencies.py:85-100 | a walk that records no cycle finishes the entered node and keeps the finished nodes ranked so that every edge out of them lowers the rank |
| Dependencies.ScanFinishes | slither_mcp/tools/get_contract_dependencies.py:90-97 | scanning without recording a cycle finishes every neighbour and keeps the ranking |
| Dependencies.EnterFinishes | slither_mcp/tools/get_contract_dependencies.py:91-92 | entering an unvisited neighbour finishes it and keeps the ranking |
| Dependencies.SkipFinishes | slither_mcp/tools/get_contract_dependencies.py:90-97 | passing an already finished neighbour keeps the ranking |
| Dependencies.FinishNode | slither_mcp/tools/get_contract_dependencies.py:99-100 | a node whose successors are all finished becomes finished, ranked above them |
| Dependencies.DoneEnter | slither_mcp/tools/get_contract_dependencies.py:86-88 | entering an unvisited node leaves the finished set unchanged |
| Dependencies.DoneLeave | slither_mcp/tools/get_contract_dependencies.py:99-100 | leaving a node adds it to the finished set |
| Dependencies.DetectFinishes | slither_mcp/tools/get_contract_dependencies.py:102-104 | walks from every start that record no cycle leave every visited node finished and ranked |
| Dependencies.RankedFall | slither_mcp/tools/get_contract_dependencies.py:80-104 | along a walk from a finished node the rank strictly falls |
| Dependencies.DetectCyclesComplete | slither_mcp/tools/get_contract_dependencies.py:80-106 | a closed walk starting at a walked key always makes the detection report a cycle |
| Dependencies.DetectCyclesExact | slither_mcp/tools/get_contract_dependencies.py:80-106 | walking from every key, cycles are reported iff the graph has a closed walk |
| Dependencies.RanksFall | slither_mcp/tools/get_contract_dependencies.py:85-98 | along a walk of rank-lowering edges the rank strictly falls |
| Dependencies.GetContractDependencies | slither_mcp/tools/get_contract_dependencies.py:107-259 | succeeds iff no key is requested or it is known; failure carries the not-found error; the entries cover the requested contract or all; with detection on, a cycle list appears iff the dependency graph has a closed walk, and every listed cycle is one |
| ExportGraph.SanitizeNodeId | slither_mcp/tools/export_call_graph.py:62-82 | length is kept; each unsafe character becomes `_` and the others stay; the result has no unsafe characters |
| ExportGraph.SanitizeIdempotent | slither_mcp/tools/export_call_graph.py:62-82 | sanitising twice equals sanitising once |
| ExportGraph.CalleeIdMeetsNodeId | slither_mcp/tools/export_call_graph.py:153-165 | a callee named `C.sig` gets the same node id as the source node of `sig` in `C` |
| ExportGraph.FormatFunctionLabel | slither_mcp/tools/export_call_graph.py:85-106 | the label is `C.` followed by the full signature, or by its part before the first `(` for short labels |
| ExportGraph.CalleeLabelIsBefore | slither_mcp/tools/export_call_graph.py:167-172 | a short callee label is the callee before its first `(` |
| ExportGraph.CalleeLabelMeetsFunctionLabel | slither_mcp/tools/export_call_graph.py:85-106 | a callee `C.sig` is labelled as the source node of `sig` in `C` would be |
| ExportGraph.DeclaredSources | slither_mcp/tools/export_call_graph.py:146-152 | exactly the declared functions, restricted to public and external ones when only entry points are asked for |
| ExportGraph.SelectedSources | slither_mcp/tools/export_call_graph.py:141-152 | the source functions of the selected contracts only |
| ExportGraph.CalleeEdges | slither_mcp/tools/export_call_graph.py:162-196 | one edge of the given kind per callee, from the caller to the callee's id |
| ExportGraph.LabelCallees | slither_mcp/tools/export_call_graph.py:162-196 | the label table gains exactly the callees' ids, and existing labels are kept |
| ExportGraph.LabelCalleesFirst | slither_mcp/tools/export_call_graph.py:167-172 | a new id takes the label of the first callee that produced it |
| ExportGraph.AddCalleesShape | slither_mcp/tools/export_call_graph.py:162-196 | labels and edges only grow; added edges start at the caller and carry the kind; every edge end stays labelled |
| ExportGraph.AddNodeClosed | slither_mcp/tools/export_call_graph.py:153-196 | adding a source node keeps every edge end a labelled node |
| ExportGraph.AddNodeKinds | slither_mcp/tools/export_call_graph.py:174-196 | no external edges unless external calls are included, and no library edges unless library calls are included |
| ExportGraph.BuildShape | slither_mcp/tools/export_call_graph.py:146-200 | every source function is a node; every edge end is a node; edge kinds respect the include flags |
| ExportGraph.ByDegreeOrdered | slither_mcp/tools/export_call_graph.py:205-214 | the nodes reordered by non-increasing degree |
| ExportGraph.KeptAsWritten | slither_mcp/tools/export_call_graph.py:214-215 | the kept nodes are distinct; at most `max_nodes` of them for a non-negative bound, and at most the node count plus the bound for a negative one |
| ExportGraph.KeptAsWrittenBestConnected | slither_mcp/tools/export_call_graph.py:205-215 | whatever the bound, the kept nodes are nodes and none of the dropped ones has a higher degree than a kept one |
| ExportGraph.KeptAsWrittenExceedsMax | slither_mcp/tools/export_call_graph.py:214-215 | with `max_nodes = -1` the slice keeps at least one node, more than the maximum |
| ExportGraph.Kept | slither_mcp/tools/export_call_graph.py:214-215 | with the bound clamped at zero, the kept nodes are distinct, at most `max_nodes`, and none when it is negative |
| ExportGraph.KeptBestConnected | slither_mcp/tools/export_call_graph.py:205-215 | every kept node has at least the degree of every dropped node |
| ExportGraph.KeepEdges | slither_mcp/tools/export_call_graph.py:218 | exactly the edges with both ends kept |
| ExportGraph.NodeLines | slither_mcp/tools/export_call_graph.py:250-253 | one line per node, with its label |
| ExportGraph.EdgeLinesComplete | slither_mcp/tools/export_call_graph.py:255-264 | when every edge end is a node, one arrow line per edge, in order |
| ExportGraph.RenderFrame | slither_mcp/tools/export_call_graph.py:243-289 | Mermaid starts `graph TD`; DOT starts `digraph CallGraph {` and ends with `}` |
| ExportGraph.LineCount | slither_mcp/tools/export_call_graph.py:243-289 | the text has the header lines plus one line per node and per edge |
| ExportGraph.ContractsToProcess | slither_mcp/tools/export_call_graph.py:133-145 | the requested contract alone, or every contract in order |
| ExportGraph.CollectedClosed | slither_mcp/tools/export_call_graph.py:146-200 | before truncation every edge end is a node |
| ExportGraph.Truncate | slither_mcp/tools/export_call_graph.py:203-219 | truncated iff there are more nodes than the maximum; untruncated graphs are unchanged; a truncated non-empty graph loses nodes, keeps at most the maximum when it is non-negative, keeps the best-connected nodes, and exactly the edges between kept nodes |
| ExportGraph.TruncateFixed | slither_mcp/tools/export_call_graph.py:203-219 | as truncation, but a truncated graph keeps at most the maximum clamped at zero |
| ExportGraph.TruncateFixedAgrees | slither_mcp/tools/export_call_graph.py:214-215 | for a non-negative maximum the two truncations agree |
| ExportGraph.CollectGraph | slither_mcp/tools/export_call_graph.py:109-219 | a non-negative `max_nodes` bounds the node count; an untruncated graph has at most `max_nodes` nodes; a truncated one has fewer nodes than were collected, or none |
| ExportGraph.CollectGraphShape | slither_mcp/tools/export_call_graph.py:146-219 | truncated iff the collected nodes exceed the maximum; untruncated, every source function is a node and every collected edge is kept; all nodes are distinct and every edge joins two nodes, leaves a source function and has an allowed kind; before truncation every source function has an edge to each internal callee, and to each external or library callee when that kind is included |
| ExportGraph.BuildHasEdges | slither_mcp/tools/export_call_graph.py:146-195 | the built graph has an edge from every source function to each of its callees of an included kind |
| ExportGraph.ExportCallGraph | slither_mcp/tools/export_call_graph.py:109-240 | fails iff a requested contract is unknown; success renders the requested format with its header and footer; a non-negative maximum bounds the node count, and an untruncated count is within the maximum |
| ExportGraph.ExportCountsMatchText | slither_mcp/tools/export_call_graph.py:227-234 | the node and edge counts are the sizes of the rendered node set and edge list |
| Storage.ElementarySize | slither_mcp/tools/get_storage_layout.py:156-214 | a table size lies between 1 and 32 bytes |
| Storage.WidthSize | slither_mcp/tools/get_storage_layout.py:170-190 | a width found by searching upwards from `k` lies between `k` and 32 |
| Storage.SizedNameUnique | slither_mcp/tools/get_storage_layout.py:170-190 | a type name denotes at most one width |
| Storage.SizedNameShape | slither_mcp/tools/get_storage_layout.py:170-190 | sized names start `uint`, `int` or `bytes`, end in a digit and have no `[` |
| Storage.TypeSize | slither_mcp/tools/get_storage_layout.py:156-214 | every type size lies in [1, 32] |
| Storage.TypeSizeOfSized | slither_mcp/tools/get_storage_layout.py:156-241 | a sized name of width k takes k bytes and packs |
| Storage.NewSlotFillsSlot | slither_mcp/tools/get_storage_layout.py:217-241 | a type that needs its own slot takes all 32 bytes, unless its stripped name starts with `contract `, `interface `, `enum ` or `function`, which are sized before the slot rule applies |
| Storage.OwnedFrom | slither_mcp/tools/get_storage_layout.py:312-337 | exactly the stored (non-constant, non-immutable) variables, tagged with the contract |
| Storage.CollectFrom | slither_mcp/tools/get_storage_layout.py:244-282 | the visited set only grows |
| Storage.CollectInheritedOrder | slither_mcp/tools/get_storage_layout.py:244-282 | an unknown contract contributes nothing; otherwise each reached contract once, known, the target last, and its own variables at the end |
| Storage.CollectInheritedParentsFirst | slither_mcp/tools/get_storage_layout.py:244-282 | for acyclic inheritance every contract comes after all its parents |
| Storage.PackSlots | slither_mcp/tools/get_storage_layout.py:339-374 | every variable is placed with offset < 32 and offset + size <= 32; a new-slot type starts at offset 0; slots never decrease and a packed variable follows its predecessor directly; total slots is the last slot + 1, or 0 |
| Storage.WellPackedDisjoint | slither_mcp/tools/get_storage_layout.py:344-371 | two placed variables never overlap |
| Storage.WellPackedMonotone | slither_mcp/tools/get_storage_layout.py:344-371 | slot numbers are non-decreasing and grow by at most one per variable |
| Storage.TotalSlotsBound | slither_mcp/tools/get_storage_layout.py:374-376 | at least one slot is used when any variable is, and never more than the variable count |
| Storage.LayoutUnique | slither_mcp/tools/get_storage_layout.py:339-374 | the packing rule determines the layout completely |
| Storage.OwnLayoutVariables | slither_mcp/tools/get_storage_layout.py:312-321 | without inheritance only the contract's own stored variables, none marked inherited |
| Storage.GetStorageLayout | slither_mcp/tools/get_storage_layout.py:285-388 | an unknown contract fails, echoing the key; an interface has an empty layout; otherwise the page and total slots come from the one packing of the selected variables |
| Artifacts.Envelope | slither_mcp/artifacts.py:33-44 | exactly the type tag, version, checksum of the data, and data fields |
| Artifacts.NormalizePath | slither_mcp/artifacts.py:66-79 | relative paths are unchanged |
| Artifacts.NormalizePaths | slither_mcp/artifacts.py:66-79 | keys, order, project directory and detector data are unchanged |
| Artifacts.NormalizePathsEffect | slither_mcp/artifacts.py:66-79 | only each contract's path is rewritten |
| Artifacts.NormalizePathIdempotent | slither_mcp/artifacts.py:66-79 | normalising a path twice equals normalising it once |
| Artifacts.NormalizePathsIdempotent | slither_mcp/artifacts.py:66-79 | normalising the facts twice equals normalising them once |
| Artifacts.Get | slither_mcp/artifacts.py:120-134 | a field is present iff it exists and is not null |
| Artifacts.LoadProjectFacts | slither_mcp/artifacts.py:96-141 | a missing file gives exactly FileNotFound for the cache path |
| Artifacts.LoadMissingExactly | slither_mcp/artifacts.py:96-108 | loading reports file-not-found iff there is no file |
| Artifacts.LoadAccepts | slither_mcp/artifacts.py:96-147 | a cache loads iff it is an object with the type tag, the current version, non-null data, a matching or absent checksum and valid data; what loads is the data with paths normalised |
| Artifacts.LegacyRejected | slither_mcp/artifacts.py:143-147 | an object without the type tag is rejected as the legacy format |
| Artifacts.OtherVersionRejected | slither_mcp/artifacts.py:113-118 | another schema version is reported as corruption |
| Artifacts.SaveLoadRoundTrip | slither_mcp/artifacts.py:33-44 | loading a saved envelope gives the saved facts with paths normalised |
| Artifacts.SaveLoadRelative | slither_mcp/artifacts.py:33-141 | with relative paths, loading what was saved gives the facts back |
| Artifacts.TamperedDataRejected | slither_mcp/artifacts.py:126-134 | data whose checksum differs from the recorded one is rejected |
| Artifacts.ChecksumOptional | slither_mcp/artifacts.py:126-134 | an envelope without a checksum still loads |
| Listing.ListedKeys | slither_mcp/tools/list_contracts.py:74-93 | exactly the contracts that pass the exclusion and type filters, in facts order |
| Listing.UnsortedContracts | slither_mcp/tools/list_contracts.py:74-107 | one row per listed contract, with its flags and declared plus inherited function count |
| Listing.ContractsBeforePaging | slither_mcp/tools/list_contracts.py:109-117 | the same rows, in facts order without a sort key, else sorted by it in the requested direction |
| Listing.ListContracts | slither_mcp/tools/list_contracts.py:59-124 | always succeeds; the total counts the listed contracts before paging; the page is a page of the ordered rows |
| Listing.ListContractsStable | slither_mcp/tools/list_contracts.py:110-117 | rows with equal sort keys keep their facts order |
| Listing.FunctionRows | slither_mcp/tools/list_functions.py:84-143 | one row per function passing the visibility and modifier filters, keyed by the queried contract, with `line_end - line_start + 1` lines |
| Listing.UnsortedFunctions | slither_mcp/tools/list_functions.py:84-143 | declared rows precede inherited rows, and every passing function has a row |
| Listing.FunctionsBeforePaging | slither_mcp/tools/list_functions.py:145-160 | the same rows, unchanged without a sort key, else sorted by it |
| Listing.ListFunctions | slither_mcp/tools/list_functions.py:56-169 | fails iff the contract is unknown, with no functions and total 0; on success a page of the ordered rows with the total before paging |
| Listing.ByVisibilityRanks | slither_mcp/tools/list_functions.py:154-158 | sorted by visibility, ranks follow external < public < internal < private < other, reversed for descending order |
| Listing.ListFunctionsStable | slither_mcp/tools/list_functions.py:145-160 | rows with equal sort keys keep their original order |
| Search.KeysIn | slither_mcp/tools/search_functions.py:103-145 | one function key per signature, in the contract's context |
| Search.AllFunctionKeys | slither_mcp/tools/search_functions.py:98-145 | every declared and inherited function of the scanned contracts |
| Search.FunctionMatches | slither_mcp/tools/search_functions.py:98-145 | every match is a function of an unexcluded contract whose target matches; with deduplication no two matches share name and signature, and the first hit of each name and signature in scan order is the one kept |
| Common.DedupByKeepsFirst | slither_mcp/tools/search_functions.py:132-137 | the first element of a sequence whose key is neither already seen nor carried by an earlier element survives deduplication |
| Search.FunctionMatchesInOrder | slither_mcp/tools/search_functions.py:98-145 | matches keep the scan order: contracts in facts order, declared before inherited |
| Search.FunctionMatchesCover | slither_mcp/tools/search_functions.py:98-145 | every matching function is reported, or one with the same name and signature |
| Search.SearchFunctions | slither_mcp/tools/search_functions.py:77-152 | fails iff the pattern does not compile, with the error and no matches; otherwise a page of the matches |
| Search.ContractMatches | slither_mcp/tools/search_contracts.py:87-93 | exactly the contracts whose name matches and whose path is not excluded, in facts order |
| Search.SearchContracts | slither_mcp/tools/search_contracts.py:64-99 | fails iff the pattern does not compile; otherwise a page of the matches with the total before paging |
| Overview.CountKinds | slither_mcp/tools/get_project_overview.py:113-127 | the four kinds partition the contracts, library before interface before abstract |
| Overview.ContractCountsOf | slither_mcp/tools/get_project_overview.py:113-127 | the total is the number of contracts; each kind counter counts the contracts of its kind (library first, then interface, abstract, concrete), and they sum to the total |
| Overview.LibraryTakesPrecedence | slither_mcp/tools/get_project_overview.py:118-125 | a library counts only as a library |
| Overview.CountFunctions | slither_mcp/tools/get_project_overview.py:137-145 | the declared total is the number of declared functions and the inherited total the number of inherited functions, over all contracts |
| Overview.StoredFunctions | slither_mcp/tools/get_project_overview.py:143-148 | exactly the functions of the chosen table (declared or inherited) of all contracts |
| Overview.CountVisibility | slither_mcp/tools/get_project_overview.py:150-158 | each bucket counts the functions with that visibility, ignoring case |
| Overview.VisibilityPartition | slither_mcp/tools/get_project_overview.py:150-158 | the four buckets plus the functions of any other visibility are exactly the functions |
| Overview.VisibilityComplete | slither_mcp/tools/get_project_overview.py:150-158 | the buckets sum to at most the number of functions, and to exactly it iff every visibility is one of the four |
| Overview.SizeMonotone | slither_mcp/tools/get_project_overview.py:161-169 | a longer function never falls into a smaller size class |
| Overview.CountSizes | slither_mcp/tools/get_project_overview.py:161-169 | the size classes partition the functions |
| Overview.CountImpacts | slither_mcp/tools/get_project_overview.py:180-195 | each impact bucket counts its findings, unknown impacts as informational |
| Overview.ImpactPartition | slither_mcp/tools/get_project_overview.py:180-195 | the impact buckets sum to the number of findings |
| Overview.DetectorEntries | slither_mcp/tools/get_project_overview.py:180-195 | one entry per detector with at least one finding |
| Overview.RankedDetectors | slither_mcp/tools/get_project_overview.py:196-202 | the detectors with findings, by count descending |
| Overview.TopDetectors | slither_mcp/tools/get_project_overview.py:196-202 | five detectors with findings, or all of them when fewer have findings, by count descending |
| Overview.TopDetectorsDominate | slither_mcp/tools/get_project_overview.py:196-202 | a detector left out has no more findings than any listed one |
| Overview.SummarizeFunctions | slither_mcp/tools/get_project_overview.py:136-169 | the totals count declared and inherited functions; each visibility bucket and each size class counts the declared functions of its class; the size classes sum to the declared total and the visibility buckets to at most it |
| Overview.FunctionTotals | slither_mcp/tools/get_project_overview.py:136-169 | the four size classes together count every declared function; the four visibility buckets count at most them, since other visibilities go uncounted |
| Overview.SummarizeFindings | slither_mcp/tools/get_project_overview.py:172-195 | each impact counter counts the stored findings of that impact, and together they count every finding |
| Overview.GetProjectOverview | slither_mcp/tools/get_project_overview.py:95-218 | the contract kinds, function totals, visibility and size buckets and impact counts each count their class, and the partitions agree with the totals; the top detectors are min(5, detectors with findings) entries by count descending, and no detector left out has more findings than a listed one |
| Analysis.Gather | slither_mcp/tools/analyze_events.py:73-94 | exactly the rows of the scanned contracts |
| Analysis.GatherTwo | slither_mcp/tools/analyze_events.py:73-94 | rows of two contracts come in contract order |
| Analysis.Respond | slither_mcp/tools/analyze_low_level_calls.py:108-127 | the summary counts each key's rows and sums to the total; the page is a page of the sorted rows |
| Analysis.CallRows | slither_mcp/tools/analyze_low_level_calls.py:84-106 | exactly the declared functions with low-level calls passing the visibility filter; payable iff the modifiers include it |
| Analysis.LowLevelCalls | slither_mcp/tools/analyze_low_level_calls.py:78-106 | the rows of the scanned contracts |
| Analysis.RankedCalls | slither_mcp/tools/analyze_low_level_calls.py:113-114 | the same rows sorted by exposure rank |
| Analysis.AnalyzeLowLevelCalls | slither_mcp/tools/analyze_low_level_calls.py:62-127 | always succeeds; the total counts the rows; the summary keys are their lowered visibilities, each counting the rows with it, and sum to the total; every item is a reported call; the page is a page of the ranked calls |
| Analysis.LowLevelCallsByExposure | slither_mcp/tools/analyze_low_level_calls.py:113-114 | the page is ordered external < public < internal < private < other |
| Analysis.PageOfSorted | slither_mcp/pagination.py:68-73 | a page of a sorted list is sorted |
| Analysis.ExposureRanks | slither_mcp/tools/analyze_low_level_calls.py:113-114 | a list sorted by exposure key has non-decreasing visibility rank |
| Analysis.VariableRows | slither_mcp/tools/analyze_state_variables.py:84-98 | exactly the variables passing the visibility, constant and immutable filters |
| Analysis.StateVariables | slither_mcp/tools/analyze_state_variables.py:77-98 | the rows of the scanned contracts |
| Analysis.AnalyzeStateVariables | slither_mcp/tools/analyze_state_variables.py:61-116 | the total counts the rows; the summary keys are their lowered visibilities, each counting the rows with it, and sum to the total |
| Analysis.StateVariablesByName | slither_mcp/tools/analyze_state_variables.py:105 | the page is sorted by contract name, then variable name |
| Analysis.StateVariablesUnfiltered | slither_mcp/tools/analyze_state_variables.py:77-98 | without filters every state variable is reported |
| Analysis.EventInfoOf | slither_mcp/tools/analyze_events.py:83 | the indexed count is the number of indexed parameters |
| Analysis.EventRows | slither_mcp/tools/analyze_events.py:73-94 | exactly the events whose name contains the filter, ignoring case |
| Analysis.Events | slither_mcp/tools/analyze_events.py:73-94 | the rows of the scanned contracts |
| Analysis.AnalyzeEvents | slither_mcp/tools/analyze_events.py:56-108 | the total counts the rows; the summary keys are the contract names, each counting that contract's kept events, and sum to the total |
| Analysis.EventsByName | slither_mcp/tools/analyze_events.py:97 | the page is sorted by contract name, then event name |
| Modifiers.UsesOf | slither_mcp/tools/analyze_modifiers.py:77-92 | one use per modifier of the function that contains the filter |
| Modifiers.DeclaredUses | slither_mcp/tools/analyze_modifiers.py:77-92 | the uses of declared functions, keyed by the scanned contract |
| Modifiers.InheritedUses | slither_mcp/tools/analyze_modifiers.py:95-112 | the uses of inherited functions, keyed by the implementing contract |
| Modifiers.ScanUses | slither_mcp/tools/analyze_modifiers.py:71-112 | declared uses of the scanned contracts, plus inherited uses only without a contract filter |
| Modifiers.Record | slither_mcp/tools/analyze_modifiers.py:84-112 | the modifier is listed afterwards, appended to the order only when new, and other lists are unchanged; a key already listed is not added again when the use is checked or deduplication is on |
| Modifiers.UsageLists | slither_mcp/tools/analyze_modifiers.py:71-112 | the listed modifiers are the used ones; each list is non-empty and holds exactly its users, each once when every key is looked up |
| Modifiers.RecordStep | slither_mcp/tools/analyze_modifiers.py:84-112 | one recorded use adds its modifier and function and keeps lists non-empty |
| Modifiers.DedupKeepsFunctions | slither_mcp/tools/analyze_modifiers.py:71-112 | looking up every key lists the same functions under the same modifiers, each once |
| Modifiers.UsageSameOrder | slither_mcp/tools/analyze_modifiers.py:84-112 | looking keys up or not, the same modifiers are listed in the same order |
| Modifiers.TwoUsesRecorded | slither_mcp/tools/analyze_modifiers.py:84-112 | an inherited use followed by the equal declared use is listed twice as written, once when looked up |
| Modifiers.VaultFirstCountsTwice | slither_mcp/tools/analyze_modifiers.py:71-112 | for the two-contract example, `onlyOwner` is used twice by one function as written, once when corrected |
| Modifiers.DefiningContract | slither_mcp/tools/analyze_modifiers.py:119-126 | set iff the name has a `.` and some contract has the prefix's name, and then the first such contract |
| Modifiers.UsageRows | slither_mcp/tools/analyze_modifiers.py:116-135 | one row per modifier with its defining contract, users and count |
| Modifiers.ModifierRows | slither_mcp/tools/analyze_modifiers.py:116-135 | one row per listed modifier, sorted by usage count descending |
| Modifiers.ModifierRowsSound | slither_mcp/tools/analyze_modifiers.py:71-135 | each row's count is the length of its non-empty user list, which names exactly the functions that use the modifier and, only when every key is looked up, lists each once; its name passes the filter and it names the defining contract |
| Modifiers.ModifierRowsComplete | slither_mcp/tools/analyze_modifiers.py:71-135 | every scanned use appears in its modifier's row |
| Modifiers.AnalyzeModifiers | slither_mcp/tools/analyze_modifiers.py:62-145 | always succeeds; a page of the rows as the source builds them, with the modifier count as total |
| Modifiers.AnalyzeModifiersFixed | slither_mcp/tools/analyze_modifiers.py:62-145 | with every key looked up: the same total, and every row on the page lists each using function once and counts them |
| Modifiers.ModifiersByUsage | slither_mcp/tools/analyze_modifiers.py:116 | the page is ordered by usage count descending |
| Detectors.ResultsFor | slither_mcp/tools/run_detectors.py:55-64 | exactly the results of the kept detectors, never more than the finding count, all of them when every detector is kept |
| Detectors.AllResults | slither_mcp/tools/run_detectors.py:61-64 | every stored result; the count is the sum of the list lengths |
| Detectors.ResultsForInOrder | slither_mcp/tools/run_detectors.py:55-64 | selected results keep detector order and the order within each detector |
| Detectors.LowerAll | slither_mcp/tools/run_detectors.py:57 | each name lowered, in place |
| Detectors.SelectedResults | slither_mcp/tools/run_detectors.py:55-74 | exactly the results of the named detectors (all without names) that pass the impact and confidence filters, ignoring case, in stored order |
| Detectors.RunDetectors | slither_mcp/tools/run_detectors.py:35-87 | always succeeds; a page of the selected results; every item passes each filter |
| Detectors.RunDetectorsUnfiltered | slither_mcp/tools/run_detectors.py:61-64 | without filters the total is the sum of all result lists |
| Detectors.RunDetectorsUnknownNames | slither_mcp/tools/run_detectors.py:55-60 | names that match no detector give success with no results |
| Detectors.MatchingDetectors | slither_mcp/tools/list_detectors.py:49-58 | exactly the detectors whose lowered name or description contains the lowered filter, in catalogue order; all without a filter |
| Detectors.MatchingIgnoresCase | slither_mcp/tools/list_detectors.py:52-58 | a filter and its lowered form list the same detectors |
| Detectors.ListDetectors | slither_mcp/tools/list_detectors.py:35-71 | always succeeds; a page of the matching detectors with the total before paging |
| ContractTools.WithoutFunctions | slither_mcp/tools/get_contract.py:50-64 | the stripped copy keeps the header and has no functions, state variables or events |
| ContractTools.WithoutFunctionsFixes | slither_mcp/tools/get_contract.py:50-64 | a bare contract is unchanged by stripping, so stripping is idempotent |
| ContractTools.WithoutFunctionsKeepsHeader | slither_mcp/tools/get_contract.py:52-64 | two contracts strip to the same copy iff their headers agree |
| ContractTools.GetContract | slither_mcp/tools/get_contract.py:41-69 | succeeds iff the key is known; with functions the stored model unchanged, without them a bare copy with the same header |
| ContractTools.SignedDecimal | slither_mcp/tools/get_function_source.py:66-72 | negative numbers, and only they, render with a leading minus |
| ContractTools.SignedDecimalInjective | slither_mcp/tools/get_function_source.py:66-72 | different numbers render differently |
| ContractTools.JoinConcat | slither_mcp/tools/get_function_source.py:86-94 | joining two line lists is joining each and concatenating |
| ContractTools.LinesBetweenSplit | slither_mcp/tools/get_function_source.py:86-94 | adjacent line ranges concatenate to the range they cover |
| ContractTools.LinesBetweenOne | slither_mcp/tools/get_function_source.py:86-94 | a one-line range is that line |
| ContractTools.GetFunctionSource | slither_mcp/tools/get_function_source.py:45-100 | succeeds iff the key resolves, the file exists, the range is valid and within the file; resolution errors, a missing file, an invalid range and a range past the end of the file each fail with their message, a missing file before any range check; success returns lines `start..end` counted from 1 |
| ContractTools.WholeFileSource | slither_mcp/tools/get_function_source.py:86-94 | a range covering the whole file returns the whole file |

## Left out

- I/O:
  - Reading the cache file is a `CacheFile` parameter: missing, unparseable, or a parsed JSON value.
  - Reading a source file is a map from paths to lines.
  - Writing the cache and `os.path.exists` are not modelled.
  - The "Error reading source file" exception path of `get_function_source` is not modelled.
- JSON serialisation, SHA-256, pydantic validation and `os.path` helpers are function parameters with no interpretation. The round-trip lemmas assume the codec parses what it writes.
- Regex compilation and search are a `Compiled` parameter: an error message, or a matcher predicate.
- `lower()` is ASCII lower-casing. Unicode case folding is not modelled. `strip()` strips the characters Python treats as whitespace.
- Python `set` iteration order is not modelled.
  - It is observable in the callers lists, `get_callees`' lists, the dependency targets and the exported node order.
  - The model fixes one admissible order (first occurrence, or key order) and states only order-independent facts about it.
- Resolution.GetFullInheritance and Resolution.ResolveFunctionImplementations: the source has no cycle guard. Both require an acyclic inheritance graph given as a rank map. Every parent must be present, and every contract must be stored under its own key (`entries[k].key == k`).
- CallQueries.ListFunctionImplementations: requires the same acyclic, self-keyed inheritance graph, because it resolves implementations through Resolution.ResolveFunctionImplementations.
- Exception wrappers are not modelled as separate paths: the "Failed to ..." messages of `get_contract_dependencies`, `export_call_graph` and `get_project_overview` ("Failed to generate project overview"), the exception path of `find_dead_code`, and the `except Exception` branches of `run_detectors` and `list_detectors`. The modelled functions cannot raise on typed input.
- ExportGraph.Truncate: the order among nodes of equal degree when truncating depends on set order. The model keeps nodes of equal degree in insertion order.
- `get_contract_source.py`, `server.py`, `facts.py`, `tool_registry.py`, `metrics.py`, `slither_wrapper.py` and the client package are not part of this model. They are transport, Slither extraction and process plumbing.
- `validate_path_within_project` and the project-path argument of every request are not modelled. The model starts from an already loaded `ProjectFacts`.
- Model.ProjectIsContractInContext is a predicate with no contract of its own. It is used by the resolution functions.
- Storage.ElementarySize: the 100-entry size table is generated by rule, from the widths 1 to 32, instead of being written out.
- Search.SearchFunctions and Search.SearchContracts: the limit and offset validators are modelled once, by Pagination.ValidatePageRequest, not per request type.
- Trees.GetInheritedContracts: the default `max_depth` of 3 is left to the caller.
- Artifacts.CacheFilePath joins with `+ "/"`, whereas pathlib's `/` also normalises an empty directory, `.` and a trailing slash.
- Artifacts.Json has integer numbers only. A floating-point `_cache_version` cannot be represented, so the model cannot show it being rejected as another version.

## Findings

| source | as written | input that shows it | evidently intended | confidence | as-written member | corrected member |
|---|---|---|---|---|---|---|
| slither_mcp/types.py:680-705 | membership is checked with normalised matching, but the model is then fetched with the exact signature | contract `C` storing `f(T)`, asked for `C.f(Q.T)`: contains-check true, then `functions_declared["f(Q.T)"]` raises KeyError | fetch the model stored under the matched key | not executed | Resolution.ResolveFunctionQualifiedCrash | Resolution.ResolveFunctionFixed |
| slither_mcp/tools/export_call_graph.py:203-215 | `max_nodes` is not validated, and `sorted_nodes[:max_nodes]` with a negative value keeps all but the last nodes | `max_nodes = -1` with two nodes: truncated, and one node kept, more than the maximum | a negative maximum keeps no nodes | not executed | ExportGraph.KeptAsWrittenExceedsMax | ExportGraph.TruncateFixed |
| slither_mcp/tools/analyze_modifiers.py:77-112 | declared uses are appended without the duplicate check that inherited uses get | contracts in order `[Vault, Owned]`, where `Vault` inherits `withdraw()` with `onlyOwner` from `Owned`: `used_by` is `[withdraw, withdraw]` and `usage_count` is 2 | each function listed once per modifier | not executed | Modifiers.VaultFirstCountsTwice | Modifiers.AnalyzeModifiersFixed |
