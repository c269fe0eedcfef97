/** The call-graph export: node ids and labels, the graph built from the
    declared functions of the selected contracts, truncation to the
    best-connected nodes, and the Mermaid and DOT renderings. */
module ExportGraph {
  import opened Common
  import opened Dicts
  import opened Keys
  import opened Model
  import Sorting

  const DefaultMaxNodes: int := 100

  // ---------------------------------------------------------------------
  // Node ids and labels

  /** Characters that break Mermaid or DOT identifiers. */
  predicate Unsafe(c: char) {
    c == '.' || c == '(' || c == ')' || c == ',' || c == ' ' || c == '-'
  }

  /** Six chained `replace(x, "_")` calls act as one pass that maps every
      unsafe character to `_`. */
  function SanitizeNodeId(name: string): (r: string)
    ensures |r| == |name|
    ensures forall i :: 0 <= i < |name| ==> r[i] == (if Unsafe(name[i]) then '_' else name[i])
    ensures forall i :: 0 <= i < |r| ==> !Unsafe(r[i])
  {
    ReplaceChar(ReplaceChar(ReplaceChar(ReplaceChar(ReplaceChar(ReplaceChar(
      name, '.', '_'), '(', '_'), ')', '_'), ',', '_'), ' ', '_'), '-', '_')
  }

  /** Sanitising an id again changes nothing. */
  lemma SanitizeIdempotent(name: string)
    ensures SanitizeNodeId(SanitizeNodeId(name)) == SanitizeNodeId(name)
  {
  }

  /** The node of function `sig` of contract `contractName`. */
  function NodeId(contractName: string, sig: string): string {
    SanitizeNodeId(contractName + "_" + sig)
  }

  /** The node a callee name `Contract.sig` points to. */
  function CalleeId(callee: string): string {
    SanitizeNodeId(ReplaceChar(callee, '.', '_'))
  }

  /** A callee `C.sig` and the declared function `sig` of `C` are the same
      node, so call edges land on the callee's own node. */
  lemma CalleeIdMeetsNodeId(contractName: string, sig: string)
    ensures CalleeId(contractName + "." + sig) == NodeId(contractName, sig)
  {
    var a, b := ReplaceChar(contractName + "." + sig, '.', '_'), contractName + "_" + sig;
    assert |a| == |b|;
    forall i | 0 <= i < |a| ensures SanitizeNodeId(a)[i] == SanitizeNodeId(b)[i] {
      if i < |contractName| {
        assert (contractName + "." + sig)[i] == b[i];
      } else if i > |contractName| {
        assert (contractName + "." + sig)[i] == b[i];
      }
    }
  }

  datatype LabelFormat = Short | Full

  /** `C.sig` in full; `C.name` in short form, where `name` is the text of
      the signature before its first `(`. */
  function FormatFunctionLabel(contractName: string, sig: string, format: LabelFormat): (r: string)
    ensures |r| > |contractName|
    ensures r[..|contractName| + 1] == contractName + "."
    ensures format.Full? ==> r[|contractName| + 1..] == sig
    ensures format.Short? ==> r[|contractName| + 1..] <= sig && '(' !in r[|contractName| + 1..]
    ensures format.Short? && '(' in sig ==> sig[|r| - |contractName| - 1] == '('
  {
    var r := if format.Full? then contractName + "." + sig else contractName + "." + Before(sig, '(');
    assert r[..|contractName| + 1] == contractName + ".";
    r
  }

  /** The label a callee node gets when no label exists yet. */
  function CalleeLabel(callee: string, format: LabelFormat): string {
    if format.Full? then callee
    else if '(' in callee then Before(callee, '(')
    else callee
  }

  /** The short callee label is the text before the first `(`; the
      membership guard in front of the split changes nothing. */
  lemma CalleeLabelIsBefore(callee: string)
    ensures CalleeLabel(callee, Short) == Before(callee, '(')
    ensures CalleeLabel(callee, Short) <= callee && '(' !in CalleeLabel(callee, Short)
  {
    if '(' !in callee {
      AfterAbsent(callee, '(');
    }
  }

  /** A callee `C.sig` is labelled as the function `sig` of `C` would be,
      when the contract name has no `(`. */
  lemma CalleeLabelMeetsFunctionLabel(contractName: string, sig: string, format: LabelFormat)
    requires '(' !in contractName
    ensures CalleeLabel(contractName + "." + sig, format) == FormatFunctionLabel(contractName, sig, format)
  {
    if format.Short? {
      CalleeLabelIsBefore(contractName + "." + sig);
      BeforeConcat(contractName + ".", sig, '(');
    }
  }

  // ---------------------------------------------------------------------
  // Source functions

  /** A declared function of one selected contract, admitted by the entry-point filter. */
  datatype Source = Source(contractName: string, signature: string, fn: FunctionModel)

  predicate Admitted(entryPointsOnly: bool, f: FunctionModel) {
    !entryPointsOnly || IsPublicOrExternal(f.visibility)
  }

  /** `s` is an admitted declared function of the contract `ck`. */
  predicate DeclaredIn(c: ContractModel, ck: ContractKey, entryPointsOnly: bool, s: Source) {
    s.contractName == ck.contractName
    && s.signature in c.functionsDeclared.entries
    && s.fn == c.functionsDeclared.entries[s.signature]
    && Admitted(entryPointsOnly, s.fn)
  }

  function DeclaredSources(c: ContractModel, ck: ContractKey, entryPointsOnly: bool, j: nat): (r: seq<Source>)
    requires j <= |c.functionsDeclared.order|
    ensures forall s :: s in r <==> DeclaredIn(c, ck, entryPointsOnly, s) && s.signature in c.functionsDeclared.order[j..]
    decreases |c.functionsDeclared.order| - j
  {
    if j == |c.functionsDeclared.order| then []
    else
      var sig := c.functionsDeclared.order[j];
      var f := c.functionsDeclared.entries[sig];
      assert c.functionsDeclared.order[j..] == [sig] + c.functionsDeclared.order[j + 1..];
      (if Admitted(entryPointsOnly, f) then [Source(ck.contractName, sig, f)] else [])
        + DeclaredSources(c, ck, entryPointsOnly, j + 1)
  }

  /** The source functions of the contracts `cks[i..]`, contract by contract. */
  function SelectedSources(facts: ProjectFacts, cks: seq<ContractKey>, entryPointsOnly: bool, i: nat): (r: seq<Source>)
    requires i <= |cks|
    requires forall k :: k in cks ==> k in facts.contracts.entries
    ensures forall s :: s in r <==>
      exists k :: i <= k < |cks| && DeclaredIn(facts.contracts.entries[cks[k]], cks[k], entryPointsOnly, s)
    decreases |cks| - i
  {
    if i == |cks| then []
    else
      var c := facts.contracts.entries[cks[i]];
      var here := DeclaredSources(c, cks[i], entryPointsOnly, 0);
      var rest := SelectedSources(facts, cks, entryPointsOnly, i + 1);
      assert forall s :: s in here <==> DeclaredIn(c, cks[i], entryPointsOnly, s) by {
        assert c.functionsDeclared.order[0..] == c.functionsDeclared.order;
      }
      here + rest
  }

  // ---------------------------------------------------------------------
  // Building nodes and edges

  datatype EdgeKind = InternalEdge | ExternalEdge | LibraryEdge

  datatype Edge = Edge(from: string, to: string, kind: EdgeKind)

  datatype Options = Options(entryPointsOnly: bool, includeExternal: bool, includeLibrary: bool, labelFormat: LabelFormat)

  /** The labelled node ids so far (Python's `node_labels`) and the edge list. */
  datatype Parts = Parts(labels: Dict<string, string>, edges: seq<Edge>)

  /** Every edge endpoint is a labelled node. */
  predicate Closed(p: Parts) {
    forall e :: e in p.edges ==> e.from in p.labels.entries && e.to in p.labels.entries
  }

  /** No edge of a kind the options leave out. */
  predicate KindsAllowed(edges: seq<Edge>, opts: Options) {
    forall e :: e in edges ==>
      (e.kind == ExternalEdge ==> opts.includeExternal) && (e.kind == LibraryEdge ==> opts.includeLibrary)
  }

  function CalleeEdges(from: string, callees: seq<string>, kind: EdgeKind): (r: seq<Edge>)
    ensures |r| == |callees|
    ensures forall m :: 0 <= m < |callees| ==> r[m] == Edge(from, CalleeId(callees[m]), kind)
  {
    seq(|callees|, m requires 0 <= m < |callees| => Edge(from, CalleeId(callees[m]), kind))
  }

  /** Some callee of `callees[j..]` has the node id `id`. */
  predicate MentionsId(callees: seq<string>, idOf: string -> string, j: nat, id: string) {
    exists m :: j <= m < |callees| && idOf(callees[m]) == id
  }

  /** Labels the callees `callees[j..]` whose node has no label yet; a
      label that exists is never replaced. The node of a callee is
      `idOf(callee)` and its label `labelOf(callee)`. */
  function LabelCallees(labels: Dict<string, string>, callees: seq<string>, idOf: string -> string, labelOf: string -> string, j: nat)
    : (r: Dict<string, string>)
    requires j <= |callees|
    ensures forall id :: id in r.entries <==> id in labels.entries || MentionsId(callees, idOf, j, id)
    ensures forall id :: id in labels.entries ==> r.entries[id] == labels.entries[id]
    decreases |callees| - j
  {
    if j == |callees| then labels
    else
      var id := idOf(callees[j]);
      assert forall x :: MentionsId(callees, idOf, j, x) <==> x == id || MentionsId(callees, idOf, j + 1, x) by {
        forall x | MentionsId(callees, idOf, j, x) && x != id ensures MentionsId(callees, idOf, j + 1, x) {
          var m :| j <= m < |callees| && idOf(callees[m]) == x;
        }
      }
      var next := if id in labels.entries then labels else Put(labels, id, labelOf(callees[j]));
      LabelCallees(next, callees, idOf, labelOf, j + 1)
  }

  /** A new label is the label of the first callee with that node id, the
      `m`-th one. */
  lemma {:induction false} LabelCalleesFirst(labels: Dict<string, string>, callees: seq<string>, idOf: string -> string,
                                             labelOf: string -> string, j: nat, id: string)
    returns (m: nat)
    requires j <= |callees|
    requires id in LabelCallees(labels, callees, idOf, labelOf, j).entries && id !in labels.entries
    ensures j <= m < |callees| && idOf(callees[m]) == id
    ensures forall m' :: j <= m' < m ==> idOf(callees[m']) != id
    ensures LabelCallees(labels, callees, idOf, labelOf, j).entries[id] == labelOf(callees[m])
    decreases |callees| - j
  {
    var c := idOf(callees[j]);
    var next := if c in labels.entries then labels else Put(labels, c, labelOf(callees[j]));
    assert LabelCallees(labels, callees, idOf, labelOf, j) == LabelCallees(next, callees, idOf, labelOf, j + 1);
    if c == id {
      m := j;
    } else {
      assert id !in next.entries;
      m := LabelCalleesFirst(next, callees, idOf, labelOf, j + 1, id);
    }
  }

  /** The callee lists the options keep. */
  function ExternalOf(f: FunctionModel, opts: Options): seq<string> {
    if opts.includeExternal then f.callees.externalCallees else []
  }

  function LibraryOf(f: FunctionModel, opts: Options): seq<string> {
    if opts.includeLibrary then f.callees.libraryCallees else []
  }

  /** Edges from `id` to every callee of one list, labelling new callees. */
  function AddCallees(p: Parts, id: string, callees: seq<string>, kind: EdgeKind, format: LabelFormat): Parts {
    Parts(LabelCallees(p.labels, callees, CalleeId, (c: string) => CalleeLabel(c, format), 0), p.edges + CalleeEdges(id, callees, kind))
  }

  lemma AddCalleesShape(p: Parts, id: string, callees: seq<string>, kind: EdgeKind, format: LabelFormat)
    requires id in p.labels.entries
    ensures p.labels.entries.Keys <= AddCallees(p, id, callees, kind, format).labels.entries.Keys
    ensures p.edges <= AddCallees(p, id, callees, kind, format).edges
    ensures |callees| == 0 ==> AddCallees(p, id, callees, kind, format).edges == p.edges
    ensures forall e :: e in AddCallees(p, id, callees, kind, format).edges ==> e in p.edges || (e.from == id && e.kind == kind)
    ensures Closed(p) ==> Closed(AddCallees(p, id, callees, kind, format))
  {
    var r := AddCallees(p, id, callees, kind, format);
    var added := CalleeEdges(id, callees, kind);
    forall e | e in added ensures e.to in r.labels.entries && e.from == id && e.kind == kind {
      var m :| 0 <= m < |added| && added[m] == e;
      assert e.to == CalleeId(callees[m]);
    }
  }

  /** A node `id` with its label, then an edge to every callee, internal,
      external and library in that order. */
  function AddNode(p: Parts, id: string, caption: string, internal: seq<string>, external: seq<string>, library: seq<string>, format: LabelFormat): Parts {
    var p0 := Parts(Put(p.labels, id, caption), p.edges);
    AddCallees(AddCallees(AddCallees(p0, id, internal, InternalEdge, format), id, external, ExternalEdge, format),
      id, library, LibraryEdge, format)
  }

  /** Adding a node keeps every node and labels `id`. */
  lemma AddNodeLabels(p: Parts, id: string, caption: string, internal: seq<string>, external: seq<string>, library: seq<string>, format: LabelFormat)
    ensures p.labels.entries.Keys <= AddNode(p, id, caption, internal, external, library, format).labels.entries.Keys
    ensures id in AddNode(p, id, caption, internal, external, library, format).labels.entries
  {
    var p0 := Parts(Put(p.labels, id, caption), p.edges);
    var p1 := AddCallees(p0, id, internal, InternalEdge, format);
    var p2 := AddCallees(p1, id, external, ExternalEdge, format);
    AddCalleesShape(p0, id, internal, InternalEdge, format);
    AddCalleesShape(p1, id, external, ExternalEdge, format);
    AddCalleesShape(p2, id, library, LibraryEdge, format);
  }

  /** Adding a node only appends edges, and they leave `id`. */
  lemma AddNodeEdges(p: Parts, id: string, caption: string, internal: seq<string>, external: seq<string>, library: seq<string>, format: LabelFormat)
    ensures p.edges <= AddNode(p, id, caption, internal, external, library, format).edges
    ensures forall e :: e in AddNode(p, id, caption, internal, external, library, format).edges ==> e in p.edges || e.from == id
  {
    var p0 := Parts(Put(p.labels, id, caption), p.edges);
    var p1 := AddCallees(p0, id, internal, InternalEdge, format);
    var p2 := AddCallees(p1, id, external, ExternalEdge, format);
    AddCalleesShape(p0, id, internal, InternalEdge, format);
    AddCalleesShape(p1, id, external, ExternalEdge, format);
    AddCalleesShape(p2, id, library, LibraryEdge, format);
  }

  /** Every new edge ends at a labelled node. */
  lemma AddNodeClosed(p: Parts, id: string, caption: string, internal: seq<string>, external: seq<string>, library: seq<string>, format: LabelFormat)
    requires Closed(p)
    ensures Closed(AddNode(p, id, caption, internal, external, library, format))
  {
    var p0 := Parts(Put(p.labels, id, caption), p.edges);
    var p1 := AddCallees(p0, id, internal, InternalEdge, format);
    var p2 := AddCallees(p1, id, external, ExternalEdge, format);
    AddCalleesShape(p0, id, internal, InternalEdge, format);
    AddCalleesShape(p1, id, external, ExternalEdge, format);
    AddCalleesShape(p2, id, library, LibraryEdge, format);
  }

  /** No external edge without external callees, no library edge without library callees. */
  lemma AddNodeKinds(p: Parts, id: string, caption: string, internal: seq<string>, external: seq<string>, library: seq<string>, format: LabelFormat, opts: Options)
    requires KindsAllowed(p.edges, opts)
    requires |external| > 0 ==> opts.includeExternal
    requires |library| > 0 ==> opts.includeLibrary
    ensures KindsAllowed(AddNode(p, id, caption, internal, external, library, format).edges, opts)
  {
    var p0 := Parts(Put(p.labels, id, caption), p.edges);
    var p1 := AddCallees(p0, id, internal, InternalEdge, format);
    var p2 := AddCallees(p1, id, external, ExternalEdge, format);
    AddCalleesShape(p0, id, internal, InternalEdge, format);
    AddCalleesShape(p1, id, external, ExternalEdge, format);
    AddCalleesShape(p2, id, library, LibraryEdge, format);
  }

  /** Adding a node draws an edge from it to every callee of each list. */
  lemma AddNodeHasEdges(p: Parts, id: string, caption: string, internal: seq<string>, external: seq<string>, library: seq<string>, format: LabelFormat)
    ensures var q := AddNode(p, id, caption, internal, external, library, format);
      (forall c :: c in internal ==> Edge(id, CalleeId(c), InternalEdge) in q.edges)
      && (forall c :: c in external ==> Edge(id, CalleeId(c), ExternalEdge) in q.edges)
      && (forall c :: c in library ==> Edge(id, CalleeId(c), LibraryEdge) in q.edges)
  {
    var p0 := Parts(Put(p.labels, id, caption), p.edges);
    var p1 := AddCallees(p0, id, internal, InternalEdge, format);
    var p2 := AddCallees(p1, id, external, ExternalEdge, format);
    var p3 := AddCallees(p2, id, library, LibraryEdge, format);
    CalleesHaveEdges(p0, id, internal, InternalEdge, format);
    CalleesHaveEdges(p1, id, external, ExternalEdge, format);
    CalleesHaveEdges(p2, id, library, LibraryEdge, format);
    assert p1.edges <= p2.edges <= p3.edges;
  }

  /** Adding the callees of one list draws an edge to each of them. */
  lemma CalleesHaveEdges(p: Parts, id: string, callees: seq<string>, kind: EdgeKind, format: LabelFormat)
    ensures forall c :: c in callees ==> Edge(id, CalleeId(c), kind) in AddCallees(p, id, callees, kind, format).edges
  {
    var added := CalleeEdges(id, callees, kind);
    forall c | c in callees ensures Edge(id, CalleeId(c), kind) in p.edges + added {
      var m :| 0 <= m < |callees| && callees[m] == c;
      assert added[m] == Edge(id, CalleeId(c), kind);
    }
  }

  /** One source function; external and library callees only when the options ask for them. */
  function AddSource(p: Parts, s: Source, opts: Options): Parts {
    AddNode(p, NodeId(s.contractName, s.signature), FormatFunctionLabel(s.contractName, s.signature, opts.labelFormat),
      s.fn.callees.internalCallees, ExternalOf(s.fn, opts), LibraryOf(s.fn, opts), opts.labelFormat)
  }

  /** Every source function in order. */
  function Build(p: Parts, srcs: seq<Source>, opts: Options): (r: Parts)
    ensures p.edges <= r.edges
    decreases |srcs|
  {
    if |srcs| == 0 then p else Build(AddSource(p, srcs[0], opts), srcs[1..], opts)
  }

  /** What the built graph keeps: every node it had, a node for every
      source function, closed edges and the allowed kinds, and every new
      edge leaving a source function's node. */
  lemma {:induction false} BuildShape(p: Parts, srcs: seq<Source>, opts: Options)
    ensures p.labels.entries.Keys <= Build(p, srcs, opts).labels.entries.Keys
    ensures forall s :: s in srcs ==> NodeId(s.contractName, s.signature) in Build(p, srcs, opts).labels.entries
    ensures Closed(p) ==> Closed(Build(p, srcs, opts))
    ensures KindsAllowed(p.edges, opts) ==> KindsAllowed(Build(p, srcs, opts).edges, opts)
    ensures forall e :: e in Build(p, srcs, opts).edges ==>
      e in p.edges || exists s :: s in srcs && e.from == NodeId(s.contractName, s.signature)
    decreases |srcs|
  {
    if |srcs| > 0 {
      var q := AddSource(p, srcs[0], opts);
      var s := srcs[0];
      var id, caption := NodeId(s.contractName, s.signature), FormatFunctionLabel(s.contractName, s.signature, opts.labelFormat);
      var internal, external, library := s.fn.callees.internalCallees, ExternalOf(s.fn, opts), LibraryOf(s.fn, opts);
      AddNodeLabels(p, id, caption, internal, external, library, opts.labelFormat);
      AddNodeEdges(p, id, caption, internal, external, library, opts.labelFormat);
      if Closed(p) {
        AddNodeClosed(p, id, caption, internal, external, library, opts.labelFormat);
      }
      if KindsAllowed(p.edges, opts) {
        AddNodeKinds(p, id, caption, internal, external, library, opts.labelFormat, opts);
      }
      BuildShape(q, srcs[1..], opts);
      assert Build(q, srcs[1..], opts) == Build(p, srcs, opts);
    }
  }

  /** `edges` hold an edge from the source function `s` to each of its
      internal callees, and to each external and library callee when the
      options include that kind. */
  predicate HasCalleeEdges(edges: seq<Edge>, s: Source, opts: Options) {
    var id := NodeId(s.contractName, s.signature);
    (forall c :: c in s.fn.callees.internalCallees ==> Edge(id, CalleeId(c), InternalEdge) in edges)
    && (opts.includeExternal ==> forall c :: c in s.fn.callees.externalCallees ==> Edge(id, CalleeId(c), ExternalEdge) in edges)
    && (opts.includeLibrary ==> forall c :: c in s.fn.callees.libraryCallees ==> Edge(id, CalleeId(c), LibraryEdge) in edges)
  }

  /** Adding a source function draws all of its callee edges. */
  lemma AddSourceHasEdges(p: Parts, s: Source, opts: Options)
    ensures HasCalleeEdges(AddSource(p, s, opts).edges, s, opts)
  {
    var id, caption := NodeId(s.contractName, s.signature), FormatFunctionLabel(s.contractName, s.signature, opts.labelFormat);
    AddNodeHasEdges(p, id, caption, s.fn.callees.internalCallees, ExternalOf(s.fn, opts), LibraryOf(s.fn, opts), opts.labelFormat);
  }

  /** Edges once drawn stay drawn. */
  lemma HasCalleeEdgesGrow(a: seq<Edge>, b: seq<Edge>, s: Source, opts: Options)
    requires a <= b && HasCalleeEdges(a, s, opts)
    ensures HasCalleeEdges(b, s, opts)
  {
  }

  /** The built graph has every callee edge of every source function. */
  lemma {:induction false} BuildHasEdges(p: Parts, srcs: seq<Source>, opts: Options)
    ensures forall s :: s in srcs ==> HasCalleeEdges(Build(p, srcs, opts).edges, s, opts)
    decreases |srcs|
  {
    if |srcs| > 0 {
      var q := AddSource(p, srcs[0], opts);
      assert Build(p, srcs, opts) == Build(q, srcs[1..], opts);
      BuildHeadHasEdges(p, srcs, opts);
      BuildHasEdges(q, srcs[1..], opts);
      assert forall s :: s in srcs ==> s == srcs[0] || s in srcs[1..] by {
        assert srcs == [srcs[0]] + srcs[1..];
      }
    }
  }

  /** The first source function's edges survive the rest of the build. */
  lemma BuildHeadHasEdges(p: Parts, srcs: seq<Source>, opts: Options)
    requires |srcs| > 0
    ensures HasCalleeEdges(Build(p, srcs, opts).edges, srcs[0], opts)
  {
    var q := AddSource(p, srcs[0], opts);
    assert Build(p, srcs, opts) == Build(q, srcs[1..], opts);
    AddSourceHasEdges(p, srcs[0], opts);
    HasCalleeEdgesGrow(q.edges, Build(q, srcs[1..], opts).edges, srcs[0], opts);
  }

  // ---------------------------------------------------------------------
  // Truncation

  /** Edges leaving plus edges entering `n`; a self-loop counts twice. */
  function Degree(edges: seq<Edge>, n: string): nat {
    if |edges| == 0 then 0
    else (if edges[0].from == n then 1 else 0) + (if edges[0].to == n then 1 else 0) + Degree(edges[1..], n)
  }

  /** `sorted(nodes, key=degree, reverse=True)`. */
  function ByDegree(nodes: seq<string>, edges: seq<Edge>): seq<string> {
    Sorting.SortBy(nodes, n => [Sorting.Num(Degree(edges, n))], true)
  }

  /** Nodes come out best-connected first. */
  lemma ByDegreeOrdered(nodes: seq<string>, edges: seq<Edge>)
    ensures forall x :: x in ByDegree(nodes, edges) <==> x in nodes
    ensures |ByDegree(nodes, edges)| == |nodes|
    ensures forall i, j :: 0 <= i < j < |ByDegree(nodes, edges)| ==>
      Degree(edges, ByDegree(nodes, edges)[i]) >= Degree(edges, ByDegree(nodes, edges)[j])
  {
    var key := (n: string) => [Sorting.Num(Degree(edges, n))];
    var r := ByDegree(nodes, edges);
    Sorting.SortBySorted(nodes, key, true);
    Sorting.SortByMembers(nodes, key, true);
    forall i, j | 0 <= i < j < |r| ensures Degree(edges, r[i]) >= Degree(edges, r[j]) {
      assert !Sorting.Before(key(r[j]), key(r[i]), true);
      var a, b := key(r[i]), key(r[j]);
      assert a[1..] == [] && b[1..] == [];
    }
  }

  /** The kept node set as the source computes it: `sorted_nodes[:max_nodes]`.
      A negative `max_nodes` drops nodes from the end instead of keeping none. */
  function KeptAsWritten(nodes: seq<string>, edges: seq<Edge>, maxNodes: int): (r: seq<string>)
    ensures Distinct(r)
    ensures maxNodes >= 0 ==> |r| <= maxNodes
    ensures maxNodes < 0 ==> |r| <= (if |nodes| + maxNodes > 0 then |nodes| + maxNodes else 0)
  {
    ByDegreeOrdered(nodes, edges);
    Dedup(PySliceTo(ByDegree(nodes, edges), maxNodes))
  }

  /** The slice keeps only nodes, and none of the dropped nodes has a
      higher degree than a kept one, whatever the sign of `max_nodes`. */
  lemma KeptAsWrittenBestConnected(nodes: seq<string>, edges: seq<Edge>, maxNodes: int)
    ensures forall x :: x in KeptAsWritten(nodes, edges, maxNodes) ==> x in nodes
    ensures forall a, b :: a in KeptAsWritten(nodes, edges, maxNodes) && b in nodes && b !in KeptAsWritten(nodes, edges, maxNodes) ==>
      Degree(edges, a) >= Degree(edges, b)
  {
    ByDegreeOrdered(nodes, edges);
    var s := ByDegree(nodes, edges);
    var cut := |PySliceTo(s, maxNodes)|;
    assert PySliceTo(s, maxNodes) == s[..cut];
    var kept := KeptAsWritten(nodes, edges, maxNodes);
    assert forall x :: x in kept <==> x in s[..cut];
    forall a, b | a in kept && b in nodes && b !in kept ensures Degree(edges, a) >= Degree(edges, b) {
      var i :| 0 <= i < cut && s[i] == a;
      var j :| 0 <= j < |s| && s[j] == b;
    }
  }

  /** With `max_nodes = -1` a graph of two or more nodes is truncated, yet
      keeps at least one node: more than the zero nodes a negative bound allows. */
  lemma KeptAsWrittenExceedsMax(nodes: seq<string>, edges: seq<Edge>)
    requires |nodes| >= 2
    ensures |nodes| > -1
    ensures |KeptAsWritten(nodes, edges, -1)| >= 1
  {
    ByDegreeOrdered(nodes, edges);
    var s := ByDegree(nodes, edges);
    assert PySliceTo(s, -1) == s[..|nodes| - 1];
    assert s[0] in Dedup(s[..|nodes| - 1]);
  }

  /** The kept nodes with the slice bound clamped at zero. */
  function Kept(nodes: seq<string>, edges: seq<Edge>, maxNodes: int): (r: seq<string>)
    ensures Distinct(r)
    ensures |r| <= |nodes| && (maxNodes >= 0 ==> |r| <= maxNodes) && (maxNodes < 0 ==> |r| == 0)
  {
    ByDegreeOrdered(nodes, edges);
    var s := ByDegree(nodes, edges);
    Dedup(s[..if maxNodes < 0 then 0 else Min(maxNodes, |s|)])
  }

  /** Kept nodes are nodes, and none of the dropped nodes has a higher
      degree than a kept one. */
  lemma KeptBestConnected(nodes: seq<string>, edges: seq<Edge>, maxNodes: int)
    ensures forall x :: x in Kept(nodes, edges, maxNodes) ==> x in nodes
    ensures forall a, b :: a in Kept(nodes, edges, maxNodes) && b in nodes && b !in Kept(nodes, edges, maxNodes) ==>
      Degree(edges, a) >= Degree(edges, b)
  {
    ByDegreeOrdered(nodes, edges);
    var s := ByDegree(nodes, edges);
    var cut := if maxNodes < 0 then 0 else Min(maxNodes, |s|);
    var kept := Kept(nodes, edges, maxNodes);
    assert forall x :: x in kept <==> x in s[..cut];
    forall a, b | a in kept && b in nodes && b !in kept ensures Degree(edges, a) >= Degree(edges, b) {
      var i :| 0 <= i < cut && s[i] == a;
      var j :| 0 <= j < |s| && s[j] == b;
    }
  }

  /** The edges whose two endpoints are kept, in order. */
  function KeepEdges(edges: seq<Edge>, kept: seq<string>): (r: seq<Edge>)
    ensures |r| <= |edges|
    ensures forall e :: e in r <==> e in edges && e.from in kept && e.to in kept
  {
    if |edges| == 0 then []
    else
      var e := edges[0];
      assert forall x :: x in edges <==> x == e || x in edges[1..];
      (if e.from in kept && e.to in kept then [e] else []) + KeepEdges(edges[1..], kept)
  }

  // ---------------------------------------------------------------------
  // Rendering

  datatype GraphFormat = Mermaid | Dot
  {
    function Name(): string {
      match this
      case Mermaid => "mermaid"
      case Dot => "dot"
    }
  }

  /** The label of a node, or the id itself when it has none. */
  function LabelOf(labels: Dict<string, string>, id: string): string {
    if id in labels.entries then labels.entries[id] else id
  }

  function NodeLine(format: GraphFormat, id: string, caption: string): string {
    match format
    case Mermaid => "    " + id + "[\"" + caption + "\"]"
    case Dot => "    " + id + " [label=\"" + caption + "\"];"
  }

  /** Mermaid: `-->`, `-.->`, `==>`; DOT: `->` plain, dashed or bold. */
  function EdgeLine(format: GraphFormat, e: Edge): string {
    match (format, e.kind)
    case (Mermaid, InternalEdge) => "    " + e.from + " --> " + e.to
    case (Mermaid, ExternalEdge) => "    " + e.from + " -.-> " + e.to
    case (Mermaid, LibraryEdge) => "    " + e.from + " ==> " + e.to
    case (Dot, InternalEdge) => "    " + e.from + " -> " + e.to + ";"
    case (Dot, ExternalEdge) => "    " + e.from + " -> " + e.to + " [style=dashed];"
    case (Dot, LibraryEdge) => "    " + e.from + " -> " + e.to + " [style=bold];"
  }

  function NodeLines(format: GraphFormat, nodes: seq<string>, labels: Dict<string, string>): (r: seq<string>)
    ensures |r| == |nodes|
    ensures forall i :: 0 <= i < |nodes| ==> r[i] == NodeLine(format, nodes[i], LabelOf(labels, nodes[i]))
  {
    seq(|nodes|, i requires 0 <= i < |nodes| => NodeLine(format, nodes[i], LabelOf(labels, nodes[i])))
  }

  /** One line per edge whose endpoints are both drawn. */
  function EdgeLines(format: GraphFormat, nodes: seq<string>, edges: seq<Edge>): (r: seq<string>)
    ensures |r| <= |edges|
  {
    if |edges| == 0 then []
    else
      var e := edges[0];
      (if e.from in nodes && e.to in nodes then [EdgeLine(format, e)] else []) + EdgeLines(format, nodes, edges[1..])
  }

  /** When every endpoint is drawn, every edge gets its line, in order. */
  lemma {:induction false} EdgeLinesComplete(format: GraphFormat, nodes: seq<string>, edges: seq<Edge>)
    requires forall e :: e in edges ==> e.from in nodes && e.to in nodes
    ensures |EdgeLines(format, nodes, edges)| == |edges|
    ensures forall i :: 0 <= i < |edges| ==> EdgeLines(format, nodes, edges)[i] == EdgeLine(format, edges[i])
    decreases |edges|
  {
    if |edges| > 0 {
      assert edges[0] in edges;
      EdgeLinesComplete(format, nodes, edges[1..]);
      forall i | 0 < i < |edges| ensures EdgeLines(format, nodes, edges)[i] == EdgeLine(format, edges[i]) {
        assert edges[1..][i - 1] == edges[i];
      }
    }
  }

  function Lines(format: GraphFormat, nodes: seq<string>, labels: Dict<string, string>, edges: seq<Edge>): seq<string> {
    match format
    case Mermaid => ["graph TD"] + NodeLines(format, nodes, labels) + EdgeLines(format, nodes, edges)
    case Dot =>
      ["digraph CallGraph {", "    rankdir=TB;", "    node [shape=box];"]
        + NodeLines(format, nodes, labels) + EdgeLines(format, nodes, edges) + ["}"]
  }

  /** The lines joined with newlines. */
  function Render(format: GraphFormat, nodes: seq<string>, labels: Dict<string, string>, edges: seq<Edge>): string {
    Join(Lines(format, nodes, labels, edges), "\n")
  }

  /** Mermaid text starts with its header; DOT text starts with its header
      and ends with the closing brace. */
  lemma RenderFrame(format: GraphFormat, nodes: seq<string>, labels: Dict<string, string>, edges: seq<Edge>)
    ensures format.Mermaid? ==> "graph TD" <= Render(format, nodes, labels, edges)
    ensures format.Dot? ==> "digraph CallGraph {" <= Render(format, nodes, labels, edges)
    ensures format.Dot? ==> EndsWith(Render(format, nodes, labels, edges), "}")
  {
    var lines := Lines(format, nodes, labels, edges);
    assert format.Mermaid? ==> lines[0] == "graph TD";
    assert format.Dot? ==> lines[0] == "digraph CallGraph {" && lines[|lines| - 1] == "}";
    JoinStartsWith(lines, "\n");
    JoinEndsWith(lines, "\n");
  }

  /** Drawn graphs hold a header line, a line per node and a line per edge
      (and the DOT closing line). */
  lemma LineCount(format: GraphFormat, nodes: seq<string>, labels: Dict<string, string>, edges: seq<Edge>)
    requires forall e :: e in edges ==> e.from in nodes && e.to in nodes
    ensures |Lines(format, nodes, labels, edges)| == (if format.Mermaid? then 1 else 4) + |nodes| + |edges|
  {
    EdgeLinesComplete(format, nodes, edges);
  }

  // ---------------------------------------------------------------------
  // The tool

  datatype ExportRequest = ExportRequest(
    format: GraphFormat,
    contractKey: Option<ContractKey>,
    entryPointsOnly: bool,
    includeExternal: bool,
    includeLibrary: bool,
    maxNodes: int,
    labelFormat: LabelFormat)

  function DefaultRequest(): ExportRequest {
    ExportRequest(Mermaid, None, false, true, true, DefaultMaxNodes, Short)
  }

  datatype ExportResponse = ExportResponse(
    success: bool,
    graph: Option<string>,
    format: Option<string>,
    nodeCount: nat,
    edgeCount: nat,
    truncated: bool,
    errorMessage: Option<string>)

  /** The final nodes, their labels, the final edges, and whether nodes were dropped. */
  datatype CallGraph = CallGraph(nodes: seq<string>, labels: Dict<string, string>, edges: seq<Edge>, truncated: bool)

  function OptionsOf(req: ExportRequest): Options {
    Options(req.entryPointsOnly, req.includeExternal, req.includeLibrary, req.labelFormat)
  }

  /** The contracts to scan: the requested one, or all of them in order. */
  function ContractsToProcess(facts: ProjectFacts, req: ExportRequest): (r: seq<ContractKey>)
    requires req.contractKey.Some? ==> req.contractKey.value in facts.contracts.entries
    ensures forall k :: k in r ==> k in facts.contracts.entries
    ensures req.contractKey.Some? ==> r == [req.contractKey.value]
    ensures req.contractKey.None? ==> r == facts.contracts.order
  {
    if req.contractKey.Some? then [req.contractKey.value] else facts.contracts.order
  }

  function Sources(facts: ProjectFacts, req: ExportRequest): seq<Source>
    requires req.contractKey.Some? ==> req.contractKey.value in facts.contracts.entries
  {
    SelectedSources(facts, ContractsToProcess(facts, req), req.entryPointsOnly, 0)
  }

  /** The nodes, labels and edges of every source function, before truncation. */
  function Collected(facts: ProjectFacts, req: ExportRequest): Parts
    requires req.contractKey.Some? ==> req.contractKey.value in facts.contracts.entries
  {
    Build(Parts(Empty(), []), Sources(facts, req), OptionsOf(req))
  }

  /** Every edge of the collected graph joins two labelled nodes. */
  lemma CollectedClosed(facts: ProjectFacts, req: ExportRequest)
    requires req.contractKey.Some? ==> req.contractKey.value in facts.contracts.entries
    ensures Closed(Collected(facts, req))
  {
    BuildShape(Parts(Empty(), []), Sources(facts, req), OptionsOf(req));
  }

  datatype Trimmed = Trimmed(nodes: seq<string>, edges: seq<Edge>, truncated: bool)

  /** More than `max_nodes` nodes: keep the best-connected ones, as many
      as `sorted_nodes[:max_nodes]` keeps, and the edges between them.
      Otherwise keep everything. A truncated non-empty graph always loses
      nodes, but a negative `max_nodes` only drops nodes from the end. */
  function Truncate(nodes: seq<string>, edges: seq<Edge>, maxNodes: int): (r: Trimmed)
    requires Distinct(nodes)
    requires forall e :: e in edges ==> e.from in nodes && e.to in nodes
    ensures r.truncated <==> |nodes| > maxNodes
    ensures !r.truncated ==> r.nodes == nodes && r.edges == edges
    ensures r.truncated && |nodes| > 0 ==> |r.nodes| < |nodes|
    ensures maxNodes >= 0 ==> |r.nodes| <= maxNodes
    ensures Distinct(r.nodes)
    ensures forall x :: x in r.nodes ==> x in nodes
    ensures forall a, b :: a in r.nodes && b in nodes && b !in r.nodes ==> Degree(edges, a) >= Degree(edges, b)
    ensures forall e :: e in r.edges <==> e in edges && e.from in r.nodes && e.to in r.nodes
  {
    if |nodes| > maxNodes then
      var kept := KeptAsWritten(nodes, edges, maxNodes);
      KeptAsWrittenBestConnected(nodes, edges, maxNodes);
      Trimmed(kept, KeepEdges(edges, kept), true)
    else Trimmed(nodes, edges, false)
  }

  /** Truncation with the slice bound clamped at zero: a negative
      `max_nodes` keeps no nodes at all. */
  function TruncateFixed(nodes: seq<string>, edges: seq<Edge>, maxNodes: int): (r: Trimmed)
    requires Distinct(nodes)
    requires forall e :: e in edges ==> e.from in nodes && e.to in nodes
    ensures r.truncated <==> |nodes| > maxNodes
    ensures !r.truncated ==> r.nodes == nodes && r.edges == edges
    ensures r.truncated ==> |r.nodes| <= (if maxNodes < 0 then 0 else maxNodes)
    ensures Distinct(r.nodes)
    ensures forall x :: x in r.nodes ==> x in nodes
    ensures forall e :: e in r.edges <==> e in edges && e.from in r.nodes && e.to in r.nodes
  {
    if |nodes| > maxNodes then
      var kept := Kept(nodes, edges, maxNodes);
      KeptBestConnected(nodes, edges, maxNodes);
      Trimmed(kept, KeepEdges(edges, kept), true)
    else Trimmed(nodes, edges, false)
  }

  /** The two truncations differ only for a negative `max_nodes`. */
  lemma TruncateFixedAgrees(nodes: seq<string>, edges: seq<Edge>, maxNodes: int)
    requires Distinct(nodes)
    requires forall e :: e in edges ==> e.from in nodes && e.to in nodes
    requires maxNodes >= 0
    ensures TruncateFixed(nodes, edges, maxNodes) == Truncate(nodes, edges, maxNodes)
  {
    ByDegreeOrdered(nodes, edges);
    var s := ByDegree(nodes, edges);
    assert PySliceTo(s, maxNodes) == s[..Min(maxNodes, |s|)];
  }

  /** The graph after truncation, with every label. */
  function CollectGraph(facts: ProjectFacts, req: ExportRequest): (g: CallGraph)
    requires req.contractKey.Some? ==> req.contractKey.value in facts.contracts.entries
    ensures req.maxNodes >= 0 ==> |g.nodes| <= req.maxNodes
    ensures !g.truncated ==> |g.nodes| <= req.maxNodes
    ensures g.truncated ==> |g.nodes| < |Collected(facts, req).labels.order| || |g.nodes| == 0
  {
    var p := Collected(facts, req);
    CollectedClosed(facts, req);
    var t := Truncate(p.labels.order, p.edges, req.maxNodes);
    CallGraph(t.nodes, p.labels, t.edges, t.truncated)
  }

  /** Everything about the exported graph that does not depend on set
      iteration order: truncation happens exactly when there are more
      nodes than `max_nodes`; untruncated, every source function has its
      node and every collected edge is drawn; every edge joins two drawn
      nodes, leaves a source function's node, and has a kind the request
      allows; and every callee of a source function of an included kind
      has its edge before truncation. */
  lemma CollectGraphShape(facts: ProjectFacts, req: ExportRequest)
    requires req.contractKey.Some? ==> req.contractKey.value in facts.contracts.entries
    ensures CollectGraph(facts, req).truncated <==> |Collected(facts, req).labels.order| > req.maxNodes
    ensures !CollectGraph(facts, req).truncated ==> forall s :: s in Sources(facts, req) ==>
      NodeId(s.contractName, s.signature) in CollectGraph(facts, req).nodes
    ensures forall n :: n in CollectGraph(facts, req).nodes ==> n in Collected(facts, req).labels.entries
    ensures Distinct(CollectGraph(facts, req).nodes)
    ensures forall e :: e in CollectGraph(facts, req).edges ==>
      e.from in CollectGraph(facts, req).nodes && e.to in CollectGraph(facts, req).nodes
    ensures forall e :: e in CollectGraph(facts, req).edges ==>
      (exists s :: s in Sources(facts, req) && e.from == NodeId(s.contractName, s.signature))
      && (e.kind == ExternalEdge ==> req.includeExternal)
      && (e.kind == LibraryEdge ==> req.includeLibrary)
    ensures forall s, c :: s in Sources(facts, req) && c in s.fn.callees.internalCallees ==>
      Edge(NodeId(s.contractName, s.signature), CalleeId(c), InternalEdge) in Collected(facts, req).edges
    ensures req.includeExternal ==> forall s, c :: s in Sources(facts, req) && c in s.fn.callees.externalCallees ==>
      Edge(NodeId(s.contractName, s.signature), CalleeId(c), ExternalEdge) in Collected(facts, req).edges
    ensures req.includeLibrary ==> forall s, c :: s in Sources(facts, req) && c in s.fn.callees.libraryCallees ==>
      Edge(NodeId(s.contractName, s.signature), CalleeId(c), LibraryEdge) in Collected(facts, req).edges
    ensures !CollectGraph(facts, req).truncated ==> CollectGraph(facts, req).edges == Collected(facts, req).edges
  {
    BuildShape(Parts(Empty(), []), Sources(facts, req), OptionsOf(req));
    BuildHasEdges(Parts(Empty(), []), Sources(facts, req), OptionsOf(req));
    var srcs, edges := Sources(facts, req), Collected(facts, req).edges;
    assert forall s :: s in srcs ==> HasCalleeEdges(edges, s, OptionsOf(req));
  }

  /** The export tool: an unknown contract key fails; otherwise the graph
      is collected, truncated when it has more than `max_nodes` nodes, and
      rendered. */
  function ExportCallGraph(facts: ProjectFacts, req: ExportRequest): (r: ExportResponse)
    ensures r.success <==> req.contractKey.None? || req.contractKey.value in facts.contracts.entries
    ensures !r.success ==> (r.graph.None? && r.nodeCount == 0 && r.edgeCount == 0 && !r.truncated
      && r.errorMessage == Some("Contract not found: '" + req.contractKey.value.contractName + "' at '" + req.contractKey.value.path + "'"))
    ensures r.success ==> r.errorMessage.None? && r.graph.Some? && r.format == Some(req.format.Name())
    ensures r.success && req.format.Mermaid? ==> "graph TD" <= r.graph.value
    ensures r.success && req.format.Dot? ==> "digraph CallGraph {" <= r.graph.value && EndsWith(r.graph.value, "}")
    ensures r.success && req.maxNodes >= 0 ==> r.nodeCount <= req.maxNodes
    ensures r.success && !r.truncated ==> r.nodeCount <= req.maxNodes
  {
    if req.contractKey.Some? && req.contractKey.value !in facts.contracts.entries then
      var k := req.contractKey.value;
      ExportResponse(false, None, None, 0, 0, false,
        Some("Contract not found: '" + k.contractName + "' at '" + k.path + "'"))
    else
      var g := CollectGraph(facts, req);
      var text := Render(req.format, g.nodes, g.labels, g.edges);
      RenderFrame(req.format, g.nodes, g.labels, g.edges);
      ExportResponse(true, Some(text), Some(req.format.Name()), |g.nodes|, |g.edges|, g.truncated, None)
  }

  /** A successful export draws exactly `node_count` node lines and
      `edge_count` edge lines. */
  lemma ExportCountsMatchText(facts: ProjectFacts, req: ExportRequest)
    requires req.contractKey.Some? ==> req.contractKey.value in facts.contracts.entries
    ensures ExportCallGraph(facts, req).nodeCount == |CollectGraph(facts, req).nodes|
    ensures ExportCallGraph(facts, req).edgeCount == |CollectGraph(facts, req).edges|
    ensures var g := CollectGraph(facts, req);
      |Lines(req.format, g.nodes, g.labels, g.edges)|
        == (if req.format.Mermaid? then 1 else 4) + ExportCallGraph(facts, req).nodeCount + ExportCallGraph(facts, req).edgeCount
  {
    var g := CollectGraph(facts, req);
    CollectGraphShape(facts, req);
    LineCount(req.format, g.nodes, g.labels, g.edges);
  }
}
