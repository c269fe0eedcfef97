/** The project overview: contract kinds, function totals, the visibility
    and size distributions of declared functions, detector findings by
    impact and the five detectors with the most findings. */
module Overview {
  import opened Common
  import opened Dicts
  import opened Model
  import opened Detectors
  import Sorting

  // ---------------------------------------------------------------------
  // Contract kinds

  /** A contract is counted once, under the first of library, interface,
      abstract that applies, else as concrete. */
  datatype ContractKind = LibraryKind | InterfaceKind | AbstractKind | ConcreteKind

  function KindOf(c: ContractModel): ContractKind {
    if c.isLibrary then LibraryKind
    else if c.isInterface then InterfaceKind
    else if c.isAbstract then AbstractKind
    else ConcreteKind
  }

  function OfKind(k: ContractKind): ContractModel -> bool {
    (c: ContractModel) => KindOf(c) == k
  }

  datatype ContractCounts = ContractCounts(total: nat, concrete: nat, abstracts: nat, interfaces: nat, libraries: nat)

  /** The four kind counters over `cs`. */
  function CountKinds(cs: seq<ContractModel>): (r: ContractCounts)
    ensures r.total == |cs|
    ensures r.concrete + r.abstracts + r.interfaces + r.libraries == r.total
    ensures r.libraries == Count(cs, (c: ContractModel) => c.isLibrary)
    ensures r.interfaces == Count(cs, OfKind(InterfaceKind))
    ensures r.abstracts == Count(cs, OfKind(AbstractKind))
    ensures r.concrete == Count(cs, OfKind(ConcreteKind))
  {
    if |cs| == 0 then ContractCounts(0, 0, 0, 0, 0)
    else
      var t := CountKinds(cs[1..]);
      match KindOf(cs[0])
      case LibraryKind => t.(total := t.total + 1, libraries := t.libraries + 1)
      case InterfaceKind => t.(total := t.total + 1, interfaces := t.interfaces + 1)
      case AbstractKind => t.(total := t.total + 1, abstracts := t.abstracts + 1)
      case ConcreteKind => t.(total := t.total + 1, concrete := t.concrete + 1)
  }

  /** The contract counts: `total` is the number of contracts, each kind
      counter counts the contracts of that kind, and the kinds partition it. */
  function ContractCountsOf(facts: ProjectFacts): (r: ContractCounts)
    ensures r.total == |facts.contracts.order|
    ensures r.concrete + r.abstracts + r.interfaces + r.libraries == r.total
    ensures var cs := Values(facts.contracts);
      r.libraries == Count(cs, (c: ContractModel) => c.isLibrary)
      && r.interfaces == Count(cs, OfKind(InterfaceKind))
      && r.abstracts == Count(cs, OfKind(AbstractKind))
      && r.concrete == Count(cs, OfKind(ConcreteKind))
  {
    CountKinds(Values(facts.contracts)).(total := |facts.contracts.order|)
  }

  /** An interface that is also a library counts only as a library. */
  lemma LibraryTakesPrecedence(c: ContractModel)
    ensures CountKinds([c]).libraries == (if c.isLibrary then 1 else 0)
    ensures c.isLibrary ==> CountKinds([c]).interfaces == 0 && CountKinds([c]).abstracts == 0
  {
    assert [c][1..] == [];
  }

  // ---------------------------------------------------------------------
  // Function totals and distributions

  datatype FunctionCounts = FunctionCounts(totalDeclared: nat, totalInherited: nat)

  /** `sum(len(c.functions_declared) for c in cs)` and the same for inherited. */
  function CountFunctions(cs: seq<ContractModel>): (r: FunctionCounts)
    ensures r.totalDeclared == |StoredFunctions(cs, false)|
    ensures r.totalInherited == |StoredFunctions(cs, true)|
    ensures cs == [] ==> r == FunctionCounts(0, 0)
  {
    if |cs| == 0 then FunctionCounts(0, 0)
    else
      var t := CountFunctions(cs[1..]);
      FunctionCounts(t.totalDeclared + |cs[0].functionsDeclared.order|,
                     t.totalInherited + |cs[0].functionsInherited.order|)
  }

  /** The functions of one table of every contract of `cs`, contract by contract. */
  function StoredFunctions(cs: seq<ContractModel>, inherited: bool): (r: seq<FunctionModel>)
    ensures forall f :: f in r <==> exists c :: c in cs && f in FunctionTable(c, inherited).entries.Values
  {
    if |cs| == 0 then []
    else
      assert forall c :: c in cs <==> c == cs[0] || c in cs[1..] by {
        assert cs == [cs[0]] + cs[1..];
      }
      var d := FunctionTable(cs[0], inherited);
      var vs := Values(d);
      assert forall f :: f in vs <==> f in d.entries.Values by {
        forall f | f in d.entries.Values ensures f in vs {
          var sig :| sig in d.entries && d.entries[sig] == f;
          assert sig in d.order;
          var i :| 0 <= i < |vs| && d.order[i] == sig;
          assert vs[i] == f;
        }
      }
      vs + StoredFunctions(cs[1..], inherited)
  }

  /** `visibility.lower()`, with the four values the distribution knows. */
  datatype VisibilityClass = PublicVis | ExternalVis | InternalVis | PrivateVis | OtherVis

  function VisibilityOf(f: FunctionModel): VisibilityClass {
    var vis := Lower(f.visibility);
    if vis == "public" then PublicVis
    else if vis == "external" then ExternalVis
    else if vis == "internal" then InternalVis
    else if vis == "private" then PrivateVis
    else OtherVis
  }

  datatype VisibilityDistribution = VisibilityDistribution(public: nat, external: nat, internal: nat, private: nat)

  function HasVisibility(v: VisibilityClass): FunctionModel -> bool {
    (f: FunctionModel) => VisibilityOf(f) == v
  }

  /** The four visibility counters; any other visibility is not counted. */
  function CountVisibility(fs: seq<FunctionModel>): (r: VisibilityDistribution)
    ensures r.public == Count(fs, HasVisibility(PublicVis))
    ensures r.external == Count(fs, HasVisibility(ExternalVis))
    ensures r.internal == Count(fs, HasVisibility(InternalVis))
    ensures r.private == Count(fs, HasVisibility(PrivateVis))
  {
    if |fs| == 0 then VisibilityDistribution(0, 0, 0, 0)
    else
      var t := CountVisibility(fs[1..]);
      match VisibilityOf(fs[0])
      case PublicVis => t.(public := t.public + 1)
      case ExternalVis => t.(external := t.external + 1)
      case InternalVis => t.(internal := t.internal + 1)
      case PrivateVis => t.(private := t.private + 1)
      case OtherVis => t
  }

  /** Together with the functions of any other visibility, the four
      counters account for every function once. */
  lemma {:induction false} VisibilityPartition(fs: seq<FunctionModel>)
    ensures var r := CountVisibility(fs);
      r.public + r.external + r.internal + r.private + Count(fs, HasVisibility(OtherVis)) == |fs|
    decreases |fs|
  {
    if |fs| > 0 {
      VisibilityPartition(fs[1..]);
      var r, t, v := CountVisibility(fs), CountVisibility(fs[1..]), VisibilityOf(fs[0]);
      match v {
        case PublicVis => assert r == t.(public := t.public + 1);
        case ExternalVis => assert r == t.(external := t.external + 1);
        case InternalVis => assert r == t.(internal := t.internal + 1);
        case PrivateVis => assert r == t.(private := t.private + 1);
        case OtherVis => assert r == t;
      }
      assert Count(fs, HasVisibility(OtherVis)) == Count(fs[1..], HasVisibility(OtherVis)) + (if v == OtherVis then 1 else 0);
    }
  }

  /** The distribution accounts for every function exactly when every
      visibility is one of the four known ones. */
  lemma VisibilityComplete(fs: seq<FunctionModel>)
    ensures var r := CountVisibility(fs);
      r.public + r.external + r.internal + r.private <= |fs|
      && (r.public + r.external + r.internal + r.private == |fs| <==> forall f :: f in fs ==> VisibilityOf(f) != OtherVis)
  {
    VisibilityPartition(fs);
    var other := HasVisibility(OtherVis);
    assert (forall f :: f in fs ==> !other(f)) <==> (forall f :: f in fs ==> VisibilityOf(f) != OtherVis);
  }

  /** Size classes by lines of code: at most 10, 30, 100, or more. */
  datatype SizeClass = Small | Medium | Large | VeryLarge

  function SizeOf(f: FunctionModel): SizeClass {
    var lines := f.lineEnd - f.lineStart + 1;
    if lines <= 10 then Small
    else if lines <= 30 then Medium
    else if lines <= 100 then Large
    else VeryLarge
  }

  function OfSize(s: SizeClass): FunctionModel -> bool {
    (f: FunctionModel) => SizeOf(f) == s
  }

  function SizeRank(s: SizeClass): nat {
    match s
    case Small => 0
    case Medium => 1
    case Large => 2
    case VeryLarge => 3
  }

  /** A longer function never falls in a smaller class. */
  lemma SizeMonotone(f: FunctionModel, g: FunctionModel)
    requires f.lineEnd - f.lineStart <= g.lineEnd - g.lineStart
    ensures SizeRank(SizeOf(f)) <= SizeRank(SizeOf(g))
  {
  }

  datatype ComplexityDistribution = ComplexityDistribution(small: nat, medium: nat, large: nat, veryLarge: nat)

  function CountSizes(fs: seq<FunctionModel>): (r: ComplexityDistribution)
    ensures r.small == Count(fs, OfSize(Small))
    ensures r.medium == Count(fs, OfSize(Medium))
    ensures r.large == Count(fs, OfSize(Large))
    ensures r.veryLarge == Count(fs, OfSize(VeryLarge))
    ensures r.small + r.medium + r.large + r.veryLarge == |fs|
  {
    if |fs| == 0 then ComplexityDistribution(0, 0, 0, 0)
    else
      var t := CountSizes(fs[1..]);
      match SizeOf(fs[0])
      case Small => t.(small := t.small + 1)
      case Medium => t.(medium := t.medium + 1)
      case Large => t.(large := t.large + 1)
      case VeryLarge => t.(veryLarge := t.veryLarge + 1)
  }

  // ---------------------------------------------------------------------
  // Detector findings

  datatype FindingsByImpact = FindingsByImpact(high: nat, medium: nat, low: nat, informational: nat)

  /** `impact.lower()`, with anything but high, medium and low counted as informational. */
  datatype ImpactClass = HighImpact | MediumImpact | LowImpact | InformationalImpact

  function ImpactOf(x: DetectorResult): ImpactClass {
    var impact := Lower(x.impact);
    if impact == "high" then HighImpact
    else if impact == "medium" then MediumImpact
    else if impact == "low" then LowImpact
    else InformationalImpact
  }

  function HasImpact(c: ImpactClass): DetectorResult -> bool {
    (x: DetectorResult) => ImpactOf(x) == c
  }

  function CountImpacts(rs: seq<DetectorResult>): (r: FindingsByImpact)
    ensures r.high == Count(rs, HasImpact(HighImpact))
    ensures r.medium == Count(rs, HasImpact(MediumImpact))
    ensures r.low == Count(rs, HasImpact(LowImpact))
    ensures r.informational == Count(rs, HasImpact(InformationalImpact))
  {
    if |rs| == 0 then FindingsByImpact(0, 0, 0, 0)
    else
      var t := CountImpacts(rs[1..]);
      match ImpactOf(rs[0])
      case HighImpact => t.(high := t.high + 1)
      case MediumImpact => t.(medium := t.medium + 1)
      case LowImpact => t.(low := t.low + 1)
      case InformationalImpact => t.(informational := t.informational + 1)
  }

  /** The four impact counters account for every finding once. */
  lemma {:induction false} ImpactPartition(rs: seq<DetectorResult>)
    ensures var r := CountImpacts(rs); r.high + r.medium + r.low + r.informational == |rs|
    decreases |rs|
  {
    if |rs| > 0 {
      ImpactPartition(rs[1..]);
    }
  }

  datatype TopDetector = TopDetector(name: string, findingCount: nat, impact: string)

  /** The summary of one detector: its number of findings and the impact
      of its first finding. */
  function DetectorEntry(dr: Dict<string, seq<DetectorResult>>, n: string): TopDetector
    requires n in dr.entries && |dr.entries[n]| > 0
  {
    TopDetector(n, |dr.entries[n]|, Lower(dr.entries[n][0].impact))
  }

  /** The detectors of `names` with at least one finding, in that order. */
  function DetectorEntries(dr: Dict<string, seq<DetectorResult>>, names: seq<string>): (r: seq<TopDetector>)
    requires forall n :: n in names ==> n in dr.entries
    ensures forall t :: t in r ==> t.name in names && |dr.entries[t.name]| > 0 && t == DetectorEntry(dr, t.name)
    ensures forall n :: n in names && |dr.entries[n]| > 0 ==> DetectorEntry(dr, n) in r
  {
    if |names| == 0 then []
    else
      assert forall n :: n in names <==> n == names[0] || n in names[1..] by {
        assert names == [names[0]] + names[1..];
      }
      var rest := DetectorEntries(dr, names[1..]);
      if |dr.entries[names[0]]| > 0 then [DetectorEntry(dr, names[0])] + rest else rest
  }

  function CountKey(t: TopDetector): Sorting.Key {
    [Sorting.Num(t.findingCount)]
  }

  /** The entries sorted by finding count, largest first; ties keep the
      facts' order. */
  function RankedDetectors(dr: Dict<string, seq<DetectorResult>>): (r: seq<TopDetector>)
    ensures forall t :: t in r <==> t in DetectorEntries(dr, dr.order)
    ensures multiset(r) == multiset(DetectorEntries(dr, dr.order))
    ensures Sorting.SortedBy(r, CountKey, true)
  {
    var entries := DetectorEntries(dr, dr.order);
    Sorting.SortByMembers(entries, CountKey, true);
    Sorting.SortBySorted(entries, CountKey, true);
    Sorting.SortBy(entries, CountKey, true)
  }

  /** The five detectors with the most findings. */
  function TopDetectors(dr: Dict<string, seq<DetectorResult>>): (r: seq<TopDetector>)
    ensures |r| == Min(5, |DetectorEntries(dr, dr.order)|)
    ensures forall t :: t in r ==> t.name in dr.entries && |dr.entries[t.name]| > 0 && t == DetectorEntry(dr, t.name)
    ensures forall i, j :: 0 <= i < j < |r| ==> r[i].findingCount >= r[j].findingCount
  {
    var ranked := RankedDetectors(dr);
    var r := PySliceTo(ranked, 5);
    assert |ranked| == |DetectorEntries(dr, dr.order)| by {
      assert |multiset(ranked)| == |multiset(DetectorEntries(dr, dr.order))|;
    }
    assert forall i, j :: 0 <= i < j < |r| ==> r[i].findingCount >= r[j].findingCount by {
      forall i, j | 0 <= i < j < |r| ensures r[i].findingCount >= r[j].findingCount {
        assert r[i] == ranked[i] && r[j] == ranked[j];
        Sorting.SortedByNum(ranked, CountKey, true, i, j, ranked[i].findingCount, ranked[j].findingCount);
      }
    }
    r
  }

  /** A detector with findings that is not among the top ones has no more
      findings than any of them. */
  lemma TopDetectorsDominate(dr: Dict<string, seq<DetectorResult>>, n: string)
    requires n in dr.entries && |dr.entries[n]| > 0
    requires DetectorEntry(dr, n) !in TopDetectors(dr)
    ensures forall t :: t in TopDetectors(dr) ==> t.findingCount >= |dr.entries[n]|
  {
    var ranked := RankedDetectors(dr);
    var r := TopDetectors(dr);
    assert r == PySliceTo(ranked, 5);
    var e := DetectorEntry(dr, n);
    assert e in ranked;
    var j :| 0 <= j < |ranked| && ranked[j] == e;
    assert j >= |r|;
    forall t | t in r ensures t.findingCount >= |dr.entries[n]| {
      var i :| 0 <= i < |r| && r[i] == t;
      assert ranked[i] == t;
      Sorting.SortedByNum(ranked, CountKey, true, i, j, t.findingCount, e.findingCount);
    }
  }

  // ---------------------------------------------------------------------
  // The overview

  datatype ProjectOverview = ProjectOverview(
    contractCounts: ContractCounts,
    functionCounts: FunctionCounts,
    visibilityDistribution: VisibilityDistribution,
    complexityDistribution: ComplexityDistribution,
    detectorFindingsByImpact: FindingsByImpact,
    topDetectors: seq<TopDetector>)

  /** Each visibility counter counts the functions of `fs` with that visibility. */
  predicate CountsVisibility(fs: seq<FunctionModel>, v: VisibilityDistribution) {
    v == VisibilityDistribution(Count(fs, HasVisibility(PublicVis)), Count(fs, HasVisibility(ExternalVis)),
                                Count(fs, HasVisibility(InternalVis)), Count(fs, HasVisibility(PrivateVis)))
  }

  /** Each size counter counts the functions of `fs` of that size class. */
  predicate CountsSizes(fs: seq<FunctionModel>, c: ComplexityDistribution) {
    c == ComplexityDistribution(Count(fs, OfSize(Small)), Count(fs, OfSize(Medium)),
                                Count(fs, OfSize(Large)), Count(fs, OfSize(VeryLarge)))
  }

  /** The function totals count the declared and the inherited functions of
      `cs`; each visibility and size counter counts the declared functions
      of its class; the size classes partition the declared functions, and
      the visibility counters cover at most them. */
  function SummarizeFunctions(cs: seq<ContractModel>): (r: (FunctionCounts, VisibilityDistribution, ComplexityDistribution))
    ensures r.0 == FunctionCounts(|StoredFunctions(cs, false)|, |StoredFunctions(cs, true)|)
    ensures CountsVisibility(StoredFunctions(cs, false), r.1)
    ensures CountsSizes(StoredFunctions(cs, false), r.2)
    ensures var c := r.2; c.small + c.medium + c.large + c.veryLarge == r.0.totalDeclared
    ensures var v := r.1; v.public + v.external + v.internal + v.private <= r.0.totalDeclared
  {
    var fs := StoredFunctions(cs, false);
    var counts, vis, sizes := CountFunctions(cs), CountVisibility(fs), CountSizes(fs);
    FunctionTotals(cs);
    (counts, vis, sizes)
  }

  /** The size classes partition the declared functions and the
      visibility counters cover at most them. */
  lemma FunctionTotals(cs: seq<ContractModel>)
    ensures var c := CountSizes(StoredFunctions(cs, false));
      c.small + c.medium + c.large + c.veryLarge == CountFunctions(cs).totalDeclared
    ensures var v := CountVisibility(StoredFunctions(cs, false));
      v.public + v.external + v.internal + v.private <= CountFunctions(cs).totalDeclared
  {
    VisibilityPartition(StoredFunctions(cs, false));
  }

  /** Each impact counter counts the stored findings of its impact, and
      together they partition every stored finding. */
  function SummarizeFindings(dr: Dict<string, seq<DetectorResult>>): (r: FindingsByImpact)
    ensures var rs := AllResults(dr);
      r.high == Count(rs, HasImpact(HighImpact)) && r.medium == Count(rs, HasImpact(MediumImpact))
      && r.low == Count(rs, HasImpact(LowImpact)) && r.informational == Count(rs, HasImpact(InformationalImpact))
    ensures r.high + r.medium + r.low + r.informational == FindingCount(dr, dr.order)
  {
    ImpactPartition(AllResults(dr));
    CountImpacts(AllResults(dr))
  }

  /** The overview: each kind, visibility, size and impact counter counts
      its class, the function totals count both tables, the partitions
      agree with the totals, and the top detectors are at most five, ranked
      by finding count, and no omitted detector has more findings than a
      listed one. */
  function GetProjectOverview(facts: ProjectFacts): (r: ProjectOverview)
    ensures r.contractCounts.total == |facts.contracts.order|
    ensures var k, cs := r.contractCounts, Values(facts.contracts);
      k.libraries == Count(cs, (c: ContractModel) => c.isLibrary)
      && k.interfaces == Count(cs, OfKind(InterfaceKind))
      && k.abstracts == Count(cs, OfKind(AbstractKind))
      && k.concrete == Count(cs, OfKind(ConcreteKind))
    ensures var k := r.contractCounts; k.concrete + k.abstracts + k.interfaces + k.libraries == k.total
    ensures var cs := Values(facts.contracts);
      r.functionCounts.totalDeclared == |StoredFunctions(cs, false)|
      && r.functionCounts.totalInherited == |StoredFunctions(cs, true)|
    ensures CountsVisibility(StoredFunctions(Values(facts.contracts), false), r.visibilityDistribution)
    ensures CountsSizes(StoredFunctions(Values(facts.contracts), false), r.complexityDistribution)
    ensures var c := r.complexityDistribution;
      c.small + c.medium + c.large + c.veryLarge == r.functionCounts.totalDeclared
    ensures var v := r.visibilityDistribution;
      v.public + v.external + v.internal + v.private <= r.functionCounts.totalDeclared
    ensures var rs, f := AllResults(facts.detectorResults), r.detectorFindingsByImpact;
      f.high == Count(rs, HasImpact(HighImpact)) && f.medium == Count(rs, HasImpact(MediumImpact))
      && f.low == Count(rs, HasImpact(LowImpact)) && f.informational == Count(rs, HasImpact(InformationalImpact))
    ensures var f := r.detectorFindingsByImpact;
      f.high + f.medium + f.low + f.informational == FindingCount(facts.detectorResults, facts.detectorResults.order)
    ensures var dr := facts.detectorResults;
      |r.topDetectors| == Min(5, |DetectorEntries(dr, dr.order)|)
      && (forall t :: t in r.topDetectors ==> t.name in dr.entries && |dr.entries[t.name]| > 0 && t == DetectorEntry(dr, t.name))
      && (forall i, j :: 0 <= i < j < |r.topDetectors| ==> r.topDetectors[i].findingCount >= r.topDetectors[j].findingCount)
    ensures var dr := facts.detectorResults;
      forall n :: n in dr.entries && |dr.entries[n]| > 0 && DetectorEntry(dr, n) !in r.topDetectors ==>
        forall t :: t in r.topDetectors ==> t.findingCount >= |dr.entries[n]|
  {
    var dr := facts.detectorResults;
    var fns := SummarizeFunctions(Values(facts.contracts));
    var top := TopDetectors(dr);
    forall n | n in dr.entries && |dr.entries[n]| > 0 && DetectorEntry(dr, n) !in top
      ensures forall t :: t in top ==> t.findingCount >= |dr.entries[n]|
    {
      TopDetectorsDominate(dr, n);
    }
    ProjectOverview(
      ContractCountsOf(facts),
      fns.0,
      fns.1,
      fns.2,
      SummarizeFindings(dr),
      top)
  }
}
