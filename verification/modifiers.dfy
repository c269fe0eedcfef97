/** Modifier usage across the project: which functions use each custom
    modifier, most used modifier first. */
module Modifiers {
  import opened Common
  import opened Dicts
  import opened Keys
  import opened Model
  import opened Signatures
  import opened Pagination
  import Sorting
  import Analysis

  datatype ModifiersRequest = ModifiersRequest(
    contractKey: Option<ContractKey>,
    modifierFilter: string,
    offset: int,
    limit: Option<int>)

  // ---------------------------------------------------------------------
  // Scanning

  /** One modifier met while scanning: its name, the function using it, and
      whether the function is looked up in the list before it is appended
      (done for inherited functions only). */
  datatype Use = Use(name: string, key: FunctionKey, checked: bool)

  /** The uses of the modifiers `mods` by one function that pass the filter. */
  function UsesOf(mods: seq<string>, key: FunctionKey, checked: bool, filter: string): (r: seq<Use>)
    ensures forall u :: u in r <==> u.key == key && u.checked == checked && u.name in mods && Analysis.NameContains(filter, u.name)
  {
    MapSeq(Filter(mods, (m: string) => Analysis.NameContains(filter, m)), (m: string) => Use(m, key, checked))
  }

  /** The key a declared function is reported under: the scanned contract. */
  function DeclaredKey(k: ContractKey, sig: string): FunctionKey {
    FunctionKey(sig, k.contractName, k.path)
  }

  /** The key an inherited function is reported under: its implementing contract. */
  function InheritedKey(sig: string, f: FunctionModel): FunctionKey {
    FunctionKey(sig, f.implementationContract.contractName, f.implementationContract.path)
  }

  /** The uses by the declared functions `sigs` of `d`, unchecked. */
  function DeclaredUses(k: ContractKey, d: Dict<string, FunctionModel>, sigs: seq<string>, filter: string): (r: seq<Use>)
    requires forall sig :: sig in sigs ==> sig in d.entries
    ensures forall u :: u in r <==>
      exists sig :: sig in sigs && u == Use(u.name, DeclaredKey(k, sig), false)
        && u.name in d.entries[sig].functionModifiers && Analysis.NameContains(filter, u.name)
  {
    if |sigs| == 0 then []
    else
      assert forall sig :: sig in sigs <==> sig == sigs[0] || sig in sigs[1..] by {
        assert sigs == [sigs[0]] + sigs[1..];
      }
      UsesOf(d.entries[sigs[0]].functionModifiers, DeclaredKey(k, sigs[0]), false, filter)
        + DeclaredUses(k, d, sigs[1..], filter)
  }

  /** The uses by the inherited functions `sigs` of `d`, checked. */
  function InheritedUses(d: Dict<string, FunctionModel>, sigs: seq<string>, filter: string): (r: seq<Use>)
    requires forall sig :: sig in sigs ==> sig in d.entries
    ensures forall u :: u in r <==>
      exists sig :: sig in sigs && u == Use(u.name, InheritedKey(sig, d.entries[sig]), true)
        && u.name in d.entries[sig].functionModifiers && Analysis.NameContains(filter, u.name)
  {
    if |sigs| == 0 then []
    else
      assert forall sig :: sig in sigs <==> sig == sigs[0] || sig in sigs[1..] by {
        assert sigs == [sigs[0]] + sigs[1..];
      }
      UsesOf(d.entries[sigs[0]].functionModifiers, InheritedKey(sigs[0], d.entries[sigs[0]]), true, filter)
        + InheritedUses(d, sigs[1..], filter)
  }

  /** The declared functions' uses, then (only when no contract is requested)
      the inherited functions' uses. */
  function ContractUses(k: ContractKey, c: ContractModel, req: ModifiersRequest): seq<Use> {
    DeclaredUses(k, c.functionsDeclared, c.functionsDeclared.order, req.modifierFilter)
      + (if req.contractKey.None? then InheritedUses(c.functionsInherited, c.functionsInherited.order, req.modifierFilter) else [])
  }

  /** Every use, in scanning order. */
  function ScanUses(facts: ProjectFacts, req: ModifiersRequest): (r: seq<Use>)
    ensures forall u :: u in r <==>
      exists k :: k in facts.contracts.entries && Analysis.Scanned(req.contractKey, k) && u in ContractUses(k, facts.contracts.entries[k], req)
  {
    Analysis.Gather(facts.contracts, facts.contracts.order, req.contractKey,
                    (k: ContractKey, c: ContractModel) => ContractUses(k, c, req))
  }

  // ---------------------------------------------------------------------
  // Recording uses

  /** Append the use's key to its modifier's list, creating the list if
      needed; with `dedup` (or a checked use) a key already listed is not
      appended again. */
  function Record(d: Dict<string, seq<FunctionKey>>, u: Use, dedup: bool): (r: Dict<string, seq<FunctionKey>>)
    ensures r.entries.Keys == d.entries.Keys + {u.name}
    ensures forall n :: n in r.entries && n != u.name ==> r.entries[n] == d.entries[n]
    ensures u.name in d.entries && (dedup || u.checked) && u.key in d.entries[u.name] ==> r == d
    ensures r.order == if u.name in d.entries then d.order else d.order + [u.name]
  {
    var listed := if u.name in d.entries then d.entries[u.name] else [];
    if (dedup || u.checked) && u.key in listed then d
    else Put(d, u.name, listed + [u.key])
  }

  /** The lists after recording `uses` in order. */
  function Usage(uses: seq<Use>, dedup: bool): Dict<string, seq<FunctionKey>> {
    if |uses| == 0 then Empty()
    else Record(Usage(uses[..|uses| - 1], dedup), uses[|uses| - 1], dedup)
  }

  /** Some use of `uses` is of modifier `n`. */
  predicate Mentions(uses: seq<Use>, n: string) {
    exists u :: u in uses && u.name == n
  }

  /** Some use of `uses` is of modifier `n` by function `fk`. */
  predicate UsedBy(uses: seq<Use>, n: string, fk: FunctionKey) {
    exists u :: u in uses && u.name == n && u.key == fk
  }

  /** The modifiers listed are the ones used; each list holds exactly the
      functions that use the modifier, at least one; with `dedup` each once. */
  lemma {:induction false} UsageLists(uses: seq<Use>, dedup: bool, n: string, fk: FunctionKey)
    ensures n in Usage(uses, dedup).entries <==> Mentions(uses, n)
    ensures n in Usage(uses, dedup).entries ==>
      |Usage(uses, dedup).entries[n]| > 0
      && (fk in Usage(uses, dedup).entries[n] <==> UsedBy(uses, n, fk))
      && (dedup ==> Distinct(Usage(uses, dedup).entries[n]))
    decreases |uses|
  {
    if |uses| > 0 {
      var init, u := uses[..|uses| - 1], uses[|uses| - 1];
      assert uses == init + [u];
      assert forall x :: x in uses <==> x in init || x == u;
      UsageLists(init, dedup, n, fk);
      RecordStep(Usage(init, dedup), u, dedup, n, fk);
    }
  }

  /** Recording one use adds its modifier and its function, and keeps each
      list non-empty and, with `dedup`, free of repeats. */
  lemma RecordStep(d: Dict<string, seq<FunctionKey>>, u: Use, dedup: bool, n: string, fk: FunctionKey)
    requires n in d.entries ==> |d.entries[n]| > 0 && (dedup ==> Distinct(d.entries[n]))
    ensures n in Record(d, u, dedup).entries <==> n in d.entries || n == u.name
    ensures n in Record(d, u, dedup).entries ==>
      |Record(d, u, dedup).entries[n]| > 0
      && (fk in Record(d, u, dedup).entries[n] <==> (n in d.entries && fk in d.entries[n]) || (n == u.name && fk == u.key))
      && (dedup ==> Distinct(Record(d, u, dedup).entries[n]))
  {
    if dedup && n == u.name && n in d.entries && u.key !in d.entries[n] {
      DistinctSnoc(d.entries[n], u.key);
    }
  }

  lemma DistinctSnoc<T>(s: seq<T>, x: T)
    requires Distinct(s) && x !in s
    ensures Distinct(s + [x])
  {
  }

  /** Looking up every key lists the same functions under the same
      modifiers as the scan as written does, each once. */
  lemma DedupKeepsFunctions(uses: seq<Use>, n: string, fk: FunctionKey)
    ensures n in Usage(uses, true).entries <==> n in Usage(uses, false).entries
    ensures n in Usage(uses, true).entries ==>
      (fk in Usage(uses, true).entries[n] <==> fk in Usage(uses, false).entries[n])
      && Distinct(Usage(uses, true).entries[n])
  {
    UsageLists(uses, true, n, fk);
    UsageLists(uses, false, n, fk);
  }

  /** Whether or not keys are looked up, the modifiers are listed in the
      same order: the lookup only decides whether a list grows. */
  lemma {:induction false} UsageSameOrder(uses: seq<Use>)
    ensures Usage(uses, true).order == Usage(uses, false).order
    ensures Usage(uses, true).entries.Keys == Usage(uses, false).entries.Keys
    decreases |uses|
  {
    if |uses| > 0 {
      UsageSameOrder(uses[..|uses| - 1]);
    }
  }

  // ---------------------------------------------------------------------
  // The double count

  const Owner := ContractKey("Owned", "src/Owned.sol")
  const Vault := ContractKey("Vault", "src/Vault.sol")
  const Withdraw := FunctionKey("withdraw()", "Owned", "src/Owned.sol")

  /** `withdraw()` declared in `Owned` with the modifier `onlyOwner`. */
  const WithdrawModel := FunctionModel("withdraw()", Owner, [], "public", ["onlyOwner"], [], [], "src/Owned.sol", 10, 12,
                                       FunctionCallees([], [], [], false))

  function OneFunction(): Dict<string, FunctionModel> {
    RawDict(["withdraw()"], map["withdraw()" := WithdrawModel])
  }

  function OwnedContract(): ContractModel {
    ContractModel("Owned", Owner, "src/Owned.sol", false, true, false, false, [], [Owner],
                  OneFunction(), Empty(), [], [])
  }

  /** `Vault` inherits `withdraw()` from `Owned`. */
  function VaultContract(): ContractModel {
    ContractModel("Vault", Vault, "src/Vault.sol", false, true, false, false, [Owner], [Vault, Owner],
                  Empty(), OneFunction(), [], [])
  }

  /** A project whose contract dictionary lists `Vault` before `Owned`. */
  function VaultFirst(): ProjectFacts {
    ProjectFacts(RawDict([Vault, Owner], map[Vault := VaultContract(), Owner := OwnedContract()]), "", Empty(), [])
  }

  const AllModifiers := ModifiersRequest(None, "", 0, None)

  /** The inherited use of `withdraw()` followed by its declared use. */
  const TwoUses := [Use("onlyOwner", Withdraw, true), Use("onlyOwner", Withdraw, false)]

  /** `Vault` contributes the inherited use of `withdraw()`. */
  lemma VaultUses()
    ensures ContractUses(Vault, VaultContract(), AllModifiers) == [TwoUses[0]]
  {
    assert Filter(["onlyOwner"], (m: string) => Analysis.NameContains("", m)) == ["onlyOwner"];
    assert DeclaredUses(Vault, Empty(), [], "") == [];
    assert InheritedUses(OneFunction(), ["withdraw()"], "") == [TwoUses[0]];
  }

  /** `Owned` contributes the declared use of `withdraw()`. */
  lemma OwnedUses()
    ensures ContractUses(Owner, OwnedContract(), AllModifiers) == [TwoUses[1]]
  {
    assert Filter(["onlyOwner"], (m: string) => Analysis.NameContains("", m)) == ["onlyOwner"];
    assert DeclaredUses(Owner, OneFunction(), ["withdraw()"], "") == [TwoUses[1]];
  }

  /** Scanning `Vault` first meets the inherited use of `withdraw()`, then
      the declared one. */
  lemma VaultFirstUses()
    ensures ScanUses(VaultFirst(), AllModifiers) == TwoUses
  {
    var facts := VaultFirst();
    var rows := (k: ContractKey, c: ContractModel) => ContractUses(k, c, AllModifiers);
    assert facts.contracts.order == [Vault, Owner];
    Analysis.GatherTwo(facts.contracts, facts.contracts.order, rows);
    var first := rows(Vault, facts.contracts.entries[Vault]);
    var second := rows(Owner, facts.contracts.entries[Owner]);
    assert first == [TwoUses[0]] by {
      assert facts.contracts.entries[Vault] == VaultContract();
      VaultUses();
    }
    assert second == [TwoUses[1]] by {
      assert facts.contracts.entries[Owner] == OwnedContract();
      OwnedUses();
    }
    assert ScanUses(facts, AllModifiers) == first + second;
  }

  /** Recording the two uses appends `withdraw()` twice as written, once
      when every key is looked up. */
  lemma TwoUsesRecorded()
    ensures Usage(TwoUses, false).entries["onlyOwner"] == [Withdraw, Withdraw]
    ensures Usage(TwoUses, true).entries["onlyOwner"] == [Withdraw]
  {
    assert TwoUses[..1] == [TwoUses[0]];
    assert TwoUses[..1][..0] == [];
    assert Usage([], false) == Empty() && Usage([], true) == Empty();
    var once := Record(Empty(), TwoUses[0], false);
    assert once.entries["onlyOwner"] == [Withdraw];
    assert Usage(TwoUses[..1], false) == once;
    assert Usage(TwoUses[..1], true) == Record(Empty(), TwoUses[0], true) == once;
  }

  /** As written, `onlyOwner` is reported as used twice by the one function
      `withdraw()`: the declared use is appended without a lookup. With
      every key looked up it is used once. */
  lemma VaultFirstCountsTwice()
    ensures var usage := Usage(ScanUses(VaultFirst(), AllModifiers), false);
      "onlyOwner" in usage.entries && usage.entries["onlyOwner"] == [Withdraw, Withdraw]
    ensures var usage := Usage(ScanUses(VaultFirst(), AllModifiers), true);
      "onlyOwner" in usage.entries && usage.entries["onlyOwner"] == [Withdraw]
  {
    VaultFirstUses();
    TwoUsesRecorded();
  }

  // ---------------------------------------------------------------------
  // The report

  datatype ModifierUsage = ModifierUsage(
    name: string,
    contractKey: Option<ContractKey>,
    usedBy: seq<FunctionKey>,
    usageCount: nat)

  datatype ModifiersResponse = ModifiersResponse(
    success: bool,
    modifiers: seq<ModifierUsage>,
    totalCount: nat,
    hasMore: bool)

  /** For a name `Contract.modifier`, the first contract (in the facts'
      order) named `Contract`. */
  function DefiningContract(facts: ProjectFacts, name: string): (r: Option<ContractKey>)
    ensures r.Some? ==> '.' in name && r.value in facts.contracts.entries && r.value.contractName == ContractOfExt(name)
    ensures r.None? <==> '.' !in name || forall k :: k in facts.contracts.entries ==> k.contractName != ContractOfExt(name)
  {
    var order := facts.contracts.order;
    if '.' !in name then None
    else match FirstScopeNamed(order, ContractOfExt(name))
      case Some(i) => Some(order[i])
      case None =>
        assert forall k :: k in facts.contracts.entries ==> k.contractName != ContractOfExt(name) by {
          forall k | k in facts.contracts.entries ensures k.contractName != ContractOfExt(name) {
            assert k in order;
          }
        }
        None
  }

  function UsageRow(facts: ProjectFacts, usage: Dict<string, seq<FunctionKey>>, name: string): ModifierUsage
    requires name in usage.entries
  {
    ModifierUsage(name, DefiningContract(facts, name), usage.entries[name], |usage.entries[name]|)
  }

  function UsageCountKey(m: ModifierUsage): Sorting.Key {
    [Sorting.Num(m.usageCount)]
  }

  /** One row per listed modifier, in the order the modifiers were first met. */
  function UsageRows(facts: ProjectFacts, usage: Dict<string, seq<FunctionKey>>): (r: seq<ModifierUsage>)
    ensures |r| == |usage.order|
    ensures forall m :: m in r <==> m.name in usage.entries && m == UsageRow(facts, usage, m.name)
  {
    var rows := seq(|usage.order|, i requires 0 <= i < |usage.order| => UsageRow(facts, usage, usage.order[i]));
    assert forall n :: n in usage.entries ==> UsageRow(facts, usage, n) in rows by {
      forall n | n in usage.entries ensures UsageRow(facts, usage, n) in rows {
        assert n in usage.order;
        var i :| 0 <= i < |usage.order| && usage.order[i] == n;
        assert rows[i] == UsageRow(facts, usage, n);
      }
    }
    rows
  }

  /** The rows, most used first (ties keep the order in which the
      modifiers were first met). The source records declared uses without
      a lookup (`dedup` false); with `dedup` every key is looked up. */
  function ModifierRows(facts: ProjectFacts, req: ModifiersRequest, dedup: bool): (r: seq<ModifierUsage>)
    ensures forall m :: m in r <==> m in UsageRows(facts, Usage(ScanUses(facts, req), dedup))
    ensures |r| == |Usage(ScanUses(facts, req), dedup).order|
    ensures Sorting.SortedBy(r, UsageCountKey, true)
  {
    var rows := UsageRows(facts, Usage(ScanUses(facts, req), dedup));
    Sorting.SortByMembers(rows, UsageCountKey, true);
    Sorting.SortBySorted(rows, UsageCountKey, true);
    Sorting.SortBy(rows, UsageCountKey, true)
  }

  /** Each row's count is the length of its user list, which is non-empty,
      names exactly the functions using a modifier that passes the filter,
      and (only when every key is looked up) lists each function once;
      the row names the modifier's defining contract. */
  lemma ModifierRowsSound(facts: ProjectFacts, req: ModifiersRequest, dedup: bool, m: ModifierUsage)
    requires m in ModifierRows(facts, req, dedup)
    ensures m.usageCount == |m.usedBy| && m.usageCount > 0
    ensures dedup ==> Distinct(m.usedBy)
    ensures Analysis.NameContains(req.modifierFilter, m.name)
    ensures m.contractKey == DefiningContract(facts, m.name)
    ensures forall fk :: fk in m.usedBy <==> UsedBy(ScanUses(facts, req), m.name, fk)
  {
    var uses := ScanUses(facts, req);
    var usage := Usage(uses, dedup);
    forall fk ensures fk in m.usedBy <==> UsedBy(uses, m.name, fk) {
      UsageLists(uses, dedup, m.name, fk);
    }
    UsageLists(uses, dedup, m.name, Withdraw);
    var u :| u in uses && u.name == m.name;
    var k :| k in facts.contracts.entries && Analysis.Scanned(req.contractKey, k) && u in ContractUses(k, facts.contracts.entries[k], req);
  }

  /** Every use met shows up in the row of its modifier. */
  lemma ModifierRowsComplete(facts: ProjectFacts, req: ModifiersRequest, dedup: bool, u: Use)
    requires u in ScanUses(facts, req)
    ensures exists m :: m in ModifierRows(facts, req, dedup) && m.name == u.name && u.key in m.usedBy
  {
    var usage := Usage(ScanUses(facts, req), dedup);
    UsageLists(ScanUses(facts, req), dedup, u.name, u.key);
    assert UsageRow(facts, usage, u.name) in UsageRows(facts, usage);
  }

  /** The tool as written: a page of the rows built without the lookup
      for declared uses. */
  function AnalyzeModifiers(facts: ProjectFacts, req: ModifiersRequest): (r: ModifiersResponse)
    ensures r.success
    ensures Page(r.modifiers, r.totalCount, r.hasMore) == ApplyPagination(ModifierRows(facts, req, false), req.offset, req.limit)
    ensures r.totalCount == |Usage(ScanUses(facts, req), false).order|
  {
    var page := ApplyPagination(ModifierRows(facts, req, false), req.offset, req.limit);
    ModifiersResponse(true, page.items, page.totalCount, page.hasMore)
  }

  /** The tool with every key looked up: the same modifiers, and every
      row on every page counts each using function once. */
  function AnalyzeModifiersFixed(facts: ProjectFacts, req: ModifiersRequest): (r: ModifiersResponse)
    ensures r.success
    ensures Page(r.modifiers, r.totalCount, r.hasMore) == ApplyPagination(ModifierRows(facts, req, true), req.offset, req.limit)
    ensures r.totalCount == AnalyzeModifiers(facts, req).totalCount
    ensures forall m :: m in r.modifiers ==> Distinct(m.usedBy) && m.usageCount == |m.usedBy|
  {
    var rows := ModifierRows(facts, req, true);
    UsageSameOrder(ScanUses(facts, req));
    var page := ApplyPagination(rows, req.offset, req.limit);
    forall m | m in page.items ensures Distinct(m.usedBy) && m.usageCount == |m.usedBy| {
      ModifierRowsSound(facts, req, true, m);
    }
    ModifiersResponse(true, page.items, page.totalCount, page.hasMore)
  }

  /** Every page lists the more used modifiers first. */
  lemma ModifiersByUsage(facts: ProjectFacts, req: ModifiersRequest)
    ensures var ms := AnalyzeModifiers(facts, req).modifiers;
      forall i, j :: 0 <= i < j < |ms| ==> ms[i].usageCount >= ms[j].usageCount
  {
    var ms := AnalyzeModifiers(facts, req).modifiers;
    Analysis.PageOfSorted(ModifierRows(facts, req, false), UsageCountKey, true, req.offset, req.limit);
    forall i, j | 0 <= i < j < |ms| ensures ms[i].usageCount >= ms[j].usageCount {
      Sorting.SortedByNum(ms, UsageCountKey, true, i, j, ms[i].usageCount, ms[j].usageCount);
    }
  }
}
