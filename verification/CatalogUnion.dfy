/** The omp union pass and the whole build. */
module CatalogUnion {
  import opened Prelude
  import opened Catalog
  import opened CatalogBuild

  function RecordIds(records: seq<OmpRecord>): seq<string> {
    seq(|records|, i requires 0 <= i < |records| => records[i].id)
  }

  predicate OwnersListed(omp: Omp) {
    forall i | 0 <= i < |omp.providers| :: OwnerOf(omp.providers[i]) in omp.ompProviderIds
  }

  // ----- grouping the records by provider -----

  type Groups = map<string, seq<OmpRecord>>

  function GroupOf(groups: Groups, p: string): seq<OmpRecord> { if p in groups then groups[p] else [] }

  ghost predicate Grouped(groups: Groups, records: seq<OmpRecord>) {
    && (forall p: string :: GroupOf(groups, p) == RecordsOf(records, p))
    && (forall p | p in groups :: groups[p] != [])
  }

  lemma GroupStep(groups: Groups, records: seq<OmpRecord>, r: OmpRecord)
    requires Grouped(groups, records)
    ensures Grouped(groups[OwnerOf(r) := GroupOf(groups, OwnerOf(r)) + [r]], records + [r])
  {
    var after := groups[OwnerOf(r) := GroupOf(groups, OwnerOf(r)) + [r]];
    assert (records + [r])[..|records|] == records;
    forall p: string
      ensures GroupOf(after, p) == RecordsOf(records + [r], p)
    {
      assert GroupOf(groups, p) == RecordsOf(records, p);
    }
  }

  lemma NothingGrouped()
    ensures Grouped(map[], [])
  {
  }

  lemma NewIdExtends(ids: seq<string>, i: nat)
    requires i < |ids| && Distinct(ids[..i]) && ids[i] !in ids[..i]
    ensures Distinct(ids[..i + 1])
  {
  }

  lemma RepeatedId(ids: seq<string>, i: nat)
    requires i < |ids| && ids[i] in ids[..i]
    ensures !Distinct(ids)
  {
  }

  method GroupRecords(omp: Omp) returns (r: Result<Groups, BuildError>)
    ensures r.Ok? <==> Distinct(RecordIds(omp.providers))
    ensures r.Ok? ==> Grouped(r.value, omp.providers)
  {
    hide Grouped, GroupOf, OwnerOf;
    var groups: Groups := map[];
    var ids := RecordIds(omp.providers);
    NothingGrouped();
    for i := 0 to |omp.providers|
      invariant Grouped(groups, omp.providers[..i])
      invariant Distinct(ids[..i])
    {
      var record := omp.providers[i];
      if record.id in ids[..i] {
        RepeatedId(ids, i);
        return Err(DuplicateRecord(record.id));
      }
      NewIdExtends(ids, i);
      GroupStep(groups, omp.providers[..i], record);
      assert omp.providers[..i + 1] == omp.providers[..i] + [record];
      groups := groups[OwnerOf(record) := GroupOf(groups, OwnerOf(record)) + [record]];
    }
    assert omp.providers[..|omp.providers|] == omp.providers && ids[..|ids|] == ids;
    r := Ok(groups);
  }

  lemma {:induction false} RecordsOfOwned(records: seq<OmpRecord>, p: string)
    ensures RecordsOf(records, p) != [] <==> exists i :: 0 <= i < |records| && OwnerOf(records[i]) == p
  {
    if records != [] {
      var front := records[..|records| - 1];
      RecordsOfOwned(front, p);
      if i :| 0 <= i < |records| && OwnerOf(records[i]) == p {
        assert i < |front| ==> front[i] == records[i];
      }
      if i :| 0 <= i < |front| && OwnerOf(front[i]) == p {
        assert records[i] == front[i];
      }
    }
  }

  method CheckOwners(omp: Omp, groups: Groups) returns (r: Option<BuildError>)
    requires Grouped(groups, omp.providers)
    ensures r.None? <==> OwnersListed(omp)
  {
    var unlisted := set p | p in groups && p !in omp.ompProviderIds;
    if unlisted == {} {
      forall i | 0 <= i < |omp.providers|
        ensures OwnerOf(omp.providers[i]) in omp.ompProviderIds
      {
        var p := OwnerOf(omp.providers[i]);
        RecordsOfOwned(omp.providers, p);
        assert GroupOf(groups, p) != [];
        assert p in groups && p !in unlisted;
      }
      return None;
    }
    var p :| p in unlisted;
    RecordsOfOwned(omp.providers, p);
    assert GroupOf(groups, p) != [];
    return Some(UnlistedProvider(p));
  }

  // ----- sorting one item -----

  function SortItem(a: Audit, c: ItemClass, name: string): Audit {
    match c
    case AlreadyPresent => a.(ompAlreadyPresent := a.ompAlreadyPresent + [name])
    case AliasSkip => a.(ompAliasSkips := a.ompAliasSkips + [name])
    case NonModel => a.(ompNonModel := a.ompNonModel + [name])
    case NotMaterializable => a.(ompNotMaterializable := a.ompNotMaterializable + [name])
    case NewRow => a.(ompRowCount := a.ompRowCount + 1)
    case Refused => a
  }

  /** The four union buckets are the classes of the items met, in order. */
  predicate UnionAudit(a: Audit, start: Audit, before: set<string>, covered: set<string>, omp: Omp, items: seq<Item>) {
    && a.ompAlreadyPresent == start.ompAlreadyPresent + Names(ItemsIn(before, covered, omp, items, AlreadyPresent))
    && a.ompAliasSkips == start.ompAliasSkips + Names(ItemsIn(before, covered, omp, items, AliasSkip))
    && a.ompNonModel == start.ompNonModel + Names(ItemsIn(before, covered, omp, items, NonModel))
    && a.ompNotMaterializable ==
      start.ompNotMaterializable + Names(ItemsIn(before, covered, omp, items, NotMaterializable))
    && a.ompRowCount == start.ompRowCount + |ItemsIn(before, covered, omp, items, NewRow)|
    && a.excludedSourceKeys == start.excludedSourceKeys && a.dedupedKeys == start.dedupedKeys
    && a.idPatternFails == start.idPatternFails && a.breadthCount == start.breadthCount
    && a.ompOwnedKeys == start.ompOwnedKeys
  }

  lemma ItemsStep(before: set<string>, covered: set<string>, omp: Omp, items: seq<Item>, i: Item, c: ItemClass)
    ensures ItemsIn(before, covered, omp, items + [i], c) ==
            ItemsIn(before, covered, omp, items, c) + (if ClassAt(before, covered, omp, items, i) == c then [i] else [])
    ensures Names(ItemsIn(before, covered, omp, items + [i], c)) ==
            Names(ItemsIn(before, covered, omp, items, c))
            + (if ClassAt(before, covered, omp, items, i) == c then [NameOf(i)] else [])
  {
    assert (items + [i])[..|items|] == items;
  }

  lemma AddedStep(before: set<string>, covered: set<string>, omp: Omp, items: seq<Item>, i: Item)
    ensures AddedBy(before, covered, omp, items + [i]) ==
            AddedBy(before, covered, omp, items)
            + (if ClassAt(before, covered, omp, items, i) == NewRow then {NameOf(i)} else {})
  {
    assert (items + [i])[..|items|] == items;
  }

  lemma UnionAuditStep(
    a: Audit, start: Audit, before: set<string>, covered: set<string>, omp: Omp, items: seq<Item>, i: Item)
    requires UnionAudit(a, start, before, covered, omp, items)
    ensures UnionAudit(SortItem(a, ClassAt(before, covered, omp, items, i), NameOf(i)), start, before, covered, omp,
                       items + [i])
  {
    hide ItemsIn, ClassAt, Names;
    ItemsStep(before, covered, omp, items, i, AlreadyPresent);
    ItemsStep(before, covered, omp, items, i, AliasSkip);
    ItemsStep(before, covered, omp, items, i, NonModel);
    ItemsStep(before, covered, omp, items, i, NotMaterializable);
    ItemsStep(before, covered, omp, items, i, NewRow);
  }

  /** What was there, one row per item of `made`, and no id but theirs. */
  predicate RowsMade(before: CatalogMap, made: seq<Item>, added: set<string>, catalog: CatalogMap, count: nat) {
    && Preserved(before, catalog)
    && |catalog| == |before| + count
    && catalog.Keys == before.Keys + added
    && forall i | i in made && i.RecordItem? :: i.record.id in catalog && catalog[i.record.id] == UnionRow(i.record)
  }

  lemma OneRowMade(
    before: CatalogMap, made: seq<Item>, added: set<string>, catalog: CatalogMap, count: nat, r: OmpRecord)
    requires RowsMade(before, made, added, catalog, count) && r.id !in catalog
    ensures RowsMade(before, made + [RecordItem(r)], added + {r.id}, catalog[r.id := UnionRow(r)], count + 1)
  {
  }

  /** The catalog after some items: the rows of those sorted as new. */
  predicate UnionRows(
    before: CatalogMap, covered: set<string>, omp: Omp, items: seq<Item>, catalog: CatalogMap, count: nat)
  {
    RowsMade(before, ItemsIn(before.Keys, covered, omp, items, NewRow), AddedBy(before.Keys, covered, omp, items),
             catalog, count)
  }

  /** Where the union stands after `items`. */
  predicate UnionState(
    start: Audit, before: CatalogMap, covered: set<string>, omp: Omp, items: seq<Item>, catalog: CatalogMap,
    audit: Audit)
  {
    && UnionAudit(audit, start, before.Keys, covered, omp, items)
    && start.ompRowCount <= audit.ompRowCount
    && UnionRows(before, covered, omp, items, catalog, audit.ompRowCount - start.ompRowCount)
    && ItemsIn(before.Keys, covered, omp, items, Refused) == []
  }

  lemma NewRowIsRecord(present: set<string>, covered: set<string>, omp: Omp, i: Item)
    requires ClassOfItem(present, covered, omp, i) == NewRow
    ensures i.RecordItem? && i.record.id !in present
  {
  }

  /** The rows after one more item, its class read off the catalog as it stands. */
  function NextRows(catalog: CatalogMap, covered: set<string>, omp: Omp, i: Item): CatalogMap {
    if ClassOfItem(catalog.Keys, covered, omp, i) == NewRow && i.RecordItem?
    then catalog[i.record.id := UnionRow(i.record)] else catalog
  }

  lemma UnionRowsStep(
    before: CatalogMap, covered: set<string>, omp: Omp, items: seq<Item>, catalog: CatalogMap, count: nat, i: Item)
    requires UnionRows(before, covered, omp, items, catalog, count)
    ensures var isNew := ClassOfItem(catalog.Keys, covered, omp, i) == NewRow;
            UnionRows(before, covered, omp, items + [i], NextRows(catalog, covered, omp, i),
                      if isNew then count + 1 else count)
  {
    hide ClassOfItem, ItemsIn, AddedBy, Names, Preserved;
    ItemsStep(before.Keys, covered, omp, items, i, NewRow);
    AddedStep(before.Keys, covered, omp, items, i);
    assert ClassAt(before.Keys, covered, omp, items, i) == ClassOfItem(catalog.Keys, covered, omp, i);
    if ClassOfItem(catalog.Keys, covered, omp, i) == NewRow {
      hide RowsMade;
      NewRowIsRecord(catalog.Keys, covered, omp, i);
      OneRowMade(before, ItemsIn(before.Keys, covered, omp, items, NewRow),
                 AddedBy(before.Keys, covered, omp, items), catalog, count, i.record);
    }
  }

  lemma UnionStep(
    start: Audit, before: CatalogMap, covered: set<string>, omp: Omp, items: seq<Item>, catalog: CatalogMap,
    audit: Audit, i: Item)
    requires UnionState(start, before, covered, omp, items, catalog, audit)
    requires ClassOfItem(catalog.Keys, covered, omp, i) != Refused
    ensures UnionState(start, before, covered, omp, items + [i], NextRows(catalog, covered, omp, i),
                       SortItem(audit, ClassOfItem(catalog.Keys, covered, omp, i), NameOf(i)))
  {
    hide ClassOfItem, ItemsIn, AddedBy, Names, NextRows, UnionAudit;
    assert ClassAt(before.Keys, covered, omp, items, i) == ClassOfItem(catalog.Keys, covered, omp, i);
    UnionAuditStep(audit, start, before.Keys, covered, omp, items, i);
    ItemsStep(before.Keys, covered, omp, items, i, Refused);
    UnionRowsStep(before, covered, omp, items, catalog, audit.ompRowCount - start.ompRowCount, i);
  }

  // ----- the loops -----

  /** One record: present already, no env name, the three materialization rules, then a row. */
  method SortRecord(omp: Omp, ghost covered: set<string>, r: OmpRecord, catalog: CatalogMap, audit: Audit)
    returns (next: CatalogMap, sorted: Audit)
    ensures sorted == SortItem(audit, ClassOfItem(catalog.Keys, covered, omp, RecordItem(r)), r.id)
    ensures next == NextRows(catalog, covered, omp, RecordItem(r))
  {
    if r.id in catalog {
      return catalog, audit.(ompAlreadyPresent := audit.ompAlreadyPresent + [r.id]);
    }
    if Blank(r.env) {
      return catalog, audit.(ompNonModel := audit.ompNonModel + [r.id]);
    }
    if !ProviderId(r.id) {
      return catalog, audit.(ompNotMaterializable := audit.ompNotMaterializable + [r.id]);
    }
    if r.api !in MATERIALIZABLE_APIS {
      return catalog, audit.(ompNotMaterializable := audit.ompNotMaterializable + [r.id]);
    }
    if !PlaceholdersAllowed(r.baseUrl) {
      return catalog, audit.(ompNotMaterializable := audit.ompNotMaterializable + [r.id]);
    }
    return catalog[r.id := UnionRow(r)], audit.(ompRowCount := audit.ompRowCount + 1);
  }

  /** A provider without records: the exclusion tables, in order, say why. */
  method SortBareProvider(omp: Omp, ghost present: set<string>, covered: set<string>, id: string, audit: Audit)
    returns (r: Result<Audit, BuildError>)
    ensures r.Ok? <==> ClassOfItem(present, covered, omp, ProviderItem(id)) != Refused
    ensures r.Ok? ==> r.value == SortItem(audit, ClassOfItem(present, covered, omp, ProviderItem(id)), id)
  {
    if id in covered {
      return Ok(audit.(ompAlreadyPresent := audit.ompAlreadyPresent + [id]));
    } else if id in omp.alias {
      if omp.alias[id] !in covered {
        return Err(Unclassified(id));
      }
      return Ok(audit.(ompAliasSkips := audit.ompAliasSkips + [id]));
    } else if id in omp.nonModel {
      return Ok(audit.(ompNonModel := audit.ompNonModel + [id]));
    } else if id in omp.oauthOrDeviceCode {
      return Ok(audit.(ompNotMaterializable := audit.ompNotMaterializable + [id]));
    } else if id in omp.notMaterializable {
      return Ok(audit.(ompNotMaterializable := audit.ompNotMaterializable + [id]));
    }
    return Err(Unclassified(id));
  }

  /** What the generator checks before it walks: one record per id, every owner listed. */
  predicate RecordsUsable(omp: Omp) { Distinct(RecordIds(omp.providers)) && OwnersListed(omp) }

  /** The items of the first `k` providers, then those of the next. */
  lemma WalkPosition(omp: Omp, k: nat)
    requires k < |omp.ompProviderIds|
    ensures var ids := omp.ompProviderIds;
            ItemsOf(omp, ids[..k]) + ItemsOfProvider(omp, ids[k]) == ItemsOf(omp, ids[..k + 1])
  {
    assert omp.ompProviderIds[..k + 1][..k] == omp.ompProviderIds[..k];
  }

  lemma OneMoreRecord(done: seq<Item>, records: seq<OmpRecord>, i: nat)
    requires i < |records|
    ensures done + Records(records[..i + 1]) == done + Records(records[..i]) + [RecordItem(records[i])]
  {
  }

  lemma RecordIsNotRefused(catalog: set<string>, covered: set<string>, omp: Omp, r: OmpRecord)
    ensures ClassOfItem(catalog, covered, omp, RecordItem(r)) != Refused
  {
  }

  /** All the records of one provider. */
  method SortProviderRecords(
    ghost start: Audit, ghost before: CatalogMap, ghost covered: set<string>, omp: Omp, ghost done: seq<Item>,
    records: seq<OmpRecord>, catalog0: CatalogMap, audit0: Audit) returns (catalog: CatalogMap, audit: Audit)
    requires UnionState(start, before, covered, omp, done, catalog0, audit0)
    ensures UnionState(start, before, covered, omp, done + Records(records), catalog, audit)
  {
    hide UnionState, ClassOfItem, NextRows, SortItem;
    catalog, audit := catalog0, audit0;
    assert done + Records(records[..0]) == done;
    for i := 0 to |records|
      invariant UnionState(start, before, covered, omp, done + Records(records[..i]), catalog, audit)
    {
      RecordIsNotRefused(catalog.Keys, covered, omp, records[i]);
      UnionStep(start, before, covered, omp, done + Records(records[..i]), catalog, audit, RecordItem(records[i]));
      OneMoreRecord(done, records, i);
      catalog, audit := SortRecord(omp, covered, records[i], catalog, audit);
    }
    assert records[..|records|] == records;
  }

  predicate NoneRefused(present: set<string>, covered: set<string>, omp: Omp, items: seq<Item>) {
    forall i | i in items :: ClassOfItem(present, covered, omp, i) != Refused
  }

  /** The union goes through exactly when the vendored file is consistent and every provider is accounted for. */
  predicate UnionAccepts(before: CatalogMap, covered: set<string>, omp: Omp) {
    RecordsUsable(omp) && NoneRefused(before.Keys, covered, omp, ItemsOf(omp, omp.ompProviderIds))
  }

  /** Only a provider without records can be refused, and no row the union adds saves it. */
  lemma RefusalIsStatic(present: set<string>, more: set<string>, covered: set<string>, omp: Omp, i: Item)
    ensures ClassOfItem(present, covered, omp, i) == Refused <==> ClassOfItem(more, covered, omp, i) == Refused
    ensures ClassOfItem(present, covered, omp, i) == Refused ==> i.ProviderItem?
  {
  }

  lemma RefusedItem(before: CatalogMap, catalog: CatalogMap, covered: set<string>, omp: Omp, id: string)
    requires id in omp.ompProviderIds && RecordsOf(omp.providers, id) == []
    requires ClassOfItem(catalog.Keys, covered, omp, ProviderItem(id)) == Refused
    ensures !UnionAccepts(before, covered, omp)
  {
    ItemMet(omp, omp.ompProviderIds, ProviderItem(id));
    RefusalIsStatic(before.Keys, catalog.Keys, covered, omp, ProviderItem(id));
  }

  lemma {:induction false} NoRefusedItems(present: set<string>, covered: set<string>, omp: Omp, items: seq<Item>)
    requires ItemsIn(present, covered, omp, items, Refused) == []
    ensures NoneRefused(present, covered, omp, items)
  {
    hide ClassOfItem;
    if items != [] {
      var front, last := items[..|items| - 1], items[|items| - 1];
      NoRefusedItems(present, covered, omp, front);
      RefusalIsStatic(present, present + AddedBy(present, covered, omp, front), covered, omp, last);
      assert items == front + [last];
    }
  }

  /** One omp provider id: its records in order, or the reason it has none. */
  method SortProvider(
    ghost start: Audit, ghost before: CatalogMap, covered: set<string>, omp: Omp, groups: Groups, k: nat,
    catalog: CatalogMap, audit: Audit) returns (r: Result<(CatalogMap, Audit), BuildError>)
    requires RecordsUsable(omp) && Grouped(groups, omp.providers) && k < |omp.ompProviderIds|
    requires UnionState(start, before, covered, omp, ItemsOf(omp, omp.ompProviderIds[..k]), catalog, audit)
    ensures r.Err? ==> !UnionAccepts(before, covered, omp)
    ensures r.Ok? ==>
              UnionState(start, before, covered, omp, ItemsOf(omp, omp.ompProviderIds[..k + 1]), r.value.0, r.value.1)
  {
    var id := omp.ompProviderIds[k];
    ghost var done := ItemsOf(omp, omp.ompProviderIds[..k]);
    var records := GroupOf(groups, id);
    WalkPosition(omp, k);
    if |records| == 0 {
      var sorted := SortBareProvider(omp, catalog.Keys, covered, id, audit);
      if sorted.Err? {
        RefusedItem(before, catalog, covered, omp, id);
        return Err(sorted.error);
      }
      UnionStep(start, before, covered, omp, done, catalog, audit, ProviderItem(id));
      return Ok((catalog, sorted.value));
    }
    var grown, counted := SortProviderRecords(start, before, covered, omp, done, records, catalog, audit);
    r := Ok((grown, counted));
  }

  method AddUnion(t: Tables, omp: Omp, before: CatalogMap, start: Audit)
    returns (r: Result<(CatalogMap, Audit), BuildError>)
    ensures r.Ok? <==> UnionAccepts(before, Covered(t, before.Keys), omp)
    ensures r.Ok? ==>
              var items := ItemsOf(omp, omp.ompProviderIds);
              UnionState(start, before, Covered(t, before.Keys), omp, items, r.value.0, r.value.1)
  {
    var covered := Covered(t, before.Keys);
    var groups := GroupRecords(omp);
    if groups.Err? {
      return Err(groups.error);
    }
    var unlisted := CheckOwners(omp, groups.value);
    if unlisted.Some? {
      return Err(unlisted.value);
    }
    r := Ok((before, start));
    UnionStart(start, before, covered, omp);
    for k := 0 to |omp.ompProviderIds|
      invariant r.Ok?
      invariant UnionState(start, before, covered, omp, ItemsOf(omp, omp.ompProviderIds[..k]), r.value.0, r.value.1)
    {
      r := SortProvider(start, before, covered, omp, groups.value, k, r.value.0, r.value.1);
      if r.Err? {
        return;
      }
    }
    assert omp.ompProviderIds[..|omp.ompProviderIds|] == omp.ompProviderIds;
    NoRefusedItems(before.Keys, covered, omp, ItemsOf(omp, omp.ompProviderIds));
  }

  lemma UnionStart(start: Audit, before: CatalogMap, covered: set<string>, omp: Omp)
    ensures UnionState(start, before, covered, omp, ItemsOf(omp, omp.ompProviderIds[..0]), before, start)
  {
  }
}
