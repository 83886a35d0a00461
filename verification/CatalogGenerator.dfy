/** The whole build: when it returns, and what the returned catalog and audit account for. */
module CatalogGenerator {
  import opened Prelude
  import opened Catalog
  import opened CatalogBuild
  import opened CatalogUnion

  function BaseIds(t: Tables): set<string> { (set id | id in BuiltinIds(t)) + (set id | id in TemplateIds(t)) }

  /** Ids of the rows made before the union. */
  function RowIds(t: Tables, omp: Option<Omp>, snapshot: seq<Entry>): set<string> {
    BaseIds(t) + (set e | e in snapshot && InBreadth(t, omp, e) :: e.key)
  }

  /** The build returns exactly when: every source key is there, no row would overwrite a hand-maintained one,
      and the vendored omp file is consistent and leaves no provider unexplained. */
  predicate Builds(t: Tables, snapshot: seq<Entry>, omp: Option<Omp>) {
    && SourcesPresent(t, snapshot)
    && (forall e | e in snapshot && InBreadth(t, omp, e) :: e.key !in BaseIds(t))
    && (omp.Some? ==>
          var rows := RowIds(t, omp, snapshot);
          RecordsUsable(omp.value)
            && NoneRefused(rows, Covered(t, rows), omp.value, ItemsOf(omp.value, omp.value.ompProviderIds)))
  }

  predicate KeysAccounted(t: Tables, snapshot: seq<Entry>, omp: Option<Omp>, a: Audit) {
    && a.excludedSourceKeys == KeysOf(t, omp, Keys(snapshot), IsSourceKey)
    && a.dedupedKeys == KeysOf(t, omp, Keys(snapshot), IsDeduped)
    && a.ompOwnedKeys == KeysOf(t, omp, Keys(snapshot), IsOmpOwned)
    && a.idPatternFails == KeysOf(t, omp, Keys(snapshot), FailsIdPattern)
    && a.breadthCount == |KeysOf(t, omp, Keys(snapshot), IsBreadth)|
  }

  /** The items of one class, over everything the union must account for. */
  function UnionClass(t: Tables, snapshot: seq<Entry>, omp: Omp, c: ItemClass): seq<Item> {
    var rows := RowIds(t, Some(omp), snapshot);
    ItemsIn(rows, Covered(t, rows), omp, ItemsOf(omp, omp.ompProviderIds), c)
  }

  predicate ItemsAccounted(t: Tables, snapshot: seq<Entry>, omp: Omp, a: Audit) {
    && a.ompAlreadyPresent == Names(UnionClass(t, snapshot, omp, AlreadyPresent))
    && a.ompAliasSkips == Names(UnionClass(t, snapshot, omp, AliasSkip))
    && a.ompNonModel == Names(UnionClass(t, snapshot, omp, NonModel))
    && a.ompNotMaterializable == Names(UnionClass(t, snapshot, omp, NotMaterializable))
    && a.ompRowCount == |UnionClass(t, snapshot, omp, NewRow)|
    && UnionClass(t, snapshot, omp, Refused) == []
  }

  predicate NoUnion(a: Audit) {
    a.ompAlreadyPresent == [] && a.ompAliasSkips == [] && a.ompNonModel == [] && a.ompNotMaterializable == []
      && a.ompRowCount == 0
  }

  predicate UnionAccounted(t: Tables, snapshot: seq<Entry>, omp: Option<Omp>, a: Audit) {
    if omp.Some? then ItemsAccounted(t, snapshot, omp.value, a) else NoUnion(a)
  }

  /** Ids the union adds. */
  function AddedIds(t: Tables, snapshot: seq<Entry>, omp: Omp): set<string> {
    var rows := RowIds(t, Some(omp), snapshot);
    AddedBy(rows, Covered(t, rows), omp, ItemsOf(omp, omp.ompProviderIds))
  }

  /** Every row that was promised is there, as written, and no other. */
  predicate RowsHeld(t: Tables, snapshot: seq<Entry>, omp: Option<Omp>, catalog: CatalogMap) {
    && HoldsTables(t, snapshot, catalog)
    && (forall e | e in snapshot && InBreadth(t, omp, e) ::
      e.key in catalog && catalog[e.key] == BreadthRow(e.provider))
    && (omp.Some? ==> forall i | i in UnionClass(t, snapshot, omp.value, NewRow) && i.RecordItem? ::
          i.record.id in catalog && catalog[i.record.id] == UnionRow(i.record))
    && catalog.Keys == RowIds(t, omp, snapshot) + (if omp.Some? then AddedIds(t, snapshot, omp.value) else {})
  }

  lemma BaseKeys(t: Tables, base: CatalogMap)
    requires forall id :: id in base <==> id in BuiltinIds(t) || id in TemplateIds(t)
    ensures base.Keys == BaseIds(t)
  {
  }

  lemma BreadthKeys(t: Tables, omp: Option<Omp>, snapshot: seq<Entry>, base: CatalogMap, catalog: CatalogMap,
      audit: Audit)
    requires BreadthState(t, omp, base, snapshot, catalog, audit) && base.Keys == BaseIds(t)
    ensures catalog.Keys == RowIds(t, omp, snapshot)
  {
    hide BreadthAudit, BaseIds, ClassOfKey;
    forall id | id in catalog
      ensures id in RowIds(t, omp, snapshot)
    {
      if id !in base {
        var j :| 0 <= j < |snapshot| && Keys(snapshot)[j] == id;
        assert snapshot[j] in snapshot && InBreadth(t, omp, snapshot[j]);
      }
    }
  }

  lemma TablesSurvive(t: Tables, snapshot: seq<Entry>, before: CatalogMap, after: CatalogMap)
    requires HoldsTables(t, snapshot, before) && Preserved(before, after)
    ensures HoldsTables(t, snapshot, after)
  {
  }

  lemma BreadthAccounts(t: Tables, snapshot: seq<Entry>, omp: Option<Omp>, base: CatalogMap, catalog: CatalogMap,
      a: Audit)
    requires BreadthState(t, omp, base, snapshot, catalog, a)
    requires HoldsTables(t, snapshot, base) && base.Keys == BaseIds(t) && |base| == |t.builtins| + |t.templates|
    ensures HoldsTables(t, snapshot, catalog) && catalog.Keys == RowIds(t, omp, snapshot)
    ensures |catalog| == |t.builtins| + |t.templates| + a.breadthCount
    ensures KeysAccounted(t, snapshot, omp, a) && NoUnion(a)
    ensures forall e | e in snapshot && InBreadth(t, omp, e) ::
            e.key in catalog && catalog[e.key] == BreadthRow(e.provider)
  {
    TablesSurvive(t, snapshot, base, catalog);
    BreadthKeys(t, omp, snapshot, base, catalog, a);
  }

  lemma UnionAccounts(t: Tables, snapshot: seq<Entry>, omp: Omp, before: CatalogMap, start: Audit, catalog: CatalogMap,
      a: Audit)
    requires before.Keys == RowIds(t, Some(omp), snapshot) && NoUnion(start)
    requires UnionState(start, before, Covered(t, before.Keys), omp, ItemsOf(omp, omp.ompProviderIds), catalog, a)
    ensures ItemsAccounted(t, snapshot, omp, a)
    ensures |catalog| == |before| + a.ompRowCount && Preserved(before, catalog)
    ensures catalog.Keys == before.Keys + AddedIds(t, snapshot, omp)
    ensures forall i | i in UnionClass(t, snapshot, omp, NewRow) && i.RecordItem? ::
              i.record.id in catalog && catalog[i.record.id] == UnionRow(i.record)
  {
  }

  method BuildCatalog(t: Tables, snapshot: seq<Entry>, omp: Option<Omp>)
    returns (r: Result<(CatalogMap, Audit), BuildError>)
    requires TablesOk(t) && Distinct(Keys(snapshot))
    ensures r.Ok? <==> Builds(t, snapshot, omp)
    ensures r.Ok? ==> RowsHeld(t, snapshot, omp, r.value.0)
    ensures r.Ok? ==> KeysAccounted(t, snapshot, omp, r.value.1) && UnionAccounted(t, snapshot, omp, r.value.1)
    ensures r.Ok? ==> |r.value.0| == |t.builtins| + |t.templates| + r.value.1.breadthCount + r.value.1.ompRowCount
  {
    var base := BuildBase(t, snapshot);
    if base.Err? {
      return Err(base.error);
    }
    BaseKeys(t, base.value);
    var breadth := AddBreadth(t, omp, snapshot, base.value);
    if breadth.Err? {
      return breadth;
    }
    BreadthAccounts(t, snapshot, omp, base.value, breadth.value.0, breadth.value.1);
    if omp.None? {
      return breadth;
    }
    r := AddUnion(t, omp.value, breadth.value.0, breadth.value.1);
    if r.Ok? {
      UnionAccounts(t, snapshot, omp.value, breadth.value.0, breadth.value.1, r.value.0, r.value.1);
      TablesSurvive(t, snapshot, breadth.value.0, r.value.0);
    }
  }

  // ----- conservation -----

  /** Items of all classes together are all the items. */
  lemma {:induction false} ItemsAddUp(present: set<string>, covered: set<string>, omp: Omp, items: seq<Item>)
    ensures |items| ==
            |ItemsIn(present, covered, omp, items, AlreadyPresent)| + |ItemsIn(present, covered, omp, items, AliasSkip)|
            + |ItemsIn(present, covered, omp, items, NonModel)|
            + |ItemsIn(present, covered, omp, items, NotMaterializable)|
            + |ItemsIn(present, covered, omp, items, NewRow)| + |ItemsIn(present, covered, omp, items, Refused)|
  {
    if items != [] {
      ItemsAddUp(present, covered, omp, items[..|items| - 1]);
    }
  }

  /** A returned audit loses no snapshot key: the buckets and the breadth rows add up to the snapshot. */
  lemma NoKeyLost(t: Tables, snapshot: seq<Entry>, omp: Option<Omp>, a: Audit)
    requires KeysAccounted(t, snapshot, omp, a)
    ensures |snapshot| ==
            |a.excludedSourceKeys| + |a.dedupedKeys| + |a.ompOwnedKeys| + |a.idPatternFails| + a.breadthCount
  {
    KeysAddUp(t, omp, Keys(snapshot));
  }

  /** A returned audit loses no record and no provider without records. */
  lemma NoItemLost(t: Tables, snapshot: seq<Entry>, omp: Omp, a: Audit)
    requires ItemsAccounted(t, snapshot, omp, a)
    ensures |ItemsOf(omp, omp.ompProviderIds)| ==
            |a.ompAlreadyPresent| + |a.ompAliasSkips| + |a.ompNonModel| + |a.ompNotMaterializable| + a.ompRowCount
  {
    var rows := RowIds(t, Some(omp), snapshot);
    ItemsAddUp(rows, Covered(t, rows), omp, ItemsOf(omp, omp.ompProviderIds));
  }
}
