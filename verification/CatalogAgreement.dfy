/** The extractor and the generator read together: what one excludes, the other can explain. */
module CatalogAgreement {
  import opened Prelude
  import opened Catalog
  import opened CatalogBuild
  import opened CatalogUnion
  import opened CatalogGenerator
  import OmpExtract

  type Known = OmpExtract.Known
  type Provider = OmpExtract.Provider

  /** The vendored file as the extractor writes it; its record list and two id lists are sorted on the way out. */
  predicate Vendored(k: Known, ps: seq<Provider>, omp: Omp) {
    var s := OmpExtract.Extract(k, ps);
    && multiset(omp.providers) == multiset(s.records) && omp.ompProviderIds == s.ids && omp.ownsSnapshotKeys == s.owns
    && omp.alias == k.alias && multiset(omp.nonModel) == multiset(s.nonModel)
    && multiset(omp.oauthOrDeviceCode) == multiset(s.oauth) && omp.notMaterializable.Keys == s.failed
  }

  /** Both scripts carry their own copy of these tables and read the same models.dev file. */
  predicate SameTables(k: Known, t: Tables, snapshot: seq<Entry>) {
    && k.builtinIds == (set id | id in BuiltinIds(t)) && k.sourceKeys == SourceKeys(t) && k.dedupe == t.dedupe
    && k.modelsDev == set key | key in Keys(snapshot)
  }

  lemma SameMembers<T>(a: seq<T>, b: seq<T>, x: T)
    requires multiset(a) == multiset(b)
    ensures x in a <==> x in b
  {
    assert x in a <==> x in multiset(a);
    assert x in b <==> x in multiset(b);
  }

  lemma SameIdSameRecord(records: seq<OmpRecord>, a: OmpRecord, b: OmpRecord)
    requires Distinct(RecordIds(records)) && a in records && b in records && a.id == b.id
    ensures a == b
  {
    var i :| 0 <= i < |records| && records[i] == a;
    var j :| 0 <= j < |records| && records[j] == b;
    var ids := RecordIds(records);
    assert ids[i] == ids[j];
  }

  lemma NewRowExactly(present: set<string>, covered: set<string>, omp: Omp, r: OmpRecord)
    ensures ClassOfItem(present, covered, omp, RecordItem(r)) == NewRow <==>
            r.id !in present && !Blank(r.env) && OmpExtract.Usable(r)
  {
  }

  lemma NewIdExactly(present: set<string>, covered: set<string>, omp: Omp, r: OmpRecord)
    requires RecordsUsable(omp) && r in omp.providers
    ensures r.id in AddedBy(present, covered, omp, ItemsOf(omp, omp.ompProviderIds)) <==>
            ClassOfItem(present, covered, omp, RecordItem(r)) == NewRow
  {
    hide ClassOfItem;
    var items := ItemsOf(omp, omp.ompProviderIds);
    ItemMet(omp, omp.ompProviderIds, RecordItem(r));
    if r.id in AddedBy(present, covered, omp, items) {
      AddedHasRecord(present, covered, omp, items, r.id);
      var i :| i in items && i.RecordItem? && i.record.id == r.id && ClassOfItem(present, covered, omp, i) == NewRow;
      ItemMet(omp, omp.ompProviderIds, i);
      SameIdSameRecord(omp.providers, r, i.record);
    }
    if ClassOfItem(present, covered, omp, RecordItem(r)) == NewRow {
      NewIsAdded(present, covered, omp, items, RecordItem(r));
    }
  }

  /** A record's id ends up in the catalog exactly when a row has it already or the record is usable. */
  lemma RecordLands(t: Tables, snapshot: seq<Entry>, omp: Omp, catalog: CatalogMap, r: OmpRecord)
    requires RowsHeld(t, snapshot, Some(omp), catalog) && RecordsUsable(omp) && r in omp.providers
    ensures r.id in catalog <==> r.id in RowIds(t, Some(omp), snapshot) || (!Blank(r.env) && OmpExtract.Usable(r))
  {
    var rows := RowIds(t, Some(omp), snapshot);
    NewIdExactly(rows, Covered(t, rows), omp, r);
    NewRowExactly(rows, Covered(t, rows), omp, r);
    assert r.id in catalog <==> r.id in rows || r.id in AddedIds(t, snapshot, omp);
  }

  /** Whatever the two snapshots hold, the builtin tier is the hand-written table: every other row is a template. */
  lemma BuiltinTierNeverGrows(t: Tables, snapshot: seq<Entry>, omp: Option<Omp>, catalog: CatalogMap, id: string)
    requires RowsHeld(t, snapshot, omp, catalog) && TablesOk(t) && id in catalog
    requires forall s | s in t.templates :: s.row.tier.Template?
    requires forall e | e in snapshot && InBreadth(t, omp, e) :: e.key !in BaseIds(t)
    ensures catalog[id].tier.Builtin? <==> id in BuiltinIds(t)
  {
    TableIdsApart(t);
    if id in BuiltinIds(t) {
      var i :| 0 <= i < |t.builtins| && BuiltinIds(t)[i] == id;
      assert t.builtins[i] in t.builtins;
    } else if id in TemplateIds(t) {
      var i :| 0 <= i < |t.templates| && TemplateIds(t)[i] == id;
      assert t.templates[i] in t.templates;
    } else if id in RowIds(t, omp, snapshot) {
      var e :| e in snapshot && InBreadth(t, omp, e) && e.key == id;
    } else {
      UnionRowIsTemplate(t, snapshot, omp.value, catalog, id);
    }
  }

  lemma UnionRowIsTemplate(t: Tables, snapshot: seq<Entry>, omp: Omp, catalog: CatalogMap, id: string)
    requires RowsHeld(t, snapshot, Some(omp), catalog) && id in AddedIds(t, snapshot, omp)
    ensures id in catalog && catalog[id].tier.Template?
  {
    var rows := RowIds(t, Some(omp), snapshot);
    AddedHasRecord(rows, Covered(t, rows), omp, ItemsOf(omp, omp.ompProviderIds), id);
  }

  /** A models.dev key the extractor took over keeps a row after the union
      exactly when one of its records has an env name or an id that is a row already. */
  lemma OwnedKeyKeepsARow(k: Known, ps: seq<Provider>, t: Tables, snapshot: seq<Entry>, omp: Omp, catalog: CatalogMap,
      key: string)
    requires Vendored(k, ps, omp) && RowsHeld(t, snapshot, Some(omp), catalog) && RecordsUsable(omp)
             && key in omp.ownsSnapshotKeys
    ensures (exists r :: r in omp.providers && OwnerOf(r) == key && r.id in catalog) <==>
            (exists r :: r in omp.providers && OwnerOf(r) == key
              && (!Blank(r.env) || r.id in RowIds(t, Some(omp), snapshot)))
  {
    forall r | r in omp.providers
      ensures r.id in catalog <==> !Blank(r.env) || r.id in RowIds(t, Some(omp), snapshot)
    {
      SameMembers(omp.providers, OmpExtract.Extract(k, ps).records, r);
      OmpExtract.RecordsAreUsable(k, ps, r);
      RecordLands(t, snapshot, omp, catalog, r);
    }
  }

  /** With non-blank env names no owned key loses its place. */
  lemma OwnedKeysAreCovered(k: Known, ps: seq<Provider>, t: Tables, snapshot: seq<Entry>, omp: Omp, catalog: CatalogMap,
      key: string)
    requires Vendored(k, ps, omp) && RowsHeld(t, snapshot, Some(omp), catalog) && RecordsUsable(omp)
             && key in omp.ownsSnapshotKeys
    requires forall r | r in omp.providers :: !Blank(r.env)
    ensures exists r :: r in omp.providers && OwnerOf(r) == key && r.id in catalog
  {
    OmpExtract.OwnedKeysAreReplaced(k, ps, key);
    var r :| r in OmpExtract.Extract(k, ps).records && OwnerOf(r) == key;
    SameMembers(omp.providers, OmpExtract.Extract(k, ps).records, r);
    OwnedKeyKeepsARow(k, ps, t, snapshot, omp, catalog, key);
  }

  // ----- providers without records -----

  /** A provider without records is in an exclusion list exactly when nothing else carries it. */
  lemma BareIsListed(k: Known, ps: seq<Provider>, omp: Omp, id: string)
    requires Vendored(k, ps, omp) && id in omp.ompProviderIds && RecordsOf(omp.providers, id) == []
    ensures id in omp.nonModel || id in omp.oauthOrDeviceCode <==> !OmpExtract.IsCarried(k, id) && id !in k.modelsDev
  {
    hide OmpExtract.IsCarried, OmpExtract.Extract;
    var s := OmpExtract.Extract(k, ps);
    SameMembers(omp.nonModel, s.nonModel, id);
    SameMembers(omp.oauthOrDeviceCode, s.oauth, id);
    if id in s.nonModel || id in s.oauth {
      OmpExtract.ListedAreUncarried(k, ps, id);
    }
    if !OmpExtract.IsCarried(k, id) && id !in k.modelsDev {
      forall r | r in s.records
        ensures OwnerOf(r) != id
      {
        SameMembers(omp.providers, s.records, r);
        RecordsOfAre(omp.providers, id, r);
      }
      OmpExtract.UncarriedAreListed(k, ps, id);
    }
  }

  /** A provider the generator would refuse: an alias of no row, or a models.dev key that fails the id grammar. */
  predicate Unexplained(k: Known, covered: set<string>, omp: Omp, id: string) {
    && id !in covered
    && if id in k.alias then k.alias[id] !in covered else id in k.modelsDev && id !in omp.notMaterializable
  }

  lemma ModelsDevKeyCovered(k: Known, t: Tables, snapshot: seq<Entry>, omp: Omp, id: string)
    requires SameTables(k, t, snapshot) && id in k.modelsDev && ProviderId(id) && id !in omp.ownsSnapshotKeys
    ensures id in Covered(t, RowIds(t, Some(omp), snapshot))
  {
  }

  /** With the two table copies equal and the same models.dev file, the generator's own walk through the exclusion
      tables refuses an extracted provider exactly when it is unexplained in the sense above. */
  lemma RefusedExactly(k: Known, ps: seq<Provider>, t: Tables, snapshot: seq<Entry>, omp: Omp, id: string)
    requires Vendored(k, ps, omp) && SameTables(k, t, snapshot)
    requires id in omp.ompProviderIds && RecordsOf(omp.providers, id) == []
    ensures var rows := RowIds(t, Some(omp), snapshot);
            var covered := Covered(t, rows);
            && (ClassOfItem(rows, covered, omp, ProviderItem(id)) == Refused <==> Unexplained(k, covered, omp, id))
            && (Unexplained(k, covered, omp, id) && id !in k.alias ==> !ProviderId(id))
  {
    hide ProviderId, OmpExtract.Extract;
    BareIsListed(k, ps, omp, id);
    if id in k.modelsDev && ProviderId(id) {
      if id in omp.ownsSnapshotKeys {
        OwnedIsNotBare(k, ps, omp, id);
      }
      ModelsDevKeyCovered(k, t, snapshot, omp, id);
    }
  }

  lemma OwnedIsNotBare(k: Known, ps: seq<Provider>, omp: Omp, key: string)
    requires Vendored(k, ps, omp) && key in omp.ownsSnapshotKeys
    ensures RecordsOf(omp.providers, key) != []
  {
    OmpExtract.OwnedKeysAreReplaced(k, ps, key);
    var r :| r in OmpExtract.Extract(k, ps).records && OwnerOf(r) == key;
    SameMembers(omp.providers, OmpExtract.Extract(k, ps).records, r);
    RecordsOfAre(omp.providers, key, r);
  }

  /** When the generator's third input is the extractor's own output, only four things can stop the build:
      a missing source key, an overwriting row, two records with one id, or an unexplained provider. */
  lemma ExtractionBuilds(k: Known, ps: seq<Provider>, t: Tables, snapshot: seq<Entry>, omp: Omp)
    requires Vendored(k, ps, omp) && SameTables(k, t, snapshot)
    ensures Builds(t, snapshot, Some(omp)) <==>
            && SourcesPresent(t, snapshot)
            && (forall e | e in snapshot && InBreadth(t, Some(omp), e) :: e.key !in BaseIds(t))
            && Distinct(RecordIds(omp.providers))
            && forall id | id in omp.ompProviderIds && RecordsOf(omp.providers, id) == [] ::
                 !Unexplained(k, Covered(t, RowIds(t, Some(omp), snapshot)), omp, id)
  {
    OwnersAreListed(k, ps, omp);
    RefusalsAre(k, ps, t, snapshot, omp);
  }

  lemma OwnersAreListed(k: Known, ps: seq<Provider>, omp: Omp)
    requires Vendored(k, ps, omp)
    ensures OwnersListed(omp)
  {
    forall r | r in omp.providers
      ensures OwnerOf(r) in omp.ompProviderIds
    {
      SameMembers(omp.providers, OmpExtract.Extract(k, ps).records, r);
      OmpExtract.RecordsAreUsable(k, ps, r);
    }
  }

  lemma RefusalsAre(k: Known, ps: seq<Provider>, t: Tables, snapshot: seq<Entry>, omp: Omp)
    requires Vendored(k, ps, omp) && SameTables(k, t, snapshot)
    ensures var rows := RowIds(t, Some(omp), snapshot);
            NoneRefused(rows, Covered(t, rows), omp, ItemsOf(omp, omp.ompProviderIds)) <==>
            forall id | id in omp.ompProviderIds && RecordsOf(omp.providers, id) == [] ::
              !Unexplained(k, Covered(t, rows), omp, id)
  {
    hide Covered, RowIds, ItemsOf, RecordsOf, Unexplained, SameTables, Vendored, ClassOfItem;
    var rows, ids := RowIds(t, Some(omp), snapshot), omp.ompProviderIds;
    var covered, items := Covered(t, rows), ItemsOf(omp, ids);
    forall id | id in ids && RecordsOf(omp.providers, id) == []
      ensures ProviderItem(id) in items
      ensures ClassOfItem(rows, covered, omp, ProviderItem(id)) == Refused <==> Unexplained(k, covered, omp, id)
    {
      ItemMet(omp, ids, ProviderItem(id));
      RefusedExactly(k, ps, t, snapshot, omp, id);
    }
    forall i | i in items && ClassOfItem(rows, covered, omp, i) == Refused
      ensures i.ProviderItem? && i.id in ids && RecordsOf(omp.providers, i.id) == []
    {
      RefusalIsStatic(rows, rows, covered, omp, i);
      ItemMet(omp, ids, i);
    }
  }
}
