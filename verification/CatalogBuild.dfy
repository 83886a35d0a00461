/** `buildCatalog` in its own form: three passes filling one record and the audit lists. */
module CatalogBuild {
  import opened Prelude
  import opened Catalog

  type CatalogMap = map<string, Row>

  datatype BuildError =
    | MissingSource(key: string)
    | WouldOverwrite(key: string)
    | DuplicateRecord(id: string)
    | UnlistedProvider(id: string)
    | Unclassified(id: string)

  datatype Audit = Audit(
    excludedSourceKeys: seq<string>, dedupedKeys: seq<string>, idPatternFails: seq<string>, breadthCount: nat,
    ompAlreadyPresent: seq<string>, ompAliasSkips: seq<string>, ompNonModel: seq<string>,
    ompNotMaterializable: seq<string>, ompRowCount: nat, ompOwnedKeys: seq<string>)

  const EMPTY_AUDIT := Audit([], [], [], 0, [], [], [], [], 0, [])

  // ----- builtin rows and curated templates -----

  /** Every builtin and template holds its own row. */
  predicate HoldsTables(t: Tables, snapshot: seq<Entry>, catalog: CatalogMap) {
    && (forall b | b in t.builtins :: b.id in catalog && catalog[b.id] == BuiltinRow(b, SourceOf(snapshot, b)))
    && (forall s | s in t.templates :: s.id in catalog && catalog[s.id] == s.row)
  }

  predicate SourcesPresent(t: Tables, snapshot: seq<Entry>) {
    forall b | b in t.builtins && b.sourceKey.Some? :: b.sourceKey.value in Keys(snapshot)
  }

  function PutAll(base: CatalogMap, rows: seq<TemplateSpec>): CatalogMap {
    if rows == [] then base else PutAll(base, rows[..|rows| - 1])[rows[|rows| - 1].id := rows[|rows| - 1].row]
  }

  function IdsOf(rows: seq<TemplateSpec>): seq<string> { seq(|rows|, i requires 0 <= i < |rows| => rows[i].id) }

  lemma LastIdIsNew(rows: seq<TemplateSpec>)
    requires rows != [] && Distinct(IdsOf(rows))
    ensures var front, last := rows[..|rows| - 1], rows[|rows| - 1];
            && IdsOf(rows) == IdsOf(front) + [last.id] && Distinct(IdsOf(front)) && last.id !in IdsOf(front)
            && forall x | x in front :: x.id != last.id
  {
    var front, last := rows[..|rows| - 1], rows[|rows| - 1];
    var ids := IdsOf(rows);
    assert IdsOf(front) == ids[..|rows| - 1] && ids[|rows| - 1] == last.id;
    forall x | x in front
      ensures x.id != last.id
    {
      var j :| 0 <= j < |front| && front[j] == x;
      assert ids[j] == x.id;
    }
  }

  ghost predicate RowsAdded(base: CatalogMap, rows: seq<TemplateSpec>, after: CatalogMap) {
    && |after| == |base| + |rows| && Preserved(base, after)
    && (forall id :: id in after <==> id in base || id in IdsOf(rows))
    && (forall x | x in rows :: x.id in after && after[x.id] == x.row)
  }

  lemma OneRowAdded(base: CatalogMap, front: seq<TemplateSpec>, last: TemplateSpec, mid: CatalogMap)
    requires RowsAdded(base, front, mid) && last.id !in base && last.id !in IdsOf(front)
    requires forall x | x in front :: x.id != last.id
    ensures RowsAdded(base, front + [last], mid[last.id := last.row])
  {
    assert IdsOf(front + [last]) == IdsOf(front) + [last.id];
  }

  lemma NoRowAdded(base: CatalogMap)
    ensures RowsAdded(base, [], base)
  {
  }

  /** Rows under distinct new ids are all kept, and nothing that was there is touched. */
  lemma {:induction false} PutAllKeeps(base: CatalogMap, rows: seq<TemplateSpec>)
    requires Distinct(IdsOf(rows)) && forall x | x in rows :: x.id !in base
    ensures RowsAdded(base, rows, PutAll(base, rows))
  {
    hide RowsAdded, IdsOf;
    NoRowAdded(base);
    if rows != [] {
      var front, last := rows[..|rows| - 1], rows[|rows| - 1];
      LastIdIsNew(rows);
      PutAllKeeps(base, front);
      OneRowAdded(base, front, last, PutAll(base, front));
      assert rows == front + [last];
    }
  }

  function BuiltinRows(t: Tables, snapshot: seq<Entry>): seq<TemplateSpec> {
    seq(|t.builtins|, i requires 0 <= i < |t.builtins| =>
      TemplateSpec(t.builtins[i].id, BuiltinRow(t.builtins[i], SourceOf(snapshot, t.builtins[i]))))
  }

  method AddBuiltins(t: Tables, snapshot: seq<Entry>) returns (r: Result<CatalogMap, BuildError>)
    ensures r.Ok? <==> SourcesPresent(t, snapshot)
    ensures r.Ok? ==> r.value == PutAll(map[], BuiltinRows(t, snapshot))
  {
    var catalog: CatalogMap := map[];
    ghost var rows := BuiltinRows(t, snapshot);
    for i := 0 to |t.builtins|
      invariant forall j | 0 <= j < i && t.builtins[j].sourceKey.Some? ::
                t.builtins[j].sourceKey.value in Keys(snapshot)
      invariant catalog == PutAll(map[], rows[..i])
    {
      var spec := t.builtins[i];
      var source := SourceOf(snapshot, spec);
      if spec.sourceKey.Some? && source.None? {
        return Err(MissingSource(spec.sourceKey.value));
      }
      assert rows[..i + 1][..i] == rows[..i];
      catalog := catalog[spec.id := BuiltinRow(spec, source)];
    }
    assert rows[..|rows|] == rows;
    r := Ok(catalog);
  }

  method AddTemplates(t: Tables, base: CatalogMap) returns (catalog: CatalogMap)
    ensures catalog == PutAll(base, t.templates)
  {
    catalog := base;
    for i := 0 to |t.templates|
      invariant catalog == PutAll(base, t.templates[..i])
    {
      assert t.templates[..i + 1][..i] == t.templates[..i];
      catalog := catalog[t.templates[i].id := t.templates[i].row];
    }
    assert t.templates[..|t.templates|] == t.templates;
  }

  lemma TableIdsApart(t: Tables)
    requires TablesOk(t)
    ensures Distinct(BuiltinIds(t)) && Distinct(TemplateIds(t))
    ensures forall id | id in TemplateIds(t) :: id !in BuiltinIds(t)
  {
    var b, s := BuiltinIds(t), TemplateIds(t);
    var all := b + s;
    assert forall i | 0 <= i < |b| :: all[i] == b[i];
    assert forall i | 0 <= i < |s| :: all[|b| + i] == s[i];
  }

  lemma BaseHoldsTables(t: Tables, snapshot: seq<Entry>)
    requires TablesOk(t)
    ensures var base := PutAll(PutAll(map[], BuiltinRows(t, snapshot)), t.templates);
            && HoldsTables(t, snapshot, base) && |base| == |t.builtins| + |t.templates|
            && forall id :: id in base <==> id in BuiltinIds(t) || id in TemplateIds(t)
  {
    var rows := BuiltinRows(t, snapshot);
    TableIdsApart(t);
    assert IdsOf(rows) == BuiltinIds(t) && IdsOf(t.templates) == TemplateIds(t);
    PutAllKeeps(map[], rows);
    forall x | x in t.templates
      ensures x.id in TemplateIds(t)
    {
      var j :| 0 <= j < |t.templates| && t.templates[j] == x;
      assert TemplateIds(t)[j] == x.id;
    }
    PutAllKeeps(PutAll(map[], rows), t.templates);
    forall b | b in t.builtins
      ensures TemplateSpec(b.id, BuiltinRow(b, SourceOf(snapshot, b))) in rows
    {
      var j :| 0 <= j < |t.builtins| && t.builtins[j] == b;
      assert rows[j].id == b.id;
    }
  }

  method BuildBase(t: Tables, snapshot: seq<Entry>) returns (r: Result<CatalogMap, BuildError>)
    requires TablesOk(t)
    ensures r.Ok? <==> SourcesPresent(t, snapshot)
    ensures r.Ok? ==> HoldsTables(t, snapshot, r.value) && |r.value| == |t.builtins| + |t.templates|
    ensures r.Ok? ==> forall id :: id in r.value <==> id in BuiltinIds(t) || id in TemplateIds(t)
  {
    var builtins := AddBuiltins(t, snapshot);
    if builtins.Err? {
      return builtins;
    }
    var catalog := AddTemplates(t, builtins.value);
    BaseHoldsTables(t, snapshot);
    r := Ok(catalog);
  }

  // ----- breadth -----

  predicate InBreadth(t: Tables, omp: Option<Omp>, e: Entry) { ClassOfKey(t, omp, e.key) == IsBreadth }

  /** No key that would become a row is already a hand-maintained row. */
  predicate NoCollision(t: Tables, omp: Option<Omp>, snapshot: seq<Entry>, base: CatalogMap) {
    forall e | e in snapshot && InBreadth(t, omp, e) :: e.key !in base
  }

  /** The four buckets are the classes of the keys seen, in snapshot order. */
  predicate BreadthAudit(a: Audit, t: Tables, omp: Option<Omp>, keys: seq<string>) {
    && a.excludedSourceKeys == KeysOf(t, omp, keys, IsSourceKey)
    && a.dedupedKeys == KeysOf(t, omp, keys, IsDeduped)
    && a.ompOwnedKeys == KeysOf(t, omp, keys, IsOmpOwned)
    && a.idPatternFails == KeysOf(t, omp, keys, FailsIdPattern)
    && a.breadthCount == |KeysOf(t, omp, keys, IsBreadth)|
    && a.ompAlreadyPresent == [] && a.ompAliasSkips == [] && a.ompNonModel == [] && a.ompNotMaterializable == []
    && a.ompRowCount == 0
  }

  function SortKey(a: Audit, c: KeyClass, key: string): Audit {
    match c
    case IsSourceKey => a.(excludedSourceKeys := a.excludedSourceKeys + [key])
    case IsDeduped => a.(dedupedKeys := a.dedupedKeys + [key])
    case IsOmpOwned => a.(ompOwnedKeys := a.ompOwnedKeys + [key])
    case FailsIdPattern => a.(idPatternFails := a.idPatternFails + [key])
    case IsBreadth => a.(breadthCount := a.breadthCount + 1)
  }

  lemma BreadthAuditStep(a: Audit, t: Tables, omp: Option<Omp>, keys: seq<string>, key: string)
    requires BreadthAudit(a, t, omp, keys)
    ensures BreadthAudit(SortKey(a, ClassOfKey(t, omp, key), key), t, omp, keys + [key])
  {
  }

  predicate Preserved(before: CatalogMap, after: CatalogMap) {
    forall id | id in before :: id in after && after[id] == before[id]
  }

  /** One snapshot key: the exclusion rules in order, then the collision guard, then a row. */
  method SortEntry(t: Tables, omp: Option<Omp>, e: Entry, catalog: CatalogMap, audit: Audit)
    returns (r: Result<(CatalogMap, Audit), BuildError>)
    ensures r.Err? <==> ClassOfKey(t, omp, e.key) == IsBreadth && e.key in catalog
    ensures r.Ok? ==> r.value.1 == SortKey(audit, ClassOfKey(t, omp, e.key), e.key)
    ensures r.Ok? ==> r.value.0 == if ClassOfKey(t, omp, e.key) == IsBreadth
                                   then catalog[e.key := BreadthRow(e.provider)] else catalog
  {
    if e.key in SourceKeys(t) {
      return Ok((catalog, audit.(excludedSourceKeys := audit.excludedSourceKeys + [e.key])));
    }
    if e.key in t.dedupe {
      return Ok((catalog, audit.(dedupedKeys := audit.dedupedKeys + [e.key])));
    }
    if omp.Some? && e.key in omp.value.ownsSnapshotKeys {
      return Ok((catalog, audit.(ompOwnedKeys := audit.ompOwnedKeys + [e.key])));
    }
    if !ProviderId(e.key) {
      return Ok((catalog, audit.(idPatternFails := audit.idPatternFails + [e.key])));
    }
    if e.key in catalog {
      return Err(WouldOverwrite(e.key));
    }
    return Ok((catalog[e.key := BreadthRow(e.provider)], audit.(breadthCount := audit.breadthCount + 1)));
  }

  /** The catalog after `seen`: what was there, and one row per breadth key. */
  predicate BreadthRows(t: Tables, omp: Option<Omp>, base: CatalogMap, seen: seq<Entry>, catalog: CatalogMap,
      count: nat)
  {
    && Preserved(base, catalog)
    && |catalog| == |base| + count
    && (forall id | id in catalog :: id in base || (id in Keys(seen) && ClassOfKey(t, omp, id) == IsBreadth))
    && (forall e | e in seen && InBreadth(t, omp, e) :: e.key in catalog && catalog[e.key] == BreadthRow(e.provider))
  }

  /** Where the breadth pass stands after `seen`. */
  predicate BreadthState(t: Tables, omp: Option<Omp>, base: CatalogMap, seen: seq<Entry>, catalog: CatalogMap,
      audit: Audit)
  {
    && NoCollision(t, omp, seen, base)
    && BreadthAudit(audit, t, omp, Keys(seen))
    && BreadthRows(t, omp, base, seen, catalog, audit.breadthCount)
  }

  lemma KeysHold(entries: seq<Entry>)
    ensures forall x | x in entries :: x.key in Keys(entries)
  {
    forall x | x in entries
      ensures x.key in Keys(entries)
    {
      var j :| 0 <= j < |entries| && entries[j] == x;
      assert Keys(entries)[j] == x.key;
    }
  }

  lemma NewBreadthRow(t: Tables, omp: Option<Omp>, base: CatalogMap, seen: seq<Entry>, e: Entry, catalog: CatalogMap,
      count: nat)
    requires BreadthRows(t, omp, base, seen, catalog, count)
    requires e.key !in Keys(seen) && e.key !in base && InBreadth(t, omp, e)
    ensures e.key !in catalog
    ensures BreadthRows(t, omp, base, seen + [e], catalog[e.key := BreadthRow(e.provider)], count + 1)
  {
    KeysHold(seen);
    assert Keys(seen + [e]) == Keys(seen) + [e.key];
  }

  lemma SkippedEntry(t: Tables, omp: Option<Omp>, base: CatalogMap, seen: seq<Entry>, e: Entry, catalog: CatalogMap,
      count: nat)
    requires BreadthRows(t, omp, base, seen, catalog, count) && !InBreadth(t, omp, e)
    ensures BreadthRows(t, omp, base, seen + [e], catalog, count)
  {
    assert Keys(seen + [e]) == Keys(seen) + [e.key];
  }

  lemma BreadthStep(t: Tables, omp: Option<Omp>, base: CatalogMap, seen: seq<Entry>, e: Entry, catalog: CatalogMap,
      audit: Audit)
    requires BreadthState(t, omp, base, seen, catalog, audit)
    requires e.key !in Keys(seen) && (InBreadth(t, omp, e) ==> e.key !in base)
    ensures InBreadth(t, omp, e) ==> e.key !in catalog
    ensures BreadthState(t, omp, base, seen + [e],
                         if InBreadth(t, omp, e) then catalog[e.key := BreadthRow(e.provider)] else catalog,
                         SortKey(audit, ClassOfKey(t, omp, e.key), e.key))
  {
    assert Keys(seen + [e]) == Keys(seen) + [e.key];
    BreadthAuditStep(audit, t, omp, Keys(seen), e.key);
    if InBreadth(t, omp, e) {
      NewBreadthRow(t, omp, base, seen, e, catalog, audit.breadthCount);
    } else {
      SkippedEntry(t, omp, base, seen, e, catalog, audit.breadthCount);
    }
  }

  method AddBreadth(t: Tables, omp: Option<Omp>, snapshot: seq<Entry>, base: CatalogMap)
    returns (r: Result<(CatalogMap, Audit), BuildError>)
    requires Distinct(Keys(snapshot))
    ensures r.Ok? <==> NoCollision(t, omp, snapshot, base)
    ensures r.Ok? ==> BreadthState(t, omp, base, snapshot, r.value.0, r.value.1)
  {
    var catalog, audit := base, EMPTY_AUDIT;
    for i := 0 to |snapshot|
      invariant BreadthState(t, omp, base, snapshot[..i], catalog, audit)
    {
      var e := snapshot[i];
      assert snapshot[..i + 1] == snapshot[..i] + [e];
      KeyIsNew(snapshot, i);
      var step := SortEntry(t, omp, e, catalog, audit);
      if InBreadth(t, omp, e) && e.key in base {
        assert !NoCollision(t, omp, snapshot, base);
        assert step.Err?;
        return Err(WouldOverwrite(e.key));
      }
      BreadthStep(t, omp, base, snapshot[..i], e, catalog, audit);
      catalog, audit := step.value.0, step.value.1;
    }
    assert snapshot[..|snapshot|] == snapshot;
    r := Ok((catalog, audit));
  }

  lemma KeyIsNew(snapshot: seq<Entry>, i: nat)
    requires Distinct(Keys(snapshot)) && i < |snapshot|
    ensures snapshot[i].key !in Keys(snapshot[..i])
  {
    var keys := Keys(snapshot);
    assert Keys(snapshot[..i]) == keys[..i];
    assert keys[i] == snapshot[i].key;
  }
}
