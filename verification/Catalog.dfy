/**
 * The provider catalog generator: builtin rows, curated templates, one template
 * row per remaining snapshot key, and the union with the vendored omp records.
 * Audit texts are kept as the ids they name.
 */
module Catalog {
  import opened Prelude
  import Text

  // ----- inputs -----

  datatype SnapshotProvider = SnapshotProvider(name: string, api: Option<string>, doc: Option<string>,
    modelIds: seq<string>)

  /** A JSON object in its own key order. */
  datatype Entry = Entry(key: string, provider: SnapshotProvider)

  datatype Tier = Builtin | Template
  datatype Row = Row(
    display: string, tier: Tier, envName: Option<string>, baseUrl: Option<string>, api: Option<string>,
    models: seq<string>, doc: Option<string>)

  datatype BuiltinSpec = BuiltinSpec(
    id: string, sourceKey: Option<string>, display: string, envName: string,
    baseUrl: Option<Option<string>>, api: Option<string>, doc: Option<Option<string>>, modelCount: Option<nat>)

  datatype TemplateSpec = TemplateSpec(id: string, row: Row)

  /** The generator's constant tables. */
  datatype Tables = Tables(builtins: seq<BuiltinSpec>, templates: seq<TemplateSpec>, dedupe: set<string>)

  datatype OmpRecord = OmpRecord(
    id: string, display: string, env: string, baseUrl: Option<string>, api: string,
    models: seq<string>, sourceProviderId: Option<string>)

  datatype Omp = Omp(
    providers: seq<OmpRecord>, ompProviderIds: seq<string>, ownsSnapshotKeys: seq<string>,
    alias: map<string, string>, nonModel: seq<string>, oauthOrDeviceCode: seq<string>,
    notMaterializable: map<string, string>)

  function Keys(snapshot: seq<Entry>): seq<string> {
    seq(|snapshot|, i requires 0 <= i < |snapshot| => snapshot[i].key)
  }

  function BuiltinIds(t: Tables): seq<string> {
    seq(|t.builtins|, i requires 0 <= i < |t.builtins| => t.builtins[i].id)
  }
  function TemplateIds(t: Tables): seq<string> {
    seq(|t.templates|, i requires 0 <= i < |t.templates| => t.templates[i].id)
  }

  /** The tables name every hand-maintained row once. */
  predicate TablesOk(t: Tables) { Distinct(BuiltinIds(t) + TemplateIds(t)) }

  function SourceKeys(t: Tables): set<string> {
    set b | b in t.builtins && b.sourceKey.Some? :: b.sourceKey.value
  }

  function Find(snapshot: seq<Entry>, key: string): (r: Option<SnapshotProvider>)
    ensures r.Some? <==> key in Keys(snapshot)
  {
    if snapshot == [] then None
    else if snapshot[0].key == key then
      assert Keys(snapshot)[0] == key;
      Some(snapshot[0].provider)
    else
      assert Keys(snapshot) == [snapshot[0].key] + Keys(snapshot[1..]);
      Find(snapshot[1..], key)
  }

  // ----- grammars -----

  predicate LowerAlnum(c: char) { 'a' <= c <= 'z' || '0' <= c <= '9' }

  /** `^[a-z0-9][a-z0-9-]{0,63}$` */
  predicate ProviderId(id: string) {
    1 <= |id| <= 64 && LowerAlnum(id[0]) && forall i | 1 <= i < |id| :: LowerAlnum(id[i]) || id[i] == '-'
  }

  const MATERIALIZABLE_APIS := {"anthropic-messages", "openai-completions", "openai-responses", "typesafe"}

  /** Names matched by `\{([^}]+)\}`, left to right. */
  function Placeholders(url: string): seq<string>
    decreases |url|
  {
    if url == "" then []
    else if url[0] != '{' then Placeholders(url[1..])
    else
      var close := Text.IndexOf(url[1..], "}");
      if close == -1 then []
      else if close == 0 then Placeholders(url[1..])
      else [url[1..1 + close]] + Placeholders(url[close + 2..])
  }

  predicate PlaceholdersAllowed(url: Option<string>) {
    url.Some? ==> forall name | name in Placeholders(url.value) :: name == "account_id"
  }

  predicate Blank(s: string) { Text.Trim(s) == "" }

  // ----- rows -----

  function Clip(models: seq<string>, count: Option<nat>): seq<string> {
    if count.Some? && count.value < |models| then models[..count.value] else models
  }

  function BuiltinRow(b: BuiltinSpec, source: Option<SnapshotProvider>): Row {
    Row(b.display, Builtin, Some(b.envName),
        if b.baseUrl.Some? then b.baseUrl.value else if source.Some? then source.value.api else None,
        b.api,
        if source.Some? then Clip(source.value.modelIds, b.modelCount) else [],
        if b.doc.Some? then b.doc.value else if source.Some? then source.value.doc else None)
  }

  function SourceOf(snapshot: seq<Entry>, b: BuiltinSpec): Option<SnapshotProvider> {
    if b.sourceKey.None? then None else Find(snapshot, b.sourceKey.value)
  }

  function BreadthRow(p: SnapshotProvider): Row {
    Row(p.name, Template, None, p.api, Some("openai-completions"), p.modelIds, p.doc)
  }

  function UnionRow(r: OmpRecord): Row {
    Row(r.display, Template, None, r.baseUrl, Some(r.api), r.models, None)
  }

  // ----- how a snapshot key is sorted -----

  datatype KeyClass = IsSourceKey | IsDeduped | IsOmpOwned | FailsIdPattern | IsBreadth

  function ClassOfKey(t: Tables, omp: Option<Omp>, key: string): KeyClass {
    if key in SourceKeys(t) then IsSourceKey
    else if key in t.dedupe then IsDeduped
    else if omp.Some? && key in omp.value.ownsSnapshotKeys then IsOmpOwned
    else if !ProviderId(key) then FailsIdPattern
    else IsBreadth
  }

  function KeysOf(t: Tables, omp: Option<Omp>, keys: seq<string>, c: KeyClass): seq<string> {
    if keys == [] then []
    else KeysOf(t, omp, keys[..|keys| - 1], c)
         + (if ClassOfKey(t, omp, keys[|keys| - 1]) == c then [keys[|keys| - 1]] else [])
  }

  // ----- how an omp record or provider is sorted -----

  /** The omp provider a record belongs to. */
  function OwnerOf(r: OmpRecord): string { if r.sourceProviderId.Some? then r.sourceProviderId.value else r.id }

  function RecordsOf(records: seq<OmpRecord>, provider: string): seq<OmpRecord> {
    if records == [] then []
    else RecordsOf(records[..|records| - 1], provider)
         + (if OwnerOf(records[|records| - 1]) == provider then [records[|records| - 1]] else [])
  }

  /** One thing the union must account for: a record, or a provider without records. */
  datatype Item = RecordItem(record: OmpRecord) | ProviderItem(id: string)

  function Records(records: seq<OmpRecord>): seq<Item> {
    seq(|records|, i requires 0 <= i < |records| => RecordItem(records[i]))
  }

  function ItemsOfProvider(omp: Omp, provider: string): seq<Item> {
    var own := RecordsOf(omp.providers, provider);
    if own == [] then [ProviderItem(provider)] else Records(own)
  }

  function ItemsOf(omp: Omp, providers: seq<string>): seq<Item> {
    if providers == [] then []
    else ItemsOf(omp, providers[..|providers| - 1]) + ItemsOfProvider(omp, providers[|providers| - 1])
  }

  function NameOf(i: Item): string { if i.RecordItem? then i.record.id else i.id }

  datatype ItemClass = AlreadyPresent | AliasSkip | NonModel | NotMaterializable | NewRow | Refused

  /** `covered` are the ids a provider without records may already be carried by. */
  function ClassOfItem(catalog: set<string>, covered: set<string>, omp: Omp, i: Item): ItemClass {
    match i
    case RecordItem(r) =>
      if r.id in catalog then AlreadyPresent
      else if Blank(r.env) then NonModel
      else if !ProviderId(r.id) || r.api !in MATERIALIZABLE_APIS || !PlaceholdersAllowed(r.baseUrl)
      then NotMaterializable
      else NewRow
    case ProviderItem(id) =>
      if id in covered then AlreadyPresent
      else if id in omp.alias then (if omp.alias[id] in covered then AliasSkip else Refused)
      else if id in omp.nonModel then NonModel
      else if id in omp.oauthOrDeviceCode || id in omp.notMaterializable then NotMaterializable
      else Refused
  }

  /** Ids of the rows that sorting `items`, in order, adds to the catalog. */
  function AddedBy(catalog: set<string>, covered: set<string>, omp: Omp, items: seq<Item>): set<string> {
    if items == [] then {}
    else
      var added, last := AddedBy(catalog, covered, omp, items[..|items| - 1]), items[|items| - 1];
      if ClassOfItem(catalog + added, covered, omp, last) == NewRow then added + {NameOf(last)} else added
  }

  /** How an item is sorted after `seen`: it meets the rows these added. */
  function ClassAt(catalog: set<string>, covered: set<string>, omp: Omp, seen: seq<Item>, i: Item): ItemClass {
    ClassOfItem(catalog + AddedBy(catalog, covered, omp, seen), covered, omp, i)
  }

  function ItemsIn(catalog: set<string>, covered: set<string>, omp: Omp, items: seq<Item>, c: ItemClass): seq<Item> {
    if items == [] then []
    else
      var front, last := items[..|items| - 1], items[|items| - 1];
      ItemsIn(catalog, covered, omp, front, c)
        + (if ClassAt(catalog, covered, omp, front, last) == c then [last] else [])
  }

  function Names(items: seq<Item>): seq<string> { seq(|items|, i requires 0 <= i < |items| => NameOf(items[i])) }

  /** Rows the earlier passes made, plus the keys those rows stand for. */
  function Covered(t: Tables, catalog: set<string>): set<string> { catalog + SourceKeys(t) + t.dedupe }

  // ----- conservation, as laws of the sorting -----

  /** A key's occurrences are all in the bucket of its class and in no other. */
  lemma {:induction false} KeySortedOnce(t: Tables, omp: Option<Omp>, keys: seq<string>, c: KeyClass, key: string)
    ensures multiset(KeysOf(t, omp, keys, c))[key] == if ClassOfKey(t, omp, key) == c then multiset(keys)[key] else 0
  {
    if keys != [] {
      KeySortedOnce(t, omp, keys[..|keys| - 1], c, key);
      assert keys == keys[..|keys| - 1] + [keys[|keys| - 1]];
    }
  }

  /** The buckets and the breadth rows together hold as many keys as the snapshot. */
  lemma {:induction false} KeysAddUp(t: Tables, omp: Option<Omp>, keys: seq<string>)
    ensures |keys| ==
            |KeysOf(t, omp, keys, IsSourceKey)| + |KeysOf(t, omp, keys, IsDeduped)| + |KeysOf(t, omp, keys, IsOmpOwned)|
            + |KeysOf(t, omp, keys, FailsIdPattern)| + |KeysOf(t, omp, keys, IsBreadth)|
  {
    if keys != [] {
      KeysAddUp(t, omp, keys[..|keys| - 1]);
    }
  }

  /** No other record met has this one's id. */
  predicate IdIsItsOwn(items: seq<Item>, i: Item) {
    forall x | x in items && x.RecordItem? && i.RecordItem? && x.record.id == i.record.id :: x == i
  }

  /** What sorting in order changes: a record is new at its first visit at most, and present from then on. */
  lemma ClassMoves(catalog: set<string>, added: set<string>, covered: set<string>, omp: Omp, i: Item)
    ensures var was, now := ClassOfItem(catalog, covered, omp, i), ClassOfItem(catalog + added, covered, omp, i);
            if i.RecordItem? && i.record.id in added then now == AlreadyPresent else now == was
  {
  }

  lemma {:induction false} AddedHasRecord(catalog: set<string>, covered: set<string>, omp: Omp, items: seq<Item>,
      id: string)
    requires id in AddedBy(catalog, covered, omp, items)
    ensures exists i :: i in items && i.RecordItem? && i.record.id == id
                        && ClassOfItem(catalog, covered, omp, i) == NewRow
                        && i in ItemsIn(catalog, covered, omp, items, NewRow)
  {
    var front, last := items[..|items| - 1], items[|items| - 1];
    if id in AddedBy(catalog, covered, omp, front) {
      AddedHasRecord(catalog, covered, omp, front, id);
      var i :| i in front && i.RecordItem? && i.record.id == id && ClassOfItem(catalog, covered, omp, i) == NewRow
               && i in ItemsIn(catalog, covered, omp, front, NewRow);
      assert i in items;
    } else {
      ClassMoves(catalog, AddedBy(catalog, covered, omp, front), covered, omp, last);
      assert last in items && last in ItemsIn(catalog, covered, omp, items, NewRow);
    }
  }

  lemma {:induction false} NewIsAdded(catalog: set<string>, covered: set<string>, omp: Omp, items: seq<Item>, i: Item)
    requires i in items && ClassOfItem(catalog, covered, omp, i) == NewRow
    ensures NameOf(i) in AddedBy(catalog, covered, omp, items)
  {
    var front, last := items[..|items| - 1], items[|items| - 1];
    assert items == front + [last];
    if i in front {
      NewIsAdded(catalog, covered, omp, front, i);
    } else {
      ClassMoves(catalog, AddedBy(catalog, covered, omp, front), covered, omp, last);
    }
  }

  /**
   * All visits to a record or provider are in the bucket of its class and in
   * no other, except that of a record that becomes a row only the first visit
   * is; the later ones find it present.
   */
  lemma {:induction false} ItemSortedOnce(
    catalog: set<string>, covered: set<string>, omp: Omp, items: seq<Item>, c: ItemClass, i: Item)
    requires forall x | x in items && x.RecordItem? && i.RecordItem? && x.record.id == i.record.id :: x == i
    ensures var visits, own := multiset(items)[i], ClassOfItem(catalog, covered, omp, i);
            var rows := if own == NewRow && visits > 0 then 1 else 0;
            multiset(ItemsIn(catalog, covered, omp, items, c))[i] ==
              (if c == NewRow then rows else if c == AlreadyPresent && own == NewRow then visits - rows
               else if c == own then visits else 0)
  {
    hide ClassOfItem, ClassAt, AddedBy;
    if items != [] {
      var front, last := items[..|items| - 1], items[|items| - 1];
      assert items == front + [last];
      ItemSortedOnce(catalog, covered, omp, front, c, i);
      if last == i {
        NextVisit(catalog, covered, omp, front, i);
      }
    }
  }

  lemma NextVisit(catalog: set<string>, covered: set<string>, omp: Omp, seen: seq<Item>, i: Item)
    requires IdIsItsOwn(seen, i)
    ensures var own := ClassOfItem(catalog, covered, omp, i);
            ClassAt(catalog, covered, omp, seen, i) == if own == NewRow && i in seen then AlreadyPresent else own
  {
    ClassMoves(catalog, AddedBy(catalog, covered, omp, seen), covered, omp, i);
    if i.RecordItem? {
      OwnRowOnly(catalog, covered, omp, seen, i);
    }
  }

  lemma OwnRowOnly(catalog: set<string>, covered: set<string>, omp: Omp, items: seq<Item>, i: Item)
    requires IdIsItsOwn(items, i) && i.RecordItem?
    ensures i.record.id in AddedBy(catalog, covered, omp, items) <==>
            i in items && ClassOfItem(catalog, covered, omp, i) == NewRow
  {
    if i.record.id in AddedBy(catalog, covered, omp, items) {
      AddedHasRecord(catalog, covered, omp, items, i.record.id);
    }
    if i in items && ClassOfItem(catalog, covered, omp, i) == NewRow {
      NewIsAdded(catalog, covered, omp, items, i);
    }
  }

  function RecordsIn(items: seq<Item>): seq<OmpRecord> {
    if items == [] then []
    else RecordsIn(items[..|items| - 1]) + (if items[|items| - 1].RecordItem? then [items[|items| - 1].record] else [])
  }

  lemma {:induction false} RecordsInConcat(a: seq<Item>, b: seq<Item>)
    ensures RecordsIn(a + b) == RecordsIn(a) + RecordsIn(b)
  {
    if b == [] {
      assert a + b == a;
    } else {
      assert (a + b)[..|a + b| - 1] == a + b[..|b| - 1];
      RecordsInConcat(a, b[..|b| - 1]);
    }
  }

  lemma {:induction false} RecordsInRecords(records: seq<OmpRecord>)
    ensures RecordsIn(Records(records)) == records
  {
    if records != [] {
      assert Records(records)[..|records| - 1] == Records(records[..|records| - 1]);
      RecordsInRecords(records[..|records| - 1]);
      assert records == records[..|records| - 1] + [records[|records| - 1]];
    }
  }

  /** The records whose provider is listed so far. */
  function Listed(records: seq<OmpRecord>, providers: seq<string>): seq<OmpRecord> {
    if records == [] then []
    else Listed(records[..|records| - 1], providers)
         + (if OwnerOf(records[|records| - 1]) in providers then [records[|records| - 1]] else [])
  }

  lemma {:induction false} ListedGrows(records: seq<OmpRecord>, providers: seq<string>, p: string)
    requires p !in providers
    ensures multiset(Listed(records, providers + [p])) ==
            multiset(Listed(records, providers)) + multiset(RecordsOf(records, p))
  {
    if records != [] {
      var front, last := records[..|records| - 1], records[|records| - 1];
      ListedGrows(front, providers, p);
      assert OwnerOf(last) in providers + [p] <==> OwnerOf(last) in providers || OwnerOf(last) == p;
    }
  }

  lemma ProviderItemsRecords(omp: Omp, p: string)
    ensures RecordsIn(ItemsOfProvider(omp, p)) == RecordsOf(omp.providers, p)
  {
    RecordsInRecords(RecordsOf(omp.providers, p));
    assert RecordsIn([ProviderItem(p)]) == [];
  }

  lemma ItemsStep(omp: Omp, front: seq<string>, p: string)
    ensures RecordsIn(ItemsOf(omp, front + [p])) == RecordsIn(ItemsOf(omp, front)) + RecordsOf(omp.providers, p)
  {
    assert (front + [p])[..|front|] == front;
    RecordsInConcat(ItemsOf(omp, front), ItemsOfProvider(omp, p));
    ProviderItemsRecords(omp, p);
  }

  lemma NothingWalked(omp: Omp)
    ensures RecordsIn(ItemsOf(omp, [])) == [] == Listed(omp.providers, [])
  {
    NothingListed(omp.providers);
  }

  lemma LastIsNew(providers: seq<string>)
    requires providers != [] && Distinct(providers)
    ensures Distinct(providers[..|providers| - 1]) && providers[|providers| - 1] !in providers[..|providers| - 1]
  {
  }

  /** Walking distinct provider ids visits each listed record exactly once. */
  lemma {:induction false} ItemsVisitRecords(omp: Omp, providers: seq<string>)
    requires Distinct(providers)
    ensures multiset(RecordsIn(ItemsOf(omp, providers))) == multiset(Listed(omp.providers, providers))
  {
    hide *;
    if providers == [] {
      NothingWalked(omp);
    } else {
      var front, p := providers[..|providers| - 1], providers[|providers| - 1];
      LastIsNew(providers);
      ItemsVisitRecords(omp, front);
      assert providers == front + [p];
      ItemsStep(omp, front, p);
      ListedGrows(omp.providers, front, p);
    }
  }

  lemma {:induction false} NothingListed(records: seq<OmpRecord>)
    ensures Listed(records, []) == []
  {
    if records != [] {
      NothingListed(records[..|records| - 1]);
    }
  }

  lemma {:induction false} AllListed(records: seq<OmpRecord>, providers: seq<string>)
    requires forall i | 0 <= i < |records| :: OwnerOf(records[i]) in providers
    ensures Listed(records, providers) == records
  {
    if records != [] {
      AllListed(records[..|records| - 1], providers);
      assert records == records[..|records| - 1] + [records[|records| - 1]];
    }
  }

  /** With distinct provider ids that list every record's owner, the union accounts for every record once. */
  lemma EveryRecordVisitedOnce(omp: Omp)
    requires Distinct(omp.ompProviderIds)
    requires forall i | 0 <= i < |omp.providers| :: OwnerOf(omp.providers[i]) in omp.ompProviderIds
    ensures multiset(RecordsIn(ItemsOf(omp, omp.ompProviderIds))) == multiset(omp.providers)
  {
    ItemsVisitRecords(omp, omp.ompProviderIds);
    AllListed(omp.providers, omp.ompProviderIds);
  }

  lemma {:induction false} RecordsOfAre(records: seq<OmpRecord>, p: string, r: OmpRecord)
    ensures r in RecordsOf(records, p) <==> r in records && OwnerOf(r) == p
  {
    if records != [] {
      RecordsOfAre(records[..|records| - 1], p, r);
      assert records == records[..|records| - 1] + [records[|records| - 1]];
    }
  }

  /** Repeated provider ids repeat visits, but the records and bare providers met are the same. */
  lemma {:induction false} ItemMet(omp: Omp, providers: seq<string>, i: Item)
    ensures i in ItemsOf(omp, providers) <==>
            match i
            case RecordItem(r) => r in omp.providers && OwnerOf(r) in providers
            case ProviderItem(id) => id in providers && RecordsOf(omp.providers, id) == []
  {
    if providers != [] {
      var front, p := providers[..|providers| - 1], providers[|providers| - 1];
      assert providers == front + [p];
      ItemMet(omp, front, i);
      ProviderItemMet(omp, p, i);
    }
  }

  lemma ProviderItemMet(omp: Omp, p: string, i: Item)
    ensures i in ItemsOfProvider(omp, p) <==>
            match i
            case RecordItem(r) => r in omp.providers && OwnerOf(r) == p
            case ProviderItem(id) => id == p && RecordsOf(omp.providers, id) == []
  {
    var own := RecordsOf(omp.providers, p);
    if i.RecordItem? {
      RecordsOfAre(omp.providers, p, i.record);
      if i.record in own {
        var j :| 0 <= j < |own| && own[j] == i.record;
        assert Records(own)[j] == i;
      }
    }
  }
}
