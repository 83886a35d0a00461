/** The vendored-snapshot extractor: one fate per omp provider, one record per usable protocol. */
module OmpExtract {
  import opened Prelude
  import opened Catalog

  datatype ModelRow = ModelRow(id: string, api: string, baseUrl: Option<string>)

  /** One omp auth provider with the rule and model rows that belong to it. */
  datatype Provider = Provider(
    id: string, display: string, env: seq<string>, login: Option<string>, rows: seq<ModelRow>,
    seedBaseUrl: Option<string>, seedApi: Option<string>)

  /** The extractor's constant tables and the models.dev keys. */
  datatype Known = Known(
    alias: map<string, string>, builtinIds: set<string>, sourceKeys: set<string>, dedupe: set<string>,
    suffix: map<string, string>, modelsDev: set<string>)

  // ----- the most common value -----

  function Count<T(==)>(values: seq<T>, v: T): nat { multiset(values)[v] }

  /** Scan the candidates, keeping the first that beats the best so far. */
  function Best<T(==)>(values: seq<T>, candidates: seq<T>): Option<T> {
    if candidates == [] then None
    else
      var best, last := Best(values, candidates[..|candidates| - 1]), candidates[|candidates| - 1];
      if Count(values, last) > (if best.Some? then Count(values, best.value) else 0) then Some(last) else best
  }

  function MostCommon<T(==)>(values: seq<T>): Option<T> { Best(values, values) }

  lemma {:induction false} BestIsMaximal<T>(values: seq<T>, candidates: seq<T>, v: T)
    requires v in candidates && forall c | c in candidates :: c in values
    ensures Best(values, candidates).Some? && Best(values, candidates).value in candidates
    ensures Count(values, v) <= Count(values, Best(values, candidates).value)
  {
    var front, last := candidates[..|candidates| - 1], candidates[|candidates| - 1];
    if front != [] {
      BestIsMaximal(values, front, if v in front then v else front[0]);
    }
  }

  /** Among the values met most often, the one met first. */
  lemma {:induction false} BestIsEarliest<T>(values: seq<T>, candidates: seq<T>, i: nat)
    requires i < |candidates| && forall c | c in candidates :: c in values
    ensures var b := Best(values, candidates);
            b.Some? && (b.value !in candidates[..i + 1] ==> Count(values, candidates[i]) < Count(values, b.value))
  {
    var front, last := candidates[..|candidates| - 1], candidates[|candidates| - 1];
    if i < |front| {
      BestIsEarliest(values, front, i);
      BestIsMaximal(values, front, front[i]);
      assert front[..i + 1] == candidates[..i + 1];
    } else {
      assert candidates[..i + 1] == candidates;
      BestIsMaximal(values, candidates, last);
    }
  }

  /** Occurs in the list, no value occurs more often, and none tied with it was met earlier. */
  lemma MostCommonIsMode<T>(values: seq<T>)
    ensures values == [] ==> MostCommon(values).None?
    ensures values != [] ==> MostCommon(values).Some? && MostCommon(values).value in values
    ensures forall v | v in values :: Count(values, v) <= Count(values, MostCommon(values).value)
    ensures forall i | 0 <= i < |values| && MostCommon(values).value !in values[..i + 1] ::
              Count(values, values[i]) < Count(values, MostCommon(values).value)
  {
    forall v | v in values
      ensures MostCommon(values).Some? && MostCommon(values).value in values
              && Count(values, v) <= Count(values, MostCommon(values).value)
    {
      BestIsMaximal(values, values, v);
    }
    if values != [] {
      BestIsMaximal(values, values, values[0]);
    }
    forall i | 0 <= i < |values| && MostCommon(values).value !in values[..i + 1]
      ensures Count(values, values[i]) < Count(values, MostCommon(values).value)
    {
      BestIsEarliest(values, values, i);
    }
  }

  /** Values in the order they were first met, as an insertion-ordered map iterates. */
  function FirstMet<T(==)>(values: seq<T>): (r: seq<T>)
    ensures (forall v | v in r :: v in values) && (forall v | v in values :: v in r)
    ensures r == [] <==> values == []
  {
    if values == [] then []
    else
      var front, last := FirstMet(values[..|values| - 1]), values[|values| - 1];
      assert values == values[..|values| - 1] + [last];
      if last in front then front else front + [last]
  }

  /** Repeats never win a scan: scanning first occurrences finds the same value. */
  lemma {:induction false} RepeatsDoNotMatter<T>(values: seq<T>, candidates: seq<T>)
    requires forall c | c in candidates :: c in values
    ensures Best(values, FirstMet(candidates)) == Best(values, candidates)
  {
    if candidates != [] {
      var front, last := candidates[..|candidates| - 1], candidates[|candidates| - 1];
      RepeatsDoNotMatter(values, front);
      if last in FirstMet(front) {
        BestIsMaximal(values, front, last);
      } else {
        assert FirstMet(candidates)[..|FirstMet(front)|] == FirstMet(front);
      }
    }
  }

  lemma CountStep<T>(front: seq<T>, v: T, x: T)
    ensures Count(front + [v], x) == Count(front, x) + (if x == v then 1 else 0)
    ensures v !in front ==> Count(front, v) == 0
  {
  }

  lemma NothingMet<T>()
    ensures FirstMet<T>([]) == []
  {
  }

  lemma FirstMetStep<T>(front: seq<T>, v: T)
    ensures FirstMet(front + [v]) == if v in front then FirstMet(front) else FirstMet(front) + [v]
  {
    assert (front + [v])[..|front|] == front;
  }

  method CountAll<T(==)>(values: seq<T>) returns (counts: map<T, nat>, order: seq<T>)
    ensures order == FirstMet(values) && counts.Keys == set v | v in values
    ensures forall v | v in counts :: counts[v] == Count(values, v)
  {
    hide Count, FirstMet;
    counts, order := map[], [];
    NothingMet<T>();
    for i := 0 to |values|
      invariant order == FirstMet(values[..i])
      invariant counts.Keys == set v | v in values[..i]
      invariant forall v | v in counts :: counts[v] == Count(values[..i], v)
    {
      var v := values[i];
      assert values[..i + 1] == values[..i] + [v];
      FirstMetStep(values[..i], v);
      forall x
        ensures Count(values[..i + 1], x) == Count(values[..i], x) + (if x == v then 1 else 0)
      {
        CountStep(values[..i], v, x);
      }
      if v in counts {
        counts := counts[v := counts[v] + 1];
      } else {
        CountStep(values[..i], v, v);
        counts, order := counts[v := 1], order + [v];
      }
    }
    assert values[..|values|] == values;
  }

  /** Two loops: count, then keep the first value whose count is strictly higher. */
  method FindMostCommon<T(==)>(values: seq<T>) returns (best: Option<T>)
    ensures best == MostCommon(values)
  {
    var counts, order := CountAll(values);
    var bestCount := 0;
    best := None;
    for i := 0 to |order|
      invariant best == Best(values, order[..i])
      invariant bestCount == if best.Some? then Count(values, best.value) else 0
    {
      assert order[i] in counts;
      assert order[..i + 1][..i] == order[..i];
      if counts[order[i]] > bestCount {
        best, bestCount := Some(order[i]), counts[order[i]];
      }
    }
    assert order[..|order|] == order;
    RepeatsDoNotMatter(values, values);
  }

  // ----- one record per protocol -----

  function ApisOf(rows: seq<ModelRow>): seq<string> { seq(|rows|, i requires 0 <= i < |rows| => rows[i].api) }

  function Primary(p: Provider): string {
    var best := MostCommon(ApisOf(p.rows));
    if best.Some? then best.value else "openai-completions"
  }

  function Group(rows: seq<ModelRow>, api: string): seq<ModelRow> {
    if rows == [] then []
    else Group(rows[..|rows| - 1], api) + (if rows[|rows| - 1].api == api then [rows[|rows| - 1]] else [])
  }

  function Urls(rows: seq<ModelRow>): seq<string> {
    if rows == [] then []
    else Urls(rows[..|rows| - 1]) + (if rows[|rows| - 1].baseUrl.Some? then [rows[|rows| - 1].baseUrl.value] else [])
  }

  function ModelIds(rows: seq<ModelRow>): seq<string> { seq(|rows|, i requires 0 <= i < |rows| => rows[i].id) }

  function RecordId(k: Known, p: Provider, api: string): string {
    if api == Primary(p) then p.id else p.id + "-" + (if api in k.suffix then k.suffix[api] else api)
  }

  function BaseUrl(p: Provider, group: seq<ModelRow>): Option<string> {
    var common := MostCommon(Urls(group));
    if common.Some? then common else if p.seedBaseUrl.Some? then p.seedBaseUrl else p.seedApi
  }

  function RecordFor(k: Known, p: Provider, api: string): OmpRecord
    requires p.env != []
  {
    var id, group := RecordId(k, p, api), Group(p.rows, api);
    OmpRecord(id, p.display, p.env[0], BaseUrl(p, group), api, ModelIds(group), if id != p.id then Some(p.id) else None)
  }

  /** The three rules the generator applies again. */
  predicate Usable(r: OmpRecord) { ProviderId(r.id) && r.api in MATERIALIZABLE_APIS && PlaceholdersAllowed(r.baseUrl) }

  function Built(k: Known, p: Provider, apis: seq<string>): seq<OmpRecord>
    requires p.env != []
  {
    if apis == [] then []
    else
      var r := RecordFor(k, p, apis[|apis| - 1]);
      Built(k, p, apis[..|apis| - 1]) + (if Usable(r) then [r] else [])
  }

  function Failed(k: Known, p: Provider, apis: seq<string>): set<string>
    requires p.env != []
  {
    if apis == [] then {}
    else
      var r := RecordFor(k, p, apis[|apis| - 1]);
      Failed(k, p, apis[..|apis| - 1]) + (if Usable(r) then {} else {r.id})
  }

  /** The protocols, the primary one first. */
  function Others(apis: seq<string>, primary: string): seq<string> {
    if apis == [] then []
    else Others(apis[..|apis| - 1], primary) + (if apis[|apis| - 1] != primary then [apis[|apis| - 1]] else [])
  }

  function Protocols(p: Provider): seq<string> { [Primary(p)] + Others(FirstMet(ApisOf(p.rows)), Primary(p)) }

  // ----- the protocols split the models -----

  lemma {:induction false} FirstMetDistinct<T>(values: seq<T>)
    ensures Distinct(FirstMet(values))
  {
    if values != [] {
      FirstMetDistinct(values[..|values| - 1]);
    }
  }

  lemma {:induction false} OthersAre(apis: seq<string>, primary: string)
    requires Distinct(apis)
    ensures Distinct(Others(apis, primary)) && forall a :: a in Others(apis, primary) <==> a in apis && a != primary
  {
    if apis != [] {
      var front, last := apis[..|apis| - 1], apis[|apis| - 1];
      OthersAre(front, primary);
      assert apis == front + [last] && last !in front;
      assert last !in Others(front, primary);
    }
  }

  /** The primary protocol first, then every other one, each once. */
  lemma ProtocolsExact(p: Provider)
    requires p.rows != []
    ensures Distinct(Protocols(p)) && Protocols(p)[0] == Primary(p)
    ensures forall a :: a in Protocols(p) <==> a in ApisOf(p.rows)
  {
    hide Count, MostCommon, FirstMet, Others;
    var apis := ApisOf(p.rows);
    assert apis[0] in apis;
    MostCommonIsMode(apis);
    FirstMetDistinct(apis);
    OthersAre(FirstMet(apis), Primary(p));
    var others := Others(FirstMet(apis), Primary(p));
    assert Protocols(p) == [Primary(p)] + others;
  }

  function GroupSizes(rows: seq<ModelRow>, apis: seq<string>): nat {
    if apis == [] then 0 else |Group(rows, apis[0])| + GroupSizes(rows, apis[1..])
  }

  lemma {:induction false} GroupSizesStep(rows: seq<ModelRow>, row: ModelRow, apis: seq<string>)
    requires Distinct(apis)
    ensures GroupSizes(rows + [row], apis) == GroupSizes(rows, apis) + (if row.api in apis then 1 else 0)
  {
    assert (rows + [row])[..|rows|] == rows;
    if apis != [] {
      GroupSizesStep(rows, row, apis[1..]);
      assert apis == [apis[0]] + apis[1..];
      assert apis[0] !in apis[1..];
    }
  }

  lemma {:induction false} NoRowsNoGroups(apis: seq<string>)
    ensures GroupSizes([], apis) == 0
  {
    if apis != [] {
      NoRowsNoGroups(apis[1..]);
    }
  }

  lemma {:induction false} GroupsCover(rows: seq<ModelRow>, apis: seq<string>)
    requires Distinct(apis) && forall r | r in rows :: r.api in apis
    ensures GroupSizes(rows, apis) == |rows|
  {
    if rows == [] {
      NoRowsNoGroups(apis);
    } else {
      GroupsCover(rows[..|rows| - 1], apis);
      GroupSizesStep(rows[..|rows| - 1], rows[|rows| - 1], apis);
      assert rows == rows[..|rows| - 1] + [rows[|rows| - 1]];
    }
  }

  /** No model is lost or listed twice: the per-protocol groups add up to the provider's rows. */
  lemma ProtocolsSplitModels(p: Provider)
    requires p.rows != []
    ensures GroupSizes(p.rows, Protocols(p)) == |p.rows|
  {
    ProtocolsExact(p);
    forall r | r in p.rows
      ensures r.api in Protocols(p)
    {
      var i :| 0 <= i < |p.rows| && p.rows[i] == r;
      assert ApisOf(p.rows)[i] == r.api;
    }
    GroupsCover(p.rows, Protocols(p));
  }

  // ----- one provider -----

  datatype Fate =
    | Carried                     // the catalog has it: alias, builtin, source key or deduped key
    | OneProtocol                 // its models.dev row is enough
    | ExcludedKeepsRow            // not an API-key provider, but models.dev has it
    | ExcludedNonModel
    | ExcludedOAuth
    | UnusableKeepsRow(failed: set<string>)
    | UnusableNonModel(failed: set<string>)
    | Extracted(records: seq<OmpRecord>, failed: set<string>)

  predicate IsCarried(k: Known, id: string) {
    id in k.alias || id in k.builtinIds || id in k.sourceKeys || id in k.dedupe
  }

  predicate ApiKeyLogin(login: Option<string>) { login.None? || login.value == "api-key" }

  predicate Excluded(p: Provider) { p.rows == [] || p.env == [] || !ApiKeyLogin(p.login) }

  predicate Skipped(k: Known, p: Provider) {
    IsCarried(k, p.id) || (p.id in k.modelsDev && |FirstMet(ApisOf(p.rows))| <= 1) || Excluded(p)
  }

  function SkippedFate(k: Known, p: Provider): Fate {
    if IsCarried(k, p.id) then Carried
    else if p.id in k.modelsDev && |FirstMet(ApisOf(p.rows))| <= 1 then OneProtocol
    else if p.id in k.modelsDev then ExcludedKeepsRow
    else if ApiKeyLogin(p.login) then ExcludedNonModel
    else ExcludedOAuth
  }

  function BuiltFate(k: Known, id: string, records: seq<OmpRecord>, failed: set<string>): Fate {
    if records != [] then Extracted(records, failed)
    else if id in k.modelsDev then UnusableKeepsRow(failed) else UnusableNonModel(failed)
  }

  function FateOf(k: Known, p: Provider): Fate {
    if Skipped(k, p) then SkippedFate(k, p)
    else BuiltFate(k, p.id, Built(k, p, Protocols(p)), Failed(k, p, Protocols(p)))
  }

  // ----- the whole extraction -----

  datatype State = State(
    records: seq<OmpRecord>, ids: seq<string>, nonModel: seq<string>, oauth: seq<string>, failed: set<string>,
    owns: seq<string>)

  /** What a provider's fate adds. */
  function Apply(k: Known, s: State, id: string, fate: Fate): State {
    var t := s.(ids := s.ids + [id]);
    match fate
    case Carried => t
    case OneProtocol => t
    case ExcludedKeepsRow => t
    case ExcludedNonModel => t.(nonModel := t.nonModel + [id])
    case ExcludedOAuth => t.(oauth := t.oauth + [id])
    case UnusableKeepsRow(failed) => t.(failed := t.failed + failed)
    case UnusableNonModel(failed) => t.(failed := t.failed + failed, nonModel := t.nonModel + [id])
    case Extracted(records, failed) =>
      t.(failed := t.failed + failed, records := t.records + records,
         owns := if id in k.modelsDev then t.owns + [id] else t.owns)
  }

  const EMPTY := State([], [], [], [], {}, [])

  function Extract(k: Known, ps: seq<Provider>): State {
    if ps == [] then EMPTY else Apply(k, Extract(k, ps[..|ps| - 1]), ps[|ps| - 1].id, FateOf(k, ps[|ps| - 1]))
  }

  method BuildRecord(k: Known, p: Provider, primary: string, api: string) returns (r: OmpRecord)
    requires p.env != [] && primary == Primary(p)
    ensures r == RecordFor(k, p, api)
  {
    var group := Group(p.rows, api);
    var id := if api == primary then p.id else p.id + "-" + (if api in k.suffix then k.suffix[api] else api);
    var common := FindMostCommon(Urls(group));
    var baseUrl := if common.Some? then common else if p.seedBaseUrl.Some? then p.seedBaseUrl else p.seedApi;
    r := OmpRecord(id, p.display, p.env[0], baseUrl, api, ModelIds(group), if id != p.id then Some(p.id) else None);
  }

  method SortRecord(r: OmpRecord, built: seq<OmpRecord>, failed: set<string>)
    returns (next: seq<OmpRecord>, rejected: set<string>)
    ensures next == built + (if Usable(r) then [r] else []) && rejected == failed + (if Usable(r) then {} else {r.id})
  {
    if !Usable(r) {
      return built, failed + {r.id};
    }
    return built + [r], failed;
  }

  /** The per-protocol loop of one provider. */
  method BuildOver(k: Known, p: Provider, primary: string, apis: seq<string>)
    returns (built: seq<OmpRecord>, failed: set<string>)
    requires p.env != [] && primary == Primary(p)
    ensures built == Built(k, p, apis) && failed == Failed(k, p, apis)
  {
    built, failed := [], {};
    for i := 0 to |apis|
      invariant built == Built(k, p, apis[..i]) && failed == Failed(k, p, apis[..i])
    {
      BuiltStep(k, p, apis, i);
      var r := BuildRecord(k, p, primary, apis[i]);
      built, failed := SortRecord(r, built, failed);
    }
    assert apis[..|apis|] == apis;
  }

  method BuildRecords(k: Known, p: Provider) returns (built: seq<OmpRecord>, failed: set<string>)
    requires p.env != []
    ensures built == Built(k, p, Protocols(p)) && failed == Failed(k, p, Protocols(p))
  {
    var most := FindMostCommon(ApisOf(p.rows));
    var primary := if most.Some? then most.value else "openai-completions";
    built, failed := BuildOver(k, p, primary, [primary] + Others(FirstMet(ApisOf(p.rows)), primary));
  }

  lemma BuiltStep(k: Known, p: Provider, apis: seq<string>, i: nat)
    requires p.env != [] && i < |apis|
    ensures var r := RecordFor(k, p, apis[i]);
            && Built(k, p, apis[..i + 1]) == Built(k, p, apis[..i]) + (if Usable(r) then [r] else [])
            && Failed(k, p, apis[..i + 1]) == Failed(k, p, apis[..i]) + (if Usable(r) then {} else {r.id})
  {
    assert apis[..i + 1][..i] == apis[..i];
  }

  /** The checks that come before any record is built. */
  method SkipProvider(k: Known, p: Provider, s: State) returns (t: State)
    requires Skipped(k, p)
    ensures t == Apply(k, s, p.id, SkippedFate(k, p))
  {
    t := s.(ids := s.ids + [p.id]);
    if IsCarried(k, p.id) {
      return;
    }
    var inModelsDev := p.id in k.modelsDev;
    if inModelsDev && |FirstMet(ApisOf(p.rows))| <= 1 {
      return;
    }
    if inModelsDev {
      return;
    }
    if ApiKeyLogin(p.login) {
      t := t.(nonModel := t.nonModel + [p.id]);
    } else {
      t := t.(oauth := t.oauth + [p.id]);
    }
  }

  /** What becomes of the records once built: a key is taken over only if there is one. */
  method StoreRecords(k: Known, id: string, s: State, built: seq<OmpRecord>, failed: set<string>) returns (t: State)
    ensures t == Apply(k, s, id, BuiltFate(k, id, built, failed))
  {
    t := s.(ids := s.ids + [id], failed := s.failed + failed);
    if |built| == 0 {
      if id in k.modelsDev {
        return;
      }
      t := t.(nonModel := t.nonModel + [id]);
      return;
    }
    if id in k.modelsDev {
      t := t.(owns := t.owns + [id]);
    }
    t := t.(records := t.records + built);
  }

  method ExtractProvider(k: Known, p: Provider, s: State) returns (t: State)
    ensures t == Apply(k, s, p.id, FateOf(k, p))
  {
    if Skipped(k, p) {
      t := SkipProvider(k, p, s);
    } else {
      var built, failed := BuildRecords(k, p);
      t := StoreRecords(k, p.id, s, built, failed);
    }
  }

  /** The extractor's main loop. */
  method ExtractAll(k: Known, ps: seq<Provider>) returns (s: State)
    ensures s == Extract(k, ps)
  {
    s := EMPTY;
    for i := 0 to |ps|
      invariant s == Extract(k, ps[..i])
    {
      assert ps[..i + 1][..i] == ps[..i];
      s := ExtractProvider(k, ps[i], s);
    }
    assert ps[..|ps|] == ps;
  }

  // ----- what the extraction guarantees the generator -----

  lemma {:induction false} BuiltUsable(k: Known, p: Provider, apis: seq<string>, r: OmpRecord)
    requires p.env != [] && r in Built(k, p, apis)
    ensures Usable(r) && OwnerOf(r) == p.id && r.env == p.env[0]
  {
    var last := RecordFor(k, p, apis[|apis| - 1]);
    if r in Built(k, p, apis[..|apis| - 1]) {
      BuiltUsable(k, p, apis[..|apis| - 1], r);
    } else {
      assert r == last;
    }
  }

  lemma {:induction false} SplitByUsability(k: Known, p: Provider, apis: seq<string>, api: string)
    requires p.env != [] && api in apis
    ensures var r := RecordFor(k, p, api); if Usable(r) then r in Built(k, p, apis) else r.id in Failed(k, p, apis)
  {
    if api != apis[|apis| - 1] {
      assert api in apis[..|apis| - 1];
      SplitByUsability(k, p, apis[..|apis| - 1], api);
    }
  }

  /** What an extracted fate says, without its recipe. */
  lemma ExtractedFate(k: Known, p: Provider)
    requires FateOf(k, p).Extracted?
    ensures !IsCarried(k, p.id) && p.env != [] && FateOf(k, p).records != []
    ensures forall r | r in FateOf(k, p).records :: Usable(r) && OwnerOf(r) == p.id && r.env == p.env[0]
  {
    forall r | r in FateOf(k, p).records
      ensures Usable(r) && OwnerOf(r) == p.id && r.env == p.env[0]
    {
      BuiltUsable(k, p, Protocols(p), r);
    }
  }

  /** Every record can be materialized and belongs to a listed provider. */
  lemma {:induction false} RecordsAreUsable(k: Known, ps: seq<Provider>, r: OmpRecord)
    requires r in Extract(k, ps).records
    ensures Usable(r) && OwnerOf(r) in Extract(k, ps).ids
  {
    var front, p := ps[..|ps| - 1], ps[|ps| - 1];
    if r in Extract(k, front).records {
      RecordsAreUsable(k, front, r);
    } else {
      ExtractedFate(k, p);
    }
  }

  lemma OwnedStep(k: Known, s: State, id: string, fate: Fate, key: string)
    requires key in Apply(k, s, id, fate).owns && key !in s.owns
    ensures key == id && key in k.modelsDev && fate.Extracted?
            && fate.records <= Apply(k, s, id, fate).records[|s.records|..]
  {
  }

  lemma RecordsKept(k: Known, s: State, id: string, fate: Fate)
    ensures s.records <= Apply(k, s, id, fate).records && s.ids + [id] == Apply(k, s, id, fate).ids
  {
  }

  /** A models.dev key is taken over only together with a record that replaces it. */
  lemma {:induction false} OwnedKeysAreReplaced(k: Known, ps: seq<Provider>, key: string)
    requires key in Extract(k, ps).owns
    ensures key in k.modelsDev && !IsCarried(k, key) && key in Extract(k, ps).ids
    ensures exists r :: r in Extract(k, ps).records && OwnerOf(r) == key
  {
    var front, p := ps[..|ps| - 1], ps[|ps| - 1];
    RecordsKept(k, Extract(k, front), p.id, FateOf(k, p));
    if key in Extract(k, front).owns {
      OwnedKeysAreReplaced(k, front, key);
      var r :| r in Extract(k, front).records && OwnerOf(r) == key;
      assert r in Extract(k, ps).records;
    } else {
      OwnedStep(k, Extract(k, front), p.id, FateOf(k, p), key);
      ExtractedFate(k, p);
      assert FateOf(k, p).records[0] in Extract(k, ps).records;
    }
  }

  // ----- the lists say each provider's fate -----

  lemma FateShape(k: Known, p: Provider)
    ensures FateOf(k, p).Carried? <==> IsCarried(k, p.id)
    ensures !IsCarried(k, p.id) && !FateOf(k, p).Extracted? ==>
              if p.id in k.modelsDev
              then FateOf(k, p).OneProtocol? || FateOf(k, p).ExcludedKeepsRow? || FateOf(k, p).UnusableKeepsRow?
              else FateOf(k, p).ExcludedNonModel? || FateOf(k, p).ExcludedOAuth? || FateOf(k, p).UnusableNonModel?
  {
  }

  ghost predicate ListsOnlyMet(s: State) {
    (forall id: string :: id in s.nonModel || id in s.oauth || id in s.owns ==> id in s.ids)
  }

  /** Where a provider's id is listed, given its fate. */
  predicate Shows(k: Known, s: State, id: string, fate: Fate) {
    && (id in s.nonModel <==> fate.ExcludedNonModel? || fate.UnusableNonModel?)
    && (id in s.oauth <==> fate.ExcludedOAuth?)
    && (id in s.owns <==> fate.Extracted? && id in k.modelsDev)
    && (fate.Extracted? ==> forall r | r in fate.records :: r in s.records)
  }

  lemma FreshShows(k: Known, s: State, id: string, fate: Fate)
    requires ListsOnlyMet(s) && id !in s.ids
    ensures Shows(k, Apply(k, s, id, fate), id, fate)
  {
  }

  lemma OtherShows(k: Known, s: State, id: string, fate: Fate, other: string, otherFate: Fate)
    requires Shows(k, s, id, fate) && id != other
    ensures Shows(k, Apply(k, s, other, otherFate), id, fate)
  {
  }

  function ProviderIds(ps: seq<Provider>): seq<string> { seq(|ps|, i requires 0 <= i < |ps| => ps[i].id) }

  lemma ListsStep(k: Known, s: State, id: string, fate: Fate)
    requires ListsOnlyMet(s)
    ensures ListsOnlyMet(Apply(k, s, id, fate))
  {
  }

  lemma NothingListed()
    ensures ListsOnlyMet(EMPTY)
  {
  }

  lemma {:induction false} ExtractIds(k: Known, ps: seq<Provider>)
    ensures Extract(k, ps).ids == ProviderIds(ps) && ListsOnlyMet(Extract(k, ps))
  {
    hide FateOf, ListsOnlyMet, Apply;
    if ps == [] {
      NothingListed();
    } else {
      var front, p := ps[..|ps| - 1], ps[|ps| - 1];
      ExtractIds(k, front);
      RecordsKept(k, Extract(k, front), p.id, FateOf(k, p));
      ListsStep(k, Extract(k, front), p.id, FateOf(k, p));
      assert ProviderIds(ps) == ProviderIds(front) + [p.id];
    }
  }

  /** Repeated ids or not, the exclusion lists hold only ids nothing else carries. */
  lemma {:induction false} ListedAreUncarried(k: Known, ps: seq<Provider>, id: string)
    requires id in Extract(k, ps).nonModel || id in Extract(k, ps).oauth
    ensures !IsCarried(k, id) && id !in k.modelsDev
  {
    hide IsCarried, FateOf;
    var front, p := ps[..|ps| - 1], ps[|ps| - 1];
    if id in Extract(k, front).nonModel || id in Extract(k, front).oauth {
      ListedAreUncarried(k, front, id);
    } else {
      ExclusionStep(k, Extract(k, front), p, id);
    }
  }

  lemma ExclusionStep(k: Known, s: State, p: Provider, id: string)
    ensures var t := Apply(k, s, p.id, FateOf(k, p));
            && (id in t.nonModel || id in t.oauth <==>
                  id in s.nonModel || id in s.oauth
                  || (id == p.id && !IsCarried(k, id) && id !in k.modelsDev && !FateOf(k, p).Extracted?))
            && (FateOf(k, p).Extracted? ==> t.records == s.records + FateOf(k, p).records)
  {
    FateShape(k, p);
  }

  /** And every listed id without a record that nothing else carries is in them. */
  lemma {:induction false} UncarriedAreListed(k: Known, ps: seq<Provider>, id: string)
    requires id in Extract(k, ps).ids && !IsCarried(k, id) && id !in k.modelsDev
    requires forall r | r in Extract(k, ps).records :: OwnerOf(r) != id
    ensures id in Extract(k, ps).nonModel || id in Extract(k, ps).oauth
  {
    hide IsCarried, FateOf;
    var front, p := ps[..|ps| - 1], ps[|ps| - 1];
    ExclusionStep(k, Extract(k, front), p, id);
    RecordsKept(k, Extract(k, front), p.id, FateOf(k, p));
    if id in Extract(k, front).ids {
      UncarriedAreListed(k, front, id);
    } else if FateOf(k, p).Extracted? {
      LastIsReplaced(k, ps);
    }
  }

  lemma LastIsReplaced(k: Known, ps: seq<Provider>)
    requires ps != [] && FateOf(k, ps[|ps| - 1]).Extracted?
    ensures exists r :: r in Extract(k, ps).records && OwnerOf(r) == ps[|ps| - 1].id
  {
    hide FateOf, IsCarried, Usable;
    var p := ps[|ps| - 1];
    ExtractedFate(k, p);
    ExclusionStep(k, Extract(k, ps[..|ps| - 1]), p, p.id);
    assert FateOf(k, p).records[0] in Extract(k, ps).records;
  }

  lemma LastShown(k: Known, ps: seq<Provider>)
    requires ps != [] && ps[|ps| - 1].id !in ProviderIds(ps[..|ps| - 1])
    ensures Shows(k, Extract(k, ps), ps[|ps| - 1].id, FateOf(k, ps[|ps| - 1]))
  {
    ExtractIds(k, ps[..|ps| - 1]);
    FreshShows(k, Extract(k, ps[..|ps| - 1]), ps[|ps| - 1].id, FateOf(k, ps[|ps| - 1]));
  }

  lemma EarlierShown(k: Known, ps: seq<Provider>, id: string, fate: Fate)
    requires ps != [] && id != ps[|ps| - 1].id && Shows(k, Extract(k, ps[..|ps| - 1]), id, fate)
    ensures Shows(k, Extract(k, ps), id, fate)
  {
    OtherShows(k, Extract(k, ps[..|ps| - 1]), id, fate, ps[|ps| - 1].id, FateOf(k, ps[|ps| - 1]));
  }

  lemma DistinctFront(ps: seq<Provider>)
    requires ps != [] && Distinct(ProviderIds(ps))
    ensures Distinct(ProviderIds(ps[..|ps| - 1])) && ps[|ps| - 1].id !in ProviderIds(ps[..|ps| - 1])
    ensures forall i | 0 <= i < |ps| - 1 :: ps[i].id != ps[|ps| - 1].id
  {
    var ids := ProviderIds(ps);
    assert ProviderIds(ps[..|ps| - 1]) == ids[..|ps| - 1];
    assert ids[|ps| - 1] == ps[|ps| - 1].id;
    forall i | 0 <= i < |ps| - 1
      ensures ps[i].id != ps[|ps| - 1].id
    {
      assert ids[i] != ids[|ps| - 1];
    }
  }

  /** With distinct ids the three id lists and the records say each provider's fate. */
  lemma FateIsShown(k: Known, ps: seq<Provider>, i: nat)
    requires i < |ps| && Distinct(ProviderIds(ps))
    ensures var s, id, fate := Extract(k, ps), ps[i].id, FateOf(k, ps[i]);
            && (id in s.nonModel <==> fate.ExcludedNonModel? || fate.UnusableNonModel?)
            && (id in s.oauth <==> fate.ExcludedOAuth?) && (id in s.owns <==> fate.Extracted? && id in k.modelsDev)
            && (fate.Extracted? ==> forall r | r in fate.records :: r in s.records)
  {
    ProviderShown(k, ps, i);
  }

  lemma {:induction false} ProviderShown(k: Known, ps: seq<Provider>, i: nat)
    requires i < |ps| && Distinct(ProviderIds(ps))
    ensures Shows(k, Extract(k, ps), ps[i].id, FateOf(k, ps[i]))
  {
    DistinctFront(ps);
    if i == |ps| - 1 {
      LastShown(k, ps);
    } else {
      var front, fate := ps[..|ps| - 1], FateOf(k, ps[i]);
      ProviderShown(k, front, i);
      assert front[i] == ps[i];
      EarlierShown(k, ps, ps[i].id, fate);
    }
  }
}
