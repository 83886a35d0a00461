/** What the two catalog scripts do with inputs nobody meant: shown at inputs, and exactly when. */
module CatalogFindings {
  import opened Prelude
  import opened Catalog
  import opened CatalogBuild
  import opened CatalogUnion
  import opened CatalogGenerator
  import opened CatalogAgreement
  import opened OmpExtract

  // ----- base URLs -----

  lemma {:induction false} UrlsAre(rows: seq<ModelRow>, url: string)
    ensures url in Urls(rows) <==> exists r :: r in rows && r.baseUrl == Some(url)
  {
    if rows != [] {
      var front, last := rows[..|rows| - 1], rows[|rows| - 1];
      assert rows == front + [last];
      UrlsAre(front, url);
      if r :| r in rows && r.baseUrl == Some(url) {
        assert r in front || r == last;
      }
    }
  }

  /** A record ships no base URL exactly when neither its models nor its seed name one: the host never matters. */
  lemma NoBaseUrlExactly(p: Provider, group: seq<ModelRow>)
    ensures BaseUrl(p, group).None? <==>
            (forall r | r in group :: r.baseUrl.None?) && p.seedBaseUrl.None? && p.seedApi.None?
  {
    MostCommonIsMode(Urls(group));
    forall r | r in group && r.baseUrl.Some?
      ensures Urls(group) != []
    {
      UrlsAre(group, r.baseUrl.value);
    }
    if Urls(group) != [] {
      UrlsAre(group, Urls(group)[0]);
    }
  }

  /** A URL all the models of a group share is the record's, whatever its scheme. */
  lemma SharedUrlIsKept(p: Provider, group: seq<ModelRow>, url: string)
    requires group != [] && forall r | r in group :: r.baseUrl == Some(url)
    ensures BaseUrl(p, group) == Some(url)
  {
    MostCommonIsMode(Urls(group));
    UrlsAre(group, url);
    assert group[0] in group;
    UrlsAre(group, MostCommon(Urls(group)).value);
  }

  lemma {:induction false} NoPlaceholders(url: string)
    requires '{' !in url
    ensures Placeholders(url) == []
  {
    if url != "" {
      NoPlaceholders(url[1..]);
    }
  }

  const COMPLETIONS := "openai-completions"
  const RESPONSES := "openai-responses"

  lemma {:induction false} GroupIs(rows: seq<ModelRow>, api: string, row: ModelRow)
    ensures row in Group(rows, api) <==> row in rows && row.api == api
  {
    if rows != [] {
      GroupIs(rows[..|rows| - 1], api, row);
      assert rows == rows[..|rows| - 1] + [rows[|rows| - 1]];
    }
  }

  lemma PrimaryHasRow(p: Provider)
    requires p.rows != []
    ensures exists row :: row in p.rows && row.api == Primary(p)
  {
    var apis := ApisOf(p.rows);
    MostCommonIsMode(apis);
    assert apis[0] in apis;
    var j :| 0 <= j < |apis| && apis[j] == Primary(p);
    assert p.rows[j] in p.rows;
  }

  /** A URL without placeholders that the models of a provider's most common protocol share is shipped, whatever its
      scheme or host, in a record under the provider's own id. */
  lemma SharedUrlShips(k: Known, ps: seq<Provider>, i: nat, url: string)
    requires i < |ps| && !Skipped(k, ps[i]) && '{' !in url
    requires forall row | row in ps[i].rows && row.api == Primary(ps[i]) :: row.baseUrl == Some(url)
    requires ProviderId(ps[i].id) && Primary(ps[i]) in MATERIALIZABLE_APIS
    ensures exists r :: r in Extract(k, ps).records && r.id == ps[i].id && r.baseUrl == Some(url)
  {
    hide ProviderId, Primary, IsCarried, Placeholders, FateOf;
    var p := ps[i];
    var group := Group(p.rows, Primary(p));
    PrimaryHasRow(p);
    forall row
      ensures row in group <==> row in p.rows && row.api == Primary(p)
    {
      GroupIs(p.rows, Primary(p), row);
    }
    assert group != [];
    SharedUrlIsKept(p, group, url);
    NoPlaceholders(url);
    var r := RecordFor(k, p, Primary(p));
    assert Usable(r) && r.id == p.id && r.baseUrl == Some(url);
    PrimaryRecordShips(k, ps, i);
  }

  lemma PrimaryRecordShips(k: Known, ps: seq<Provider>, i: nat)
    requires i < |ps| && !Skipped(k, ps[i]) && Usable(RecordFor(k, ps[i], Primary(ps[i])))
    ensures RecordFor(k, ps[i], Primary(ps[i])) in Extract(k, ps).records
  {
    hide Usable, RecordFor, Primary, IsCarried;
    var p := ps[i];
    assert Primary(p) in Protocols(p);
    SplitByUsability(k, p, Protocols(p), Primary(p));
    RecordsAreThere(k, ps, i);
  }

  /** A provider on one protocol. */
  function OneModel(id: string, env: string, url: string): Provider {
    Provider(id, id, [env], None, [ModelRow("a", COMPLETIONS, Some(url))], None, None)
  }

  lemma OneModelPrimary(id: string, env: string, url: string)
    ensures var p := OneModel(id, env, url);
            Primary(p) == COMPLETIONS && FirstMet(ApisOf(p.rows)) == [COMPLETIONS]
              && forall row | row in p.rows :: row.baseUrl == Some(url)
  {
    assert ApisOf(OneModel(id, env, url).rows) == [COMPLETIONS];
    assert [COMPLETIONS][..0] == [];
  }

  /** The header promises null for a loopback `http://` host; with any tables, in any list, the record keeps the URL. */
  lemma LoopbackIsKept(k: Known, ps: seq<Provider>, i: nat, id: string, env: string)
    requires i < |ps| && ps[i] == OneModel(id, env, "http://127.0.0.1:11434/v1")
    requires ProviderId(id) && !IsCarried(k, id) && id !in k.modelsDev
    ensures exists r :: r in Extract(k, ps).records && r.id == id && r.baseUrl == Some("http://127.0.0.1:11434/v1")
  {
    hide ProviderId, IsCarried, Primary, FateOf;
    var url := "http://127.0.0.1:11434/v1";
    OneModelPrimary(id, env, url);
    SharedUrlShips(k, ps, i, url);
  }

  // ----- an owned key without a row -----

  function TwoProtocols(id: string, env: string): Provider {
    Provider(id, id, [env], None, [ModelRow("a", COMPLETIONS, None), ModelRow("b", RESPONSES, None)], None, None)
  }

  function FirstRecord(id: string, env: string): OmpRecord { OmpRecord(id, id, env, None, COMPLETIONS, ["a"], None) }

  function SecondRecord(id: string, env: string): OmpRecord {
    OmpRecord(id + "-responses", id, env, None, RESPONSES, ["b"], Some(id))
  }

  lemma TwoProtocolsPrimary(id: string, env: string)
    ensures var p := TwoProtocols(id, env); Primary(p) == COMPLETIONS && Protocols(p) == [COMPLETIONS, RESPONSES]
    ensures |FirstMet(ApisOf(TwoProtocols(id, env).rows))| == 2
  {
    var p := TwoProtocols(id, env);
    var apis := [COMPLETIONS, RESPONSES];
    assert ApisOf(p.rows) == apis;
    assert apis[..1] == [COMPLETIONS] && [COMPLETIONS][..0] == [];
    assert COMPLETIONS != RESPONSES;
    assert Count(apis, COMPLETIONS) == 1 && Count(apis, RESPONSES) == 1;
    assert Best(apis, [COMPLETIONS]) == Some(COMPLETIONS);
    assert FirstMet([COMPLETIONS]) == [COMPLETIONS];
    assert FirstMet(apis) == apis;
    assert Others([COMPLETIONS], COMPLETIONS) == [];
    assert Others(apis, COMPLETIONS) == [RESPONSES];
  }

  lemma TwoProtocolsRecords(k: Known, id: string, env: string)
    requires RESPONSES in k.suffix && k.suffix[RESPONSES] == "responses"
    ensures var p := TwoProtocols(id, env);
            RecordFor(k, p, COMPLETIONS) == FirstRecord(id, env) && RecordFor(k, p, RESPONSES) == SecondRecord(id, env)
  {
    hide Protocols, Primary, BaseUrl;
    TwoProtocolsPrimary(id, env);
    var p := TwoProtocols(id, env);
    var a, b := p.rows[0], p.rows[1];
    assert p.rows[..1] == [a] && [a][..0] == [];
    assert Group([a], COMPLETIONS) == [a] && Group([a], RESPONSES) == [];
    assert Group(p.rows, COMPLETIONS) == [a] && Group(p.rows, RESPONSES) == [b];
    NoBaseUrlExactly(p, [a]);
    NoBaseUrlExactly(p, [b]);
    assert ModelIds([a]) == ["a"] && ModelIds([b]) == ["b"];
    assert id + ("-" + "responses") == id + "-responses";
    assert |id + "-responses"| > |id|;
  }

  lemma TwoProtocolsFate(k: Known, id: string, env: string)
    requires ProviderId(id) && ProviderId(id + "-responses") && !IsCarried(k, id)
    requires RESPONSES in k.suffix && k.suffix[RESPONSES] == "responses"
    ensures FateOf(k, TwoProtocols(id, env)) == Extracted([FirstRecord(id, env), SecondRecord(id, env)], {})
  {
    hide ProviderId, RecordFor, Primary, Protocols, IsCarried;
    var p := TwoProtocols(id, env);
    TwoProtocolsPrimary(id, env);
    TwoProtocolsRecords(k, id, env);
    var first, second := FirstRecord(id, env), SecondRecord(id, env);
    assert Usable(first) && Usable(second);
    var apis := [COMPLETIONS, RESPONSES];
    assert apis[..1] == [COMPLETIONS] && [COMPLETIONS][..0] == [];
    assert Built(k, p, [COMPLETIONS]) == [first] && Failed(k, p, [COMPLETIONS]) == {};
    assert Built(k, p, apis) == [first, second] && Failed(k, p, apis) == {};
  }

  function OwnedKeyOmp(k: Known, key: string, env: string): Omp {
    Omp([FirstRecord(key, env), SecondRecord(key, env)], [key], [key], k.alias, [], [], map[])
  }

  /** A models.dev key that nothing carries, and a second record id that is free. */
  predicate FreeKey(k: Known, t: Tables, key: string) {
    && ProviderId(key) && ProviderId(key + "-responses")
    && key in k.modelsDev && !IsCarried(k, key) && key !in TemplateIds(t)
    && key + "-responses" !in k.modelsDev && key + "-responses" !in BaseIds(t)
    && RESPONSES in k.suffix && k.suffix[RESPONSES] == "responses"
  }

  lemma OwnedKeyExtracts(k: Known, t: Tables, key: string, env: string)
    requires FreeKey(k, t, key)
    ensures Vendored(k, [TwoProtocols(key, env)], OwnedKeyOmp(k, key, env))
  {
    hide FateOf, ProviderId, IsCarried;
    var ps := [TwoProtocols(key, env)];
    TwoProtocolsFate(k, key, env);
    assert ps[..0] == [];
    assert Extract(k, ps[..0]) == EMPTY;
    var s := Extract(k, ps);
    assert s.records == [FirstRecord(key, env), SecondRecord(key, env)] && s.ids == [key] && s.owns == [key];
    assert s.nonModel == [] && s.oauth == [] && s.failed == {};
  }

  /** Neither id is a row before the union: the key is owned, and the other is no key. */
  lemma OwnedKeyRows(k: Known, t: Tables, snapshot: seq<Entry>, key: string, env: string)
    requires FreeKey(k, t, key) && SameTables(k, t, snapshot)
    ensures var rows := RowIds(t, Some(OwnedKeyOmp(k, key, env)), snapshot);
            key !in rows && key + "-responses" !in rows
  {
    hide ProviderId;
    var omp := OwnedKeyOmp(k, key, env);
    assert key in omp.ownsSnapshotKeys;
    KeysHold(snapshot);
    assert forall e | e in snapshot && InBreadth(t, Some(omp), e) :: e.key != key && e.key in k.modelsDev;
  }

  lemma OwnedKeyUsable(k: Known, key: string, env: string)
    ensures RecordsUsable(OwnedKeyOmp(k, key, env))
  {
    var omp := OwnedKeyOmp(k, key, env);
    assert RecordIds(omp.providers) == [key, key + "-responses"];
    assert |key| < |key + "-responses"|;
  }

  lemma NothingRefused(present: set<string>, covered: set<string>, k: Known, key: string, env: string)
    ensures var omp := OwnedKeyOmp(k, key, env); NoneRefused(present, covered, omp, ItemsOf(omp, omp.ompProviderIds))
  {
    hide ClassOfItem, ItemsOf, RecordsOf;
    var omp := OwnedKeyOmp(k, key, env);
    forall i | i in ItemsOf(omp, omp.ompProviderIds)
      ensures ClassOfItem(present, covered, omp, i) != Refused
    {
      ItemMet(omp, omp.ompProviderIds, i);
      RecordsOfAre(omp.providers, key, omp.providers[0]);
      RefusalIsStatic(present, present, covered, omp, i);
    }
  }

  lemma OwnedKeyBuilds(k: Known, t: Tables, snapshot: seq<Entry>, key: string, env: string)
    requires Builds(t, snapshot, None)
    ensures Builds(t, snapshot, Some(OwnedKeyOmp(k, key, env)))
  {
    hide ProviderId, RecordsUsable, NoneRefused, ItemsOf, RowIds, Covered;
    var omp := OwnedKeyOmp(k, key, env);
    var rows := RowIds(t, Some(omp), snapshot);
    OwnedKeyUsable(k, key, env);
    NothingRefused(rows, Covered(t, rows), k, key, env);
    assert forall e | e in snapshot && InBreadth(t, Some(omp), e) :: InBreadth(t, None, e);
  }

  /** With any tables and snapshot that build without the vendored file: a free key on two protocols with a blank env
      name, as `envVars: [""]` gives, is taken over, the build goes through, and the catalog holds nothing of it. */
  lemma OwnedKeyCanVanish(
    k: Known, t: Tables, snapshot: seq<Entry>, key: string, env: string, catalog: CatalogMap)
    requires SameTables(k, t, snapshot) && Builds(t, snapshot, None) && FreeKey(k, t, key) && Blank(env)
    requires RowsHeld(t, snapshot, Some(OwnedKeyOmp(k, key, env)), catalog)
    ensures var omp := OwnedKeyOmp(k, key, env);
            && Vendored(k, [TwoProtocols(key, env)], omp) && Builds(t, snapshot, Some(omp))
            && key in omp.ownsSnapshotKeys
            && key !in catalog && forall r | r in omp.providers :: OwnerOf(r) == key && r.id !in catalog
  {
    hide ProviderId, Blank, RowsHeld, Vendored, SameTables, Builds, FreeKey, RowIds, RecordsUsable, OmpExtract.Usable;
    var omp := OwnedKeyOmp(k, key, env);
    OwnedKeyExtracts(k, t, key, env);
    OwnedKeyBuilds(k, t, snapshot, key, env);
    OwnedKeyUsable(k, key, env);
    OwnedKeyRows(k, t, snapshot, key, env);
    RecordLands(t, snapshot, omp, catalog, omp.providers[0]);
    RecordLands(t, snapshot, omp, catalog, omp.providers[1]);
  }

  // ----- colliding record ids -----

  lemma {:induction false} RecordsAreThere(k: Known, ps: seq<Provider>, i: nat)
    requires i < |ps| && FateOf(k, ps[i]).Extracted?
    ensures forall r | r in FateOf(k, ps[i]).records :: r in Extract(k, ps).records
  {
    hide FateOf;
    var front, last := ps[..|ps| - 1], ps[|ps| - 1];
    ExclusionStep(k, Extract(k, front), last, last.id);
    RecordsKept(k, Extract(k, front), last.id, FateOf(k, last));
    if i < |front| {
      RecordsAreThere(k, front, i);
    }
  }

  lemma {:induction false} HeldAtMostOnce(records: seq<OmpRecord>, r: OmpRecord)
    requires Distinct(RecordIds(records))
    ensures multiset(records)[r] <= 1
  {
    if records != [] {
      var front, last := records[..|records| - 1], records[|records| - 1];
      var ids := RecordIds(records);
      assert RecordIds(front) == ids[..|front|];
      HeldAtMostOnce(front, r);
      forall j | 0 <= j < |front|
        ensures front[j] != last
      {
        assert ids[j] != ids[|front|];
      }
      assert records == front + [last];
    }
  }

  lemma HeldTwice(records: seq<OmpRecord>, i: nat, j: nat)
    requires i < j < |records| && records[i] == records[j]
    ensures multiset(records)[records[i]] >= 2
  {
    assert records == records[..j] + records[j..];
    assert records[..j][i] == records[i] && records[j..][0] == records[i];
  }

  lemma PermutedIdsDistinct(a: seq<OmpRecord>, b: seq<OmpRecord>)
    requires Distinct(RecordIds(a)) && multiset(a) == multiset(b)
    ensures Distinct(RecordIds(b))
  {
    var ids := RecordIds(b);
    forall i, j | 0 <= i < j < |ids|
      ensures ids[i] != ids[j]
    {
      PermutedPair(a, b, i, j);
    }
  }

  lemma PermutedPair(a: seq<OmpRecord>, b: seq<OmpRecord>, i: nat, j: nat)
    requires Distinct(RecordIds(a)) && multiset(a) == multiset(b) && i < j < |b|
    ensures b[i].id != b[j].id
  {
    assert b[i] in multiset(a) && b[j] in multiset(a);
    if b[i].id == b[j].id {
      SameIdSameRecord(a, b[i], b[j]);
      HeldAtMostOnce(a, b[i]);
      HeldTwice(b, i, j);
    }
  }

  /** When two extracted records share an id, whatever the tables and the snapshot, the build stops. */
  lemma CollidingRecordsRefused(k: Known, ps: seq<Provider>, omp: Omp, t: Tables, snapshot: seq<Entry>)
    requires Vendored(k, ps, omp) && !Distinct(RecordIds(Extract(k, ps).records))
    ensures !Builds(t, snapshot, Some(omp))
  {
    if Distinct(RecordIds(omp.providers)) {
      PermutedIdsDistinct(omp.providers, Extract(k, ps).records);
    }
  }

  /** For instance, with any tables and whatever else is listed: a provider on two protocols, and one whose own id is
      the first one's second record. */
  lemma SuffixCollision(
    k: Known, ps: seq<Provider>, i: nat, j: nat, id: string, env: string, url: string, omp: Omp, t: Tables,
    snapshot: seq<Entry>)
    requires i < |ps| && j < |ps| && ps[i] == TwoProtocols(id, env) && ps[j] == OneModel(id + "-responses", env, url)
    requires ProviderId(id) && ProviderId(id + "-responses") && '{' !in url
    requires !IsCarried(k, id) && !IsCarried(k, id + "-responses") && id + "-responses" !in k.modelsDev
    requires RESPONSES in k.suffix && k.suffix[RESPONSES] == "responses" && Vendored(k, ps, omp)
    ensures !Builds(t, snapshot, Some(omp))
  {
    hide FateOf, ProviderId, Builds, Vendored, IsCarried, Primary;
    TwoProtocolsFate(k, id, env);
    RecordsAreThere(k, ps, i);
    OneModelPrimary(id + "-responses", env, url);
    SharedUrlShips(k, ps, j, url);
    var a := SecondRecord(id, env);
    var b :| b in Extract(k, ps).records && b.id == id + "-responses" && b.baseUrl == Some(url);
    assert a in FateOf(k, ps[i]).records && a.baseUrl.None?;
    if Distinct(RecordIds(Extract(k, ps).records)) {
      SameIdSameRecord(Extract(k, ps).records, a, b);
    }
    CollidingRecordsRefused(k, ps, omp, t, snapshot);
  }
}
