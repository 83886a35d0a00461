/** What the extractor makes of one provider, in the terms of its rule and model rows. */
module ExtractMeaning {
  import opened Prelude
  import opened Catalog
  import opened OmpExtract
  import opened CatalogContents

  // ----- the rows of one protocol -----

  /** A protocol's rows are picked in their order. */
  lemma {:induction false} GroupPicks(a: seq<ModelRow>, row: ModelRow, b: seq<ModelRow>, api: string)
    ensures Group(a + [row] + b, api) == Group(a, api) + (if row.api == api then [row] else []) + Group(b, api)
  {
    var all := a + [row] + b;
    if b == [] {
      assert all == a + [row] && all[..|all| - 1] == a;
    } else {
      var last := b[|b| - 1];
      assert all[..|all| - 1] == a + [row] + b[..|b| - 1];
      GroupPicks(a, row, b[..|b| - 1], api);
    }
  }

  /** The base URLs of the rows that have one, in their order. */
  lemma {:induction false} UrlsPick(a: seq<ModelRow>, row: ModelRow, b: seq<ModelRow>)
    ensures Urls(a + [row] + b) == Urls(a) + (if row.baseUrl.Some? then [row.baseUrl.value] else []) + Urls(b)
  {
    var all := a + [row] + b;
    if b == [] {
      assert all == a + [row] && all[..|all| - 1] == a;
    } else {
      assert all[..|all| - 1] == a + [row] + b[..|b| - 1];
      UrlsPick(a, row, b[..|b| - 1]);
    }
  }

  // ----- one record -----

  /** A record's fields. The main protocol's record keeps the provider's id, any other is told apart by a suffix and
      names its provider; the base URL is the one most of its models have, else the seed's. */
  lemma RecordFields(k: Known, p: Provider, api: string)
    requires p.env != [] && p.rows != []
    ensures var r, main := RecordFor(k, p, api), MostCommon(ApisOf(p.rows)).value;
            && r.display == p.display && r.env == p.env[0] && r.api == api
            && (api == main ==> r.id == p.id && r.sourceProviderId.None?)
            && (api != main ==> r.sourceProviderId == Some(p.id))
            && (api != main ==> r.id == p.id + "-" + (if api in k.suffix then k.suffix[api] else api))
            && |r.models| == |Group(p.rows, api)|
            && (forall i | 0 <= i < |r.models| :: r.models[i] == Group(p.rows, api)[i].id)
            && r.baseUrl == if Urls(Group(p.rows, api)) != [] then MostCommon(Urls(Group(p.rows, api)))
                            else if p.seedBaseUrl.Some? then p.seedBaseUrl else p.seedApi
  {
    hide MostCommon;
    MostCommonIsMode(ApisOf(p.rows));
    MostCommonIsMode(Urls(Group(p.rows, api)));
    if api != Primary(p) {
      assert |RecordId(k, p, api)| > |p.id|;
    }
  }

  /** Which records may stand in the catalog. */
  lemma UsableMeans(r: OmpRecord)
    ensures Usable(r) <==> IdText(r.id) && KnownProtocol(r.api) && OnlyAccountId(r.baseUrl)
  {
    hide ProviderId, IdText, PlaceholdersAllowed, OnlyAccountId;
    IdTextIs(r.id);
    OnlyAccountIdIs(r.baseUrl);
  }

  // ----- one provider -----

  /** All its models speak one protocol. */
  predicate OneApi(p: Provider) { forall x, y | x in p.rows && y in p.rows :: x.api == y.api }

  lemma OneApiIs(p: Provider)
    ensures |FirstMet(ApisOf(p.rows))| <= 1 <==> OneApi(p)
  {
    var apis := ApisOf(p.rows);
    var met := FirstMet(apis);
    FirstMetDistinct(apis);
    if |met| <= 1 {
      forall x, y | x in p.rows && y in p.rows
        ensures x.api == y.api
      {
        var i :| 0 <= i < |p.rows| && p.rows[i] == x;
        var j :| 0 <= j < |p.rows| && p.rows[j] == y;
        assert apis[i] in met && apis[j] in met;
      }
    } else {
      assert met[0] in apis && met[1] in apis && met[0] != met[1];
      var i :| 0 <= i < |apis| && apis[i] == met[0];
      var j :| 0 <= j < |apis| && apis[j] == met[1];
      assert p.rows[i] in p.rows && p.rows[j] in p.rows;
    }
  }

  /** No models, no key variable, or a login of another kind than by API key. */
  predicate NotByKey(p: Provider) { p.rows == [] || p.env == [] || (p.login.Some? && p.login.value != "api-key") }

  /** The record of one of its protocols, usable as it stands. */
  ghost predicate Makes(k: Known, p: Provider, r: OmpRecord)
    requires p.env != []
  {
    exists row :: row in p.rows && r == RecordFor(k, p, row.api) && Usable(r)
  }

  /** A provider's fate, by the first rule that applies. */
  lemma FateMeans(k: Known, p: Provider)
    ensures var carried := p.id in k.alias.Keys + k.builtinIds + k.sourceKeys + k.dedupe;
            var fate := FateOf(k, p);
            if carried then fate == Carried
            else if p.id in k.modelsDev && OneApi(p) then fate == OneProtocol
            else if NotByKey(p) then
              fate == if p.id in k.modelsDev then ExcludedKeepsRow
                      else if p.login.Some? && p.login.value != "api-key" then ExcludedOAuth else ExcludedNonModel
            else
              && (fate.Extracted? || fate.UnusableKeepsRow? || fate.UnusableNonModel?)
              && (fate.Extracted? <==> exists r :: Makes(k, p, r))
              && (fate.Extracted? ==> forall r :: r in fate.records <==> Makes(k, p, r))
              && (fate.UnusableKeepsRow? ==> p.id in k.modelsDev) && (fate.UnusableNonModel? ==> p.id !in k.modelsDev)
  {
    hide FirstMet, RecordFor, Usable, Protocols, MostCommon;
    OneApiIs(p);
    if !Skipped(k, p) {
      var built := Built(k, p, Protocols(p));
      forall r
        ensures r in built <==> Makes(k, p, r)
      {
        BuiltAre(k, p, r);
      }
      if built != [] {
        assert built[0] in built;
      }
    }
  }

  lemma {:induction false} BuiltFrom(k: Known, p: Provider, apis: seq<string>, r: OmpRecord)
    requires p.env != []
    ensures r in Built(k, p, apis) <==> Usable(r) && exists api :: api in apis && r == RecordFor(k, p, api)
  {
    hide RecordFor, Usable;
    if apis != [] {
      var front, last := apis[..|apis| - 1], apis[|apis| - 1];
      BuiltFrom(k, p, front, r);
      assert apis == front + [last];
      if api :| api in front && r == RecordFor(k, p, api) {
        assert api in apis;
      }
      assert last in apis;
    }
  }

  lemma BuiltAre(k: Known, p: Provider, r: OmpRecord)
    requires p.env != [] && p.rows != []
    ensures r in Built(k, p, Protocols(p)) <==> Makes(k, p, r)
  {
    hide RecordFor, Usable, Protocols, MostCommon;
    BuiltFrom(k, p, Protocols(p), r);
    ProtocolsExact(p);
    if api :| api in Protocols(p) && r == RecordFor(k, p, api) {
      var i :| 0 <= i < |p.rows| && ApisOf(p.rows)[i] == api;
      assert p.rows[i] in p.rows && p.rows[i].api == api;
    }
    if row :| row in p.rows && r == RecordFor(k, p, row.api) && Usable(r) {
      var i :| 0 <= i < |p.rows| && p.rows[i] == row;
      assert ApisOf(p.rows)[i] == row.api;
      assert row.api in Protocols(p);
    }
  }
}
