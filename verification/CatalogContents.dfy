/** What a returned catalog says of each provider, and why, in the terms of the input files. */
module CatalogContents {
  import opened Prelude
  import opened Letters
  import opened Catalog
  import opened CatalogBuild
  import opened CatalogUnion
  import opened CatalogGenerator
  import Text

  // ----- grammars -----

  /** One to 64 small letters, digits and hyphens, no hyphen in front. */
  predicate IdText(id: string) {
    0 < |id| <= 64 && id[0] != '-' && forall i | 0 <= i < |id| :: Small(id[i]) || Digit(id[i]) || id[i] == '-'
  }

  lemma IdTextIs(id: string)
    ensures ProviderId(id) <==> IdText(id)
  {
    hide Small, Digit;
    forall i | 0 <= i < |id|
      ensures LowerAlnum(id[i]) <==> Small(id[i]) || Digit(id[i])
    {
      SmallIs(id[i]);
      DigitIs(id[i]);
    }
    SmallIs('-');
    DigitIs('-');
  }

  lemma {:induction false} BeforeBrace(a: string, rest: string)
    requires '{' !in a
    ensures Placeholders(a + rest) == Placeholders(rest)
  {
    if a != "" {
      assert (a + rest)[1..] == a[1..] + rest;
      BeforeBrace(a[1..], rest);
    } else {
      assert a + rest == rest;
    }
  }

  lemma ClosingBrace(name: string, b: string)
    requires '}' !in name
    ensures Text.IndexOf(name, "}") == -1
    ensures Text.IndexOf(name + "}" + b, "}") == |name|
  {
    hide Text.IndexOf;
    var s := name + "}" + b;
    forall j | 0 <= j < |name|
      ensures !("}" <= s[j..]) && !("}" <= name[j..])
    {
      assert s[j..][0] == name[j] && name[j..][0] == name[j];
    }
    assert s[|name|..][0] == '}';
    Text.IndexOfUnique(s, "}", |name|);
  }

  lemma OpenBrace(name: string)
    requires '}' !in name
    ensures Placeholders("{" + name) == []
  {
    hide Text.IndexOf;
    ClosingBrace(name, "");
    assert ("{" + name)[1..] == name;
  }

  lemma BracePair(name: string, b: string)
    requires '}' !in name
    ensures Placeholders("{" + name + "}" + b) == if name == "" then Placeholders(b) else [name] + Placeholders(b)
  {
    hide Text.IndexOf;
    ClosingBrace(name, b);
    var s := "{" + name + "}" + b;
    assert s[1..] == name + "}" + b;
    if name == "" {
      BeforeBrace("}", b);
      assert s[1..] == "}" + b;
    } else {
      assert s[1..1 + |name|] == name && s[|name| + 2..] == b;
    }
  }

  /** A placeholder is what stands between a brace and the next closing one, when anything does. */
  lemma PlaceholderLaws(a: string, name: string, b: string)
    requires '{' !in a && '}' !in name
    ensures Placeholders(a) == [] && Placeholders(a + ("{" + name)) == []
    ensures Placeholders(a + ("{" + name + "}" + b)) == if name == "" then Placeholders(b) else [name] + Placeholders(b)
  {
    BeforeBrace(a, "");
    assert a + "" == a && Placeholders("") == [];
    hide Placeholders;
    OpenBrace(name);
    BeforeBrace(a, "{" + name);
    BracePair(name, b);
    BeforeBrace(a, "{" + name + "}" + b);
  }

  /** The only value an operator can be asked to fill in. */
  predicate OnlyAccountId(url: Option<string>) {
    url.Some? ==> forall name | name in Placeholders(url.value) :: name == "account_id"
  }

  predicate KnownProtocol(api: string) {
    api == "anthropic-messages" || api == "openai-completions" || api == "openai-responses" || api == "typesafe"
  }

  lemma AllowedIsOnly(url: Option<string>)
    requires PlaceholdersAllowed(url)
    ensures OnlyAccountId(url)
  {
  }

  lemma OnlyIsAllowed(url: Option<string>)
    requires OnlyAccountId(url)
    ensures PlaceholdersAllowed(url)
  {
  }

  lemma OnlyAccountIdIs(url: Option<string>)
    ensures PlaceholdersAllowed(url) <==> OnlyAccountId(url)
  {
    hide *;
    if PlaceholdersAllowed(url) {
      AllowedIsOnly(url);
    }
    if OnlyAccountId(url) {
      OnlyIsAllowed(url);
    }
  }

  // ----- classes -----

  /** A snapshot key is a builtin's source, else deduplicated, else the omp file's, else refused by the id grammar, else
      a row of its own. */
  lemma KeyClassIs(t: Tables, omp: Option<Omp>, key: string)
    ensures var source := exists b :: b in t.builtins && b.sourceKey == Some(key);
            var owned := omp.Some? && key in omp.value.ownsSnapshotKeys;
            ClassOfKey(t, omp, key) ==
              if source then IsSourceKey else if key in t.dedupe then IsDeduped else if owned then IsOmpOwned
              else if !IdText(key) then FailsIdPattern else IsBreadth
  {
    IdTextIs(key);
  }

  /** A record is there already, else has no key variable, else cannot be declared, else is a new row. */
  lemma RecordClassIs(catalog: set<string>, covered: set<string>, omp: Omp, r: OmpRecord)
    ensures ClassOfItem(catalog, covered, omp, RecordItem(r)) ==
              if r.id in catalog then AlreadyPresent else if Text.AllWhite(r.env) then NonModel
              else if !IdText(r.id) || !KnownProtocol(r.api)
                || !OnlyAccountId(r.baseUrl) then NotMaterializable else NewRow
  {
    hide IdText, ProviderId, OnlyAccountId, PlaceholdersAllowed;
    IdTextIs(r.id);
    BlankIs(r.env);
    OnlyAccountIdIs(r.baseUrl);
  }

  lemma BlankIs(s: string)
    ensures Blank(s) <==> Text.AllWhite(s)
  {
    hide Text.White;
    var a, b := Text.TrimShape(s);
    if Text.AllWhite(s) {
      Text.AllWhiteTrims(s);
    }
  }

  /** A provider without records is covered, or aliased to one that is, or excluded for a reason, or stops the build. */
  lemma BareClassIs(catalog: set<string>, covered: set<string>, omp: Omp, id: string)
    ensures ClassOfItem(catalog, covered, omp, ProviderItem(id)) ==
            if id in covered then AlreadyPresent
            else if id in omp.alias.Keys then (if omp.alias[id] in covered then AliasSkip else Refused)
            else if id in omp.nonModel then NonModel
            else if id in omp.oauthOrDeviceCode || id in omp.notMaterializable.Keys then NotMaterializable
            else Refused
  {
  }

  /** A record belongs to the provider it names, or to the one it is. */
  lemma OwnerIs(r: OmpRecord, provider: string)
    ensures OwnerOf(r) == provider <==>
            r.sourceProviderId == Some(provider) || (r.sourceProviderId.None? && r.id == provider)
  {
  }

  // ----- order -----

  /** Each audit list is in the order of the snapshot: what more keys add comes behind. */
  lemma {:induction false} KeysAsMet(t: Tables, omp: Option<Omp>, keys: seq<string>, more: seq<string>, c: KeyClass)
    ensures KeysOf(t, omp, keys, c) <= KeysOf(t, omp, keys + more, c)
  {
    if more == [] {
      assert keys + more == keys;
    } else {
      assert (keys + more)[..|keys + more| - 1] == keys + more[..|more| - 1];
      KeysAsMet(t, omp, keys, more[..|more| - 1], c);
    }
  }

  /** A provider's records are in the order of the file. */
  lemma {:induction false} RecordsAsListed(records: seq<OmpRecord>, more: seq<OmpRecord>, provider: string)
    ensures RecordsOf(records, provider) <= RecordsOf(records + more, provider)
  {
    if more == [] {
      assert records + more == records;
    } else {
      assert (records + more)[..|records + more| - 1] == records + more[..|more| - 1];
      RecordsAsListed(records, more[..|more| - 1], provider);
    }
  }

  /** The providers are walked in the order of the file, each one's records together. */
  lemma {:induction false} ItemsAsWalked(omp: Omp, providers: seq<string>, more: seq<string>)
    ensures ItemsOf(omp, providers) <= ItemsOf(omp, providers + more)
  {
    if more == [] {
      assert providers + more == providers;
    } else {
      assert (providers + more)[..|providers + more| - 1] == providers + more[..|more| - 1];
      ItemsAsWalked(omp, providers, more[..|more| - 1]);
    }
  }

  /** And each audit list of the union is in the order of the walk. */
  lemma {:induction false} ItemsAsMet(catalog: set<string>, covered: set<string>, omp: Omp, items: seq<Item>,
      more: seq<Item>,
      c: ItemClass)
    ensures ItemsIn(catalog, covered, omp, items, c) <= ItemsIn(catalog, covered, omp, items + more, c)
  {
    hide ClassAt;
    if more == [] {
      assert items + more == items;
    } else {
      assert (items + more)[..|items + more| - 1] == items + more[..|more| - 1];
      ItemsAsMet(catalog, covered, omp, items, more[..|more| - 1], c);
    }
  }

  // ----- rows -----

  /** A builtin's row: the table's own fields, its base URL and page unless the source's stand in, and the first of the
      source's models. */
  lemma BuiltinShips(t: Tables, snapshot: seq<Entry>, omp: Option<Omp>, catalog: CatalogMap, b: BuiltinSpec)
    requires RowsHeld(t, snapshot, omp, catalog) && b in t.builtins
    ensures b.id in catalog
    ensures var row, source := catalog[b.id], SourceOf(snapshot, b);
            && row.tier.Builtin? && row.display == b.display && row.envName == Some(b.envName) && row.api == b.api
            && (b.baseUrl.Some? ==> row.baseUrl == b.baseUrl.value) && (b.doc.Some? ==> row.doc == b.doc.value)
            && (source.None? ==>
                  && row.models == [] && (b.baseUrl.None? ==> row.baseUrl.None?) && (b.doc.None? ==> row.doc.None?))
            && (source.Some? ==>
                  && (b.baseUrl.None? ==> row.baseUrl == source.value.api)
                  && (b.doc.None? ==> row.doc == source.value.doc) && row.models <= source.value.modelIds
                  && (b.modelCount.None? ==> row.models == source.value.modelIds)
                  && (b.modelCount.Some? ==> |row.models| <= b.modelCount.value)
                  && (b.modelCount.Some? && |row.models| < b.modelCount.value ==> row.models == source.value.modelIds))
  {
  }

  /** The source of a builtin is the snapshot's entry under its source key, and it has none without such a key. */
  lemma SourceIs(snapshot: seq<Entry>, b: BuiltinSpec, e: Entry)
    requires Distinct(Keys(snapshot)) && e in snapshot
    ensures b.sourceKey == Some(e.key) ==> SourceOf(snapshot, b) == Some(e.provider)
    ensures b.sourceKey.None? ==> SourceOf(snapshot, b).None?
  {
    FindsEntry(snapshot, e);
  }

  lemma {:induction false} FindsEntry(snapshot: seq<Entry>, e: Entry)
    requires Distinct(Keys(snapshot)) && e in snapshot
    ensures Find(snapshot, e.key) == Some(e.provider)
  {
    if snapshot[0] != e {
      var i :| 0 <= i < |snapshot| && snapshot[i] == e;
      assert Keys(snapshot)[0] != Keys(snapshot)[i];
      assert Keys(snapshot[1..]) == Keys(snapshot)[1..];
      assert e in snapshot[1..] by {
        assert snapshot[1..][i - 1] == e;
      }
      FindsEntry(snapshot[1..], e);
    }
  }

  /** A snapshot provider's row: a template with the snapshot's own fields and the default protocol. */
  lemma BreadthShips(t: Tables, snapshot: seq<Entry>, omp: Option<Omp>, catalog: CatalogMap, e: Entry)
    requires RowsHeld(t, snapshot, omp, catalog) && e in snapshot && InBreadth(t, omp, e)
    ensures e.key in catalog
    ensures var row := catalog[e.key];
            && row.tier.Template? && row.display == e.provider.name && row.envName.None?
            && row.baseUrl == e.provider.api
            && row.api == Some("openai-completions") && row.models == e.provider.modelIds && row.doc == e.provider.doc
  {
  }

  /** A new record's row: a template with the record's own fields and no page. */
  lemma RecordShips(t: Tables, snapshot: seq<Entry>, omp: Omp, catalog: CatalogMap, r: OmpRecord)
    requires RowsHeld(t, snapshot, Some(omp), catalog) && RecordItem(r) in UnionClass(t, snapshot, omp, NewRow)
    ensures r.id in catalog
    ensures var row := catalog[r.id];
            && row.tier.Template? && row.display == r.display && row.envName.None? && row.baseUrl == r.baseUrl
            && row.api == Some(r.api) && row.models == r.models && row.doc.None?
  {
  }
}
