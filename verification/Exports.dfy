/** Export: everything one account has chosen, as a portable document. */
module Exports {
  import opened Core
  import opened Dicts
  import opened SettingTypes
  import opened Catalogue
  import opened Resolution
  import opened Tables
  import opened Service
  import opened Plans

  const EXPORT_VERSION := 2

  /** Account-scoped choices apart from each profile's. */
  datatype Export = Export(settings: Document, profiles: Dict<string, Document>)

  /** `profiles.setdefault(profile, {}).setdefault(namespace, {})[key] = value`. */
  function PutUnder(profiles: Dict<string, Document>, profile: string, name: Name, v: Value): Dict<string, Document> {
    var document := if Has(profiles, profile) then Get(profiles, profile).value else [];
    Put(profiles, profile, PutIn(document, name.namespace, name.key, v))
  }

  /** `_is_live`, once the namespace is known. */
  predicate IsLive(live: seq<SettingDef>, key: string) { exists d | d in live :: d.key == key }

  /** One row: skipped unless granted, live and in the column its scope says; a granted row of a
      namespace this build lacks raises. */
  function ExportRow(site: Site, who: Identity, k: RowKey, v: Value, e: Export): Result<Export, ServiceError>
    requires WellFormed(site.lib, site.catalogue)
  {
    if k.name.namespace !in who.namespaces then Ok(e)
    else
      match LiveEntriesIn(site.catalogue, k.name.namespace)
      case Err(_) => Err(NoSuchNamespace)
      case Ok(live) =>
        if !IsLive(live, k.name.key) then Ok(e)
        else
          LiveIsIndexed(site, k.name);
          var d := Index(site.catalogue)[k.name.Qualified()];
          if d.scope.AccountScope? then
            Ok(if k.profile == ACCOUNT_PROFILE then
               e.(settings := PutIn(e.settings, k.name.namespace, k.name.key, v)) else e)
          else
            Ok(if k.profile == ACCOUNT_PROFILE then e else e.(profiles := PutUnder(e.profiles, k.profile, k.name, v)))
  }

  lemma LiveIsIndexed(site: Site, name: Name)
    requires WellFormed(site.lib, site.catalogue)
    requires LiveEntriesIn(site.catalogue, name.namespace).Ok?
    ensures var live := LiveEntriesIn(site.catalogue, name.namespace).value;
      IsLive(live, name.key) <==> DefinitionFor(site.catalogue, name.namespace, name.key).Ok?
    ensures IsLive(LiveEntriesIn(site.catalogue, name.namespace).value, name.key) ==>
      && name.Qualified() in Index(site.catalogue)
      && DefinitionFor(site.catalogue, name.namespace, name.key) == Ok(Index(site.catalogue)[name.Qualified()])
  {
    var live := LiveEntriesIn(site.catalogue, name.namespace).value;
    if IsLive(live, name.key) {
      var d :| d in live && d.key == name.key;
      IndexAgreesWithScan(site.lib, site.catalogue, name.namespace, name.key, d);
    }
    var found := DefinitionFor(site.catalogue, name.namespace, name.key);
    if found.Ok? {
      IndexAgreesWithScan(site.lib, site.catalogue, name.namespace, name.key, found.value);
    }
  }

  function ExportRows(site: Site, who: Identity, listing: Dict<RowKey, Row>): Result<Export, ServiceError>
    requires WellFormed(site.lib, site.catalogue)
  {
    if listing == [] then Ok(Export([], []))
    else
      var n := |listing| - 1;
      var before := ExportRows(site, who, listing[..n]);
      if before.Err? then before else ExportRow(site, who, listing[n].0, listing[n].1.value, before.value)
  }

  /** `export`; `listing` is the order in which the rows were read. */
  method ExportAll(site: Site, who: Identity, listing: Dict<RowKey, Row>) returns (r: Result<Export, ServiceError>)
    requires WellFormed(site.lib, site.catalogue)
    ensures r == ExportRows(site, who, listing)
  {
    var e := Export([], []);
    for n := 0 to |listing|
      invariant ExportRows(site, who, listing[..n]) == Ok(e)
    {
      assert listing[..n + 1][..n] == listing[..n];
      FirstRowDecides(site, who, listing, n + 1);
      var after := ExportRow(site, who, listing[n].0, listing[n].1.value, e);
      if after.Err? {
        return after;
      }
      e := after.value;
    }
    assert listing[..|listing|] == listing;
    return Ok(e);
  }

  lemma {:induction false} FirstRowDecides(site: Site, who: Identity, listing: Dict<RowKey, Row>, k: nat)
    requires WellFormed(site.lib, site.catalogue) && k <= |listing|
    ensures var r := ExportRows(site, who, listing[..k]);
      r.Err? ==> ExportRows(site, who, listing) == r
    decreases |listing| - k
  {
    if k == |listing| {
      assert listing[..k] == listing;
    } else {
      assert listing[..k + 1][..k] == listing[..k];
      FirstRowDecides(site, who, listing, k + 1);
    }
  }

  // -- What an export holds ---------------------------------------------------------------------

  /** A row an export carries: granted, live, and in the column its scope says. */
  predicate Portable(site: Site, who: Identity, k: RowKey) {
    var d := DefinitionFor(site.catalogue, k.name.namespace, k.name.key);
    k.name.namespace in who.namespaces && d.Ok? && (d.value.scope.AccountScope? <==> k.profile == ACCOUNT_PROFILE)
  }

  function Under(profiles: Dict<string, Document>, profile: string): Document {
    match Get(profiles, profile)
    case None => []
    case Some(document) => document
  }

  /** What an export says about one row. */
  function Exported(e: Export, k: RowKey): Option<Value> {
    if k.profile == ACCOUNT_PROFILE then Lookup(e.settings, k.name) else Lookup(Under(e.profiles, k.profile), k.name)
  }

  /** Dictionaries throughout, no empty section, and nothing under the account's own column. */
  ghost predicate Tidy(e: Export) {
    && UniqueDocument(e.settings) && Filled(e.settings)
    && UniqueProfiles(e.profiles) && !Has(e.profiles, ACCOUNT_PROFILE)
    && forall i | 0 <= i < |e.profiles| :: e.profiles[i].1 != [] && Filled(e.profiles[i].1)
  }

  ghost predicate Filled(document: Document) { forall i | 0 <= i < |document| :: document[i].1 != [] }

  lemma PutInKeepsFilled(target: Document, name: Name, v: Value)
    requires UniqueDocument(target) && Filled(target)
    ensures UniqueDocument(PutIn(target, name.namespace, name.key, v))
    ensures Filled(PutIn(target, name.namespace, name.key, v))
  {
    PutInKeepsUnique(target, name.namespace, name.key, v);
    var section := if Has(target, name.namespace) then Get(target, name.namespace).value else [];
    var r := PutIn(target, name.namespace, name.key, v);
    PutHolds(target, name.namespace, Put(section, name.key, v));
    forall i | 0 <= i < |r|
      ensures r[i].1 != []
    {
      assert r[i] in r;
      if r[i] in target {
        var j :| 0 <= j < |target| && target[j] == r[i];
      }
    }
  }

  lemma PutUnderLooks(profiles: Dict<string, Document>, profile: string, name: Name, v: Value, p: string, q: Name)
    ensures Lookup(Under(PutUnder(profiles, profile, name, v), p), q)
         == if p == profile && q == name then Some(v) else Lookup(Under(profiles, p), q)
  {
    var document := Under(profiles, profile);
    PutGets(profiles, profile, PutIn(document, name.namespace, name.key, v), p);
    PutInLooks(document, name.namespace, name.key, v, q);
  }

  lemma PutUnderKeepsTidy(e: Export, profile: string, name: Name, v: Value)
    requires Tidy(e) && profile != ACCOUNT_PROFILE
    ensures Tidy(e.(profiles := PutUnder(e.profiles, profile, name, v)))
  {
    var document := Under(e.profiles, profile);
    if Has(e.profiles, profile) {
      var i :| 0 <= i < |e.profiles| && e.profiles[i] == (profile, document);
    }
    PutInKeepsFilled(document, name, v);
    var put := PutIn(document, name.namespace, name.key, v);
    PutKeepsUnique(e.profiles, profile, put);
    PutHolds(e.profiles, profile, put);
    var r := PutUnder(e.profiles, profile, name, v);
    forall i | 0 <= i < |r|
      ensures UniqueDocument(r[i].1) && r[i].1 != [] && Filled(r[i].1)
    {
      assert r[i] in r;
      if r[i] in e.profiles {
        var j :| 0 <= j < |e.profiles| && e.profiles[j] == r[i];
      }
    }
  }

  lemma ExportRowMeans(site: Site, who: Identity, k: RowKey, v: Value, e: Export, q: RowKey)
    requires WellFormed(site.lib, site.catalogue) && Tidy(e)
    requires ExportRow(site, who, k, v, e).Ok?
    ensures var r := ExportRow(site, who, k, v, e).value;
      Tidy(r) && Exported(r, q) == if q == k && Portable(site, who, k) then Some(v) else Exported(e, q)
  {
    if k.name.namespace in who.namespaces {
      LiveIsIndexed(site, k.name);
      if Portable(site, who, k) {
        if k.profile == ACCOUNT_PROFILE {
          PutInKeepsFilled(e.settings, k.name, v);
          PutInLooks(e.settings, k.name.namespace, k.name.key, v, q.name);
        } else {
          PutUnderKeepsTidy(e, k.profile, k.name, v);
          PutUnderLooks(e.profiles, k.profile, k.name, v, q.profile, q.name);
        }
      }
    }
  }

  lemma {:induction false} ExportReads(site: Site, who: Identity, listing: Dict<RowKey, Row>, q: RowKey)
    requires WellFormed(site.lib, site.catalogue) && Unique(listing)
    requires ExportRows(site, who, listing).Ok?
    ensures var r := ExportRows(site, who, listing).value;
      && Tidy(r)
      && Exported(r, q) == match Get(listing, q)
                           case None => None
                           case Some(row) => if Portable(site, who, q) then Some(row.value) else None
  {
    if listing != [] {
      var n := |listing| - 1;
      LastGet(listing, q);
      ExportReads(site, who, listing[..n], q);
      ExportRowMeans(site, who, listing[n].0, listing[n].1.value, ExportRows(site, who, listing[..n]).value, q);
    }
  }

  /** An export holds exactly the portable rows, each under its own column, however the rows were
      listed. */
  lemma ExportHolds(site: Site, who: Identity, listing: Dict<RowKey, Row>, rows: map<RowKey, Row>, q: RowKey)
    requires WellFormed(site.lib, site.catalogue) && ListsRows(listing, rows)
    requires ExportRows(site, who, listing).Ok?
    ensures var e := ExportRows(site, who, listing).value;
      Tidy(e) && Exported(e, q) == if Portable(site, who, q) then Look(rows, q) else None
  {
    ExportReads(site, who, listing, q);
    if Has(listing, q) {
      var row := Get(listing, q).value;
      assert (q, row) in listing;
    }
    if q in rows {
      assert (q, rows[q]) in listing;
    }
  }

  /** An export fails exactly when it meets a granted row of a namespace the build lacks. */
  lemma {:induction false} ExportFailsExactlyWhen(site: Site, who: Identity, listing: Dict<RowKey, Row>)
    requires WellFormed(site.lib, site.catalogue)
    ensures ExportRows(site, who, listing).Err? <==>
      exists i | 0 <= i < |listing| ::
        listing[i].0.name.namespace in who.namespaces && !Has(site.catalogue, listing[i].0.name.namespace)
  {
    if listing != [] {
      var n := |listing| - 1;
      ExportFailsExactlyWhen(site, who, listing[..n]);
      assert forall i | 0 <= i < n :: listing[..n][i] == listing[i];
    }
  }
}
