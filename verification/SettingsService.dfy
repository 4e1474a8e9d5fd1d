/** The service over the store: each request as the calls it makes, proved to be the one
    transaction, or the one read, that the rest of the model reasons about. */
module SettingsServices {
  import opened Core
  import opened Dicts
  import opened SettingTypes
  import opened Catalogue
  import opened Resolution
  import opened EntityTags
  import opened Tables
  import opened Store
  import opened Service
  import opened Server
  import opened Exports

  class SettingsService {
    const store: SqlSettingsStore
    const site: Site

    constructor (store: SqlSettingsStore, site: Site)
      requires WellFormed(site.lib, site.catalogue) && Has(site.catalogue, COMMON)
      ensures this.store == store && this.site == site && Started()
    {
      this.store, this.site := store, site;
    }

    ghost predicate Started() { WellFormed(site.lib, site.catalogue) && Has(site.catalogue, COMMON) }

    // -- Writes --------------------------------------------------------------------------------

    method SetSetting(who: Identity, namespace: string, key: string, v: Value, profile: Option<string>, now: int,
                      ifRevision: Option<nat>)
      returns (r: Result<Applied, ServiceError>)
      modifies store.connection
      ensures (store.connection.Now(), r)
           == Serve(old(store.connection.Now()), site, who, SetRequest(namespace, key, v, profile), now, ifRevision)
    {
      var named := NormaliseProfile(profile);
      if named.Err? {
        return Err(named.error);
      }
      var d := Definition(site, who, namespace, key);
      if d.Err? {
        return Err(d.error);
      }
      var change := ChangeFor(site, who, d.value, v, named.value);
      if change.Err? {
        return Err(change.error);
      }
      r := Apply(who, [change.value], Action.SetSetting, now, ifRevision);
    }

    method Update(who: Identity, document: Document, profile: Option<string>, now: int, ifRevision: Option<nat>)
      returns (r: Result<Applied, ServiceError>)
      modifies store.connection
      ensures (store.connection.Now(), r)
           == Serve(old(store.connection.Now()), site, who, UpdateRequest(document, profile), now, ifRevision)
    {
      var named := NormaliseProfile(profile);
      if named.Err? {
        return Err(named.error);
      }
      var changes := ChangesFor(site, who, document, named.value);
      if changes.Err? {
        return Err(changes.error);
      }
      r := Apply(who, changes.value, Action.Update, now, ifRevision);
    }

    method ImportDocument(who: Identity, document: Document, profiles: Dict<string, Document>, version: int, now: int,
                          ifRevision: Option<nat>)
      returns (r: Result<Applied, ServiceError>)
      modifies store.connection
      ensures (store.connection.Now(), r)
           == Serve(old(store.connection.Now()), site, who, ImportRequest(document, profiles, version), now, ifRevision)
    {
      var changes := ImportChanges(site, who, document, profiles, version);
      if changes.Err? {
        return Err(changes.error);
      }
      r := Apply(who, changes.value, Import, now, ifRevision);
    }

    method ResetSetting(who: Identity, namespace: string, key: string, profile: Option<string>, now: int,
                        ifRevision: Option<nat>)
      returns (r: Result<Applied, ServiceError>)
      modifies store.connection
      ensures (store.connection.Now(), r)
           == Serve(old(store.connection.Now()), site, who, ResetRequest(namespace, key, profile), now, ifRevision)
    {
      var named := NormaliseProfile(profile);
      if named.Err? {
        return Err(named.error);
      }
      var d := Definition(site, who, namespace, key);
      if d.Err? {
        return Err(d.error);
      }
      var refusal := WriteRefusal(site, who, d.value);
      if refusal.Some? {
        return Err(refusal.value);
      }
      var column := StorageProfile(d.value, named.value);
      if column.Err? {
        return Err(column.error);
      }
      r := Apply(who, [Change(d.value.Named(), Null, true, column.value)], Action.ResetSetting, now, ifRevision);
    }

    method ResetNamespace(who: Identity, namespace: string, profile: Option<string>, now: int, ifRevision: Option<nat>)
      returns (r: Result<Applied, ServiceError>)
      modifies store.connection
      ensures (store.connection.Now(), r)
           == Serve(old(store.connection.Now()), site, who, ResetAllRequest(namespace, profile), now, ifRevision)
    {
      var named := NormaliseProfile(profile);
      if named.Err? {
        return Err(named.error);
      }
      var refusal := Permit(site, who, namespace);
      if refusal.Some? {
        return Err(refusal.value);
      }
      var live := Live(Get(site.catalogue, namespace).value);
      var changes := if named.value.None? then Resets(site, who, live, AccountScope, ACCOUNT_PROFILE)
                     else Resets(site, who, live, ProfileScope, named.value.value);
      r := Apply(who, changes, Action.ResetNamespace, now, ifRevision);
    }

    method Forget(who: Identity) returns (removed: nat)
      modifies store.connection
      ensures store.connection.Now() == ForgetTx(old(store.connection.Now()), who.account)
      ensures Next(site, old(store.connection.Now()), Forgot(who.account), store.connection.Now())
      ensures removed == |set id | id in old(store.connection.settings) && id.account == who.account|
    {
      removed := store.Forget(who.account);
    }

    /** `_apply`. */
    method Apply(who: Identity, changes: seq<Change>, action: Action, now: int, ifRevision: Option<nat>)
      returns (r: Result<Applied, ServiceError>)
      modifies store.connection
      ensures var w := Write(who.account, changes, now, action, who.Actor(), who.service, site.maxEvents, ifRevision);
        && store.connection.Now() == ApplyTx(old(store.connection.Now()), w).0
        && var applied := ApplyTx(old(store.connection.Now()), w).1;
           r == if applied.Err? then Err(ServiceError.Refused(applied.error)) else Ok(applied.value)
    {
      var applied := store.Apply(Write(who.account, changes, now, action, who.Actor(),
                                     who.service, site.maxEvents, ifRevision));
      r := if applied.Err? then Err(ServiceError.Refused(applied.error)) else Ok(applied.value);
    }

    // -- Reads ------------------------------------------------------------------------------------

    /** The account's rows as the query lists them. */
    method ReadRows(account: string) returns (listing: Dict<RowKey, Row>)
      ensures ListsRows(listing, RowsOf(store.connection.settings, account))
    {
      var rows := RowsOf(store.connection.settings, account);
      listing := [];
      var left := rows.Keys;
      while left != {}
        invariant left <= rows.Keys && Unique(listing)
        invariant forall k, row :: (k, row) in listing <==> k in rows && k !in left && rows[k] == row
        decreases left
      {
        var k :| k in left;
        assert forall i | 0 <= i < |listing| :: (listing[i].0, listing[i].1) in listing;
        left, listing := left - {k}, listing + [(k, rows[k])];
      }
    }

    method Resolve(who: Identity, namespace: string, profile: Option<string>) returns (r: Result<Served, ServiceError>)
      requires Started()
      ensures r == ResolveFor(site, store.connection.Now(), who, namespace, profile)
    {
      var named := NormaliseProfile(profile);
      if named.Err? {
        return Err(named.error);
      }
      var refusal := Permit(site, who, namespace);
      if refusal.Some? {
        return Err(refusal.value);
      }
      var listing := ReadRows(who.account);
      var stored := StoredFor(site, listing, named.value, RowsOf(store.connection.settings, who.account));
      var revision := RevisionOf(store.connection.Now(), who.account);
      return Ok(Served(ResolveForService(site, namespace, stored), revision, ETag(who.account, revision)));
    }

    method ExportAccount(who: Identity) returns (r: Result<Export, ServiceError>)
      requires Started()
      ensures exists listing :: ListsRows(listing, RowsOf(store.connection.settings, who.account))
                             && r == ExportRows(site, who, listing)
    {
      var listing := ReadRows(who.account);
      r := ExportAll(site, who, listing);
    }
  }
}
