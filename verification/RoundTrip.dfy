/** Export, then import: what a restored account holds. */
module RoundTrip {
  import opened Core
  import opened Dicts
  import opened SettingTypes
  import opened Catalogue
  import opened Resolution
  import opened Tables
  import opened Store
  import opened Merge
  import opened Service
  import opened Plans
  import opened Acceptance
  import opened Server
  import opened Legality
  import opened Exports

  // -- Exports as documents to import -----------------------------------------------------------------

  ghost predicate NamedProperly(e: Export) {
    forall m | 0 <= m < |e.profiles| :: ProfileShaped(e.profiles[m].0)
  }

  /** In a document without empty sections, every section shows up among the entries. */
  lemma SectionsShow(document: Document, i: nat)
    requires UniqueDocument(document) && Filled(document) && i < |document|
    ensures exists e | e in Entries(document) :: e.0.namespace == document[i].0
  {
    var name := Name(document[i].0, document[i].1[0].0);
    var v := document[i].1[0].1;
    GetAt(document, i);
    GetAt(document[i].1, 0);
    EntriesAreLookups(document, name, v);
    assert (name, v) in Entries(document);
  }

  ghost predicate TakesAll(site: Site, who: Identity, document: Document, profiled: bool) {
    forall q, v | Lookup(document, q) == Some(v) :: Takes(site, who, q, v, profiled)
  }

  lemma TakesEntries(site: Site, who: Identity, document: Document, profiled: bool)
    requires UniqueDocument(document)
    ensures TakesAll(site, who, document, profiled) <==> AllTaken(site, who, Entries(document), profiled)
  {
    var entries := Entries(document);
    if AllTaken(site, who, entries, profiled) {
      forall q, v | Lookup(document, q) == Some(v)
        ensures Takes(site, who, q, v, profiled)
      {
        EntriesAreLookups(document, q, v);
        var i :| 0 <= i < |entries| && entries[i] == (q, v);
      }
    }
    if TakesAll(site, who, document, profiled) {
      forall i | 0 <= i < |entries|
        ensures Takes(site, who, entries[i].0, entries[i].1, profiled)
      {
        assert (entries[i].0, entries[i].1) in entries;
        EntriesAreLookups(document, entries[i].0, entries[i].1);
      }
    }
  }

  lemma FilledAccepted(site: Site, who: Identity, document: Document, profile: Option<string>)
    requires WellFormed(site.lib, site.catalogue) && UniqueDocument(document) && Filled(document)
    ensures ChangesForSpec(site, who, document, profile).Ok? <==> TakesAll(site, who, document, profile.Some?)
  {
    AcceptedExactlyWhen(site, who, document, profile);
    TakesEntries(site, who, document, profile.Some?);
    var entries := Entries(document);
    if AllTaken(site, who, entries, profile.Some?) {
      forall i | 0 <= i < |document|
        ensures Permit(site, who, document[i].0).None?
      {
        SectionsShow(document, i);
        var j :| 0 <= j < |entries| && entries[j].0.namespace == document[i].0;
        assert Takes(site, who, entries[j].0, entries[j].1, profile.Some?);
      }
    }
  }

  ghost predicate TakesExport(site: Site, who: Identity, e: Export) {
    forall k, v | Exported(e, k) == Some(v) :: Takes(site, who, k.name, v, k.profile != ACCOUNT_PROFILE)
  }

  lemma ProfileAt(e: Export, m: nat)
    requires Tidy(e) && m < |e.profiles|
    ensures e.profiles[m].0 != ACCOUNT_PROFILE && Under(e.profiles, e.profiles[m].0) == e.profiles[m].1
    ensures UniqueDocument(e.profiles[m].1) && Filled(e.profiles[m].1)
  {
    GetAt(e.profiles, m);
  }

  lemma ProfileOf(e: Export, k: RowKey) returns (m: nat)
    requires Tidy(e) && k.profile != ACCOUNT_PROFILE && Exported(e, k).Some?
    ensures m < |e.profiles| && e.profiles[m].0 == k.profile && Exported(e, k) == Lookup(e.profiles[m].1, k.name)
  {
    assert Has(e.profiles, k.profile);
    m :| 0 <= m < |e.profiles| && e.profiles[m] == (k.profile, Under(e.profiles, k.profile));
  }

  lemma TakesExportParts(site: Site, who: Identity, e: Export)
    requires Tidy(e)
    ensures TakesExport(site, who, e) <==>
      && TakesAll(site, who, e.settings, false)
      && forall m | 0 <= m < |e.profiles| :: TakesAll(site, who, e.profiles[m].1, true)
  {
    if TakesExport(site, who, e) {
      forall q, v | Lookup(e.settings, q) == Some(v)
        ensures Takes(site, who, q, v, false)
      {
        assert Exported(e, RowKey(ACCOUNT_PROFILE, q)) == Some(v);
      }
      forall m, q, v | 0 <= m < |e.profiles| && Lookup(e.profiles[m].1, q) == Some(v)
        ensures Takes(site, who, q, v, true)
      {
        ProfileAt(e, m);
        assert Exported(e, RowKey(e.profiles[m].0, q)) == Some(v);
      }
    }
    if TakesAll(site, who, e.settings, false) &&
       forall m | 0 <= m < |e.profiles| :: TakesAll(site, who, e.profiles[m].1, true) {
      forall k, v | Exported(e, k) == Some(v)
        ensures Takes(site, who, k.name, v, k.profile != ACCOUNT_PROFILE)
      {
        if k.profile != ACCOUNT_PROFILE {
          var m := ProfileOf(e, k);
          assert TakesAll(site, who, e.profiles[m].1, true);
        }
      }
    }
  }

  /** An export is accepted exactly when everything it says may be written. */
  lemma ExportAcceptedExactlyWhen(site: Site, who: Identity, e: Export)
    requires WellFormed(site.lib, site.catalogue) && Tidy(e) && NamedProperly(e)
    ensures ImportSpec(site, who, e.settings, e.profiles, EXPORT_VERSION).Ok? <==> TakesExport(site, who, e)
  {
    TakesExportParts(site, who, e);
    FilledAccepted(site, who, e.settings, None);
    ProfilesAccepted(site, who, e.profiles);
    forall m | 0 <= m < |e.profiles|
      ensures ChangesForSpec(site, who, e.profiles[m].1, Some(e.profiles[m].0)).Ok?
         <==> TakesAll(site, who, e.profiles[m].1, true)
    {
      ProfileAt(e, m);
      FilledAccepted(site, who, e.profiles[m].1, Some(e.profiles[m].0));
    }
  }

  ghost predicate InProfile(profile: string, document: Document, item: Item) {
    item.profile == Some(profile) && Lookup(document, item.name) == Some(item.value)
  }

  ghost predicate SomeProfileHas(profiles: Dict<string, Document>, item: Item) {
    exists m | 0 <= m < |profiles| :: InProfile(profiles[m].0, profiles[m].1, item)
  }

  lemma LastProfile(profiles: Dict<string, Document>, item: Item)
    requires profiles != []
    ensures var n := |profiles| - 1;
      SomeProfileHas(profiles, item) <==>
        SomeProfileHas(profiles[..n], item) || InProfile(profiles[n].0, profiles[n].1, item)
  {
    var n := |profiles| - 1;
    if SomeProfileHas(profiles[..n], item) {
      var m :| 0 <= m < n && InProfile(profiles[..n][m].0, profiles[..n][m].1, item);
      assert InProfile(profiles[m].0, profiles[m].1, item);
    }
    if m :| 0 <= m < n && InProfile(profiles[m].0, profiles[m].1, item) {
      assert InProfile(profiles[..n][m].0, profiles[..n][m].1, item);
    }
  }

  lemma {:induction false} ProfileItemsLook(profiles: Dict<string, Document>, item: Item)
    requires forall m | 0 <= m < |profiles| :: UniqueDocument(profiles[m].1) && profiles[m].0 != ""
    ensures item in ProfileItems(profiles) <==> SomeProfileHas(profiles, item)
  {
    if profiles != [] {
      var n := |profiles| - 1;
      ProfileItemsLook(profiles[..n], item);
      LastProfile(profiles, item);
      ItemsLook(Addressed(profiles[n].0), profiles[n].1, item);
    }
  }

  lemma ItemsLook(profile: Option<string>, document: Document, item: Item)
    requires UniqueDocument(document)
    ensures item in ItemsOf(profile, document) <==>
      item.profile == profile && Lookup(document, item.name) == Some(item.value)
  {
    var entries, items := Entries(document), ItemsOf(profile, document);
    EntriesAreLookups(document, item.name, item.value);
    if item in items {
      var i :| 0 <= i < |items| && items[i] == item;
      assert entries[i] == (item.name, item.value);
    }
    if item.profile == profile && (item.name, item.value) in entries {
      var i :| 0 <= i < |entries| && entries[i] == (item.name, item.value);
      assert items[i] == item;
    }
  }

  function ItemFor(k: RowKey, v: Value): Item {
    Item(if k.profile == ACCOUNT_PROFILE then None else Some(k.profile), k.name, v)
  }

  lemma ExportItems(e: Export, k: RowKey, v: Value)
    requires Tidy(e) && NamedProperly(e)
    ensures ItemFor(k, v) in ImportItems(e.settings, e.profiles) <==> Exported(e, k) == Some(v)
  {
    var item := ItemFor(k, v);
    ItemsLook(None, e.settings, item);
    ProfileItemsLook(e.profiles, item);
    forall m | 0 <= m < |e.profiles|
      ensures Under(e.profiles, e.profiles[m].0) == e.profiles[m].1
    {
      GetAt(e.profiles, m);
    }
    if k.profile != ACCOUNT_PROFILE && Exported(e, k) == Some(v) {
      assert Has(e.profiles, k.profile);
      var m :| 0 <= m < |e.profiles| && e.profiles[m] == (k.profile, Under(e.profiles, k.profile));
    }
  }

  /** Everything the export says is about a setting in the column its scope says. */
  ghost predicate Scoped(site: Site, e: Export) {
    forall k | Exported(e, k).Some? :: AccountScoped(site, k.name) <==> k.profile == ACCOUNT_PROFILE
  }

  lemma ItemIsScoped(site: Site, e: Export, item: Item)
    requires Tidy(e) && NamedProperly(e) && Scoped(site, e) && item in ImportItems(e.settings, e.profiles)
    ensures item ==
      ItemFor(RowKey(if item.profile.None? then ACCOUNT_PROFILE else item.profile.value, item.name), item.value)
    ensures AccountScoped(site, item.name) <==> item.profile.None?
  {
    ItemsLook(None, e.settings, item);
    ProfileItemsLook(e.profiles, item);
    var k := RowKey(if item.profile.None? then ACCOUNT_PROFILE else item.profile.value, item.name);
    if item.profile.Some? {
      var m :| 0 <= m < |e.profiles| && item.profile == Some(e.profiles[m].0);
      assert e.profiles[m].0 != ACCOUNT_PROFILE;
    }
    ExportItems(e, k, item.value);
  }

  lemma ItemBecomes(site: Site, who: Identity, e: Export, i: nat)
    requires WellFormed(site.lib, site.catalogue) && Tidy(e) && NamedProperly(e) && Scoped(site, e)
    requires ImportSpec(site, who, e.settings, e.profiles, EXPORT_VERSION).Ok?
    requires i < |ImportItems(e.settings, e.profiles)|
    ensures var changes := ImportSpec(site, who, e.settings, e.profiles, EXPORT_VERSION).value;
      && |changes| == |ImportItems(e.settings, e.profiles)|
      && !changes[i].reset
      && ImportItems(e.settings, e.profiles)[i] == ItemFor(changes[i].Key(), changes[i].value)
  {
    var changes, items := ImportSpec(site, who, e.settings, e.profiles, EXPORT_VERSION).value, ImportItems(e.settings,
        e.profiles);
    ImportBecomesItsItems(site, who, e.settings, e.profiles);
    assert items[i] in items;
    ItemIsScoped(site, e, items[i]);
    assert Sanctioned(site, who, changes[i]);
  }

  lemma ExportNamesRowsOnce(site: Site, who: Identity, e: Export)
    requires WellFormed(site.lib, site.catalogue) && Tidy(e) && NamedProperly(e) && Scoped(site, e)
    requires ImportSpec(site, who, e.settings, e.profiles, EXPORT_VERSION).Ok?
    ensures OneChangeEach(ImportSpec(site, who, e.settings, e.profiles, EXPORT_VERSION).value)
  {
    var items := ImportItems(e.settings, e.profiles);
    ImportNamesRowsOnceExactlyWhen(site, who, e.settings, e.profiles);
    forall i, j | 0 <= i < j < |items| && items[i].name == items[j].name
      ensures !AccountScoped(site, items[i].name)
    {
      assert items[i] in items && items[j] in items;
      ItemIsScoped(site, e, items[i]);
      ItemIsScoped(site, e, items[j]);
      if items[i].profile.None? && items[j].profile.None? { SettingsItemsFirst(e, i, j); }
    }
  }

  /** Importing an accepted export asks for exactly what it says, one change for each row. */
  lemma ExportBecomesItsRows(site: Site, who: Identity, e: Export, c: Change)
    requires WellFormed(site.lib, site.catalogue) && Tidy(e) && NamedProperly(e) && Scoped(site, e)
    requires ImportSpec(site, who, e.settings, e.profiles, EXPORT_VERSION).Ok?
    ensures c in ImportSpec(site, who, e.settings, e.profiles, EXPORT_VERSION).value <==>
      !c.reset && Exported(e, c.Key()) == Some(c.value)
  {
    var changes, items := ImportSpec(site, who, e.settings, e.profiles, EXPORT_VERSION).value, ImportItems(e.settings,
        e.profiles);
    ExportItems(e, c.Key(), c.value);
    ImportBecomesItsItems(site, who, e.settings, e.profiles);
    if c in changes {
      var i :| 0 <= i < |changes| && changes[i] == c;
      ItemBecomes(site, who, e, i);
      assert items[i] in items;
    }
    if !c.reset && Exported(e, c.Key()) == Some(c.value) {
      var i :| 0 <= i < |items| && items[i] == ItemFor(c.Key(), c.value);
      ItemBecomes(site, who, e, i);
      SameItemSameRow(changes[i].Key(), c.Key(), changes[i].value, c.value);
    }
  }

  lemma SameItemSameRow(j: RowKey, k: RowKey, v: Value, w: Value)
    requires ItemFor(j, v) == ItemFor(k, w)
    ensures j == k && v == w
  {}

  lemma SettingsItemsFirst(e: Export, i: nat, j: nat)
    requires Tidy(e) && NamedProperly(e)
    requires i < j < |ImportItems(e.settings, e.profiles)|
    requires var items := ImportItems(e.settings, e.profiles); items[i].profile.None? && items[j].profile.None?
    ensures var items := ImportItems(e.settings, e.profiles); items[i].name != items[j].name
  {
    var items := ImportItems(e.settings, e.profiles);
    var first := |Entries(e.settings)|;
    if j >= first {
      var item := ProfileItems(e.profiles)[j - first];
      assert item in ProfileItems(e.profiles);
      ProfileItemsLook(e.profiles, item);
    }
    EntriesAreDistinct(e.settings);
  }

  // -- The round trip -------------------------------------------------------------------------------

  /** An account as any run leaves it: rows in their columns, legal, and under few enough names. */
  ghost predicate Reachable(site: Site, rows: map<RowKey, Row>) {
    (forall k | k in rows :: RowOk(site, k, rows[k])) && |Profiles(rows)| <= MAX_PROFILES_PER_ACCOUNT
  }

  ghost predicate ExportOf(site: Site, who: Identity, rows: map<RowKey, Row>, e: Export)
    requires WellFormed(site.lib, site.catalogue)
  {
    exists listing :: ListsRows(listing, rows) && ExportRows(site, who, listing) == Ok(e)
  }

  lemma ExportIsProper(site: Site, who: Identity, rows: map<RowKey, Row>, e: Export)
    requires WellFormed(site.lib, site.catalogue) && Reachable(site, rows) && ExportOf(site, who, rows, e)
    ensures Tidy(e) && NamedProperly(e) && Scoped(site, e)
    ensures forall k :: Exported(e, k) == if Portable(site, who, k) then Look(rows, k) else None
  {
    var listing :| ListsRows(listing, rows) && ExportRows(site, who, listing) == Ok(e);
    forall k
      ensures Tidy(e) && Exported(e, k) == if Portable(site, who, k) then Look(rows, k) else None
    {
      ExportHolds(site, who, listing, rows, k);
    }
    assert Tidy(e) by { ExportHolds(site, who, listing, rows, RowKey("", Name("", ""))); }
    forall m | 0 <= m < |e.profiles|
      ensures ProfileShaped(e.profiles[m].0)
    {
      ProfileAt(e, m);
      var section := e.profiles[m].1[0];
      GetAt(e.profiles[m].1, 0);
      GetAt(section.1, 0);
      var k := RowKey(e.profiles[m].0, Name(section.0, section.1[0].0));
      assert Exported(e, k).Some?;
      assert RowOk(site, k, rows[k]);
    }
  }

  /** What a restore may need of the importing caller, checkable before it asks. */
  ghost predicate Restorable(site: Site, who: Identity, into: Identity, rows: map<RowKey, Row>) {
    forall k | k in rows && Portable(site, who, k) ::
      Takes(site, into, k.name, rows[k].value, k.profile != ACCOUNT_PROFILE)
  }

  function Restore(e: Export): Request { ImportRequest(e.settings, e.profiles, EXPORT_VERSION) }

  lemma RestorePlans(site: Site, who: Identity, into: Identity, rows: map<RowKey, Row>, e: Export)
    requires WellFormed(site.lib, site.catalogue) && Reachable(site, rows) && ExportOf(site, who, rows, e)
    ensures Plan(site, into, Restore(e)).Ok? <==> Restorable(site, who, into, rows)
    ensures Plan(site, into, Restore(e)).Ok? ==> OneChangeEach(Plan(site, into, Restore(e)).value)
    ensures Plan(site, into, Restore(e)).Ok? ==>
      forall c :: c in Plan(site, into, Restore(e)).value <==>
        !c.reset && Portable(site, who, c.Key()) && Look(rows, c.Key()) == Some(c.value)
  {
    ExportIsProper(site, who, rows, e);
    ExportAcceptedExactlyWhen(site, into, e);
    if Restorable(site, who, into, rows) {
      forall k, v | Exported(e, k) == Some(v)
        ensures Takes(site, into, k.name, v, k.profile != ACCOUNT_PROFILE)
      {
        assert k in rows && Portable(site, who, k);
      }
    }
    if TakesExport(site, into, e) {
      forall k | k in rows && Portable(site, who, k)
        ensures Takes(site, into, k.name, rows[k].value, k.profile != ACCOUNT_PROFILE)
      {
        assert Exported(e, k) == Some(rows[k].value);
      }
      ExportNamesRowsOnce(site, into, e);
      forall c
        ensures c in Plan(site, into, Restore(e)).value <==>
          !c.reset && Portable(site, who, c.Key()) && Look(rows, c.Key()) == Some(c.value)
      {
        ExportBecomesItsRows(site, into, e, c);
      }
    }
  }

  /** Changes that say what another account's rows hold meet no limit of the store. */
  lemma RestoreFits(site: Site, changes: seq<Change>, rows: map<RowKey, Row>, held: map<RowKey, Row>)
    requires Reachable(site, rows) && Profiles(held) <= Profiles(rows)
    requires forall c | c in changes :: Look(rows, c.Key()) == Some(c.value)
    ensures WithinCap(changes, held)
    ensures forall c | c in changes :: 1 <= |c.profile| <= 64
  {
    forall c | c in changes
      ensures 1 <= |c.profile| <= 64
      ensures c.profile != ACCOUNT_PROFILE ==> c.profile in Profiles(rows)
    {
      assert c.Key() in rows && RowOk(site, c.Key(), rows[c.Key()]);
    }
    assert Profiles(held) + Incoming(changes) <= Profiles(rows);
    SubsetSize(Profiles(held) + Incoming(changes), Profiles(rows));
  }

  lemma RestoreMerges(site: Site, who: Identity, changes: seq<Change>, rows: map<RowKey, Row>, k: RowKey)
    requires forall c :: c in changes <==>
      !c.reset && Portable(site, who, c.Key()) && Look(rows, c.Key()) == Some(c.value)
    ensures Merged(map[], changes, k) == if Portable(site, who, k) then Look(rows, k) else None
  {
    LastOnIs(changes, k);
    if Portable(site, who, k) && k in rows {
      assert Change(k.name, rows[k].value, false, k.profile) in changes;
    }
  }

  lemma RestoreCommits(site: Site, changes: seq<Change>, rows: map<RowKey, Row>, t: Tables, w: Write)
    requires Reachable(site, rows) && RowsOf(t.settings, w.account) == map[] && w.changes == changes
    requires w.ifRevision == None
    requires forall c | c in changes :: Look(rows, c.Key()) == Some(c.value)
    requires OneChangeEach(changes)
    ensures var (t', r) := ApplyTx(t, w);
      r.Ok? && forall k :: Look(RowsOf(t'.settings, w.account), k) == Merged(map[], changes, k)
  {
    assert Profiles(map[]) == {};
    RestoreFits(site, changes, rows, map[]);
    RefusedExactlyWhen(t, w);
    OneChangeEachMerges(changes, map[]);
    ApplyIsMergeExactlyWhen(t, w, ApplyTx(t, w).0, ApplyTx(t, w).1.value);
  }

  /** Importing an account's export into an account with no rows succeeds exactly when the
      importer may write each exported row, and then recreates exactly the granted, live,
      correctly scoped rows and nothing else. */
  lemma RestoreIntoEmpty(site: Site, who: Identity, into: Identity, rows: map<RowKey, Row>, e: Export, t: Tables,
                         now: int)
    requires WellFormed(site.lib, site.catalogue) && Reachable(site, rows) && ExportOf(site, who, rows, e)
    requires RowsOf(t.settings, into.account) == map[]
    ensures var (t', r) := Serve(t, site, into, Restore(e), now, None);
      && (r.Ok? <==> Restorable(site, who, into, rows))
      && (r.Ok? ==> forall k ::
            Look(RowsOf(t'.settings, into.account), k) == if Portable(site, who, k) then Look(rows, k) else None)
  {
    RestorePlans(site, who, into, rows, e);
    var plan := Plan(site, into, Restore(e));
    if plan.Ok? {
      RestoreCommits(site, plan.value, rows, t, WriteFor(site, into, Restore(e), plan.value, now, None));
      forall k { RestoreMerges(site, who, plan.value, rows, k); }
    }
  }

  /** Importing an account's export into itself changes no row, adds no event and moves no
      revision. */
  lemma RestoreIntoItself(site: Site, who: Identity, into: Identity, e: Export, t: Tables, now: int)
    requires WellFormed(site.lib, site.catalogue) && into.account == who.account
    requires Reachable(site, RowsOf(t.settings, who.account)) && ExportOf(site, who, RowsOf(t.settings, who.account), e)
    requires Restorable(site, who, into, RowsOf(t.settings, who.account))
    ensures Serve(t, site, into, Restore(e), now, None)
         == (EnsureAccount(t, who.account, now), Ok(Applied(RevisionOf(t, who.account), [])))
  {
    var rows := RowsOf(t.settings, who.account);
    RestorePlans(site, who, into, rows, e);
    var changes := Plan(site, into, Restore(e)).value;
    var w := WriteFor(site, into, Restore(e), changes, now, None);
    RestoreFits(site, changes, rows, rows);
    RefusedExactlyWhen(t, w);
    var (t', r) := ApplyTx(t, w);
    CommittedReports(t, w, t', r.value);
    NoneEffective(changes, rows);
    NothingWritten(t.settings, who.account, changes, rows, now, w.actor);
  }

  /** Rows agree on what an identity's exports carry. */
  ghost predicate AgreeOnPortable(site: Site, who: Identity, r: map<RowKey, Row>, s: map<RowKey, Row>) {
    forall k | Portable(site, who, k) :: Look(r, k) == Look(s, k)
  }

  lemma SamePicked(site: Site, who: Identity, r: map<RowKey, Row>, s: map<RowKey, Row>, d: SettingDef,
                   profile: Option<string>)
    requires AgreeOnPortable(site, who, r, s) && d.namespace in who.namespaces
    requires DefinitionFor(site.catalogue, d.namespace, d.key) == Ok(d)
    requires profile.Some? ==> profile.value != ACCOUNT_PROFILE
    ensures Picked(r, d, profile) == Picked(s, d, profile)
  {
    if d.scope.AccountScope? {
      assert Portable(site, who, RowKey(ACCOUNT_PROFILE, d.Named()));
    } else if profile.Some? {
      assert Portable(site, who, RowKey(profile.value, d.Named()));
    }
  }

  lemma SamePickedSameResolved(site: Site, r: map<RowKey, Row>, s: map<RowKey, Row>, d: SettingDef,
                               profile: Option<string>)
    requires Deployed(site) && d in EveryEntry(site.catalogue) && Picked(r, d, profile) == Picked(s, d, profile)
    ensures Resolve(d, StoredSpec(site.catalogue, r, profile), site.policy)
         == Resolve(d, StoredSpec(site.catalogue, s, profile), site.policy)
  {
    PolicyNamesKept(site);
    EntryFacts(site.lib, site.catalogue, d);
  }

  /** Rows that agree on what an export carries resolve to the same granted documents under
      every profile. */
  lemma PortableRowsDecideDocuments(site: Site, who: Identity, r: map<RowKey, Row>, s: map<RowKey, Row>,
                                    namespace: string, profile: Option<string>)
    requires Deployed(site) && AgreeOnPortable(site, who, r, s)
    requires namespace in who.namespaces && Has(site.catalogue, namespace)
    requires profile.Some? ==> profile.value != ACCOUNT_PROFILE
    ensures ResolveNamespace(site, namespace, StoredSpec(site.catalogue, r, profile))
         == ResolveNamespace(site, namespace, StoredSpec(site.catalogue, s, profile))
  {
    LiveEntriesOf(site.catalogue, namespace);
    EntriesBelong(site, namespace);
    var live := Live(Get(site.catalogue, namespace).value);
    forall i | 0 <= i < |live|
      ensures Resolve(live[i], StoredSpec(site.catalogue, r, profile), site.policy)
           == Resolve(live[i], StoredSpec(site.catalogue, s, profile), site.policy)
    {
      assert live[i] in live;
      EntryFacts(site.lib, site.catalogue, live[i]);
      SamePicked(site, who, r, s, live[i], profile);
      SamePickedSameResolved(site, r, s, live[i], profile);
    }
  }

  lemma EntriesBelong(site: Site, namespace: string)
    requires WellFormed(site.lib, site.catalogue) && Has(site.catalogue, namespace)
    ensures forall d | d in Live(Get(site.catalogue, namespace).value) :: d.namespace == namespace
  {
    var entries := Get(site.catalogue, namespace).value;
    LiveIn(entries);
    var n :| 0 <= n < |site.catalogue| && site.catalogue[n] == (namespace, entries);
    assert WellFormedNamespace(site.lib, site.catalogue[n].0, site.catalogue[n].1);
  }

  lemma PortableRowsDecideServedDocuments(site: Site, who: Identity, r: map<RowKey, Row>, s: map<RowKey, Row>,
                                          namespace: string, profile: Option<string>)
    requires Deployed(site) && AgreeOnPortable(site, who, r, s)
    requires namespace in who.namespaces && COMMON in who.namespaces && Has(site.catalogue, namespace)
    requires profile.Some? ==> profile.value != ACCOUNT_PROFILE
    ensures ResolveForService(site, namespace, StoredSpec(site.catalogue, r, profile))
         == ResolveForService(site, namespace, StoredSpec(site.catalogue, s, profile))
  {
    PortableRowsDecideDocuments(site, who, r, s, namespace, profile);
    PortableRowsDecideDocuments(site, who, r, s, COMMON, profile);
  }

  /** A restored account resolves every granted namespace, under every profile, as the exported
      one did: by itself always, and with `common` merged underneath, as a service is served it,
      where `common` was granted to the export too. */
  lemma RestoredDocumentsAreTheSame(site: Site, who: Identity, into: Identity, rows: map<RowKey, Row>, e: Export,
                                    t: Tables, now: int,
                                    namespace: string, profile: Option<string>)
    requires Deployed(site) && Reachable(site, rows) && ExportOf(site, who, rows, e)
    requires RowsOf(t.settings, into.account) == map[] && Restorable(site, who, into, rows)
    requires namespace in who.namespaces && Has(site.catalogue, namespace)
    requires profile.Some? ==> ProfileShaped(profile.value)
    ensures var restored := RowsOf(Serve(t, site, into, Restore(e), now, None).0.settings, into.account);
      && ResolveNamespace(site, namespace, StoredSpec(site.catalogue, restored, profile))
           == ResolveNamespace(site, namespace, StoredSpec(site.catalogue, rows, profile))
      && (COMMON in who.namespaces ==>
            ResolveForService(site, namespace, StoredSpec(site.catalogue, restored, profile))
              == ResolveForService(site, namespace, StoredSpec(site.catalogue, rows, profile)))
  {
    RestoreIntoEmpty(site, who, into, rows, e, t, now);
    var restored := RowsOf(Serve(t, site, into, Restore(e), now, None).0.settings, into.account);
    PortableRowsDecideDocuments(site, who, restored, rows, namespace, profile);
    if COMMON in who.namespaces { PortableRowsDecideServedDocuments(site, who, restored, rows, namespace, profile); }
  }

  // -- After any run ----------------------------------------------------------------------------------

  /** Every row is of a setting this build has. */
  ghost predicate RowsKnown(site: Site, t: Tables) {
    forall id | id in t.settings :: KnownName(site, id.key.name)
  }

  lemma NextKeepsRowsKnown(site: Site, t: Tables, h: Happening, t': Tables)
    requires WellFormed(site.lib, site.catalogue) && RowsKnown(site, t) && Next(site, t, h, t')
    ensures RowsKnown(site, t')
  {
    match h
    case Requested(who, request, now, ifRevision) =>
      ServedMeans(t, site, who, request, now, ifRevision);
      var r := Serve(t, site, who, request, now, ifRevision).1;
      if r.Ok? {
        var w := WriteFor(site, who, request, Plan(site, who, request).value, now, ifRevision);
        forall id | id in t'.settings
          ensures KnownName(site, id.key.name)
        {
          RowComesFrom(t, w, t', r.value, id);
          if !(id in t.settings && t'.settings[id] == t.settings[id]) {
            var c :| c in w.changes && !c.reset && c.Key() == id.key
              && t'.settings[id].value == c.value && |c.profile| <= 64;
            PlannedChangesAreSanctioned(site, who, request, c);
          }
        }
      }
    case Forgot(account) =>
    case Swept(name, listing, today, now) => SweepKeepsRows(t, name, listing, now, site.maxEvents);
  }

  lemma {:induction false} RowsStayKnown(site: Site, ts: seq<Tables>, hs: seq<Happening>, n: nat)
    requires WellFormed(site.lib, site.catalogue) && Run(site, ts, hs) && ts[0] == EMPTY && n <= |hs|
    ensures RowsKnown(site, ts[n])
  {
    if n > 0 {
      RowsStayKnown(site, ts, hs, n - 1);
      NextKeepsRowsKnown(site, ts[n - 1], hs[n - 1], ts[n]);
    }
  }

  /** After any run from empty tables an account is such that the round trip applies: its export
      succeeds in whatever order its rows are listed. */
  lemma RunsAreExportable(site: Site, ts: seq<Tables>, hs: seq<Happening>, n: nat, who: Identity, listing: Dict<RowKey,
                          Row>)
    requires WellFormed(site.lib, site.catalogue) && Run(site, ts, hs) && ts[0] == EMPTY && n <= |hs|
    requires ListsRows(listing, RowsOf(ts[n].settings, who.account))
    ensures Reachable(site, RowsOf(ts[n].settings, who.account))
    ensures ExportRows(site, who, listing).Ok?
    ensures ExportOf(site, who, RowsOf(ts[n].settings, who.account), ExportRows(site, who, listing).value)
  {
    var rows := RowsOf(ts[n].settings, who.account);
    EmptyIsOk(site);
    RowsStayOk(site, ts, hs, n);
    ProfilesStayBounded(site, ts, hs, n);
    RowsStayKnown(site, ts, hs, n);
    forall i | 0 <= i < |listing|
      ensures Has(site.catalogue, listing[i].0.name.namespace)
    {
      assert (listing[i].0, listing[i].1) in listing;
      assert KnownName(site, RowId(who.account, listing[i].0).key.name);
    }
    ExportFailsExactlyWhen(site, who, listing);
    forall k | k in rows
      ensures RowOk(site, k, rows[k])
    {
      assert RowId(who.account, k) in ts[n].settings;
    }
  }
}
