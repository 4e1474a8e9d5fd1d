/** What the service lets through to the store: every change of every accepted request, entry by
    entry of the document it came from. */
module Plans {
  import opened Core
  import opened Dicts
  import opened SettingTypes
  import opened Catalogue
  import opened Resolution
  import opened Tables
  import opened Store
  import opened Merge
  import opened Service

  /** A change the service may hand to the store: to a live setting of a granted namespace that
      this caller may write, in the column its scope says, with a value its narrowed entry
      allows. */
  ghost predicate Sanctioned(site: Site, who: Identity, c: Change) {
    var found := DefinitionFor(site.catalogue, c.name.namespace, c.name.key);
    && found.Ok?
    && c.name.namespace in who.namespaces
    && MayWrite(site, who, found.value)
    && (if found.value.scope.AccountScope? then c.profile == ACCOUNT_PROFILE else ProfileShaped(c.profile))
    && (!c.reset ==> Legal(site.lib, site.policy.DefinitionOf(found.value), c.value))
  }

  /** A document flattened in iteration order. */
  function Entries(document: Document): seq<(Name, Value)> {
    if document == [] then []
    else
      var n := |document| - 1;
      Entries(document[..n]) + Named(document[n].0, document[n].1)
  }

  function Named(namespace: string, entries: Dict<string, Value>): (r: seq<(Name, Value)>)
    ensures |r| == |entries|
  {
    seq(|entries|, i requires 0 <= i < |entries| => (Name(namespace, entries[i].0), entries[i].1))
  }

  /** The column a write to this name addresses. */
  function ColumnOf(site: Site, name: Name, profile: Option<string>): string {
    var d := DefinitionFor(site.catalogue, name.namespace, name.key);
    if d.Ok? && d.value.scope.ProfileScope? && profile.Some? then profile.value else ACCOUNT_PROFILE
  }

  function ChangeAt(site: Site, entry: (Name, Value), profile: Option<string>): Change {
    Change(entry.0, entry.1, false, ColumnOf(site, entry.0, profile))
  }

  // -- The scan of a section finds what the index finds ------------------------------------------

  lemma {:induction false} KnownByKeyIs(live: seq<SettingDef>, key: string)
    ensures key in KnownByKey(live) ==> KnownByKey(live)[key] in live && KnownByKey(live)[key].key == key
    ensures forall d | d in live :: d.key in KnownByKey(live)
  {
    if live != [] {
      var n := |live| - 1;
      KnownByKeyIs(live[..n], key);
      assert live == live[..n] + [live[n]];
    }
  }

  lemma KnownIsDefinition(site: Site, namespace: string, key: string)
    requires WellFormed(site.lib, site.catalogue)
    ensures key in KnownIn(site, namespace) <==> DefinitionFor(site.catalogue, namespace, key).Ok?
    ensures key in KnownIn(site, namespace) ==>
      DefinitionFor(site.catalogue, namespace, key) == Ok(KnownIn(site, namespace)[key])
  {
    var scan := LiveEntriesIn(site.catalogue, namespace);
    if scan.Ok? {
      KnownByKeyIs(scan.value, key);
      if key in KnownByKey(scan.value) {
        IndexAgreesWithScan(site.lib, site.catalogue, namespace, key, KnownByKey(scan.value)[key]);
      }
      var found := DefinitionFor(site.catalogue, namespace, key);
      if found.Ok? {
        IndexAgreesWithScan(site.lib, site.catalogue, namespace, key, found.value);
      }
    } else {
      var found := DefinitionFor(site.catalogue, namespace, key);
      if found.Ok? { IndexAgreesWithScan(site.lib, site.catalogue, namespace, key, found.value); }
    }
  }

  // -- Entry by entry ---------------------------------------------------------------------------

  ghost predicate PendingIs(site: Site, pending: Pending, entries: seq<(Name, Value)>) {
    && |pending| == |entries|
    && forall i | 0 <= i < |entries| ::
         && DefinitionFor(site.catalogue, entries[i].0.namespace, entries[i].0.key) == Ok(pending[i].0)
         && pending[i].1 == entries[i].1
  }

  /** Unless something was unknown, what pends is what was read. */
  ghost predicate Pends(site: Site, s: Sorted, entries: seq<(Name, Value)>) {
    s.unknown == [] ==> PendingIs(site, s.pending, entries)
  }

  lemma EntryPends(site: Site, namespace: string, key: string, v: Value, s: Sorted, entries: seq<(Name, Value)>)
    requires WellFormed(site.lib, site.catalogue) && Pends(site, s, entries)
    ensures var r := SortEntry(KnownIn(site, namespace), namespace, key, v, s);
      Pends(site, r, entries + [(Name(namespace, key), v)]) && (s.unknown != [] ==> r.unknown != [])
  {
    KnownIsDefinition(site, namespace, key);
  }

  lemma {:induction false} SectionPends(site: Site, namespace: string, entries: Dict<string, Value>, s: Sorted,
                                        done: seq<(Name, Value)>)
    requires WellFormed(site.lib, site.catalogue) && Pends(site, s, done)
    ensures var r := SortSection(KnownIn(site, namespace), namespace, entries, s);
      Pends(site, r, done + Named(namespace, entries)) && (s.unknown != [] ==> r.unknown != [])
  {
    if entries == [] {
      assert done + Named(namespace, entries) == done;
    } else {
      var n := |entries| - 1;
      var before := done + Named(namespace, entries[..n]);
      SectionPends(site, namespace, entries[..n], s, done);
      EntryPends(site, namespace, entries[n].0, entries[n].1,
                 SortSection(KnownIn(site, namespace), namespace, entries[..n], s), before);
      assert done + Named(namespace, entries) == before + [(Name(namespace, entries[n].0), entries[n].1)];
    }
  }

  lemma {:induction false} DocumentPends(site: Site, who: Identity, document: Document)
    requires WellFormed(site.lib, site.catalogue)
    requires SortDocument(site, who, document).Ok?
    ensures var s := SortDocument(site, who, document).value;
      s.unknown == [] ==> PendingIs(site, s.pending, Entries(document))
  {
    if document != [] {
      var n := |document| - 1;
      DocumentPends(site, who, document[..n]);
      var before := SortDocument(site, who, document[..n]).value;
      SectionPends(site, document[n].0, document[n].1, before, Entries(document[..n]));
    }
  }

  lemma {:induction false} DocumentGranted(site: Site, who: Identity, document: Document)
    requires SortDocument(site, who, document).Ok?
    ensures forall i | 0 <= i < |document| :: document[i].0 in who.namespaces
  {
    if document != [] {
      var n := |document| - 1;
      DocumentGranted(site, who, document[..n]);
      assert forall i | 0 <= i < n :: document[..n][i] == document[i];
    }
  }

  lemma {:induction false} ChangesPointwise(site: Site, who: Identity, pending: Pending, profile: Option<string>)
    requires ChangesOf(site, who, pending, profile).Ok?
    ensures var changes := ChangesOf(site, who, pending, profile).value;
      && |changes| == |pending|
      && forall i | 0 <= i < |pending| :: ChangeFor(site, who, pending[i].0, pending[i].1, profile) == Ok(changes[i])
  {
    if pending != [] {
      var n := |pending| - 1;
      ChangesPointwise(site, who, pending[..n], profile);
      assert forall i | 0 <= i < n :: pending[..n][i] == pending[i];
    }
  }

  lemma {:induction false} EntriesAreGranted(document: Document, i: nat)
    requires i < |Entries(document)|
    ensures exists j | 0 <= j < |document| :: document[j].0 == Entries(document)[i].0.namespace
  {
    var n := |document| - 1;
    var before := Entries(document[..n]);
    if i < |before| {
      EntriesAreGranted(document[..n], i);
      var j :| 0 <= j < n && document[..n][j].0 == before[i].0.namespace;
      assert document[j].0 == Entries(document)[i].0.namespace;
    }
  }

  lemma OneChangeIsSanctioned(site: Site, who: Identity, d: SettingDef, name: Name, v: Value, profile: Option<string>)
    requires WellFormed(site.lib, site.catalogue)
    requires DefinitionFor(site.catalogue, name.namespace, name.key) == Ok(d) && name.namespace in who.namespaces
    requires profile.Some? ==> ProfileShaped(profile.value)
    requires ChangeFor(site, who, d, v, profile).Ok?
    ensures ChangeFor(site, who, d, v, profile).value == ChangeAt(site, (name, v), profile)
    ensures Sanctioned(site, who, ChangeAt(site, (name, v), profile))
  {
    FoundEntry(site.lib, site.catalogue, name.namespace, name.key);
  }

  /** An accepted document becomes exactly one sanctioned change for each of its entries, in
      order: none is dropped, none is added and no value is altered on the way. */
  lemma DocumentBecomesItsEntries(site: Site, who: Identity, document: Document, profile: Option<string>)
    requires WellFormed(site.lib, site.catalogue)
    requires profile.Some? ==> ProfileShaped(profile.value)
    requires ChangesForSpec(site, who, document, profile).Ok?
    ensures var changes, entries := ChangesForSpec(site, who, document, profile).value, Entries(document);
      && |changes| == |entries|
      && forall i | 0 <= i < |entries| ::
           changes[i] == ChangeAt(site, entries[i], profile) && Sanctioned(site, who, changes[i])
  {
    DocumentPends(site, who, document);
    DocumentGranted(site, who, document);
    var s := SortDocument(site, who, document).value;
    ChangesPointwise(site, who, s.pending, profile);
    var entries := Entries(document);
    forall i | 0 <= i < |entries|
      ensures var change := ChangesForSpec(site, who, document, profile).value[i];
        change == ChangeAt(site, entries[i], profile) && Sanctioned(site, who, change)
    {
      EntriesAreGranted(document, i);
      OneChangeIsSanctioned(site, who, s.pending[i].0, entries[i].0, entries[i].1, profile);
    }
  }

  // -- Imports, item by item -----------------------------------------------------------------------

  datatype Item = Item(profile: Option<string>, name: Name, value: Value)

  function ItemsOf(profile: Option<string>, document: Document): (r: seq<Item>)
    ensures |r| == |Entries(document)|
  {
    var entries := Entries(document);
    seq(|entries|, i requires 0 <= i < |entries| => Item(profile, entries[i].0, entries[i].1))
  }

  function ProfileItems(profiles: Dict<string, Document>): seq<Item> {
    if profiles == [] then []
    else
      var n := |profiles| - 1;
      ProfileItems(profiles[..n]) + ItemsOf(Addressed(profiles[n].0), profiles[n].1)
  }

  /** The profile a name under `profiles` addresses; an empty name addresses none. */
  function Addressed(name: string): Option<string> { if name == "" then None else Some(name) }

  /** Everything a version 2 import asks for, in order. */
  function ImportItems(document: Document, profiles: Dict<string, Document>): seq<Item> {
    ItemsOf(None, document) + ProfileItems(profiles)
  }

  ghost predicate ChangesAre(site: Site, who: Identity, changes: seq<Change>, items: seq<Item>) {
    && |changes| == |items|
    && forall i | 0 <= i < |items| ::
         && changes[i] == ChangeAt(site, (items[i].name, items[i].value), items[i].profile)
         && Sanctioned(site, who, changes[i])
         && (items[i].profile.None? ==> changes[i].profile == ACCOUNT_PROFILE && AccountScoped(site, items[i].name))
  }

  predicate AccountScoped(site: Site, name: Name) {
    var d := DefinitionFor(site.catalogue, name.namespace, name.key);
    d.Ok? && d.value.scope.AccountScope?
  }

  lemma DocumentItems(site: Site, who: Identity, document: Document, profile: Option<string>)
    requires WellFormed(site.lib, site.catalogue)
    requires profile.Some? ==> ProfileShaped(profile.value)
    requires ChangesForSpec(site, who, document, profile).Ok?
    ensures ChangesAre(site, who, ChangesForSpec(site, who, document, profile).value, ItemsOf(profile, document))
  {
    DocumentBecomesItsEntries(site, who, document, profile);
    DocumentPends(site, who, document);
    DocumentGranted(site, who, document);
    var entries := Entries(document);
    forall i | 0 <= i < |entries| && profile.None?
      ensures AccountScoped(site, entries[i].0)
    {
      var pending := SortDocument(site, who, document).value.pending;
      assert pending[i].0.scope.AccountScope?;
    }
  }

  lemma {:induction false} ProfilesItems(site: Site, who: Identity, profiles: Dict<string, Document>)
    requires WellFormed(site.lib, site.catalogue)
    requires ProfiledChanges(site, who, profiles).Ok?
    ensures ChangesAre(site, who, ProfiledChanges(site, who, profiles).value, ProfileItems(profiles))
  {
    if profiles != [] {
      var n := |profiles| - 1;
      ProfilesItems(site, who, profiles[..n]);
      var named := NormaliseProfile(Some(profiles[n].0)).value;
      assert named == Addressed(profiles[n].0);
      DocumentItems(site, who, profiles[n].1, named);
    }
  }

  /** An accepted version 2 import becomes exactly one sanctioned change for each item. */
  lemma ImportBecomesItsItems(site: Site, who: Identity, document: Document, profiles: Dict<string, Document>)
    requires WellFormed(site.lib, site.catalogue)
    requires ImportSpec(site, who, document, profiles, 2).Ok?
    ensures ChangesAre(site, who, ImportSpec(site, who, document, profiles, 2).value, ImportItems(document, profiles))
  {
    DocumentItems(site, who, document, None);
    ProfilesItems(site, who, profiles);
    ChangesConcat(site, who, ChangesForSpec(site, who, document, None).value, ItemsOf(None, document),
                  ProfiledChanges(site, who, profiles).value, ProfileItems(profiles));
  }

  lemma ChangesConcat(site: Site, who: Identity, c: seq<Change>, i: seq<Item>, d: seq<Change>, j: seq<Item>)
    requires ChangesAre(site, who, c, i) && ChangesAre(site, who, d, j)
    ensures ChangesAre(site, who, c + d, i + j)
  {}

  lemma InChanges(site: Site, who: Identity, changes: seq<Change>, items: seq<Item>, c: Change)
    requires ChangesAre(site, who, changes, items) && c in changes
    ensures Sanctioned(site, who, c)
  {}

  /** Every change of every accepted request is sanctioned. */
  lemma PlannedChangesAreSanctioned(site: Site, who: Identity, request: Request, c: Change)
    requires WellFormed(site.lib, site.catalogue)
    requires Plan(site, who, request).Ok? && c in Plan(site, who, request).value
    ensures Sanctioned(site, who, c)
  {
    match request
    case SetRequest(namespace, key, v, profile) =>
      FoundEntry(site.lib, site.catalogue, namespace, key);
      OneChangeIsSanctioned(site, who, Definition(site, who, namespace, key).value, Name(namespace, key), v,
                            NormaliseProfile(profile).value);
    case UpdateRequest(document, profile) =>
      var named := NormaliseProfile(profile).value;
      DocumentItems(site, who, document, named);
      InChanges(site, who, Plan(site, who, request).value, ItemsOf(named, document), c);
    case ImportRequest(document, profiles, version) =>
      if version == 2 {
        ImportBecomesItsItems(site, who, document, profiles);
        InChanges(site, who, Plan(site, who, request).value, ImportItems(document, profiles), c);
      } else {
        LegacyIsSanctioned(site, who, document, c);
      }
    case ResetRequest(namespace, key, profile) =>
      FoundEntry(site.lib, site.catalogue, namespace, key);
    case ResetAllRequest(namespace, profile) =>
      ResetIsSanctioned(site, who, namespace, profile, c);
  }

  lemma LegacyIsSanctioned(site: Site, who: Identity, document: Document, c: Change)
    requires WellFormed(site.lib, site.catalogue)
    requires ImportSpec(site, who, document, [], 1).Ok? && c in ImportSpec(site, who, document, [], 1).value
    ensures Sanctioned(site, who, c)
  {
    var split := SplitSpec(site, who, document).value;
    var changes := ChangesForSpec(site, who, split.0, None).value;
    DocumentItems(site, who, split.0, None);
    if c in changes {
      InChanges(site, who, changes, ItemsOf(None, split.0), c);
    } else {
      var personal := Some(V1_PROFILE_FALLBACK);
      FallbackIsAProfile();
      DocumentItems(site, who, split.1, personal);
      InChanges(site, who, ChangesForSpec(site, who, split.1, personal).value, ItemsOf(personal, split.1), c);
    }
  }

  lemma ResetIsSanctioned(site: Site, who: Identity, namespace: string, profile: Option<string>, c: Change)
    requires WellFormed(site.lib, site.catalogue)
    requires Plan(site, who, ResetAllRequest(namespace, profile)).Ok?
    requires c in Plan(site, who, ResetAllRequest(namespace, profile)).value
    ensures Sanctioned(site, who, c)
  {
    var named := NormaliseProfile(profile).value;
    var live := Live(Get(site.catalogue, namespace).value);
    var scope := if named.None? then AccountScope else ProfileScope;
    var column := if named.None? then ACCOUNT_PROFILE else named.value;
    ResetsAre(site, who, live, scope, column, c);
    var d :| d in live && c == Change(d.Named(), Null, true, column) && d.scope == scope && MayWrite(site, who, d);
    LiveEntriesOf(site.catalogue, namespace);
    EntryFacts(site.lib, site.catalogue, d);
    IndexAgreesWithScan(site.lib, site.catalogue, namespace, d.key, d);
    FoundEntry(site.lib, site.catalogue, namespace, d.key);
  }

  lemma {:induction false} ResetsAre(site: Site, who: Identity, live: seq<SettingDef>, scope: Scope, column: string,
                                     c: Change)
    ensures c in Resets(site, who, live, scope, column) <==>
      exists d | d in live :: c == Change(d.Named(), Null, true, column) && d.scope == scope && MayWrite(site, who, d)
  {
    if live != [] {
      ResetsAre(site, who, live[1..], scope, column, c);
      assert live == [live[0]] + live[1..];
    }
  }

  // -- When no row is named twice --------------------------------------------------------------------

  /** What a parsed document is: dictionaries at both levels. */
  ghost predicate UniqueDocument(document: Document) {
    Unique(document) && forall i | 0 <= i < |document| :: Unique(document[i].1)
  }

  ghost predicate UniqueProfiles(profiles: Dict<string, Document>) {
    Unique(profiles) && forall i | 0 <= i < |profiles| :: UniqueDocument(profiles[i].1)
  }

  lemma {:induction false} EntriesAreDistinct(document: Document)
    requires UniqueDocument(document)
    ensures forall i, j | 0 <= i < j < |Entries(document)| :: Entries(document)[i].0 != Entries(document)[j].0
  {
    if document != [] {
      var n := |document| - 1;
      assert UniqueDocument(document[..n]) by {
        assert forall i | 0 <= i < n :: document[..n][i] == document[i];
      }
      EntriesAreDistinct(document[..n]);
      var before := Entries(document[..n]);
      forall i | 0 <= i < |before|
        ensures before[i].0.namespace != document[n].0
      {
        EntriesAreGranted(document[..n], i);
        var j :| 0 <= j < n && document[..n][j].0 == before[i].0.namespace;
        assert document[j].0 == before[i].0.namespace;
      }
    }
  }

  /** An item of the profiles belongs to one of them. */
  lemma {:induction false} ProfileItemOf(profiles: Dict<string, Document>, i: nat)
    requires i < |ProfileItems(profiles)|
    ensures exists m | 0 <= m < |profiles| :: ProfileItems(profiles)[i].profile == Addressed(profiles[m].0)
  {
    var n := |profiles| - 1;
    if i < |ProfileItems(profiles[..n])| {
      ProfileItemOf(profiles[..n], i);
      var m :| 0 <= m < n && ProfileItems(profiles[..n])[i].profile == Addressed(profiles[..n][m].0);
      assert profiles[m] == profiles[..n][m];
    } else {
      assert ProfileItems(profiles)[i].profile == Addressed(profiles[n].0);
    }
  }

  /** Two items of one import that name the same setting address different profiles, or neither
      addresses one. */
  lemma {:induction false} ProfileItemsDiffer(profiles: Dict<string, Document>, i: nat, j: nat)
    requires UniqueProfiles(profiles) && i < j < |ProfileItems(profiles)|
    requires ProfileItems(profiles)[i].name == ProfileItems(profiles)[j].name
    ensures ProfileItems(profiles)[i].profile != ProfileItems(profiles)[j].profile
  {
    var n := |profiles| - 1;
    var before := ProfileItems(profiles[..n]);
    assert UniqueProfiles(profiles[..n]) by {
      assert forall m | 0 <= m < n :: profiles[..n][m] == profiles[m];
    }
    if j < |before| {
      ProfileItemsDiffer(profiles[..n], i, j);
    } else if i < |before| {
      ProfileItemOf(profiles[..n], i);
      var m :| 0 <= m < n && before[i].profile == Addressed(profiles[..n][m].0);
      assert profiles[..n][m] == profiles[m];
    } else {
      EntriesAreDistinct(profiles[n].1);
    }
  }

  lemma ImportItemsDiffer(document: Document, profiles: Dict<string, Document>, i: nat, j: nat)
    requires UniqueDocument(document) && UniqueProfiles(profiles) && i < j < |ImportItems(document, profiles)|
    requires ImportItems(document, profiles)[i].name == ImportItems(document, profiles)[j].name
    ensures var items := ImportItems(document, profiles);
      items[i].profile != items[j].profile || (items[i].profile.None? && items[j].profile.None?)
  {
    var first := |Entries(document)|;
    if j < first {
      EntriesAreDistinct(document);
    } else if i >= first {
      ProfileItemsDiffer(profiles, i - first, j - first);
    }
  }

  /** No account-scoped setting occurs twice in an import, once in the account's part and again
      under a profile, say. */
  ghost predicate AccountKeysOnce(site: Site, items: seq<Item>) {
    forall i, j | 0 <= i < j < |items| && items[i].name == items[j].name :: !AccountScoped(site, items[i].name)
  }

  /** An accepted version 2 import names each row once exactly when no account-scoped setting
      occurs twice in it; the importer does not check. */
  lemma ImportNamesRowsOnceExactlyWhen(site: Site, who: Identity, document: Document, profiles: Dict<string, Document>)
    requires WellFormed(site.lib, site.catalogue)
    requires UniqueDocument(document) && UniqueProfiles(profiles)
    requires ImportSpec(site, who, document, profiles, 2).Ok?
    ensures OneChangeEach(ImportSpec(site, who, document, profiles, 2).value)
       <==> AccountKeysOnce(site, ImportItems(document, profiles))
  {
    var changes, items := ImportSpec(site, who, document, profiles, 2).value, ImportItems(document, profiles);
    ImportBecomesItsItems(site, who, document, profiles);
    forall i, j | 0 <= i < j < |items| && items[i].name == items[j].name
      ensures changes[i].Key() == changes[j].Key() <==> AccountScoped(site, items[i].name)
    {
      ImportItemsDiffer(document, profiles, i, j);
    }
  }

  /** An update names each row once. */
  lemma UpdateNamesRowsOnce(site: Site, who: Identity, document: Document, profile: Option<string>)
    requires WellFormed(site.lib, site.catalogue) && UniqueDocument(document)
    requires profile.Some? ==> ProfileShaped(profile.value)
    requires ChangesForSpec(site, who, document, profile).Ok?
    ensures OneChangeEach(ChangesForSpec(site, who, document, profile).value)
  {
    DocumentItems(site, who, document, profile);
    EntriesAreDistinct(document);
  }

  // -- Looking a setting up in a document --------------------------------------------------------

  function Lookup(document: Document, name: Name): Option<Value> {
    match Get(document, name.namespace)
    case None => None
    case Some(section) => Get(section, name.key)
  }

  lemma NamedIn(namespace: string, entries: Dict<string, Value>, name: Name, v: Value)
    requires Unique(entries)
    ensures (name, v) in Named(namespace, entries) <==> name.namespace == namespace && Get(entries, name.key) == Some(v)
  {
    GetIn(entries, name.key, v);
    if (name.key, v) in entries && name.namespace == namespace {
      var i :| 0 <= i < |entries| && entries[i] == (name.key, v);
      assert Named(namespace, entries)[i] == (name, v);
    }
    if (name, v) in Named(namespace, entries) {
      var i :| 0 <= i < |entries| && Named(namespace, entries)[i] == (name, v);
      assert entries[i] == (name.key, v);
    }
  }

  /** A document's entries are what its lookups find. */
  lemma {:induction false} EntriesAreLookups(document: Document, name: Name, v: Value)
    requires UniqueDocument(document)
    ensures (name, v) in Entries(document) <==> Lookup(document, name) == Some(v)
  {
    if document != [] {
      var n := |document| - 1;
      assert UniqueDocument(document[..n]) by {
        assert forall i | 0 <= i < n :: document[..n][i] == document[i];
      }
      EntriesAreLookups(document[..n], name, v);
      NamedIn(document[n].0, document[n].1, name, v);
      LastGet(document, name.namespace);
    }
  }

  lemma PutInLooks(target: Document, namespace: string, key: string, v: Value, q: Name)
    ensures Lookup(PutIn(target, namespace, key, v), q)
         == if q == Name(namespace, key) then Some(v) else Lookup(target, q)
  {
    var section := if Has(target, namespace) then Get(target, namespace).value else [];
    PutGets(section, key, v, q.key);
    PutGets(target, namespace, Put(section, key, v), q.namespace);
  }

  lemma PutInKeepsUnique(target: Document, namespace: string, key: string, v: Value)
    requires UniqueDocument(target)
    ensures UniqueDocument(PutIn(target, namespace, key, v))
  {
    var section := if Has(target, namespace) then Get(target, namespace).value else [];
    if Has(target, namespace) {
      var i :| 0 <= i < |target| && target[i] == (namespace, section);
    }
    PutKeepsUnique(section, key, v);
    PutKeepsUnique(target, namespace, Put(section, key, v));
    PutHolds(target, namespace, Put(section, key, v));
    var r := PutIn(target, namespace, key, v);
    forall i | 0 <= i < |r|
      ensures Unique(r[i].1)
    {
      assert r[i] in r;
      if r[i] in target {
        var j :| 0 <= j < |target| && target[j] == r[i];
      }
    }
  }

  /** After an assignment every entry is an old one or the new one. */
  lemma {:induction false} PutHolds<V>(d: Dict<string, V>, k: string, v: V)
    ensures forall e | e in Put(d, k, v) :: e in d || e == (k, v)
  {
    if d != [] {
      PutHolds(d[1..], k, v);
      assert d == [d[0]] + d[1..];
    }
  }

  // -- Version 1 ------------------------------------------------------------------------------------

  /** What the split of a legacy document keeps as it goes: each half is a document holding
      settings of one scope, and together they hold what has been read. */
  ghost predicate SplitsInto(site: Site, s: Legacy, read: Document) {
    && UniqueDocument(s.account) && UniqueDocument(s.profiled)
    && forall q ::
         && Lookup(s.account, q) == (if AccountScoped(site, q) then Lookup(read, q) else None)
         && Lookup(s.profiled, q) == (if AccountScoped(site, q) then None else Lookup(read, q))
  }

  lemma {:induction false} SectionSplits(site: Site, namespace: string, entries: Dict<string, Value>, s: Legacy,
                                         document: Document)
    requires WellFormed(site.lib, site.catalogue) && UniqueDocument(document + [(namespace, entries)])
    requires SplitsInto(site, s, document)
    ensures var r := SplitSection(KnownIn(site, namespace), namespace, entries, s);
      && (s.unknown != [] ==> r.unknown != [])
      && (r.unknown == [] ==> SplitsInto(site, r, document + [(namespace, entries)]))
  {
    if entries == [] {
      forall q { ReadingOn(document, namespace, entries, q); }
    } else {
      var n := |entries| - 1;
      Shorter(document, namespace, entries);
      SectionSplits(site, namespace, entries[..n], s, document);
      EntrySplits(site, namespace, entries, SplitSection(KnownIn(site, namespace), namespace, entries[..n], s),
                  document);
    }
  }

  lemma Shorter(document: Document, namespace: string, entries: Dict<string, Value>)
    requires UniqueDocument(document + [(namespace, entries)]) && entries != []
    ensures UniqueDocument(document + [(namespace, entries[..|entries| - 1])])
  {
    var n := |entries| - 1;
    var longer, shorter := document + [(namespace, entries)], document + [(namespace, entries[..n])];
    assert longer[|document|] == (namespace, entries);
    assert forall i | 0 <= i < |longer| :: longer[i].0 == shorter[i].0;
    assert forall i | 0 <= i < |document| :: longer[i] == shorter[i];
  }

  lemma ReadingOn(document: Document, namespace: string, entries: Dict<string, Value>, q: Name)
    requires UniqueDocument(document + [(namespace, entries)])
    ensures Lookup(document + [(namespace, entries)], q)
         == if q.namespace == namespace then Get(entries, q.key) else Lookup(document, q)
    ensures q.namespace == namespace ==> Lookup(document, q) == None
  {
    var read := document + [(namespace, entries)];
    assert read[..|read| - 1] == document;
    LastGet(read, q.namespace);
  }

  lemma EntrySplits(site: Site, namespace: string, entries: Dict<string, Value>, s: Legacy, document: Document)
    requires WellFormed(site.lib, site.catalogue) && UniqueDocument(document + [(namespace, entries)]) && entries != []
    requires s.unknown == [] ==> SplitsInto(site, s, document + [(namespace, entries[..|entries| - 1])])
    ensures var last := entries[|entries| - 1];
      var r := SplitEntry(KnownIn(site, namespace), namespace, last.0, last.1, s);
      && (s.unknown != [] ==> r.unknown != [])
      && (r.unknown == [] ==> SplitsInto(site, r, document + [(namespace, entries)]))
  {
    var n := |entries| - 1;
    var key, v := entries[n].0, entries[n].1;
    var r := SplitEntry(KnownIn(site, namespace), namespace, key, v, s);
    if r.unknown == [] {
      KnownIsDefinition(site, namespace, key);
      PutInKeepsUnique(s.account, namespace, key, v);
      PutInKeepsUnique(s.profiled, namespace, key, v);
      Shorter(document, namespace, entries);
      assert (document + [(namespace, entries)])[|document|] == (namespace, entries);
      forall q
        ensures Lookup(document + [(namespace, entries)], q)
             == if q == Name(namespace, key) then Some(v) else Lookup(document + [(namespace, entries[..n])], q)
        ensures Lookup(PutIn(s.account, namespace, key, v), q)
             == if q == Name(namespace, key) then Some(v) else Lookup(s.account, q)
        ensures Lookup(PutIn(s.profiled, namespace, key, v), q)
             == if q == Name(namespace, key) then Some(v) else Lookup(s.profiled, q)
      {
        PutInLooks(s.account, namespace, key, v, q);
        PutInLooks(s.profiled, namespace, key, v, q);
        ReadingOn(document, namespace, entries, q);
        ReadingOn(document, namespace, entries[..n], q);
        LastGet(entries, q.key);
      }
    }
  }

  lemma {:induction false} LegacySplits(site: Site, who: Identity, document: Document)
    requires WellFormed(site.lib, site.catalogue) && UniqueDocument(document)
    requires SplitAll(site, who, document).Ok?
    ensures var s := SplitAll(site, who, document).value; s.unknown == [] ==> SplitsInto(site, s, document)
  {
    if document != [] {
      var n := |document| - 1;
      assert UniqueDocument(document[..n]) by {
        assert forall i | 0 <= i < n :: document[..n][i] == document[i];
      }
      LegacySplits(site, who, document[..n]);
      var before := SplitAll(site, who, document[..n]).value;
      assert document == document[..n] + [(document[n].0, document[n].1)];
      if before.unknown == [] {
        SectionSplits(site, document[n].0, document[n].1, before, document[..n]);
      } else {
        UnknownStays(KnownIn(site, document[n].0), document[n].0, document[n].1, before);
      }
    }
  }

  lemma {:induction false} UnknownStays(known: map<string, SettingDef>, namespace: string, entries: Dict<string,
                                        Value>, s: Legacy)
    requires s.unknown != []
    ensures SplitSection(known, namespace, entries, s).unknown != []
  {
    if entries != [] { UnknownStays(known, namespace, entries[..|entries| - 1], s); }
  }

  /** A version 1 import names each row once. */
  lemma LegacyImportNamesRowsOnce(site: Site, who: Identity, document: Document)
    requires WellFormed(site.lib, site.catalogue) && UniqueDocument(document)
    requires ImportSpec(site, who, document, [], 1).Ok?
    ensures OneChangeEach(ImportSpec(site, who, document, [], 1).value)
  {
    LegacySplits(site, who, document);
    var split := SplitSpec(site, who, document).value;
    UpdateNamesRowsOnce(site, who, split.0, None);
    if split.1 != [] { HalvesApart(site, who, split.0, split.1); }
  }

  /** A version 1 import keeps every choice: each setting of the document becomes one change,
      in the account's column or in the fallback profile's by its scope, and there is no other. */
  lemma LegacyImportMeans(site: Site, who: Identity, document: Document, c: Change)
    requires WellFormed(site.lib, site.catalogue) && UniqueDocument(document)
    requires ImportSpec(site, who, document, [], 1).Ok?
    ensures c in ImportSpec(site, who, document, [], 1).value <==>
      && Lookup(document, c.name) == Some(c.value) && !c.reset
      && c.profile == if AccountScoped(site, c.name) then ACCOUNT_PROFILE else V1_PROFILE_FALLBACK
  {
    var s := SplitAll(site, who, document).value;
    var first := ChangesForSpec(site, who, s.account, None).value;
    AccountHalf(site, who, document, s, c);
    if s.profiled != [] {
      var second := ChangesForSpec(site, who, s.profiled, Some(V1_PROFILE_FALLBACK)).value;
      ProfiledHalf(site, who, document, s, c);
      assert ImportSpec(site, who, document, [], 1).value == first + second;
    } else {
      HalvesLook(site, who, document, s, c.name);
      assert Lookup(s.profiled, c.name) == None;
      assert ImportSpec(site, who, document, [], 1).value == first;
    }
  }

  lemma HalvesLook(site: Site, who: Identity, document: Document, s: Legacy, q: Name)
    requires WellFormed(site.lib, site.catalogue) && UniqueDocument(document)
    requires SplitAll(site, who, document) == Ok(s) && s.unknown == []
    ensures UniqueDocument(s.account) && UniqueDocument(s.profiled)
    ensures Lookup(s.account, q) == if AccountScoped(site, q) then Lookup(document, q) else None
    ensures Lookup(s.profiled, q) == if AccountScoped(site, q) then None else Lookup(document, q)
  {
    LegacySplits(site, who, document);
  }

  lemma AccountHalf(site: Site, who: Identity, document: Document, s: Legacy, c: Change)
    requires WellFormed(site.lib, site.catalogue) && UniqueDocument(document)
    requires SplitAll(site, who, document) == Ok(s) && s.unknown == []
    requires ChangesForSpec(site, who, s.account, None).Ok?
    ensures c in ChangesForSpec(site, who, s.account, None).value <==>
      AccountScoped(site, c.name) && Lookup(document, c.name) == Some(c.value)
      && !c.reset && c.profile == ACCOUNT_PROFILE
  {
    HalvesLook(site, who, document, s, c.name);
    HalfBecomes(site, who, s.account, None, c);
  }

  lemma FallbackIsAProfile()
    ensures ProfileShaped(V1_PROFILE_FALLBACK)
  {}

  lemma ProfiledHalf(site: Site, who: Identity, document: Document, s: Legacy, c: Change)
    requires WellFormed(site.lib, site.catalogue) && UniqueDocument(document)
    requires SplitAll(site, who, document) == Ok(s) && s.unknown == []
    requires ChangesForSpec(site, who, s.profiled, Some(V1_PROFILE_FALLBACK)).Ok?
    ensures c in ChangesForSpec(site, who, s.profiled, Some(V1_PROFILE_FALLBACK)).value <==>
      !AccountScoped(site, c.name) && Lookup(document, c.name) == Some(c.value)
      && !c.reset && c.profile == V1_PROFILE_FALLBACK
  {
    HalvesLook(site, who, document, s, c.name);
    FallbackIsAProfile();
    ProfileScopedBecomes(site, who, s.profiled, V1_PROFILE_FALLBACK, c);
  }

  /** Under a profile, what is not account-scoped goes to that profile's column. */
  lemma ProfileScopedBecomes(site: Site, who: Identity, half: Document, profile: string, c: Change)
    requires WellFormed(site.lib, site.catalogue) && UniqueDocument(half) && ProfileShaped(profile)
    requires ChangesForSpec(site, who, half, Some(profile)).Ok?
    requires Lookup(half, c.name).Some? ==> !AccountScoped(site, c.name)
    ensures c in ChangesForSpec(site, who, half, Some(profile)).value <==>
      Lookup(half, c.name) == Some(c.value) && !c.reset && c.profile == profile
  {
    HalfBecomes(site, who, half, Some(profile), c);
    if Lookup(half, c.name).Some? {
      var held := ChangeAt(site, (c.name, Lookup(half, c.name).value), Some(profile));
      HalfBecomes(site, who, half, Some(profile), held);
      DocumentItems(site, who, half, Some(profile));
      InChanges(site, who, ChangesForSpec(site, who, half, Some(profile)).value, ItemsOf(Some(profile), half), held);
    }
  }

  lemma HalvesApart(site: Site, who: Identity, account: Document, profiled: Document)
    requires WellFormed(site.lib, site.catalogue) && UniqueDocument(account) && UniqueDocument(profiled)
    requires ChangesForSpec(site, who, account, None).Ok?
    requires ChangesForSpec(site, who, profiled, Some(V1_PROFILE_FALLBACK)).Ok?
    requires forall q :: Lookup(profiled, q).Some? ==> !AccountScoped(site, q)
    ensures OneChangeEach(ChangesForSpec(site, who, account, None).value
                        + ChangesForSpec(site, who, profiled, Some(V1_PROFILE_FALLBACK)).value)
  {
    var first := ChangesForSpec(site, who, account, None).value;
    var second := ChangesForSpec(site, who, profiled, Some(V1_PROFILE_FALLBACK)).value;
    UpdateNamesRowsOnce(site, who, account, None);
    UpdateNamesRowsOnce(site, who, profiled, Some(V1_PROFILE_FALLBACK));
    forall i, j | 0 <= i < |first| && 0 <= j < |second|
      ensures first[i].name != second[j].name
    {
      HalfBecomes(site, who, account, None, first[i]);
      HalfBecomes(site, who, profiled, Some(V1_PROFILE_FALLBACK), second[j]);
    }
    assert forall i | 0 <= i < |first| :: (first + second)[i] == first[i];
    assert forall j | 0 <= j < |second| :: (first + second)[|first| + j] == second[j];
  }

  lemma HalfBecomes(site: Site, who: Identity, half: Document, profile: Option<string>, c: Change)
    requires WellFormed(site.lib, site.catalogue) && UniqueDocument(half)
    requires profile.Some? ==> ProfileShaped(profile.value)
    requires ChangesForSpec(site, who, half, profile).Ok?
    ensures OneChangeEach(ChangesForSpec(site, who, half, profile).value)
    ensures c in ChangesForSpec(site, who, half, profile).value <==>
      Lookup(half, c.name) == Some(c.value) && c == ChangeAt(site, (c.name, c.value), profile)
    ensures profile.None? && c in ChangesForSpec(site, who, half, profile).value ==> AccountScoped(site, c.name)
  {
    UpdateNamesRowsOnce(site, who, half, profile);
    DocumentItems(site, who, half, profile);
    var changes, entries := ChangesForSpec(site, who, half, profile).value, Entries(half);
    EntriesAreLookups(half, c.name, c.value);
    if c in changes {
      var i :| 0 <= i < |changes| && changes[i] == c;
      assert entries[i] == (c.name, c.value);
    }
    if (c.name, c.value) in entries && c == ChangeAt(site, (c.name, c.value), profile) {
      var i :| 0 <= i < |entries| && entries[i] == (c.name, c.value);
      assert changes[i] == c;
    }
  }
}
