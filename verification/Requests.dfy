/** What every accepted request does to the rows, told from the request, the catalogue and the
    policy alone. */
module Requests {
  import opened Core
  import opened Dicts
  import opened SettingTypes
  import opened Catalogue
  import opened Resolution
  import opened Tables
  import opened Store
  import opened Merge
  import opened Service
  import opened Plans

  // -- What a request asks for --------------------------------------------------------------------

  /** The row is in the column a write of its setting under this profile addresses. */
  ghost predicate InColumn(site: Site, k: RowKey, profile: Option<string>) {
    exists d | LiveAs(site.catalogue, k.name.namespace, k.name.key, d) ::
      if d.scope.AccountScope? then k.profile == "*" else !NoProfile(profile) && k.profile == profile.value
  }

  /** The document gives this setting this value. */
  ghost predicate Holds(document: Document, name: Name, v: Value) {
    exists i | 0 <= i < |document| :: document[i].0 == name.namespace && (name.key, v) in document[i].1
  }

  ghost predicate HoldsUnder(profiles: Dict<string, Document>, site: Site, k: RowKey, v: Value) {
    exists m | 0 <= m < |profiles| :: HoldsAs(profiles[m].1, site, k, Some(profiles[m].0), v)
  }

  ghost predicate HoldsAs(document: Document, site: Site, k: RowKey, profile: Option<string>, v: Value) {
    Holds(document, k.name, v) && InColumn(site, k, profile)
  }

  /** The value a request asks a row to hold. A version 1 import knows no profiles, and puts what is
      per profile under the fallback's name. */
  ghost predicate Asks(site: Site, request: Request, k: RowKey, v: Value) {
    match request
    case SetRequest(namespace, key, value, profile) =>
      k.name == Name(namespace, key) && v == value && InColumn(site, k, profile)
    case UpdateRequest(document, profile) => Holds(document, k.name, v) && InColumn(site, k, profile)
    case ImportRequest(document, profiles, version) =>
      if version == 1 then Holds(document, k.name, v) && InColumn(site, k, Some("personal"))
      else (Holds(document, k.name, v) && InColumn(site, k, None)) || HoldsUnder(profiles, site, k, v)
    case ResetRequest(_, _, _) => false
    case ResetAllRequest(_, _) => false
  }

  /** Not pinned here, and not the owner's alone when a service asks. */
  predicate Writable(site: Site, who: Identity, d: SettingDef) {
    d.Qualified() !in site.policy.pins && (d.ownerWritableOnly ==> who.service.None?)
  }

  /** A namespace is reset scope by scope: the account's settings when no profile is named, and that
      profile's when one is. */
  predicate InScope(d: SettingDef, k: RowKey, profile: Option<string>) {
    if NoProfile(profile) then d.scope.AccountScope? && k.profile == "*"
    else d.scope.ProfileScope? && k.profile == profile.value
  }

  /** The rows a request asks to go. */
  ghost predicate Clears(site: Site, who: Identity, request: Request, k: RowKey) {
    match request
    case ResetRequest(namespace, key, profile) => k.name == Name(namespace, key) && InColumn(site, k, profile)
    case ResetAllRequest(namespace, profile) =>
      k.name.namespace == namespace &&
      exists d | LiveAs(site.catalogue, namespace, k.name.key, d) :: Writable(site, who, d) && InScope(d, k, profile)
    case _ => false
  }

  /** A parsed request is made of dictionaries. */
  ghost predicate Parsed(request: Request) {
    match request
    case UpdateRequest(document, _) => UniqueDocument(document)
    case ImportRequest(document, profiles, _) => UniqueDocument(document) && UniqueProfiles(profiles)
    case _ => true
  }

  // -- The plan is what is asked ----------------------------------------------------------------------

  /** A change is one the request asks for. */
  ghost predicate IsAsked(site: Site, who: Identity, request: Request, c: Change) {
    if c.reset then c.value == Null && Clears(site, who, request, c.Key()) else Asks(site, request, c.Key(), c.value)
  }

  lemma ColumnIs(site: Site, name: Name, d: SettingDef, profile: Option<string>, column: string)
    requires WellFormed(site.lib, site.catalogue)
    requires DefinitionFor(site.catalogue, name.namespace, name.key) == Ok(d)
    ensures InColumn(site, RowKey(column, name), profile) <==>
      if d.scope.AccountScope? then column == "*" else !NoProfile(profile) && column == profile.value
  {
    OneLiveEntry(site.lib, site.catalogue, name.namespace, name.key);
  }

  lemma HeldIsLookedUp(document: Document, name: Name, v: Value)
    requires UniqueDocument(document)
    ensures Holds(document, name, v) <==> Lookup(document, name) == Some(v)
  {
    forall i | 0 <= i < |document| && document[i].0 == name.namespace
      ensures Get(document, name.namespace) == Some(document[i].1)
      ensures (name.key, v) in document[i].1 <==> Get(document[i].1, name.key) == Some(v)
    {
      GetAt(document, i);
      GetIn(document[i].1, name.key, v);
    }
    if Has(document, name.namespace) {
      var i :| 0 <= i < |document| && document[i].0 == name.namespace;
      assert Lookup(document, name) == Get(document[i].1, name.key);
    }
  }

  /** A document under a profile, taken, asks for what it holds in the columns it addresses. */
  lemma DocumentAsks(site: Site, who: Identity, document: Document, profile: Option<string>, c: Change)
    requires WellFormed(site.lib, site.catalogue) && UniqueDocument(document)
    requires profile.Some? ==> ProfileShaped(profile.value)
    requires ChangesForSpec(site, who, document, profile).Ok?
    ensures c in ChangesForSpec(site, who, document, profile).value <==>
      !c.reset && Holds(document, c.name, c.value) && InColumn(site, c.Key(), profile)
  {
    HeldIsLookedUp(document, c.name, c.value);
    HalfBecomes(site, who, document, profile, c);
    OneLiveEntry(site.lib, site.catalogue, c.name.namespace, c.name.key);
    if Lookup(document, c.name) == Some(c.value) {
      var made := ChangeAt(site, (c.name, c.value), profile);
      HalfBecomes(site, who, document, profile, made);
      DocumentItems(site, who, document, profile);
      InChanges(site, who, ChangesForSpec(site, who, document, profile).value, ItemsOf(profile, document), made);
      ColumnIs(site, c.name, DefinitionFor(site.catalogue, c.name.namespace, c.name.key).value, profile, c.profile);
    }
  }

  lemma NormalisedColumns(site: Site, k: RowKey, profile: Option<string>)
    requires NormaliseProfile(profile).Ok?
    ensures InColumn(site, k, NormaliseProfile(profile).value) <==> InColumn(site, k, profile)
  {}

  lemma SetAsks(site: Site, who: Identity, request: Request, c: Change)
    requires WellFormed(site.lib, site.catalogue) && request.SetRequest? && Plan(site, who, request).Ok?
    ensures c in Plan(site, who, request).value <==> IsAsked(site, who, request, c)
  {
    var name := Name(request.namespace, request.key);
    FoundEntry(site.lib, site.catalogue, request.namespace, request.key);
    var d := DefinitionFor(site.catalogue, request.namespace, request.key).value;
    ColumnIs(site, name, d, request.profile, c.profile);
    OneSetPlanned(site, who, request, d);
  }

  lemma OneSetPlanned(site: Site, who: Identity, request: Request, d: SettingDef)
    requires request.SetRequest? && Plan(site, who, request).Ok?
    requires DefinitionFor(site.catalogue, request.namespace, request.key) == Ok(d)
    ensures exists column ::
      && Plan(site, who, request).value == [Change(d.Named(), request.value, false, column)]
      && if d.scope.AccountScope? then column == "*" else !NoProfile(request.profile) && column == request.profile.value
  {}

  lemma ResetAsks(site: Site, who: Identity, request: Request, c: Change)
    requires WellFormed(site.lib, site.catalogue) && request.ResetRequest? && Plan(site, who, request).Ok?
    ensures c in Plan(site, who, request).value <==> IsAsked(site, who, request, c)
  {
    var name := Name(request.namespace, request.key);
    FoundEntry(site.lib, site.catalogue, request.namespace, request.key);
    var d := DefinitionFor(site.catalogue, request.namespace, request.key).value;
    ColumnIs(site, name, d, request.profile, c.profile);
    OneResetPlanned(site, who, request, d);
  }

  lemma OneResetPlanned(site: Site, who: Identity, request: Request, d: SettingDef)
    requires request.ResetRequest? && Plan(site, who, request).Ok?
    requires DefinitionFor(site.catalogue, request.namespace, request.key) == Ok(d)
    ensures exists column ::
      && Plan(site, who, request).value == [Change(d.Named(), Null, true, column)]
      && if d.scope.AccountScope? then column == "*" else !NoProfile(request.profile) && column == request.profile.value
  {}

  lemma LiveIsScanned(site: Site, namespace: string, d: SettingDef)
    requires WellFormed(site.lib, site.catalogue) && Has(site.catalogue, namespace)
    ensures d in Live(Get(site.catalogue, namespace).value) <==> LiveAs(site.catalogue, namespace, d.key, d)
    ensures LiveAs(site.catalogue, namespace, d.key, d) ==> d.namespace == namespace
  {
    IndexAgreesWithScan(site.lib, site.catalogue, namespace, d.key, d);
    FoundExactlyWhen(site.lib, site.catalogue, namespace, d.key, d);
    FoundEntry(site.lib, site.catalogue, namespace, d.key);
  }

  lemma WritableIs(site: Site, who: Identity, d: SettingDef)
    ensures MayWrite(site, who, d) <==> Writable(site, who, d)
  {}

  lemma ResetAllAsks(site: Site, who: Identity, request: Request, c: Change)
    requires WellFormed(site.lib, site.catalogue) && request.ResetAllRequest? && Plan(site, who, request).Ok?
    ensures c in Plan(site, who, request).value <==> IsAsked(site, who, request, c)
  {
    var none := NoProfile(request.profile);
    var live := Live(Get(site.catalogue, request.namespace).value);
    var scope, column := if none then AccountScope else ProfileScope, if none then "*" else request.profile.value;
    assert Plan(site, who, request).value == Resets(site, who, live, scope, column);
    ResetsAre(site, who, live, scope, column, c);
    forall d
      ensures d in live <==> LiveAs(site.catalogue, request.namespace, d.key, d)
      ensures LiveAs(site.catalogue, request.namespace, d.key, d) ==> d.namespace == request.namespace
      ensures MayWrite(site, who, d) <==> Writable(site, who, d)
    {
      LiveIsScanned(site, request.namespace, d);
      WritableIs(site, who, d);
    }
  }

  lemma LastHolds(profiles: Dict<string, Document>, site: Site, k: RowKey, v: Value)
    requires profiles != []
    ensures var n := |profiles| - 1;
      HoldsUnder(profiles, site, k, v) <==>
        HoldsUnder(profiles[..n], site, k, v) || HoldsAs(profiles[n].1, site, k, Some(profiles[n].0), v)
  {
    var n := |profiles| - 1;
    assert forall m | 0 <= m < n :: profiles[..n][m] == profiles[m];
  }

  lemma LastProfileAsks(site: Site, who: Identity, profiles: Dict<string, Document>, c: Change)
    requires WellFormed(site.lib, site.catalogue) && profiles != [] && UniqueDocument(profiles[|profiles| - 1].1)
    requires ProfiledChanges(site, who, profiles).Ok?
    ensures var n := |profiles| - 1;
      && ProfiledChanges(site, who, profiles[..n]).Ok?
      && (c in ProfiledChanges(site, who, profiles).value <==>
            || c in ProfiledChanges(site, who, profiles[..n]).value
            || (!c.reset && HoldsAs(profiles[n].1, site, c.Key(), Some(profiles[n].0), c.value)))
  {
    var n := |profiles| - 1;
    var named := NormaliseProfile(Some(profiles[n].0)).value;
    DocumentAsks(site, who, profiles[n].1, named, c);
    NormalisedColumns(site, c.Key(), Some(profiles[n].0));
  }

  lemma {:induction false} ProfilesAsk(site: Site, who: Identity, profiles: Dict<string, Document>, c: Change)
    requires WellFormed(site.lib, site.catalogue) && UniqueProfiles(profiles)
    requires ProfiledChanges(site, who, profiles).Ok?
    ensures c in ProfiledChanges(site, who, profiles).value <==>
      !c.reset && HoldsUnder(profiles, site, c.Key(), c.value)
  {
    if profiles != [] {
      var n := |profiles| - 1;
      assert UniqueProfiles(profiles[..n]) by {
        assert forall m | 0 <= m < n :: profiles[..n][m] == profiles[m];
      }
      LastProfileAsks(site, who, profiles, c);
      LastHolds(profiles, site, c.Key(), c.value);
      ProfilesAsk(site, who, profiles[..n], c);
    }
  }

  lemma ImportAsks(site: Site, who: Identity, request: Request, c: Change)
    requires WellFormed(site.lib, site.catalogue) && request.ImportRequest? && request.version == 2
    requires Parsed(request) && Plan(site, who, request).Ok?
    ensures c in Plan(site, who, request).value <==> IsAsked(site, who, request, c)
  {
    DocumentAsks(site, who, request.document, None, c);
    ProfilesAsk(site, who, request.profiles, c);
  }

  lemma LegacyAsks(site: Site, who: Identity, request: Request, c: Change)
    requires WellFormed(site.lib, site.catalogue) && request.ImportRequest? && request.version == 1
    requires Parsed(request) && Plan(site, who, request).Ok?
    ensures c in Plan(site, who, request).value <==> IsAsked(site, who, request, c)
  {
    var document := request.document;
    assert Plan(site, who, request) == ImportSpec(site, who, document, [], 1);
    LegacyImportMeans(site, who, document, c);
    HeldIsLookedUp(document, c.name, c.value);
    OneLiveEntry(site.lib, site.catalogue, c.name.namespace, c.name.key);
    if Lookup(document, c.name) == Some(c.value) {
      var made := Change(c.name, c.value, false,
                         if AccountScoped(site, c.name) then ACCOUNT_PROFILE else V1_PROFILE_FALLBACK);
      LegacyImportMeans(site, who, document, made);
      LegacyIsSanctioned(site, who, document, made);
      ColumnIs(site, c.name, DefinitionFor(site.catalogue, c.name.namespace, c.name.key).value, Some("personal"),
               c.profile);
    }
  }

  /** Every accepted request becomes exactly the changes it asks for: each of its settings in the
      column of the profile it names, with the value it gives, or gone; and nothing else. */
  lemma PlannedExactlyWhenAsked(site: Site, who: Identity, request: Request, c: Change)
    requires WellFormed(site.lib, site.catalogue) && Parsed(request) && Plan(site, who, request).Ok?
    ensures c in Plan(site, who, request).value <==> IsAsked(site, who, request, c)
  {
    match request
    case SetRequest(_, _, _, _) => SetAsks(site, who, request, c);
    case UpdateRequest(document, profile) =>
      DocumentAsks(site, who, document, NormaliseProfile(profile).value, c);
      NormalisedColumns(site, c.Key(), profile);
    case ImportRequest(_, _, version) =>
      if version == 1 { LegacyAsks(site, who, request, c); } else { ImportAsks(site, who, request, c); }
    case ResetRequest(_, _, _) => ResetAsks(site, who, request, c);
    case ResetAllRequest(_, _) => ResetAllAsks(site, who, request, c);
  }

  // -- The rows afterwards ------------------------------------------------------------------------------

  /** The row is there as it was, or still is not, provenance included. */
  predicate Unmoved(t: Tables, t': Tables, id: RowId) {
    (id in t'.settings <==> id in t.settings) && (id in t.settings ==> t'.settings[id] == t.settings[id])
  }

  /** The row holds the value: as it stood if it held it already, else written now by this actor. */
  predicate NowHolds(t: Tables, t': Tables, id: RowId, v: Value, now: int, actor: string) {
    && id in t'.settings
    && t'.settings[id] == if id in t.settings && t.settings[id].value == v then t.settings[id] else Row(v, now, actor)
  }

  lemma ClearedRow(t: Tables, w: Write, t': Tables, applied: Applied, id: RowId, c: Change)
    requires Committed(t, w, t', applied) && id.account == w.account && c in w.changes && c.Key() == id.key
    requires forall e | e in w.changes && e.Key() == id.key :: e.reset
    ensures id !in t'.settings
  {
    var before := RowsOf(t.settings, w.account);
    CommittedSettings(t, w, t', applied);
    RowAfterLoop(t.settings, w.account, w.changes, before, w.now, w.actor, id);
    LastEffectiveIs(w.changes, before, id.key);
  }

  lemma AskedRow(t: Tables, w: Write, t': Tables, applied: Applied, id: RowId, c: Change) returns (e: Change)
    requires Committed(t, w, t', applied) && id.account == w.account && c in w.changes && c.Key() == id.key
    requires forall e | e in w.changes && e.Key() == id.key :: !e.reset
    ensures e in w.changes && e.Key() == id.key && NowHolds(t, t', id, e.value, w.now, w.actor)
  {
    var before := RowsOf(t.settings, w.account);
    CommittedSettings(t, w, t', applied);
    RowAfterLoop(t.settings, w.account, w.changes, before, w.now, w.actor, id);
    LastEffectiveIs(w.changes, before, id.key);
    var last := LastEffective(w.changes, before, id.key);
    e := if last.Some? then last.value else c;
  }

  lemma UnaskedRow(t: Tables, w: Write, t': Tables, applied: Applied, id: RowId)
    requires Committed(t, w, t', applied)
    requires id.account != w.account || forall c | c in w.changes :: c.Key() != id.key
    ensures Unmoved(t, t', id)
  {
    var before := RowsOf(t.settings, w.account);
    CommittedSettings(t, w, t', applied);
    RowAfterLoop(t.settings, w.account, w.changes, before, w.now, w.actor, id);
    LastEffectiveIs(w.changes, before, id.key);
  }

  ghost predicate AsksSomething(site: Site, request: Request, k: RowKey) { exists v :: Asks(site, request, k, v) }

  /** A request says nothing of the row. */
  ghost predicate Untold(site: Site, who: Identity, request: Request, k: RowKey) {
    !Clears(site, who, request, k) && !AsksSomething(site, request, k)
  }

  /** What a request leaves of one row. */
  ghost predicate RowIsAsAsked(site: Site, t: Tables, who: Identity, request: Request, now: int, t': Tables,
                               id: RowId) {
    && (id.account == who.account && Clears(site, who, request, id.key) ==> id !in t'.settings)
    && (id.account == who.account && AsksSomething(site, request, id.key) ==>
          exists v | Asks(site, request, id.key, v) :: NowHolds(t, t', id, v, now, who.Actor()))
    && (id.account != who.account || Untold(site, who, request, id.key) ==> Unmoved(t, t', id))
  }

  lemma ServedCommits(site: Site, t: Tables, who: Identity, request: Request, now: int, ifRevision: Option<nat>)
    returns (w: Write)
    requires Serve(t, site, who, request, now, ifRevision).1.Ok?
    ensures Plan(site, who, request) == Ok(w.changes)
    ensures w.account == who.account && w.now == now && w.actor == who.Actor()
    ensures var (t', r) := Serve(t, site, who, request, now, ifRevision); Committed(t, w, t', r.value)
  {
    w := WriteFor(site, who, request, Plan(site, who, request).value, now, ifRevision);
  }

  /** After an accepted request every row of every account is as asked: gone where the request clears
      it, holding a value the request asks for where it asks for one, and otherwise unmoved. */
  lemma RowsAreAsAsked(site: Site, t: Tables, who: Identity, request: Request, now: int, ifRevision: Option<nat>,
                       id: RowId)
    requires WellFormed(site.lib, site.catalogue) && Parsed(request)
    requires Serve(t, site, who, request, now, ifRevision).1.Ok?
    ensures RowIsAsAsked(site, t, who, request, now, Serve(t, site, who, request, now, ifRevision).0, id)
  {
    var w := ServedCommits(site, t, who, request, now, ifRevision);
    var (t', r) := Serve(t, site, who, request, now, ifRevision);
    forall c
      ensures c in w.changes <==> IsAsked(site, who, request, c)
    {
      PlannedExactlyWhenAsked(site, who, request, c);
    }
    AskedRowIs(site, t, who, request, w, t', r.value, id);
  }

  lemma AskedRowIs(site: Site, t: Tables, who: Identity, request: Request, w: Write, t': Tables, applied: Applied,
                   id: RowId)
    requires Committed(t, w, t', applied) && w.account == who.account && w.actor == who.Actor()
    requires forall c :: c in w.changes <==> IsAsked(site, who, request, c)
    ensures RowIsAsAsked(site, t, who, request, w.now, t', id)
  {
    if id.account != who.account {
      UnaskedRow(t, w, t', applied, id);
    } else if Clears(site, who, request, id.key) {
      ClearedRow(t, w, t', applied, id, Change(id.key.name, Null, true, id.key.profile));
    } else if v :| Asks(site, request, id.key, v) {
      var e := AskedRow(t, w, t', applied, id, Change(id.key.name, v, false, id.key.profile));
      assert Asks(site, request, id.key, e.value);
    } else {
      UnaskedRow(t, w, t', applied, id);
    }
  }

  /** A request asks a row for one value at most. */
  ghost predicate OfOneMind(site: Site, request: Request, k: RowKey) {
    forall v, u | Asks(site, request, k, v) && Asks(site, request, k, u) :: v == u
  }

  /** Sets, updates and version 1 imports ask each row for one value; a version 2 import may ask one
      for two, and `RowsAfterApply` says which of them is left. */
  lemma MostAreOfOneMind(site: Site, request: Request, k: RowKey)
    requires Parsed(request) && (request.ImportRequest? ==> request.version == 1)
    ensures OfOneMind(site, request, k)
  {
    if request.UpdateRequest? || request.ImportRequest? {
      forall v
        ensures Holds(request.document, k.name, v) <==> Lookup(request.document, k.name) == Some(v)
      {
        HeldIsLookedUp(request.document, k.name, v);
      }
    }
  }

  /** After an accepted reset, of one setting or of a namespace, a row of the account is gone exactly
      when the reset clears it, and every other row of every account is as it was. */
  lemma ResetsClear(site: Site, t: Tables, who: Identity, request: Request, now: int, ifRevision: Option<nat>,
                    id: RowId)
    requires WellFormed(site.lib, site.catalogue) && (request.ResetRequest? || request.ResetAllRequest?)
    requires Serve(t, site, who, request, now, ifRevision).1.Ok?
    ensures var t' := Serve(t, site, who, request, now, ifRevision).0;
      && (id in t'.settings <==>
            id in t.settings && !(id.account == who.account && Clears(site, who, request, id.key)))
      && (id in t'.settings ==> t'.settings[id] == t.settings[id])
  {
    RowsAreAsAsked(site, t, who, request, now, ifRevision, id);
  }
}
