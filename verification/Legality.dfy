/** What every stored row satisfies after any run, and so every value anyone is told. */
module Legality {
  import opened Core
  import opened Dicts
  import opened SettingTypes
  import opened Catalogue
  import opened Policies
  import opened Resolution
  import opened Tables
  import opened Store
  import opened Merge
  import opened Service
  import opened Plans
  import opened Server

  // -- Where a row may be and what it may hold -----------------------------------------------------

  /** Scopes never overlap: a row of a live setting is in the column its scope says, and holds a
      value the setting allows here. Every profile column is a profile name that fits it. */
  ghost predicate RowOk(site: Site, k: RowKey, row: Row) {
    && (k.profile == ACCOUNT_PROFILE || (ProfileShaped(k.profile) && |k.profile| <= 64))
    && var found := DefinitionFor(site.catalogue, k.name.namespace, k.name.key);
       found.Ok? ==>
         && (k.profile == ACCOUNT_PROFILE <==> found.value.scope.AccountScope?)
         && Legal(site.lib, site.policy.DefinitionOf(found.value), row.value)
  }

  ghost predicate RowsOk(site: Site, t: Tables) {
    forall id | id in t.settings :: RowOk(site, id.key, t.settings[id])
  }

  ghost predicate ProfilesBounded(t: Tables) {
    forall account :: |Profiles(RowsOf(t.settings, account))| <= MAX_PROFILES_PER_ACCOUNT
  }

  /** A row after a committed write was there before or is what one of the changes set. */
  lemma RowComesFrom(t: Tables, w: Write, t': Tables, applied: Applied, id: RowId)
    requires Committed(t, w, t', applied) && id in t'.settings
    ensures (id in t.settings && t'.settings[id] == t.settings[id])
      || (exists c | c in w.changes ::
            !c.reset && c.Key() == id.key && t'.settings[id].value == c.value && 1 <= |c.profile| <= 64)
  {
    var before := RowsOf(t.settings, w.account);
    RowAfterLoop(t.settings, w.account, w.changes, before, w.now, w.actor, id);
    LastEffectiveIs(w.changes, before, id.key);
    LoopReports(t.settings, w.account, w.changes, before, w.now, w.actor);
    if id.account == w.account && LastEffective(w.changes, before, id.key).Some? {
      var c := LastEffective(w.changes, before, id.key).value;
      assert c in w.changes && Effective(c, before);
    }
  }

  lemma SanctionedRowOk(site: Site, who: Identity, c: Change, row: Row)
    requires Sanctioned(site, who, c) && !c.reset && row.value == c.value && |c.profile| <= 64
    ensures RowOk(site, c.Key(), row)
  {}

  lemma ServeKeepsRowsOk(site: Site, t: Tables, who: Identity, request: Request, now: int, ifRevision: Option<nat>)
    requires WellFormed(site.lib, site.catalogue) && RowsOk(site, t)
    ensures RowsOk(site, Serve(t, site, who, request, now, ifRevision).0)
  {
    var (t', r) := Serve(t, site, who, request, now, ifRevision);
    ServedMeans(t, site, who, request, now, ifRevision);
    if r.Ok? {
      var w := WriteFor(site, who, request, Plan(site, who, request).value, now, ifRevision);
      forall id | id in t'.settings
        ensures RowOk(site, id.key, t'.settings[id])
      {
        RowComesFrom(t, w, t', r.value, id);
        if !(id in t.settings && t'.settings[id] == t.settings[id]) {
          var c :| c in w.changes && !c.reset && c.Key() == id.key
            && t'.settings[id].value == c.value && |c.profile| <= 64;
          PlannedChangesAreSanctioned(site, who, request, c);
          SanctionedRowOk(site, who, c, t'.settings[id]);
        }
      }
    }
  }

  lemma SweepKeepsRows(t: Tables, name: Name, listing: seq<RowId>, now: int, cap: nat)
    ensures forall id | id in PurgeTx(t, name, listing, now, cap).settings ::
      id in t.settings && PurgeTx(t, name, listing, now, cap).settings[id] == t.settings[id]
  {
    if listing != [] {
      PurgeEventsKeeps(t.(settings := t.settings - Matching(t, name)), listing, name, now, cap);
    }
  }

  lemma NextKeepsRowsOk(site: Site, t: Tables, h: Happening, t': Tables)
    requires WellFormed(site.lib, site.catalogue) && RowsOk(site, t) && Next(site, t, h, t')
    ensures RowsOk(site, t')
  {
    match h
    case Requested(who, request, now, ifRevision) => ServeKeepsRowsOk(site, t, who, request, now, ifRevision);
    case Forgot(account) =>
    case Swept(name, listing, today, now) => SweepKeepsRows(t, name, listing, now, site.maxEvents);
  }

  /** After any run from empty tables, account-scoped settings have rows only in the account's
      column, profile-scoped ones only under profile names, and every row of a live setting
      holds a value its narrowed entry allows. */
  lemma {:induction false} RowsStayOk(site: Site, ts: seq<Tables>, hs: seq<Happening>, n: nat)
    requires WellFormed(site.lib, site.catalogue) && Run(site, ts, hs) && RowsOk(site, ts[0]) && n <= |hs|
    ensures RowsOk(site, ts[n])
  {
    if n > 0 {
      RowsStayOk(site, ts, hs, n - 1);
      NextKeepsRowsOk(site, ts[n - 1], hs[n - 1], ts[n]);
    }
  }

  // -- How many profiles ---------------------------------------------------------------------------

  lemma ProfilesAfterApply(t: Tables, w: Write, t': Tables, applied: Applied)
    requires Committed(t, w, t', applied)
    requires |Profiles(RowsOf(t.settings, w.account))| <= MAX_PROFILES_PER_ACCOUNT
    ensures |Profiles(RowsOf(t'.settings, w.account))| <= MAX_PROFILES_PER_ACCOUNT
  {
    CapStillHolds(t, w, t', applied);
    var before, after := Profiles(RowsOf(t.settings, w.account)), Profiles(RowsOf(t'.settings, w.account));
    SubsetSize(after, before + Incoming(w.changes));
    if Incoming(w.changes) == {} {
      assert before + Incoming(w.changes) == before;
    }
  }

  lemma FewerRowsFewerProfiles(s: map<RowId, Row>, s': map<RowId, Row>, account: string)
    requires forall id | id in s' :: id in s
    ensures |Profiles(RowsOf(s', account))| <= |Profiles(RowsOf(s, account))|
  {
    assert forall k | k in RowsOf(s', account) :: k in RowsOf(s, account);
    SubsetSize(Profiles(RowsOf(s', account)), Profiles(RowsOf(s, account)));
  }

  lemma NextKeepsProfilesBounded(site: Site, t: Tables, h: Happening, t': Tables)
    requires ProfilesBounded(t) && Next(site, t, h, t')
    ensures ProfilesBounded(t')
  {
    forall account
      ensures |Profiles(RowsOf(t'.settings, account))| <= MAX_PROFILES_PER_ACCOUNT
    {
      match h
      case Requested(who, request, now, ifRevision) =>
        ServedMeans(t, site, who, request, now, ifRevision);
        var r := Serve(t, site, who, request, now, ifRevision).1;
        if r.Ok? {
          var w := WriteFor(site, who, request, Plan(site, who, request).value, now, ifRevision);
          if who.account == account {
            ProfilesAfterApply(t, w, t', r.value);
          } else {
            OtherRowsAfterApply(t, w, t', r.value, account);
          }
        }
      case Forgot(_) => FewerRowsFewerProfiles(t.settings, t'.settings, account);
      case Swept(name, listing, today, now) =>
        SweepKeepsRows(t, name, listing, now, site.maxEvents);
        FewerRowsFewerProfiles(t.settings, t'.settings, account);
    }
  }

  /** After any run from empty tables, no account has rows under more than 32 profile names. */
  lemma {:induction false} ProfilesStayBounded(site: Site, ts: seq<Tables>, hs: seq<Happening>, n: nat)
    requires Run(site, ts, hs) && ProfilesBounded(ts[0]) && n <= |hs|
    ensures ProfilesBounded(ts[n])
  {
    if n > 0 {
      ProfilesStayBounded(site, ts, hs, n - 1);
      NextKeepsProfilesBounded(site, ts[n - 1], hs[n - 1], ts[n]);
    }
  }

  lemma EmptyIsOk(site: Site)
    ensures RowsOk(site, EMPTY) && ProfilesBounded(EMPTY)
  {
    forall account
      ensures |Profiles(RowsOf(EMPTY.settings, account))| <= MAX_PROFILES_PER_ACCOUNT
    {
      assert Profiles(RowsOf(EMPTY.settings, account)) == {};
    }
  }

  // -- Every value anyone is told ---------------------------------------------------------------------

  /** The value one setting resolves to for an account and a profile. */
  function Told(site: Site, t: Tables, account: string, profile: Option<string>, d: SettingDef): Value {
    Resolve(d, StoredSpec(site.catalogue, RowsOf(t.settings, account), profile), site.policy).value
  }

  lemma ToldComesFrom(site: Site, t: Tables, account: string, profile: Option<string>, d: SettingDef)
    requires Deployed(site) && d in EveryEntry(site.catalogue) && !d.Retired()
    ensures var stored := Picked(RowsOf(t.settings, account), d, profile);
      Told(site, t, account, profile, d)
        == if site.policy.IsPinned(d) then site.policy.PinOn(d).value
           else if stored.Some? then stored.value
           else site.policy.DefinitionOf(d).default
  {
    PolicyNamesKept(site);
    EntryFacts(site.lib, site.catalogue, d);
  }

  /** The one row that speaks for an entry: in the account's column, or the named profile's. */
  predicate SpeaksFor(t: Tables, account: string, profile: Option<string>, d: SettingDef, id: RowId) {
    && id in t.settings && id.account == account && id.key.name == Name(d.namespace, d.key)
    && if d.scope.AccountScope? then id.key.profile == "*" else !NoProfile(profile) && id.key.profile == profile.value
  }

  /** What is told of an entry: its narrowed definition; whether the deployment pins it and whether
      the account has set it; and the pin, or else the account's row, or else the default here. */
  ghost predicate Tells(site: Site, t: Tables, account: string, profile: Option<string>, d: SettingDef, r: Resolved) {
    var e, q := site.policy.DefinitionOf(d), d.Qualified();
    && r.definition == e
    && (r.pinned <==> q in site.policy.pins)
    && (r.setByAccount <==> exists id :: SpeaksFor(t, account, profile, d, id))
    && (q in site.policy.pins ==> r.value == site.policy.pins[q] && r.source == FromPolicy)
    && (q !in site.policy.pins ==>
          && (forall id | SpeaksFor(t, account, profile, d, id) ::
                r.value == t.settings[id].value && r.source == FromAccount)
          && ((forall id :: !SpeaksFor(t, account, profile, d, id)) ==>
                r.value == e.default && r.source == if e.default == d.default then FromDefault else FromPolicy))
  }

  lemma PickedSpeaks(t: Tables, account: string, profile: Option<string>, d: SettingDef)
    requires NormaliseProfile(profile).Ok?
    ensures var picked := Picked(RowsOf(t.settings, account), d, NormaliseProfile(profile).value);
      && (picked.Some? <==> exists id :: SpeaksFor(t, account, profile, d, id))
      && (forall id | SpeaksFor(t, account, profile, d, id) :: picked == Some(t.settings[id].value))
  {
    var picked := Picked(RowsOf(t.settings, account), d, NormaliseProfile(profile).value);
    if picked.Some? {
      var column := if d.scope.AccountScope? then "*" else profile.value;
      assert SpeaksFor(t, account, profile, d, RowId(account, RowKey(column, d.Named())));
    }
  }

  lemma ResolvedTells(site: Site, t: Tables, account: string, profile: Option<string>, d: SettingDef)
    requires Deployed(site) && d in EveryEntry(site.catalogue) && !d.Retired() && NormaliseProfile(profile).Ok?
    ensures Tells(site, t, account, profile, d,
                  Resolve(d, StoredSpec(site.catalogue, RowsOf(t.settings, account), NormaliseProfile(profile).value),
                          site.policy))
  {
    PolicyNamesKept(site);
    EntryFacts(site.lib, site.catalogue, d);
    PickedSpeaks(t, account, profile, d);
  }

  lemma OfferedIsAnEntry(site: Site, namespace: string, key: string, d: SettingDef)
    requires Deployed(site) && Offered(site, namespace, key, d)
    ensures d in EveryEntry(site.catalogue) && !d.Retired()
  {
    EveryEntryIn(site.catalogue);
  }

  /** Under a key there is what the account is told of the setting of that key in the namespace, or
      else in `common`, and nothing if there is no such setting. */
  ghost predicate TellsAt(site: Site, t: Tables, account: string, namespace: string, profile: Option<string>,
                          key: string, entries: Dict<string, Resolved>) {
    && (Has(entries, key) ==> exists d :: Offered(site, namespace, key, d))
    && forall d | Offered(site, namespace, key, d) ::
         Has(entries, key) && Tells(site, t, account, profile, d, Get(entries, key).value)
  }

  lemma EntryTells(site: Site, t: Tables, account: string, namespace: string, profile: Option<string>, key: string,
                   d: SettingDef)
    requires Deployed(site) && Has(site.catalogue, namespace) && NormaliseProfile(profile).Ok?
    requires Offered(site, namespace, key, d)
    ensures var stored := StoredSpec(site.catalogue, RowsOf(t.settings, account), NormaliseProfile(profile).value);
      var held := Get(ResolveForService(site, namespace, stored), key);
      held.Some? && Tells(site, t, account, profile, d, held.value)
  {
    var stored := StoredSpec(site.catalogue, RowsOf(t.settings, account), NormaliseProfile(profile).value);
    OfferedHolds(site, namespace, stored, key, d);
    OfferedIsAnEntry(site, namespace, key, d);
    ResolvedTells(site, t, account, profile, d);
  }

  lemma EntriesTell(site: Site, t: Tables, account: string, namespace: string, profile: Option<string>, key: string)
    requires Deployed(site) && Has(site.catalogue, namespace) && NormaliseProfile(profile).Ok?
    ensures var stored := StoredSpec(site.catalogue, RowsOf(t.settings, account), NormaliseProfile(profile).value);
      TellsAt(site, t, account, namespace, profile, key, ResolveForService(site, namespace, stored))
  {
    var stored := StoredSpec(site.catalogue, RowsOf(t.settings, account), NormaliseProfile(profile).value);
    var entries := ResolveForService(site, namespace, stored);
    forall d | Offered(site, namespace, key, d)
      ensures Has(entries, key) && Tells(site, t, account, profile, d, Get(entries, key).value)
    {
      EntryTells(site, t, account, namespace, profile, key, d);
    }
    HeldIsOffered(site, namespace, stored, key);
  }

  lemma ServedCarries(site: Site, t: Tables, who: Identity, namespace: string, profile: Option<string>)
    requires Has(site.catalogue, COMMON) && ResolveFor(site, t, who, namespace, profile).Ok?
    ensures var served := ResolveFor(site, t, who, namespace, profile).value;
      && served.revision == (if who.account in t.accounts then t.accounts[who.account].revision else 0)
      && served.etag == "\"" + who.account + "." + EntityTags.Print(served.revision) + "\""
  {}

  /** A served document says, for every key, exactly what the account is told about the setting of
      that key in the namespace, or else in `common`; and it has no other key. */
  lemma DocumentsTell(site: Site, t: Tables, who: Identity, namespace: string, profile: Option<string>, key: string)
    requires Deployed(site) && ResolveFor(site, t, who, namespace, profile).Ok?
    ensures TellsAt(site, t, who.account, namespace, profile, key,
                    ResolveFor(site, t, who, namespace, profile).value.entries)
  {
    EntriesTell(site, t, who.account, namespace, profile, key);
  }

  /** With legal rows, a live setting resolves to a legal value for every account and profile
      exactly when it is pinned or its default here is legal; that the default is legal can be
      checked before starting, and is not checked by the parser. */
  lemma EveryValueIsLegalExactlyWhen(site: Site, d: SettingDef)
    requires Deployed(site) && d in EveryEntry(site.catalogue) && !d.Retired()
    ensures (forall t, account, profile | RowsOk(site, t) ::
               Legal(site.lib, site.policy.DefinitionOf(d), Told(site, t, account, profile, d)))
       <==> site.policy.IsPinned(d) || Legal(site.lib, site.policy.DefinitionOf(d), site.policy.DefinitionOf(d).default)
  {
    var e := site.policy.DefinitionOf(d);
    EmptyIsOk(site);
    ToldComesFrom(site, EMPTY, "", None, d);
    assert RowsOf(EMPTY.settings, "") == map[];
    var document :| Policies.WellKeyed(document) && ParseSpec(site.lib, site.catalogue, document) == Ok(site.policy);
    PolicyOnlyNarrows(site.lib, site.catalogue, document, site.policy, d);
    if site.policy.IsPinned(d) || Legal(site.lib, e, e.default) {
      forall t, account, profile | RowsOk(site, t)
        ensures Legal(site.lib, e, Told(site, t, account, profile, d))
      {
        ToldComesFrom(site, t, account, profile, d);
        EntryFacts(site.lib, site.catalogue, d);
        var stored := Picked(RowsOf(t.settings, account), d, profile);
        if stored.Some? {
          var column := if d.scope.AccountScope? then ACCOUNT_PROFILE else profile.value;
          var id := RowId(account, RowKey(column, d.Named()));
          assert id in t.settings && RowOk(site, id.key, t.settings[id]);
        }
      }
    } else {
      assert RowsOk(site, EMPTY);
      assert !Legal(site.lib, e, Told(site, EMPTY, "", None, d));
    }
  }

  /** Every value resolved after any run from empty tables is one its effective entry allows,
      wherever the effective default is. */
  lemma EveryResolvedValueIsLegal(site: Site, ts: seq<Tables>, hs: seq<Happening>, n: nat,
                                  account: string, profile: Option<string>, d: SettingDef)
    requires Deployed(site) && Run(site, ts, hs) && ts[0] == EMPTY && n <= |hs|
    requires d in EveryEntry(site.catalogue) && !d.Retired()
    requires Legal(site.lib, site.policy.DefinitionOf(d), site.policy.DefinitionOf(d).default)
    ensures Legal(site.lib, site.policy.DefinitionOf(d), Told(site, ts[n], account, profile, d))
    ensures Legal(site.lib, d, Told(site, ts[n], account, profile, d))
  {
    EmptyIsOk(site);
    RowsStayOk(site, ts, hs, n);
    EveryValueIsLegalExactlyWhen(site, d);
    var document :| Policies.WellKeyed(document) && ParseSpec(site.lib, site.catalogue, document) == Ok(site.policy);
    PolicyOnlyNarrows(site.lib, site.catalogue, document, site.policy, d);
  }
}
