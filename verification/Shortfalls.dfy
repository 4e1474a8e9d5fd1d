/** Inputs on which the service falls short of a promise, each an instance of the condition that
    decides it, and one small deployment on which they all occur. */
module Shortfalls {
  import opened Core
  import opened Dicts
  import opened Json
  import opened SettingTypes
  import opened Catalogue
  import opened Policies
  import opened Resolution
  import opened Tables
  import opened EventLog
  import opened Store
  import opened Merge
  import opened Service
  import opened Plans
  import opened Acceptance
  import opened Server
  import opened Runs
  import opened Legality

  // -- Tags across a forget -------------------------------------------------------------------------

  /** What a caller is served for a setting it holds a row of. */
  lemma ServedRow(site: Site, t: Tables, who: Identity, namespace: string, key: string, profile: Option<string>,
                  d: SettingDef, v: Value)
    requires Deployed(site) && NormaliseProfile(profile).Ok?
    requires Definition(site, who, namespace, key) == Ok(d) && !site.policy.IsPinned(d)
    requires Picked(RowsOf(t.settings, who.account), d, NormaliseProfile(profile).value) == Some(v)
    ensures var served := ResolveFor(site, t, who, namespace, profile);
      && served.Ok? && served.value.etag == EntityTags.ETag(who.account, RevisionOf(t, who.account))
      && Get(served.value.entries, key).Some? && Get(served.value.entries, key).value.value == v
  {
    FoundEntry(site.lib, site.catalogue, namespace, key);
    ServedEntry(site, t, who, namespace, key, profile, d);
    ToldComesFrom(site, t, who.account, NormaliseProfile(profile).value, d);
  }

  lemma ServedEntry(site: Site, t: Tables, who: Identity, namespace: string, key: string, profile: Option<string>,
                    d: SettingDef)
    requires Deployed(site) && NormaliseProfile(profile).Ok? && Definition(site, who, namespace, key) == Ok(d)
    ensures var served := ResolveFor(site, t, who, namespace, profile);
      && served.Ok? && served.value.etag == EntityTags.ETag(who.account, RevisionOf(t, who.account))
      && Get(served.value.entries, key).Some?
      && Get(served.value.entries, key).value.value == Told(site, t, who.account, NormaliseProfile(profile).value, d)
  {
    DocumentHolds(site, namespace,
                  StoredSpec(site.catalogue, RowsOf(t.settings, who.account), NormaliseProfile(profile).value), key);
  }

  /** A set that is accepted is of an unpinned setting, and writes the row its readers pick. */
  lemma SetIsPicked(site: Site, who: Identity, namespace: string, key: string, v: Value, profile: Option<string>,
                    c: Change, t: Tables)
    requires PlansOne(site, who, SetRequest(namespace, key, v, profile), c)
    requires Look(RowsOf(t.settings, who.account), c.Key()) == Some(v)
    ensures NormaliseProfile(profile).Ok? && Definition(site, who, namespace, key).Ok?
    ensures var d := Definition(site, who, namespace, key).value;
      !site.policy.IsPinned(d) && Picked(RowsOf(t.settings, who.account), d, NormaliseProfile(profile).value) == Some(v)
  {
    var d := Definition(site, who, namespace, key).value;
    assert StorageProfile(d, NormaliseProfile(profile).value) == Ok(c.profile) && c.name == d.Named();
  }

  /** A forgotten account starts again at revision zero, so its entity tags repeat: two different
      values, one set before a forget and one after it, are served in two documents under one
      tag. */
  lemma ForgettingReusesTags(site: Site, t: Tables, who: Identity, namespace: string, key: string, v: Value, u: Value,
                             profile: Option<string>, now: int, t1: Tables, t3: Tables)
    requires Deployed(site) && Agrees(t) && who.account !in t.accounts && v != u
    requires var first := Serve(t, site, who, SetRequest(namespace, key, v, profile), now, None);
      first.1.Ok? && t1 == first.0
    requires var second := Serve(ForgetTx(t1, who.account), site, who,
                                SetRequest(namespace, key, u, profile), now, None);
      second.1.Ok? && t3 == second.0
    ensures var before, after := ResolveFor(site, t1, who, namespace, profile),
                               ResolveFor(site, t3, who, namespace, profile);
      && before.Ok? && after.Ok?
      && before.value.etag == after.value.etag
      && before.value.entries != after.value.entries
      && Get(before.value.entries, key).Some? && Get(before.value.entries, key).value.value == v
      && Get(after.value.entries, key).Some? && Get(after.value.entries, key).value.value == u
  {
    var c := SetPlansOne(site, who, namespace, key, v, profile);
    var d := SetPlansOne(site, who, namespace, key, u, profile);
    FirstSet(site, t, who, SetRequest(namespace, key, v, profile), now, c);
    ForgetAgrees(t1, who.account);
    FirstSet(site, ForgetTx(t1, who.account), who, SetRequest(namespace, key, u, profile), now, d);
    SetIsPicked(site, who, namespace, key, v, profile, c, t1);
    SetIsPicked(site, who, namespace, key, u, profile, d, t3);
    ServedRow(site, t1, who, namespace, key, profile, Definition(site, who, namespace, key).value, v);
    ServedRow(site, t3, who, namespace, key, profile, Definition(site, who, namespace, key).value, u);
  }

  // -- Long profile names --------------------------------------------------------------------------------

  const LONGEST_PROFILE := 64

  /** The plan has a value for a profile whose name the schema refuses. */
  predicate NamesTooLong(changes: seq<Change>) { exists c | c in changes :: !c.reset && |c.profile| > LONGEST_PROFILE }

  lemma LongMeansViolation(site: Site, who: Identity, request: Request, t: Tables)
    requires WellFormed(site.lib, site.catalogue) && RowsOk(site, t) && Plan(site, who, request).Ok?
    ensures var changes := Plan(site, who, request).value;
      NamesTooLong(changes) <==> exists c | c in changes ::
        Effective(c, RowsOf(t.settings, who.account)) && !c.reset && !(1 <= |c.profile| <= LONGEST_PROFILE)
  {
    var changes, rows := Plan(site, who, request).value, RowsOf(t.settings, who.account);
    forall c | c in changes && !c.reset
      ensures |c.profile| >= 1 && (|c.profile| > LONGEST_PROFILE ==> Effective(c, rows))
    {
      PlannedChangesAreSanctioned(site, who, request, c);
      if c.Key() in rows { assert RowOk(site, c.Key(), t.settings[RowId(who.account, c.Key())]); }
    }
  }

  /** An accepted request is refused by the schema's length limit if and only if nothing earlier
      refuses it and it has a value for a profile name over that limit. */
  lemma RefusedForLengthExactlyWhen(site: Site, t: Tables, who: Identity, request: Request, now: int,
                                    ifRevision: Option<nat>)
    requires WellFormed(site.lib, site.catalogue) && RowsOk(site, t) && Plan(site, who, request).Ok?
    ensures Serve(t, site, who, request, now, ifRevision) == (t, Err(ServiceError.Refused(ProfileLength))) <==>
      && (ifRevision.Some? ==> ifRevision.value == RevisionOf(t, who.account))
      && WithinCap(Plan(site, who, request).value, RowsOf(t.settings, who.account))
      && NamesTooLong(Plan(site, who, request).value)
  {
    var changes := Plan(site, who, request).value;
    var w := WriteFor(site, who, request, changes, now, ifRevision);
    LongMeansViolation(site, who, request, t);
    LoopReports(t.settings, who.account, changes, RowsOf(t.settings, who.account), now, w.actor);
  }

  /** An item of an import that lands under a profile name over the limit. */
  predicate TooLong(site: Site, item: Item) {
    item.profile.Some? && |item.profile.value| > LONGEST_PROFILE && !AccountScoped(site, item.name)
  }

  /** For an accepted version 2 import that is: some profile-scoped setting sits under a name over
      the limit, which the profile pattern lets through and the importer does not check. */
  lemma ImportNamesTooLongExactlyWhen(site: Site, who: Identity, document: Document, profiles: Dict<string, Document>)
    requires WellFormed(site.lib, site.catalogue) && ImportSpec(site, who, document, profiles, 2).Ok?
    ensures NamesTooLong(ImportSpec(site, who, document, profiles, 2).value) <==>
      exists i | 0 <= i < |ImportItems(document, profiles)| :: TooLong(site, ImportItems(document, profiles)[i])
  {
    var changes, items := ImportSpec(site, who, document, profiles, 2).value, ImportItems(document, profiles);
    ImportBecomesItsItems(site, who, document, profiles);
    forall i | 0 <= i < |items|
      ensures !changes[i].reset
      ensures |changes[i].profile| > LONGEST_PROFILE <==> TooLong(site, items[i])
    {
      assert Sanctioned(site, who, changes[i]);
    }
    if NamesTooLong(changes) {
      var c :| c in changes && !c.reset && |c.profile| > LONGEST_PROFILE;
      var i :| 0 <= i < |changes| && changes[i] == c;
      assert TooLong(site, items[i]);
    }
    if i :| 0 <= i < |items| && TooLong(site, items[i]) {
      assert changes[i] in changes;
    }
  }

  // -- Documents of one setting -------------------------------------------------------------------------

  function Single(name: Name, v: Value): Document { [(name.namespace, [(name.key, v)])] }

  lemma SingleEntries(name: Name, v: Value)
    ensures Entries(Single(name, v)) == [(name, v)]
  {
    assert Single(name, v)[..0] == [];
    assert Entries(Single(name, v)) == Named(name.namespace, [(name.key, v)]);
  }

  lemma SingleAccepted(site: Site, who: Identity, name: Name, v: Value, profile: Option<string>)
    requires WellFormed(site.lib, site.catalogue) && Takes(site, who, name, v, profile.Some?)
    ensures ChangesForSpec(site, who, Single(name, v), profile).Ok?
  {
    var document := Single(name, v);
    SingleEntries(name, v);
    assert Permit(site, who, name.namespace).None?;
    assert forall i | 0 <= i < |document| :: document[i].0 == name.namespace;
    assert Permitted(site, who, document);
    AcceptedExactlyWhen(site, who, document, profile);
  }

  lemma SingleChange(site: Site, who: Identity, name: Name, v: Value, profile: Option<string>)
    requires WellFormed(site.lib, site.catalogue) && Takes(site, who, name, v, profile.Some?)
    requires profile.Some? ==> ProfileShaped(profile.value)
    ensures ChangesForSpec(site, who, Single(name, v), profile) == Ok([ChangeAt(site, (name, v), profile)])
  {
    SingleAccepted(site, who, name, v, profile);
    SingleEntries(name, v);
    DocumentBecomesItsEntries(site, who, Single(name, v), profile);
    var changes := ChangesForSpec(site, who, Single(name, v), profile).value;
    assert changes == [changes[0]];
  }

  lemma OneProfile(site: Site, who: Identity, profile: string, document: Document)
    requires ProfileShaped(profile)
    ensures ProfiledChanges(site, who, [(profile, document)]) == ChangesForSpec(site, who, document, Some(profile))
  {
    var profiles := [(profile, document)];
    assert profiles[..0] == [];
    assert ProfiledChanges(site, who, profiles[..0]) == Ok([]);
    assert NormaliseProfile(Some(profile)) == Ok(Some(profile));
    var more := ChangesForSpec(site, who, document, Some(profile));
    if more.Ok? { assert [] + more.value == more.value; }
  }

  lemma ImportOfOne(site: Site, who: Identity, name: Name, v: Value, profile: string)
    requires WellFormed(site.lib, site.catalogue) && Takes(site, who, name, v, true) && ProfileShaped(profile)
    ensures ImportSpec(site, who, [], [(profile, Single(name, v))], 2) == Ok([ChangeAt(site, (name, v), Some(profile))])
  {
    SingleChange(site, who, name, v, Some(profile));
    OneProfile(site, who, profile, Single(name, v));
    var c := ChangeAt(site, (name, v), Some(profile));
    assert ChangesForSpec(site, who, [], None) == Ok([]);
    assert [] + [c] == [c];
  }

  // -- Away and back ----------------------------------------------------------------------------------------

  /** A version 2 import that puts an account-scoped setting in two places is accepted, and its plan
      changes one row twice. Where the row holds the second value, the import leaves the first; sent
      again it leaves the second; each time it reports a change and moves the revision. */
  lemma AnImportGoesAwayAndBack(site: Site, t: Tables, who: Identity, name: Name, v: Value, u: Value, profile: string,
                                now: int)
    requires WellFormed(site.lib, site.catalogue) && Ordered(t.events, t.nextSequence) && v != u
    requires ProfileShaped(profile)
    requires AccountScoped(site, name) && Takes(site, who, name, v, true) && Takes(site, who, name, u, true)
    requires Look(RowsOf(t.settings, who.account), RowKey(ACCOUNT_PROFILE, name)) == Some(v)
    ensures var request := ImportRequest(Single(name, u), [(profile, Single(name, v))], 2);
      var (t1, first) := Serve(t, site, who, request, now, None);
      var (t2, second) := Serve(t1, site, who, request, now, None);
      && Plan(site, who, request) == Ok(AwayAndBackChanges(name, u, v))
      && first.Ok? && Look(RowsOf(t1.settings, who.account), RowKey(ACCOUNT_PROFILE, name)) == Some(u)
      && second.Ok? && Look(RowsOf(t2.settings, who.account), RowKey(ACCOUNT_PROFILE, name)) == Some(v)
      && RevisionOf(t2, who.account) == RevisionOf(t, who.account) + 2
  {
    var request := ImportRequest(Single(name, u), [(profile, Single(name, v))], 2);
    var changes := AwayAndBackChanges(name, u, v);
    AwayAndBackPlan(site, who, name, v, u, profile);
    var t1 := ApplyTx(t, WriteFor(site, who, request, changes, now, None)).0;
    PlannedIsServed(t, site, who, request, changes, now);
    PlannedIsServed(t1, site, who, request, changes, now);
    AwayAndBack(t, WriteFor(site, who, request, changes, now, None), name, u, v);
  }

  lemma PlannedIsServed(t: Tables, site: Site, who: Identity, request: Request, changes: seq<Change>, now: int)
    requires Plan(site, who, request) == Ok(changes)
    ensures var (t', r) := ApplyTx(t, WriteFor(site, who, request, changes, now, None));
      Serve(t, site, who, request, now, None) ==
        (t', if r.Err? then Err(ServiceError.Refused(r.error)) else Ok(r.value))
  {}

  lemma AwayAndBackPlan(site: Site, who: Identity, name: Name, v: Value, u: Value, profile: string)
    requires WellFormed(site.lib, site.catalogue) && ProfileShaped(profile) && AccountScoped(site, name)
    requires Takes(site, who, name, v, true) && Takes(site, who, name, u, true)
    ensures ImportSpec(site, who, Single(name, u), [(profile, Single(name, v))], 2)
         == Ok(AwayAndBackChanges(name, u, v))
  {
    SingleChange(site, who, name, u, None);
    SingleChange(site, who, name, v, Some(profile));
    OneProfile(site, who, profile, Single(name, v));
    var away, back := ChangeAt(site, (name, u), None), ChangeAt(site, (name, v), Some(profile));
    assert [away] + [back] == AwayAndBackChanges(name, u, v);
  }

  // -- A small deployment ---------------------------------------------------------------------------------------

  const LIBRARY := Library((p, s) => true, s => true, s => false, v => 0, s => s, s => None)
  const NOTES := Notes("short", "longer", Never, None)
  const UNBOUNDED := Bounds(None, None, [], None)
  const ANY_TEXT := TextRules(None, None, None, false)

  /** One setting for each profile. */
  const TONE := SettingDef("app", "tone", BoolType, Bool(false), UseDefault, UNBOUNDED, ANY_TEXT, false, false, false,
                           ProfileScope, [Bool(false)], NOTES, None)

  /** One for the account, which a policy may narrow. */
  const LEVEL := SettingDef("app", "level", IntType, Int(1), UseDefault, UNBOUNDED, ANY_TEXT, false, true, false,
                            AccountScope, [Int(1)], NOTES, None)

  const SETTINGS := [("common", []), ("app", [TONE, LEVEL])]
  const SITE := Site(LIBRARY, SETTINGS, NO_POLICY, 10, 100, 30)
  const ANNA := Identity("anna", "settings", {"common", "app"}, None)

  lemma SmallNames()
    ensures KeyShaped("app") && KeyShaped("tone") && KeyShaped("level")
    ensures "tone" != "level" && "common" != "app"
  {
    assert "tone"[0] == 't' && "level"[0] == 'l' && "common"[0] == 'c' && "app"[0] == 'a';
  }

  lemma SmallEntries()
    ensures WellFormedEntry(LIBRARY, TONE) && WellFormedEntry(LIBRARY, LEVEL)
  {
    SmallNames();
    assert "short"[0] == 's' && "longer"[0] == 'l';
    assert "app"[0] == 'a' && "common"[0] == 'c';
    assert "tone"[0] == 't' && "level"[0] == 'l' && "default_profile"[0] == 'd';
  }

  lemma SmallCatalogue()
    ensures WellFormed(LIBRARY, SETTINGS) && TONE in EveryEntry(SETTINGS) && LEVEL in EveryEntry(SETTINGS)
    ensures Has(SETTINGS, COMMON) && Has(SETTINGS, "app")
  {
    SmallNames();
    SmallEntries();
    EveryEntryIn(SETTINGS);
    assert SETTINGS[0].0 == COMMON && SETTINGS[1].0 == "app";
    assert TONE in SETTINGS[1].1 && LEVEL in SETTINGS[1].1;
    assert WellFormedNamespace(LIBRARY, SETTINGS[0].0, SETTINGS[0].1);
    assert WellFormedNamespace(LIBRARY, SETTINGS[1].0, SETTINGS[1].1);
  }

  /** There are deployments: this one starts, with an empty policy. */
  lemma SmallSiteIsDeployed()
    ensures Deployed(SITE)
  {
    SmallCatalogue();
    assert WellKeyed(JObject([])) && ParseSpec(LIBRARY, SETTINGS, JObject([])) == Ok(NO_POLICY);
  }

  lemma SmallSiteTakes(d: SettingDef, v: Value)
    requires (d == TONE && v.Bool?) || (d == LEVEL && v.Int?)
    ensures DefinitionFor(SETTINGS, d.namespace, d.key) == Ok(d) && Takes(SITE, ANNA, d.Named(), v, true)
  {
    SmallCatalogue();
    EntryFacts(LIBRARY, SETTINGS, d);
  }

  /** A profile name of sixty-five letters. */
  function LongName(): (s: string)
    ensures |s| == 65 && ProfileShaped(s)
  {
    seq(65, _ => 'a')
  }

  function LongImport(): Request { ImportRequest([], [(LongName(), Single(TONE.Named(), Bool(true)))], 2) }

  lemma LongImportPlans(c: Change)
    requires c == ChangeAt(SITE, (TONE.Named(), Bool(true)), Some(LongName()))
    ensures Plan(SITE, ANNA, LongImport()) == Ok([c]) && c.profile == LongName() && !c.reset
  {
    SmallCatalogue();
    SmallSiteTakes(TONE, Bool(true));
    ImportOfOne(SITE, ANNA, TONE.Named(), Bool(true), LongName());
  }

  /** An import into empty tables whose plan is accepted and which the schema then refuses. */
  lemma ALongNameIsRefused(now: int)
    ensures Plan(SITE, ANNA, LongImport()).Ok?
    ensures Serve(EMPTY, SITE, ANNA, LongImport(), now, None) == (EMPTY, Err(ServiceError.Refused(ProfileLength)))
  {
    var c := ChangeAt(SITE, (TONE.Named(), Bool(true)), Some(LongName()));
    SmallCatalogue();
    LongImportPlans(c);
    EmptyIsOk(SITE);
    OneNameFits(c);
    assert RowsOf(EMPTY.settings, ANNA.account) == map[];
    RefusedForLengthExactlyWhen(SITE, EMPTY, ANNA, LongImport(), now, None);
    assert c in [c] && NamesTooLong([c]);
  }

  lemma OneNameFits(c: Change)
    ensures WithinCap([c], map[])
  {
    assert Profiles(map[]) == {};
    assert Incoming([c]) <= {c.profile};
    SubsetSize(Profiles(map[]) + Incoming([c]), {c.profile});
  }

  /** A document of one setting parses as that setting does. */
  lemma OneSettingPolicy(c: Catalogue, namespace: string, key: string, clauses: Json)
    requires Has(c, namespace)
    ensures ParseSpec(LIBRARY, c, JObject([(namespace, JObject([(key, clauses)]))]))
         == ParseSetting(LIBRARY, c, namespace, key, clauses, NO_POLICY)
  {
    var settings: Dict<string, Json> := [(key, clauses)];
    var document: Dict<string, Json> := [(namespace, JObject(settings))];
    assert settings[..0] == [] && document[..0] == [];
    assert ParseSettings(LIBRARY, c, namespace, settings[..0], NO_POLICY) == Ok(NO_POLICY);
    assert ParseNamespaces(LIBRARY, c, document[..0]) == Ok(NO_POLICY);
  }

  const CROSSED: Dict<string, Json> := [("minimum", JInt(10)), ("maximum", JInt(3))]

  lemma CrossedParses()
    ensures var parsed := ParseSetting(LIBRARY, SETTINGS, "app", "level", JObject(CROSSED), NO_POLICY);
      && parsed.Ok? && Narrow(LIBRARY, LEVEL, ClausesIn(CROSSED)) == Ok(parsed.value.DefinitionOf(LEVEL))
  {
    SmallSiteTakes(LEVEL, Int(1));
    CrossedClauses();
  }

  /** A policy document that contradicts itself and is accepted. */
  lemma AContradictionStarts()
    ensures var parsed := ParseSpec(LIBRARY, SETTINGS, JObject([("app", JObject([("level", JObject(CROSSED))]))]));
      parsed.Ok? && !Satisfiable(LIBRARY, parsed.value.DefinitionOf(LEVEL))
  {
    SmallCatalogue();
    CrossedParses();
    CrossedLeavesNothing();
    OneSettingPolicy(SETTINGS, "app", "level", JObject(CROSSED));
  }

  lemma CrossedLeavesNothing()
    ensures Narrow(LIBRARY, LEVEL, ClausesIn(CROSSED)).Ok?
    ensures !Satisfiable(LIBRARY, Narrow(LIBRARY, LEVEL, ClausesIn(CROSSED)).value)
  {
    SmallEntries();
    CrossedParses();
    NoRoomNothingLegal(LEVEL, ClausesIn(CROSSED));
  }

  lemma NoRoomNothingLegal(d: SettingDef, clauses: Clauses)
    requires WellFormedEntry(LIBRARY, d) && Narrow(LIBRARY, d, clauses).Ok?
    requires d == LEVEL && clauses == ClausesIn(CROSSED)
    ensures !Satisfiable(LIBRARY, Narrow(LIBRARY, d, clauses).value)
  {
    NarrowedIsSatisfiableExactlyWhen(LIBRARY, d, clauses);
    CrossedHasNoRoom();
  }

  lemma CrossedHasNoRoom()
    ensures !LeavesRoom(LEVEL, ClausesIn(CROSSED))
  {
    CrossedClauses();
  }

  lemma CrossedClauses()
    ensures ClausesIn(CROSSED) == NO_CLAUSES.(minimum := Some(JInt(10)), maximum := Some(JInt(3)))
    ensures CROSSED[0].0 in CLAUSES && CROSSED[1].0 in CLAUSES
  {
    var fields := CROSSED;
    assert "minimum"[1] == 'i' && "maximum"[1] == 'a' && "max_items"[3] == '_' && "maximum"[3] == 'i';
    assert "pin"[0] == 'p' && "default"[0] == 'd' && "choices"[0] == 'c' && "minimum"[0] == 'm';
    assert "max_items"[1] == 'a';
    GetAt(fields, 0);
    GetAt(fields, 1);
    assert forall i | 0 <= i < 2 :: fields[i].0 in {"minimum", "maximum"};
  }

  // -- The other shortfalls there -----------------------------------------------------------------------------

  function SetLevel(n: int): Request { SetRequest("app", "level", Int(n), None) }

  lemma SetLevelPlans(n: int, c: Change)
    requires c == Change(LEVEL.Named(), Int(n), false, ACCOUNT_PROFILE)
    ensures PlansOne(SITE, ANNA, SetLevel(n), c)
  {
    SmallCatalogue();
    SmallSiteTakes(LEVEL, Int(n));
    OneChangeMade(SITE, ANNA, LEVEL, Int(n), None);
  }

  lemma AccountChangeCommits(t: Tables, w: Write, c: Change)
    requires w.changes == [c] && c.profile == ACCOUNT_PROFILE && w.ifRevision == None
    ensures ApplyTx(t, w).1.Ok?
  {
    assert Incoming([c]) == {};
    RefusedExactlyWhen(t, w);
  }

  /** Setting the level is always accepted there. */
  lemma LevelIsSet(t: Tables, n: int, now: int)
    ensures Serve(t, SITE, ANNA, SetLevel(n), now, None).1.Ok?
  {
    var c := Change(LEVEL.Named(), Int(n), false, ACCOUNT_PROFILE);
    SetLevelPlans(n, c);
    AccountChangeCommits(t, WriteFor(SITE, ANNA, SetLevel(n), [c], now, None), c);
    PlannedIsServed(t, SITE, ANNA, SetLevel(n), [c], now);
  }

  /** One tag for two levels: Anna sets two, forgets, and sets three. */
  lemma OneTagForTwoLevels(now: int, t1: Tables, t3: Tables)
    requires t1 == Serve(EMPTY, SITE, ANNA, SetLevel(2), now, None).0
    requires t3 == Serve(ForgetTx(t1, ANNA.account), SITE, ANNA, SetLevel(3), now, None).0
    ensures var before, after := ResolveFor(SITE, t1, ANNA, "app", None), ResolveFor(SITE, t3, ANNA, "app", None);
      before.Ok? && after.Ok? && before.value.etag == after.value.etag && before.value.entries != after.value.entries
  {
    SmallSiteIsDeployed();
    EmptyAgrees();
    LevelIsSet(EMPTY, 2, now);
    LevelIsSet(ForgetTx(t1, ANNA.account), 3, now);
    ForgettingReusesTags(SITE, EMPTY, ANNA, "app", "level", Int(2), Int(3), None, now, t1, t3);
  }

  lemma LevelIsHeld(t: Tables, now: int)
    requires t == Serve(EMPTY, SITE, ANNA, SetLevel(1), now, None).0
    ensures Agrees(t) && Look(RowsOf(t.settings, ANNA.account), RowKey(ACCOUNT_PROFILE, LEVEL.Named())) == Some(Int(1))
  {
    var c := Change(LEVEL.Named(), Int(1), false, ACCOUNT_PROFILE);
    EmptyAgrees();
    SetLevelPlans(1, c);
    LevelIsSet(EMPTY, 1, now);
    FirstSet(SITE, EMPTY, ANNA, SetLevel(1), now, c);
  }

  /** Away and back: with level one stored, an import of two for the account and one under a profile
      leaves two; sent again, it leaves one. */
  lemma LevelGoesAwayAndBack(t: Tables, now: int)
    requires t == Serve(EMPTY, SITE, ANNA, SetLevel(1), now, None).0
    ensures var k := RowKey(ACCOUNT_PROFILE, LEVEL.Named());
      var request := ImportRequest(Single(LEVEL.Named(), Int(2)), [("p", Single(LEVEL.Named(), Int(1)))], 2);
      var t1 := Serve(t, SITE, ANNA, request, now, None).0;
      var t2 := Serve(t1, SITE, ANNA, request, now, None).0;
      && Look(RowsOf(t1.settings, ANNA.account), k) == Some(Int(2))
      && Look(RowsOf(t2.settings, ANNA.account), k) == Some(Int(1))
  {
    SmallCatalogue();
    LevelIsHeld(t, now);
    SmallSiteTakes(LEVEL, Int(1));
    SmallSiteTakes(LEVEL, Int(2));
    assert ProfileShaped("p");
    AnImportGoesAwayAndBack(SITE, t, ANNA, LEVEL.Named(), Int(1), Int(2), "p", now);
  }
}
