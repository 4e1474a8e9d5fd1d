/** Which requests are served and which are refused, told from the request, the catalogue, the policy
    and the tables alone. */
module Admission {
  import opened Core
  import opened Dicts
  import opened SettingTypes
  import opened Catalogue
  import opened Resolution
  import opened Tables
  import opened Store
  import opened Merge
  import opened Service
  import opened Plans
  import opened Acceptance
  import opened Requests

  // -- What a request has to be ---------------------------------------------------------------------

  predicate ProfileLetter(c: char) { 'a' <= c <= 'z' || '0' <= c <= '9' }

  predicate ProfileInner(c: char) { ProfileLetter(c) || c == '.' || c == '_' || c == '-' }

  /** `[a-z0-9](?:[a-z0-9._-]*[a-z0-9])?`, from end to end. */
  predicate MatchesProfilePattern(s: string) {
    && s != [] && ProfileLetter(s[0])
    && (|s| == 1 || (ProfileLetter(s[|s| - 1]) && forall i | 0 < i < |s| - 1 :: ProfileInner(s[i])))
  }

  ghost predicate ProfileFits(profile: Option<string>) { NoProfile(profile) || MatchesProfilePattern(profile.value) }

  /** A namespace the build has and the caller was granted. */
  ghost predicate Granted(site: Site, who: Identity, namespace: string) {
    HasNamespace(site.catalogue, namespace) && namespace in who.namespaces
  }

  /** What the entry, as this deployment narrowed it, allows; that holds no credential; and that is
      not too long to store. */
  predicate Passes(site: Site, d: SettingDef, v: Value) {
    && Legal(site.lib, site.policy.DefinitionOf(d), v)
    && !HoldsCredential(site.lib, v)
    && site.lib.encodedBytes(v) <= site.maxValueBytes
  }

  /** A live setting this caller may write, and give this value under this profile. */
  ghost predicate MayHold(site: Site, who: Identity, name: Name, v: Value, profile: Option<string>) {
    exists d | LiveAs(site.catalogue, name.namespace, name.key, d) ::
      Writable(site, who, d) && Passes(site, d, v) && (d.scope.ProfileScope? ==> !NoProfile(profile))
  }

  ghost predicate MayReset(site: Site, who: Identity, name: Name, profile: Option<string>) {
    exists d | LiveAs(site.catalogue, name.namespace, name.key, d) ::
      Writable(site, who, d) && (d.scope.ProfileScope? ==> !NoProfile(profile))
  }

  ghost predicate DocumentFits(site: Site, who: Identity, document: Document, profile: Option<string>) {
    && (forall i | 0 <= i < |document| :: Granted(site, who, document[i].0))
    && (forall name, v | Holds(document, name, v) :: MayHold(site, who, name, v, profile))
  }

  ghost predicate ProfilesFit(site: Site, who: Identity, profiles: Dict<string, Document>) {
    forall m | 0 <= m < |profiles| :: ProfileDocumentFits(site, who, profiles[m].0, profiles[m].1)
  }

  ghost predicate ProfileDocumentFits(site: Site, who: Identity, profile: string, document: Document) {
    ProfileFits(Some(profile)) && DocumentFits(site, who, document, Some(profile))
  }

  /** A request the service has nothing against. */
  ghost predicate Fits(site: Site, who: Identity, request: Request) {
    match request
    case SetRequest(namespace, key, v, profile) =>
      && ProfileFits(profile) && Granted(site, who, namespace)
      && MayHold(site, who, Name(namespace, key), v, profile)
    case UpdateRequest(document, profile) => ProfileFits(profile) && DocumentFits(site, who, document, profile)
    case ImportRequest(document, profiles, version) =>
      if version == 1 then DocumentFits(site, who, document, Some("personal"))
      else version == 2 && DocumentFits(site, who, document, None) && ProfilesFit(site, who, profiles)
    case ResetRequest(namespace, key, profile) =>
      && ProfileFits(profile) && Granted(site, who, namespace)
      && MayReset(site, who, Name(namespace, key), profile)
    case ResetAllRequest(namespace, profile) => ProfileFits(profile) && Granted(site, who, namespace)
  }

  // -- Profiles and namespaces ------------------------------------------------------------------------

  lemma ShapeIsPattern(s: string)
    ensures ProfileShaped(s) <==> MatchesProfilePattern(s)
  {
    forall i | 0 <= i < |s|
      ensures ProfileEnd(s[i]) <==> ProfileLetter(s[i])
      ensures ProfileEnd(s[i]) || s[i] in {'.', '_', '-'} <==> ProfileInner(s[i])
    {}
  }

  lemma ProfileTakenExactlyWhen(profile: Option<string>)
    ensures NormaliseProfile(profile)
         == if NoProfile(profile) then Ok(None) else if ProfileFits(profile) then Ok(profile) else Err(InvalidProfile)
  {
    if !NoProfile(profile) { ShapeIsPattern(profile.value); }
  }

  lemma PermittedExactlyWhen(site: Site, who: Identity, namespace: string)
    requires WellFormed(site.lib, site.catalogue)
    ensures Permit(site, who, namespace).None? <==> Granted(site, who, namespace)
    ensures Permit(site, who, namespace) == Some(NoSuchNamespace) <==> !HasNamespace(site.catalogue, namespace)
  {}

  // -- One entry ---------------------------------------------------------------------------------------

  lemma PassesExactlyWhen(site: Site, d: SettingDef, v: Value)
    ensures Validated(site.lib, site.policy.DefinitionOf(d), v, site.maxValueBytes).Ok? <==> Passes(site, d, v)
  {}

  lemma TakenExactlyWhen(site: Site, who: Identity, name: Name, v: Value, profile: Option<string>)
    requires WellFormed(site.lib, site.catalogue) && name.namespace in who.namespaces
    ensures Takes(site, who, name, v, !NoProfile(profile)) <==> MayHold(site, who, name, v, profile)
  {
    OneLiveEntry(site.lib, site.catalogue, name.namespace, name.key);
    var found := DefinitionFor(site.catalogue, name.namespace, name.key);
    if found.Ok? {
      PassesExactlyWhen(site, found.value, v);
      WritableIs(site, who, found.value);
    }
  }

  // -- A document ------------------------------------------------------------------------------------------

  lemma SectionsPermitted(site: Site, who: Identity, document: Document)
    requires WellFormed(site.lib, site.catalogue)
    ensures Permitted(site, who, document) <==> forall i | 0 <= i < |document| :: Granted(site, who, document[i].0)
  {
    forall namespace
      ensures Permit(site, who, namespace).None? <==> Granted(site, who, namespace)
    {
      PermittedExactlyWhen(site, who, namespace);
    }
  }

  lemma HeldIsAnEntry(document: Document, name: Name, v: Value)
    requires UniqueDocument(document)
    ensures Holds(document, name, v) <==> (name, v) in Entries(document)
  {
    HeldIsLookedUp(document, name, v);
    EntriesAreLookups(document, name, v);
  }

  lemma HeldIsGranted(site: Site, who: Identity, document: Document, name: Name, v: Value)
    requires forall i | 0 <= i < |document| :: Granted(site, who, document[i].0)
    requires Holds(document, name, v)
    ensures name.namespace in who.namespaces
  {}

  lemma EntriesTaken(site: Site, who: Identity, document: Document, profile: Option<string>)
    requires WellFormed(site.lib, site.catalogue) && UniqueDocument(document)
    requires forall i | 0 <= i < |document| :: Granted(site, who, document[i].0)
    ensures AllTaken(site, who, Entries(document), !NoProfile(profile)) <==>
      forall name, v | Holds(document, name, v) :: MayHold(site, who, name, v, profile)
  {
    var entries := Entries(document);
    forall name, v
      ensures Holds(document, name, v) <==> (name, v) in entries
      ensures Holds(document, name, v) ==>
        (Takes(site, who, name, v, !NoProfile(profile)) <==> MayHold(site, who, name, v, profile))
    {
      HeldIsAnEntry(document, name, v);
      if Holds(document, name, v) {
        HeldIsGranted(site, who, document, name, v);
        TakenExactlyWhen(site, who, name, v, profile);
      }
    }
    forall i | 0 <= i < |entries|
      ensures Holds(document, entries[i].0, entries[i].1)
    {
      assert entries[i] in entries;
    }
  }

  lemma DocumentTakenExactlyWhen(site: Site, who: Identity, document: Document, profile: Option<string>)
    requires WellFormed(site.lib, site.catalogue) && UniqueDocument(document)
    requires profile.Some? ==> profile.value != ""
    ensures ChangesForSpec(site, who, document, profile).Ok? <==> DocumentFits(site, who, document, profile)
  {
    AcceptedExactlyWhen(site, who, document, profile);
    SectionsPermitted(site, who, document);
    if Permitted(site, who, document) { EntriesTaken(site, who, document, profile); }
  }

  // -- A version 1 import ----------------------------------------------------------------------------------

  /** Splitting by scope meets the same refusals and the same unknown settings as sorting does. */
  lemma {:induction false} SectionSplitsAsSorted(known: map<string, SettingDef>, namespace: string,
                                                 entries: Dict<string, Value>, l: Legacy, s: Sorted)
    requires l.unknown == s.unknown
    ensures SplitSection(known, namespace, entries, l).unknown == SortSection(known, namespace, entries, s).unknown
  {
    if entries != [] { SectionSplitsAsSorted(known, namespace, entries[..|entries| - 1], l, s); }
  }

  lemma {:induction false} SplitsAsSorted(site: Site, who: Identity, document: Document)
    ensures SplitAll(site, who, document).Ok? <==> SortDocument(site, who, document).Ok?
    ensures SplitAll(site, who, document).Ok? ==>
      SplitAll(site, who, document).value.unknown == SortDocument(site, who, document).value.unknown
  {
    if document != [] {
      var n := |document| - 1;
      SplitsAsSorted(site, who, document[..n]);
      var l, s := SplitAll(site, who, document[..n]), SortDocument(site, who, document[..n]);
      if l.Ok? {
        SectionSplitsAsSorted(KnownIn(site, document[n].0), document[n].0, document[n].1, l.value, s.value);
      }
    }
  }

  /** Every section of the document is one the test passes. */
  ghost predicate SectionsAll(passes: string -> bool, document: Document) {
    forall i | 0 <= i < |document| :: passes(document[i].0)
  }

  lemma PutInSections(passes: string -> bool, target: Document, namespace: string, key: string, v: Value)
    requires SectionsAll(passes, target) && passes(namespace)
    ensures SectionsAll(passes, PutIn(target, namespace, key, v))
  {
    var section := if Has(target, namespace) then Get(target, namespace).value else [];
    var r := PutIn(target, namespace, key, v);
    PutHolds(target, namespace, Put(section, key, v));
    forall i | 0 <= i < |r|
      ensures passes(r[i].0)
    {
      assert r[i] in r;
      if r[i] in target {
        var j :| 0 <= j < |target| && target[j] == r[i];
      }
    }
  }

  lemma {:induction false} SectionSplitsAmong(passes: string -> bool, known: map<string, SettingDef>, namespace: string,
                                              entries: Dict<string, Value>, s: Legacy)
    requires SectionsAll(passes, s.account) && SectionsAll(passes, s.profiled) && passes(namespace)
    ensures var r := SplitSection(known, namespace, entries, s);
      SectionsAll(passes, r.account) && SectionsAll(passes, r.profiled)
  {
    if entries != [] {
      var n := |entries| - 1;
      SectionSplitsAmong(passes, known, namespace, entries[..n], s);
      var before := SplitSection(known, namespace, entries[..n], s);
      PutInSections(passes, before.account, namespace, entries[n].0, entries[n].1);
      PutInSections(passes, before.profiled, namespace, entries[n].0, entries[n].1);
    }
  }

  /** Both halves have sections of the document only. */
  lemma {:induction false} SplitsAmong(passes: string -> bool, site: Site, who: Identity, document: Document)
    requires SplitAll(site, who, document).Ok? && SectionsAll(passes, document)
    ensures var s := SplitAll(site, who, document).value;
      SectionsAll(passes, s.account) && SectionsAll(passes, s.profiled)
  {
    if document != [] {
      var n := |document| - 1;
      assert forall i | 0 <= i < n :: document[..n][i] == document[i];
      SplitsAmong(passes, site, who, document[..n]);
      SectionSplitsAmong(passes, KnownIn(site, document[n].0), document[n].0, document[n].1,
                         SplitAll(site, who, document[..n]).value);
    }
  }

  lemma HalfGranted(site: Site, who: Identity, document: Document, s: Legacy)
    requires SplitAll(site, who, document) == Ok(s)
    requires forall i | 0 <= i < |document| :: Granted(site, who, document[i].0)
    ensures forall i | 0 <= i < |s.account| :: Granted(site, who, s.account[i].0)
    ensures forall i | 0 <= i < |s.profiled| :: Granted(site, who, s.profiled[i].0)
  {
    SplitsAmong(namespace => Granted(site, who, namespace), site, who, document);
  }

  lemma LegacySplitsWhen(site: Site, who: Identity, document: Document)
    requires WellFormed(site.lib, site.catalogue) && UniqueDocument(document)
    ensures SplitSpec(site, who, document).Ok? <==>
      && (forall i | 0 <= i < |document| :: Granted(site, who, document[i].0))
      && (forall name, v | Holds(document, name, v) :: KnownName(site, name))
  {
    SplitsAsSorted(site, who, document);
    AllSectionsPermitted(site, who, document);
    SectionsPermitted(site, who, document);
    if SplitAll(site, who, document).Ok? {
      DocumentKnown(site, who, document);
      var entries := Entries(document);
      forall name, v
        ensures Holds(document, name, v) <==> (name, v) in entries
      {
        HeldIsAnEntry(document, name, v);
      }
      forall i | 0 <= i < |entries|
        ensures Holds(document, entries[i].0, entries[i].1)
      {
        assert entries[i] in entries;
      }
    }
  }

  /** Each half holds what the document holds of its scope. */
  lemma HalvesHold(site: Site, who: Identity, document: Document, s: Legacy, name: Name, v: Value)
    requires WellFormed(site.lib, site.catalogue) && UniqueDocument(document)
    requires SplitAll(site, who, document) == Ok(s) && s.unknown == []
    ensures UniqueDocument(s.account) && UniqueDocument(s.profiled)
    ensures Holds(s.account, name, v) <==> Holds(document, name, v) && AccountScoped(site, name)
    ensures Holds(s.profiled, name, v) <==> Holds(document, name, v) && !AccountScoped(site, name)
  {
    HalvesLook(site, who, document, s, name);
    HeldIsLookedUp(document, name, v);
    HeldIsLookedUp(s.account, name, v);
    HeldIsLookedUp(s.profiled, name, v);
  }

  /** What is the account's takes a value whether or not a profile is named. */
  lemma AccountHoldsAnyway(site: Site, who: Identity, name: Name, v: Value, profile: Option<string>)
    requires WellFormed(site.lib, site.catalogue) && AccountScoped(site, name)
    ensures MayHold(site, who, name, v, None) <==> MayHold(site, who, name, v, profile)
  {
    OneLiveEntry(site.lib, site.catalogue, name.namespace, name.key);
  }

  lemma HalvesFitExactlyWhen(site: Site, who: Identity, document: Document, s: Legacy)
    requires WellFormed(site.lib, site.catalogue) && UniqueDocument(document)
    requires SplitAll(site, who, document) == Ok(s) && s.unknown == []
    requires forall i | 0 <= i < |document| :: Granted(site, who, document[i].0)
    ensures UniqueDocument(s.account) && UniqueDocument(s.profiled)
    ensures DocumentFits(site, who, s.account, None) && DocumentFits(site, who, s.profiled, Some("personal")) <==>
      DocumentFits(site, who, document, Some("personal"))
  {
    HalfGranted(site, who, document, s);
    HalvesHold(site, who, document, s, Name("", ""), Null);
    forall name, v
      ensures Holds(s.account, name, v) <==> Holds(document, name, v) && AccountScoped(site, name)
      ensures Holds(s.profiled, name, v) <==> Holds(document, name, v) && !AccountScoped(site, name)
      ensures AccountScoped(site, name) ==>
        (MayHold(site, who, name, v, None) <==> MayHold(site, who, name, v, Some("personal")))
    {
      HalvesHold(site, who, document, s, name, v);
      if AccountScoped(site, name) { AccountHoldsAnyway(site, who, name, v, Some("personal")); }
    }
  }

  lemma FitsIsKnown(site: Site, who: Identity, document: Document, profile: Option<string>)
    requires WellFormed(site.lib, site.catalogue) && DocumentFits(site, who, document, profile)
    ensures forall name, v | Holds(document, name, v) :: KnownName(site, name)
  {
    forall name, v | Holds(document, name, v)
      ensures KnownName(site, name)
    {
      assert MayHold(site, who, name, v, profile);
      OneLiveEntry(site.lib, site.catalogue, name.namespace, name.key);
    }
  }

  lemma EmptyFits(site: Site, who: Identity, profile: Option<string>)
    ensures DocumentFits(site, who, [], profile)
  {}

  lemma LegacyTakenExactlyWhen(site: Site, who: Identity, document: Document, profiles: Dict<string, Document>)
    requires WellFormed(site.lib, site.catalogue) && UniqueDocument(document)
    ensures ImportSpec(site, who, document, profiles, 1).Ok? <==> DocumentFits(site, who, document, Some("personal"))
  {
    LegacySplitsWhen(site, who, document);
    if DocumentFits(site, who, document, Some("personal")) {
      FitsIsKnown(site, who, document, Some("personal"));
    }
    if SplitSpec(site, who, document).Ok? {
      var s := SplitAll(site, who, document).value;
      HalvesFitExactlyWhen(site, who, document, s);
      DocumentTakenExactlyWhen(site, who, s.account, None);
      DocumentTakenExactlyWhen(site, who, s.profiled, Some("personal"));
      if s.profiled == [] { EmptyFits(site, who, Some("personal")); }
    }
  }

  // -- Every request --------------------------------------------------------------------------------------

  lemma LastProfileFits(site: Site, who: Identity, profiles: Dict<string, Document>)
    requires profiles != []
    ensures var n := |profiles| - 1;
      ProfilesFit(site, who, profiles) <==>
        ProfilesFit(site, who, profiles[..n]) && ProfileDocumentFits(site, who, profiles[n].0, profiles[n].1)
  {
    var n := |profiles| - 1;
    assert forall m | 0 <= m < n :: profiles[..n][m] == profiles[m];
  }

  lemma NormalisedFits(site: Site, who: Identity, document: Document, profile: Option<string>)
    requires WellFormed(site.lib, site.catalogue) && UniqueDocument(document)
    ensures ProfileFits(profile) && DocumentFits(site, who, document, profile) <==>
      var named := NormaliseProfile(profile); named.Ok? && ChangesForSpec(site, who, document, named.value).Ok?
  {
    ProfileTakenExactlyWhen(profile);
    if ProfileFits(profile) {
      var named := NormaliseProfile(profile).value;
      DocumentTakenExactlyWhen(site, who, document, named);
      forall name, v
        ensures MayHold(site, who, name, v, named) <==> MayHold(site, who, name, v, profile)
      {}
    }
  }

  lemma {:induction false} ProfilesTakenExactlyWhen(site: Site, who: Identity, profiles: Dict<string, Document>)
    requires WellFormed(site.lib, site.catalogue) && UniqueProfiles(profiles)
    ensures ProfiledChanges(site, who, profiles).Ok? <==> ProfilesFit(site, who, profiles)
  {
    if profiles != [] {
      var n := |profiles| - 1;
      assert UniqueProfiles(profiles[..n]) by {
        assert forall m | 0 <= m < n :: profiles[..n][m] == profiles[m];
      }
      ProfilesTakenExactlyWhen(site, who, profiles[..n]);
      LastProfileFits(site, who, profiles);
      NormalisedFits(site, who, profiles[n].1, Some(profiles[n].0));
    }
  }

  lemma SettingFound(site: Site, who: Identity, namespace: string, key: string, d: SettingDef)
    requires WellFormed(site.lib, site.catalogue)
    ensures Definition(site, who, namespace, key) == Ok(d) <==>
      Granted(site, who, namespace) && LiveAs(site.catalogue, namespace, key, d)
  {
    PermittedExactlyWhen(site, who, namespace);
    FoundExactlyWhen(site.lib, site.catalogue, namespace, key, d);
  }

  lemma SetTakenExactlyWhen(site: Site, who: Identity, request: Request)
    requires WellFormed(site.lib, site.catalogue) && request.SetRequest?
    ensures Plan(site, who, request).Ok? <==> Fits(site, who, request)
  {
    var name := Name(request.namespace, request.key);
    ProfileTakenExactlyWhen(request.profile);
    OneLiveEntry(site.lib, site.catalogue, name.namespace, name.key);
    PermittedExactlyWhen(site, who, name.namespace);
    var found := Definition(site, who, name.namespace, name.key);
    if found.Ok? && ProfileFits(request.profile) {
      OneChangeMade(site, who, found.value, request.value, NormaliseProfile(request.profile).value);
      PassesExactlyWhen(site, found.value, request.value);
      WritableIs(site, who, found.value);
    }
  }

  lemma ResetTakenExactlyWhen(site: Site, who: Identity, request: Request)
    requires WellFormed(site.lib, site.catalogue) && request.ResetRequest?
    ensures Plan(site, who, request).Ok? <==> Fits(site, who, request)
  {
    var name := Name(request.namespace, request.key);
    ProfileTakenExactlyWhen(request.profile);
    OneLiveEntry(site.lib, site.catalogue, name.namespace, name.key);
    PermittedExactlyWhen(site, who, name.namespace);
    var found := Definition(site, who, name.namespace, name.key);
    if found.Ok? { WritableIs(site, who, found.value); }
  }

  /** The service takes exactly the requests it should have nothing against: profile names of the
      pattern, namespaces it has and granted, settings that are live and this caller's to write, and
      values they allow. */
  lemma TakenExactlyWhenItFits(site: Site, who: Identity, request: Request)
    requires WellFormed(site.lib, site.catalogue) && Parsed(request)
    ensures Plan(site, who, request).Ok? <==> Fits(site, who, request)
  {
    match request
    case SetRequest(_, _, _, _) => SetTakenExactlyWhen(site, who, request);
    case UpdateRequest(document, profile) => NormalisedFits(site, who, document, profile);
    case ImportRequest(document, profiles, version) =>
      if version == 1 {
        LegacyTakenExactlyWhen(site, who, document, profiles);
      } else {
        DocumentTakenExactlyWhen(site, who, document, None);
        ProfilesTakenExactlyWhen(site, who, profiles);
      }
    case ResetRequest(_, _, _) => ResetTakenExactlyWhen(site, who, request);
    case ResetAllRequest(namespace, profile) =>
      ProfileTakenExactlyWhen(profile);
      PermittedExactlyWhen(site, who, namespace);
  }

  // -- What the store may still refuse ------------------------------------------------------------------

  predicate Expected(t: Tables, account: string, ifRevision: Option<nat>) {
    ifRevision.Some? ==> ifRevision.value == if account in t.accounts then t.accounts[account].revision else 0
  }

  /** The account has a row under this name already. */
  predicate InUse(t: Tables, account: string, profile: string) {
    exists id | id in t.settings :: id.account == account && id.key.profile == profile
  }

  ghost predicate AskedUnder(site: Site, request: Request, profile: string) {
    exists name, v :: Asks(site, request, RowKey(profile, name), v)
  }

  /** These are the profile names in use or asked for. */
  ghost predicate AreNames(site: Site, t: Tables, account: string, request: Request, names: set<string>) {
    forall p :: p in names <==> p != "*" && (InUse(t, account, p) || AskedUnder(site, request, p))
  }

  /** The request writes under some profile, and the names would then be more than thirty-two. */
  ghost predicate OverCap(site: Site, t: Tables, account: string, request: Request) {
    && (exists p :: p != "*" && AskedUnder(site, request, p))
    && exists names :: AreNames(site, t, account, request, names) && |names| > 32
  }

  predicate AlreadyHolds(t: Tables, id: RowId, v: Value) { id in t.settings && t.settings[id].value == v }

  /** A row would be written under a name of more than sixty-four characters. */
  ghost predicate WritesTooLong(site: Site, t: Tables, account: string, request: Request) {
    exists k, v :: Asks(site, request, k, v) && !AlreadyHolds(t, RowId(account, k), v) && |k.profile| > 64
  }

  /** The changes are the ones asked for. */
  ghost predicate AllAsked(site: Site, who: Identity, request: Request, changes: seq<Change>) {
    forall c :: c in changes <==> IsAsked(site, who, request, c)
  }

  lemma PlanIsAsked(site: Site, who: Identity, request: Request)
    requires WellFormed(site.lib, site.catalogue) && Parsed(request) && Plan(site, who, request).Ok?
    ensures AllAsked(site, who, request, Plan(site, who, request).value)
  {
    forall c
      ensures c in Plan(site, who, request).value <==> IsAsked(site, who, request, c)
    {
      PlannedExactlyWhenAsked(site, who, request, c);
    }
  }

  lemma IncomingIsAsked(site: Site, who: Identity, request: Request, changes: seq<Change>)
    requires AllAsked(site, who, request, changes)
    ensures forall p :: p in Incoming(changes) <==> p != "*" && AskedUnder(site, request, p)
  {
    forall p
      ensures p in Incoming(changes) <==> p != "*" && AskedUnder(site, request, p)
    {
      if p in Incoming(changes) {
        var c :| c in changes && c.profile != "*" && !c.reset && c.profile == p;
        assert Asks(site, request, RowKey(p, c.name), c.value);
      }
      if p != "*" && AskedUnder(site, request, p) {
        var name, v :| Asks(site, request, RowKey(p, name), v);
        assert Change(name, v, false, p) in changes;
      }
    }
  }

  lemma ProfilesInUse(t: Tables, account: string)
    ensures forall p :: p in Profiles(RowsOf(t.settings, account)) <==> p != "*" && InUse(t, account, p)
  {
    var rows := RowsOf(t.settings, account);
    forall p | p != "*" && InUse(t, account, p)
      ensures p in Profiles(rows)
    {
      var id :| id in t.settings && id.account == account && id.key.profile == p;
      assert id == RowId(account, id.key) && id.key in rows;
    }
  }

  /** The names counted are the names there are. */
  lemma NamesCounted(site: Site, t: Tables, account: string, request: Request, inUse: set<string>, asked: set<string>)
    requires forall p :: p in inUse <==> p != "*" && InUse(t, account, p)
    requires forall p :: p in asked <==> p != "*" && AskedUnder(site, request, p)
    ensures AreNames(site, t, account, request, inUse + asked)
    ensures forall names | AreNames(site, t, account, request, names) :: names == inUse + asked
  {}

  lemma SomeAsked(site: Site, request: Request, asked: set<string>)
    requires forall p :: p in asked <==> p != "*" && AskedUnder(site, request, p)
    ensures asked != {} <==> exists p :: p != "*" && AskedUnder(site, request, p)
  {
    if asked != {} {
      var p :| p in asked;
    }
  }

  lemma CapExactlyWhen(site: Site, t: Tables, who: Identity, request: Request, changes: seq<Change>)
    requires AllAsked(site, who, request, changes)
    ensures !WithinCap(changes, RowsOf(t.settings, who.account)) <==> OverCap(site, t, who.account, request)
  {
    IncomingIsAsked(site, who, request, changes);
    ProfilesInUse(t, who.account);
    var inUse, asked := Profiles(RowsOf(t.settings, who.account)), Incoming(changes);
    NamesCounted(site, t, who.account, request, inUse, asked);
    SomeAsked(site, request, asked);
  }

  lemma AskedIsNamed(site: Site, request: Request, k: RowKey, v: Value)
    requires Asks(site, request, k, v)
    ensures |k.profile| >= 1
  {
    if request.ImportRequest? && HoldsUnder(request.profiles, site, k, v) {
      var m :| 0 <= m < |request.profiles|
        && HoldsAs(request.profiles[m].1, site, k, Some(request.profiles[m].0), v);
    }
  }

  lemma LengthExactlyWhen(site: Site, t: Tables, who: Identity, request: Request, changes: seq<Change>)
    requires AllAsked(site, who, request, changes)
    ensures var rows := RowsOf(t.settings, who.account);
      (exists c | c in changes :: Effective(c, rows) && !c.reset && !(1 <= |c.profile| <= 64)) <==>
        WritesTooLong(site, t, who.account, request)
  {
    var rows := RowsOf(t.settings, who.account);
    if c :| c in changes && Effective(c, rows) && !c.reset && !(1 <= |c.profile| <= 64) {
      AskedIsNamed(site, request, c.Key(), c.value);
      assert !AlreadyHolds(t, RowId(who.account, c.Key()), c.value);
    }
    if k, v :| Asks(site, request, k, v) && !AlreadyHolds(t, RowId(who.account, k), v) && |k.profile| > 64 {
      var c := Change(k.name, v, false, k.profile);
      assert c in changes && c.Key() == k && Effective(c, rows);
    }
  }

  lemma StoreAnswers(t: Tables, w: Write)
    ensures var rows, r := RowsOf(t.settings, w.account), ApplyTx(t, w).1;
      if w.ifRevision.Some? && w.ifRevision.value != RevisionOf(t, w.account) then r == Err(RevisionMismatch)
      else if !WithinCap(w.changes, rows) then r == Err(TooManyProfiles)
      else if exists c | c in w.changes :: Effective(c, rows) && !c.reset && !(1 <= |c.profile| <= 64)
      then r == Err(ProfileLength)
      else r.Ok?
    ensures ApplyTx(t, w).1.Err? ==> ApplyTx(t, w).0 == t
  {
    LoopReports(t.settings, w.account, w.changes, RowsOf(t.settings, w.account), w.now, w.actor);
  }

  /** A request is served exactly when it fits, expects the revision there is, keeps the account
      within its profiles and writes under no name too long; otherwise it is told the first of these
      that fails, and nothing has moved. */
  lemma ServedExactlyWhen(site: Site, t: Tables, who: Identity, request: Request, now: int, ifRevision: Option<nat>)
    requires WellFormed(site.lib, site.catalogue) && Parsed(request)
    ensures var (t', r) := Serve(t, site, who, request, now, ifRevision);
      && (r.Err? ==> t' == t)
      && if !Fits(site, who, request) then r.Err? && !r.error.Refused?
         else if !Expected(t, who.account, ifRevision) then r == Err(ServiceError.Refused(RevisionMismatch))
         else if OverCap(site, t, who.account, request) then r == Err(ServiceError.Refused(TooManyProfiles))
         else if WritesTooLong(site, t, who.account, request) then r == Err(ServiceError.Refused(ProfileLength))
         else r.Ok?
  {
    TakenExactlyWhenItFits(site, who, request);
    if Fits(site, who, request) {
      var changes := Plan(site, who, request).value;
      PlanIsAsked(site, who, request);
      StoreAnswersAsAsked(site, t, who, request, WriteFor(site, who, request, changes, now, ifRevision));
    } else {
      PlanBlamesNoStore(site, who, request);
    }
  }

  lemma StoreAnswersAsAsked(site: Site, t: Tables, who: Identity, request: Request, w: Write)
    requires AllAsked(site, who, request, w.changes) && w.account == who.account
    ensures var r := ApplyTx(t, w).1;
      && (r.Err? ==> ApplyTx(t, w).0 == t)
      && if !Expected(t, who.account, w.ifRevision) then r == Err(RevisionMismatch)
         else if OverCap(site, t, who.account, request) then r == Err(TooManyProfiles)
         else if WritesTooLong(site, t, who.account, request) then r == Err(ProfileLength)
         else r.Ok?
  {
    CapExactlyWhen(site, t, who, request, w.changes);
    LengthExactlyWhen(site, t, who, request, w.changes);
    StoreAnswers(t, w);
  }

  // -- The service's own refusals are not the store's ------------------------------------------------------

  lemma {:induction false} SortingBlamesNoStore(site: Site, who: Identity, document: Document)
    ensures SortDocument(site, who, document).Err? ==> !SortDocument(site, who, document).error.Refused?
    ensures SplitAll(site, who, document).Err? ==> !SplitAll(site, who, document).error.Refused?
  {
    if document != [] { SortingBlamesNoStore(site, who, document[..|document| - 1]); }
  }

  lemma {:induction false} ValuesBlameNoStore(site: Site, who: Identity, pending: Pending, profile: Option<string>)
    ensures ChangesOf(site, who, pending, profile).Err? ==> !ChangesOf(site, who, pending, profile).error.Refused?
  {
    if pending != [] { ValuesBlameNoStore(site, who, pending[..|pending| - 1], profile); }
  }

  lemma DocumentBlamesNoStore(site: Site, who: Identity, document: Document, profile: Option<string>)
    ensures var r := ChangesForSpec(site, who, document, profile); r.Err? ==> !r.error.Refused?
  {
    SortingBlamesNoStore(site, who, document);
    var s := SortDocument(site, who, document);
    if s.Ok? { ValuesBlameNoStore(site, who, s.value.pending, profile); }
  }

  lemma {:induction false} ProfilesBlameNoStore(site: Site, who: Identity, profiles: Dict<string, Document>)
    ensures var r := ProfiledChanges(site, who, profiles); r.Err? ==> !r.error.Refused?
  {
    if profiles != [] {
      var n := |profiles| - 1;
      ProfilesBlameNoStore(site, who, profiles[..n]);
      var named := NormaliseProfile(Some(profiles[n].0));
      if named.Ok? { DocumentBlamesNoStore(site, who, profiles[n].1, named.value); }
    }
  }

  lemma ImportBlamesNoStore(site: Site, who: Identity, request: Request)
    requires request.ImportRequest?
    ensures var r := Plan(site, who, request); r.Err? ==> !r.error.Refused?
  {
    if request.version == 1 {
      SortingBlamesNoStore(site, who, request.document);
      var split := SplitSpec(site, who, request.document);
      if split.Ok? {
        DocumentBlamesNoStore(site, who, split.value.0, None);
        DocumentBlamesNoStore(site, who, split.value.1, Some("personal"));
      }
    } else {
      DocumentBlamesNoStore(site, who, request.document, None);
      ProfilesBlameNoStore(site, who, request.profiles);
    }
  }

  lemma PlanBlamesNoStore(site: Site, who: Identity, request: Request)
    requires Plan(site, who, request).Err?
    ensures !Plan(site, who, request).error.Refused?
  {
    match request
    case UpdateRequest(document, profile) =>
      var named := NormaliseProfile(profile);
      if named.Ok? { DocumentBlamesNoStore(site, who, document, named.value); }
    case ImportRequest(_, _, _) => ImportBlamesNoStore(site, who, request);
    case _ =>
  }
}
