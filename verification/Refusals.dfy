/** What a refused request is told: the first thing against it, in the order the service looks. */
module Refusals {
  import opened Core
  import opened Dicts
  import opened SettingTypes
  import opened Catalogue
  import opened Resolution
  import opened Service
  import opened Plans
  import opened Acceptance
  import opened Admission

  /** Against a namespace: that there is none, before that it was not granted. */
  ghost function AgainstNamespace(site: Site, who: Identity, namespace: string): Option<ServiceError> {
    if !HasNamespace(site.catalogue, namespace) then Some(NoSuchNamespace)
    else if namespace !in who.namespaces then Some(NotGranted)
    else None
  }

  /** Against writing a setting at all: the pin, before the owner. */
  function AgainstWriting(site: Site, who: Identity, d: SettingDef): Option<ServiceError> {
    if d.Qualified() in site.policy.pins then Some(Pinned)
    else if d.ownerWritableOnly && who.service.Some? then Some(NotWritable)
    else None
  }

  /** Against a value: its shape, then credentials, then its size. */
  function AgainstValue(site: Site, d: SettingDef, v: Value): Option<ServiceError> {
    if !Legal(site.lib, site.policy.DefinitionOf(d), v) then Some(BadValue)
    else if HoldsCredential(site.lib, v) then Some(LooksLikeACredential)
    else if site.lib.encodedBytes(v) > site.maxValueBytes then Some(BadValue)
    else None
  }

  function AgainstProfile(d: SettingDef, profile: Option<string>): Option<ServiceError> {
    if d.scope.ProfileScope? && NoProfile(profile) then Some(NeedsProfile) else None
  }

  function FirstOf(a: Option<ServiceError>, b: Option<ServiceError>): Option<ServiceError> { if a.Some? then a else b }

  /** Against one set: writing, then the value, then the profile. */
  function AgainstSet(site: Site, who: Identity, d: SettingDef, v: Value, profile: Option<string>)
    : Option<ServiceError>
  {
    FirstOf(AgainstWriting(site, who, d), FirstOf(AgainstValue(site, d, v), AgainstProfile(d, profile)))
  }

  /** The request is refused with this, or taken if there is nothing. */
  predicate Told<T>(r: Result<T, ServiceError>, against: Option<ServiceError>) {
    if against.Some? then r == Err(against.value) else r.Ok?
  }

  // -- One setting ------------------------------------------------------------------------------------

  lemma ChangeIsTold(site: Site, who: Identity, d: SettingDef, v: Value, profile: Option<string>)
    requires profile.Some? ==> profile.value != ""
    ensures Told(ChangeFor(site, who, d, v, profile), AgainstSet(site, who, d, v, profile))
  {}

  lemma NamespaceIsTold(site: Site, who: Identity, namespace: string)
    requires WellFormed(site.lib, site.catalogue)
    ensures Permit(site, who, namespace) == AgainstNamespace(site, who, namespace)
  {}

  /** A set is told of the profile's shape, then the namespace, then the setting, then what is against
      setting it. */
  lemma SetsAreTold(site: Site, who: Identity, namespace: string, key: string, v: Value, profile: Option<string>)
    requires WellFormed(site.lib, site.catalogue)
    ensures var r := Plan(site, who, SetRequest(namespace, key, v, profile));
      if !ProfileFits(profile) then r == Err(InvalidProfile)
      else if AgainstNamespace(site, who, namespace).Some? then r == Err(AgainstNamespace(site, who, namespace).value)
      else
        && (forall d | LiveAs(site.catalogue, namespace, key, d) :: Told(r, AgainstSet(site, who, d, v, profile)))
        && ((forall d :: !LiveAs(site.catalogue, namespace, key, d)) ==> r == Err(NoSuchSetting))
  {
    ProfileTakenExactlyWhen(profile);
    NamespaceIsTold(site, who, namespace);
    OneLiveEntry(site.lib, site.catalogue, namespace, key);
    var found := DefinitionFor(site.catalogue, namespace, key);
    if found.Ok? && ProfileFits(profile) {
      ChangeIsTold(site, who, found.value, v, NormaliseProfile(profile).value);
    }
  }

  /** A reset is told the same, without a value. */
  lemma ResetsAreTold(site: Site, who: Identity, namespace: string, key: string, profile: Option<string>)
    requires WellFormed(site.lib, site.catalogue)
    ensures var r := Plan(site, who, ResetRequest(namespace, key, profile));
      if !ProfileFits(profile) then r == Err(InvalidProfile)
      else if AgainstNamespace(site, who, namespace).Some? then r == Err(AgainstNamespace(site, who, namespace).value)
      else
        && (forall d | LiveAs(site.catalogue, namespace, key, d) ::
              Told(r, FirstOf(AgainstWriting(site, who, d), AgainstProfile(d, profile))))
        && ((forall d :: !LiveAs(site.catalogue, namespace, key, d)) ==> r == Err(NoSuchSetting))
  {
    ProfileTakenExactlyWhen(profile);
    NamespaceIsTold(site, who, namespace);
    OneLiveEntry(site.lib, site.catalogue, namespace, key);
    var found := Definition(site, who, namespace, key);
    if found.Ok? && ProfileFits(profile) { FoundResetIsTold(site, who, namespace, key, profile, found.value); }
  }

  lemma FoundResetIsTold(site: Site, who: Identity, namespace: string, key: string, profile: Option<string>,
                         d: SettingDef)
    requires Definition(site, who, namespace, key) == Ok(d) && ProfileFits(profile)
    ensures Told(Plan(site, who, ResetRequest(namespace, key, profile)),
                 FirstOf(AgainstWriting(site, who, d), AgainstProfile(d, profile)))
  {
    ProfileTakenExactlyWhen(profile);
  }

  /** And a reset of a namespace only what is against the profile and the namespace. */
  lemma NamespaceResetsAreTold(site: Site, who: Identity, namespace: string, profile: Option<string>)
    requires WellFormed(site.lib, site.catalogue)
    ensures var r := Plan(site, who, ResetAllRequest(namespace, profile));
      if !ProfileFits(profile) then r == Err(InvalidProfile) else Told(r, AgainstNamespace(site, who, namespace))
  {
    ProfileTakenExactlyWhen(profile);
    NamespaceIsTold(site, who, namespace);
  }

  // -- A document -----------------------------------------------------------------------------------------

  /** The first section there is something against. */
  ghost predicate FirstRefusedSection(site: Site, who: Identity, document: Document, i: nat) {
    && i < |document| && AgainstNamespace(site, who, document[i].0).Some?
    && forall j | 0 <= j < i :: AgainstNamespace(site, who, document[j].0).None?
  }

  lemma {:induction false} SectionsAreTold(site: Site, who: Identity, document: Document, i: nat)
    requires WellFormed(site.lib, site.catalogue) && FirstRefusedSection(site, who, document, i)
    ensures SortDocument(site, who, document) == Err(AgainstNamespace(site, who, document[i].0).value)
    ensures SplitAll(site, who, document) == Err(AgainstNamespace(site, who, document[i].0).value)
  {
    var n := |document| - 1;
    assert forall j | 0 <= j < n :: document[..n][j] == document[j];
    NamespaceIsTold(site, who, document[n].0);
    if i < n {
      SectionsAreTold(site, who, document[..n], i);
    } else {
      AllSectionsPermitted(site, who, document[..n]);
      SplitsAsSorted(site, who, document[..n]);
      forall j | 0 <= j < n
        ensures Permit(site, who, document[j].0).None?
      {
        NamespaceIsTold(site, who, document[j].0);
      }
    }
  }

  /** The first entry there is something against, of the live settings it names. */
  ghost predicate FirstRefusedEntry(site: Site, who: Identity, pending: Pending, profile: Option<string>, i: nat) {
    && i < |pending| && AgainstSet(site, who, pending[i].0, pending[i].1, profile).Some?
    && forall j | 0 <= j < i :: AgainstSet(site, who, pending[j].0, pending[j].1, profile).None?
  }

  lemma {:induction false} ValuesAreTold(site: Site, who: Identity, pending: Pending, profile: Option<string>, i: nat)
    requires FirstRefusedEntry(site, who, pending, profile, i) && (profile.Some? ==> profile.value != "")
    ensures var against := AgainstSet(site, who, pending[i].0, pending[i].1, profile).value;
      ChangesOf(site, who, pending, profile) == Err(against)
  {
    var n := |pending| - 1;
    assert forall j | 0 <= j < n :: pending[..n][j] == pending[j];
    ChangeIsTold(site, who, pending[n].0, pending[n].1, profile);
    if i < n {
      ValuesAreTold(site, who, pending[..n], profile, i);
    } else {
      AllChangesMade(site, who, pending[..n], profile);
      forall j | 0 <= j < n
        ensures ChangeFor(site, who, pending[j].0, pending[j].1, profile).Ok?
      {
        ChangeIsTold(site, who, pending[j].0, pending[j].1, profile);
      }
    }
  }

  /** The live entries a document's entries name, in its order. */
  ghost predicate Names(site: Site, document: Document, pending: Pending) {
    && |pending| == |Entries(document)|
    && forall i | 0 <= i < |pending| ::
         var name := Entries(document)[i].0;
         LiveAs(site.catalogue, name.namespace, name.key, pending[i].0) && pending[i].1 == Entries(document)[i].1
  }

  lemma PendingIsNamed(site: Site, who: Identity, document: Document, pending: Pending)
    requires WellFormed(site.lib, site.catalogue) && SortDocument(site, who, document).Ok?
    requires SortDocument(site, who, document).value.unknown == [] && Names(site, document, pending)
    ensures SortDocument(site, who, document).value.pending == pending
  {
    DocumentPends(site, who, document);
    var sorted := SortDocument(site, who, document).value.pending;
    forall i | 0 <= i < |pending|
      ensures sorted[i] == pending[i]
    {
      var name := Entries(document)[i].0;
      FoundExactlyWhen(site.lib, site.catalogue, name.namespace, name.key, pending[i].0);
    }
  }

  lemma NamedIsKnown(site: Site, document: Document, pending: Pending)
    requires WellFormed(site.lib, site.catalogue) && Names(site, document, pending)
    ensures AllKnown(site, Entries(document))
  {
    forall i | 0 <= i < |pending|
      ensures KnownName(site, Entries(document)[i].0)
    {
      var name := Entries(document)[i].0;
      FoundExactlyWhen(site.lib, site.catalogue, name.namespace, name.key, pending[i].0);
    }
  }

  /** A document of granted sections and live settings is told of a missing profile, if it has a setting
      that needs one, before any value; and otherwise of the first entry there is something against. */
  lemma DocumentsAreTold(site: Site, who: Identity, document: Document, profile: Option<string>, pending: Pending)
    requires WellFormed(site.lib, site.catalogue) && (profile.Some? ==> profile.value != "")
    requires Permitted(site, who, document) && Names(site, document, pending)
    ensures var r := ChangesForSpec(site, who, document, profile);
      if profile.None? && exists i | 0 <= i < |pending| :: pending[i].0.scope.ProfileScope? then r == Err(NeedsProfile)
      else forall i: nat | FirstRefusedEntry(site, who, pending, profile, i) ::
             r == Err(AgainstSet(site, who, pending[i].0, pending[i].1, profile).value)
  {
    AllSectionsPermitted(site, who, document);
    NamedIsKnown(site, document, pending);
    DocumentKnown(site, who, document);
    PendingIsNamed(site, who, document, pending);
    forall i: nat | FirstRefusedEntry(site, who, pending, profile, i)
      ensures ChangesOf(site, who, pending, profile)
           == Err(AgainstSet(site, who, pending[i].0, pending[i].1, profile).value)
    {
      ValuesAreTold(site, who, pending, profile, i);
    }
  }

  // -- Documents sent --------------------------------------------------------------------------------------

  /** The answer is of the first section there is something against, if there is such a section. */
  ghost predicate ToldOfSections<T>(site: Site, who: Identity, document: Document, r: Result<T, ServiceError>) {
    forall i: nat | FirstRefusedSection(site, who, document, i) ::
      r == Err(AgainstNamespace(site, who, document[i].0).value)
  }

  lemma SectionsComeFirst(site: Site, who: Identity, document: Document)
    requires WellFormed(site.lib, site.catalogue)
    ensures ToldOfSections(site, who, document, SortDocument(site, who, document))
    ensures ToldOfSections(site, who, document, SplitAll(site, who, document))
  {
    forall i: nat | FirstRefusedSection(site, who, document, i)
      ensures SortDocument(site, who, document) == Err(AgainstNamespace(site, who, document[i].0).value)
      ensures SplitAll(site, who, document) == Err(AgainstNamespace(site, who, document[i].0).value)
    {
      SectionsAreTold(site, who, document, i);
    }
  }

  /** An update is told of its profile's shape first, then of the first section there is something
      against, before anything in any section. */
  lemma UpdatesAreTold(site: Site, who: Identity, document: Document, profile: Option<string>)
    requires WellFormed(site.lib, site.catalogue)
    ensures var r := Plan(site, who, UpdateRequest(document, profile));
      if !ProfileFits(profile) then r == Err(InvalidProfile) else ToldOfSections(site, who, document, r)
  {
    ProfileTakenExactlyWhen(profile);
    SectionsComeFirst(site, who, document);
  }

  /** An import is told of its version first, and then likewise. */
  lemma ImportsAreTold(site: Site, who: Identity, document: Document, profiles: Dict<string, Document>, version: int)
    requires WellFormed(site.lib, site.catalogue)
    ensures var r := Plan(site, who, ImportRequest(document, profiles, version));
      if version != 1 && version != 2 then r == Err(UnknownVersion) else ToldOfSections(site, who, document, r)
  {
    SectionsComeFirst(site, who, document);
  }
}
