/** Which documents are accepted, and what a refused one is told. */
module Acceptance {
  import opened Core
  import opened Dicts
  import opened SettingTypes
  import opened Catalogue
  import opened Resolution
  import opened Service
  import opened Plans

  /** One entry this caller may write with this value, given whether a profile is named. */
  predicate Takes(site: Site, who: Identity, name: Name, v: Value, profiled: bool) {
    var found := DefinitionFor(site.catalogue, name.namespace, name.key);
    && name.namespace in who.namespaces
    && found.Ok?
    && MayWrite(site, who, found.value)
    && Validated(site.lib, site.policy.DefinitionOf(found.value), v, site.maxValueBytes).Ok?
    && (found.value.scope.ProfileScope? ==> profiled)
  }

  predicate KeysKnown(site: Site, namespace: string, entries: Dict<string, Value>) {
    forall i | 0 <= i < |entries| :: DefinitionFor(site.catalogue, namespace, entries[i].0).Ok?
  }

  lemma LastKeyKnown(site: Site, namespace: string, entries: Dict<string, Value>)
    requires entries != []
    ensures var n := |entries| - 1;
      KeysKnown(site, namespace, entries) <==>
        KeysKnown(site, namespace, entries[..n]) && DefinitionFor(site.catalogue, namespace, entries[n].0).Ok?
  {
    var n := |entries| - 1;
    assert forall i | 0 <= i < n :: entries[..n][i] == entries[i];
  }

  lemma {:induction false} SectionKnown(site: Site, namespace: string, entries: Dict<string, Value>, s: Sorted)
    requires WellFormed(site.lib, site.catalogue)
    ensures SortSection(KnownIn(site, namespace), namespace, entries, s).unknown == []
       <==> s.unknown == [] && KeysKnown(site, namespace, entries)
  {
    if entries != [] {
      var n := |entries| - 1;
      SectionKnown(site, namespace, entries[..n], s);
      KnownIsDefinition(site, namespace, entries[n].0);
      LastKeyKnown(site, namespace, entries);
    }
  }

  predicate KnownName(site: Site, name: Name) { DefinitionFor(site.catalogue, name.namespace, name.key).Ok? }

  predicate AllKnown(site: Site, entries: seq<(Name, Value)>) {
    forall i | 0 <= i < |entries| :: KnownName(site, entries[i].0)
  }

  predicate AllTaken(site: Site, who: Identity, entries: seq<(Name, Value)>, profiled: bool) {
    forall i | 0 <= i < |entries| :: Takes(site, who, entries[i].0, entries[i].1, profiled)
  }

  predicate Permitted(site: Site, who: Identity, document: Document) {
    forall i | 0 <= i < |document| :: Permit(site, who, document[i].0).None?
  }

  lemma {:induction false} AllSectionsPermitted(site: Site, who: Identity, document: Document)
    ensures SortDocument(site, who, document).Ok? <==> Permitted(site, who, document)
  {
    if document != [] {
      var n := |document| - 1;
      AllSectionsPermitted(site, who, document[..n]);
      assert forall i | 0 <= i < n :: document[..n][i] == document[i];
    }
  }

  lemma {:induction false} DocumentKnown(site: Site, who: Identity, document: Document)
    requires WellFormed(site.lib, site.catalogue) && SortDocument(site, who, document).Ok?
    ensures SortDocument(site, who, document).value.unknown == [] <==> AllKnown(site, Entries(document))
  {
    if document != [] {
      var n := |document| - 1;
      DocumentKnown(site, who, document[..n]);
      SectionKnown(site, document[n].0, document[n].1, SortDocument(site, who, document[..n]).value);
      NamedKnown(site, document[n].0, document[n].1);
      KnownConcat(site, Entries(document[..n]), Named(document[n].0, document[n].1));
    }
  }

  lemma NamedKnown(site: Site, namespace: string, entries: Dict<string, Value>)
    ensures AllKnown(site, Named(namespace, entries)) <==> KeysKnown(site, namespace, entries)
  {
    var named := Named(namespace, entries);
    assert forall i | 0 <= i < |entries| :: named[i].0 == Name(namespace, entries[i].0);
    if !KeysKnown(site, namespace, entries) {
      var i :| 0 <= i < |entries| && DefinitionFor(site.catalogue, namespace, entries[i].0).Err?;
      assert !KnownName(site, named[i].0);
    }
  }

  lemma KnownConcat(site: Site, s: seq<(Name, Value)>, t: seq<(Name, Value)>)
    ensures AllKnown(site, s + t) <==> AllKnown(site, s) && AllKnown(site, t)
  {
    if AllKnown(site, s + t) {
      assert forall i | 0 <= i < |s| :: (s + t)[i] == s[i];
      assert forall i | 0 <= i < |t| :: (s + t)[|s| + i] == t[i];
    }
  }

  lemma {:induction false} AllChangesMade(site: Site, who: Identity, pending: Pending, profile: Option<string>)
    ensures ChangesOf(site, who, pending, profile).Ok? <==>
      forall i | 0 <= i < |pending| :: ChangeFor(site, who, pending[i].0, pending[i].1, profile).Ok?
  {
    if pending != [] {
      var n := |pending| - 1;
      AllChangesMade(site, who, pending[..n], profile);
      assert forall i | 0 <= i < n :: pending[..n][i] == pending[i];
    }
  }

  lemma OneChangeMade(site: Site, who: Identity, d: SettingDef, v: Value, profile: Option<string>)
    ensures ChangeFor(site, who, d, v, profile).Ok? <==>
      && MayWrite(site, who, d)
      && Validated(site.lib, site.policy.DefinitionOf(d), v, site.maxValueBytes).Ok?
      && (d.scope.ProfileScope? ==> profile.Some?)
  {}

  lemma OnePending(site: Site, who: Identity, d: SettingDef, entry: (Name, Value), profile: Option<string>)
    requires DefinitionFor(site.catalogue, entry.0.namespace, entry.0.key) == Ok(d)
    requires entry.0.namespace in who.namespaces
    ensures Takes(site, who, entry.0, entry.1, profile.Some?) <==> ChangeFor(site, who, d, entry.1, profile).Ok?
    ensures profile.None? && d.scope.ProfileScope? ==> !Takes(site, who, entry.0, entry.1, profile.Some?)
  {
    OneChangeMade(site, who, d, entry.1, profile);
  }

  lemma AllPending(site: Site, who: Identity, document: Document, profile: Option<string>)
    requires WellFormed(site.lib, site.catalogue) && SortDocument(site, who, document).Ok?
    requires SortDocument(site, who, document).value.unknown == []
    ensures ChangesForSpec(site, who, document, profile).Ok? <==> AllTaken(site, who, Entries(document), profile.Some?)
  {
    DocumentPends(site, who, document);
    DocumentGranted(site, who, document);
    var entries, pending := Entries(document), SortDocument(site, who, document).value.pending;
    AllChangesMade(site, who, pending, profile);
    forall i | 0 <= i < |entries|
      ensures Takes(site, who, entries[i].0, entries[i].1, profile.Some?)
         <==> ChangeFor(site, who, pending[i].0, pending[i].1, profile).Ok?
      ensures profile.None? && pending[i].0.scope.ProfileScope? ==>
        !Takes(site, who, entries[i].0, entries[i].1, profile.Some?)
    {
      EntriesAreGranted(document, i);
      OnePending(site, who, pending[i].0, entries[i], profile);
    }
  }

  /** A document is accepted exactly when each section is granted and each entry may be written:
      no other document slips through, and none of these is refused. */
  lemma AcceptedExactlyWhen(site: Site, who: Identity, document: Document, profile: Option<string>)
    requires WellFormed(site.lib, site.catalogue)
    ensures ChangesForSpec(site, who, document, profile).Ok? <==>
      Permitted(site, who, document) && AllTaken(site, who, Entries(document), profile.Some?)
  {
    AllSectionsPermitted(site, who, document);
    if Permitted(site, who, document) {
      DocumentKnown(site, who, document);
      if AllKnown(site, Entries(document)) {
        AllPending(site, who, document, profile);
      } else {
        var i :| 0 <= i < |Entries(document)| && !KnownName(site, Entries(document)[i].0);
        assert !Takes(site, who, Entries(document)[i].0, Entries(document)[i].1, profile.Some?);
      }
    }
  }

  lemma {:induction false} ProfilesAccepted(site: Site, who: Identity, profiles: Dict<string, Document>)
    requires forall m | 0 <= m < |profiles| :: ProfileShaped(profiles[m].0)
    ensures ProfiledChanges(site, who, profiles).Ok? <==>
      forall m | 0 <= m < |profiles| :: ChangesForSpec(site, who, profiles[m].1, Some(profiles[m].0)).Ok?
  {
    if profiles != [] {
      var n := |profiles| - 1;
      assert forall m | 0 <= m < n :: profiles[..n][m] == profiles[m];
      ProfilesAccepted(site, who, profiles[..n]);
      assert NormaliseProfile(Some(profiles[n].0)) == Ok(Some(profiles[n].0));
    }
  }

  // -- What a refused document is told ------------------------------------------------------------

  /** The names of a document that this build does not have, in the order they were sent. */
  function Unknowns(site: Site, entries: seq<(Name, Value)>): seq<Name> {
    if entries == [] then []
    else
      var n := |entries| - 1;
      var before := Unknowns(site, entries[..n]);
      if KnownName(site, entries[n].0) then before else before + [entries[n].0]
  }

  lemma {:induction false} UnknownsConcat(site: Site, s: seq<(Name, Value)>, t: seq<(Name, Value)>)
    ensures Unknowns(site, s + t) == Unknowns(site, s) + Unknowns(site, t)
  {
    if t == [] {
      assert s + t == s;
    } else {
      assert (s + t)[..|s + t| - 1] == s + t[..|t| - 1];
      UnknownsConcat(site, s, t[..|t| - 1]);
    }
  }

  lemma {:induction false} SectionUnknowns(site: Site, namespace: string, entries: Dict<string, Value>, s: Sorted)
    requires WellFormed(site.lib, site.catalogue)
    ensures SortSection(KnownIn(site, namespace), namespace, entries, s).unknown
         == s.unknown + Unknowns(site, Named(namespace, entries))
  {
    var named := Named(namespace, entries);
    if entries == [] {
      assert named == [];
    } else {
      var n := |entries| - 1;
      SectionUnknowns(site, namespace, entries[..n], s);
      KnownIsDefinition(site, namespace, entries[n].0);
      assert named[..n] == Named(namespace, entries[..n]);
    }
  }

  lemma {:induction false} DocumentUnknowns(site: Site, who: Identity, document: Document)
    requires WellFormed(site.lib, site.catalogue) && SortDocument(site, who, document).Ok?
    ensures SortDocument(site, who, document).value.unknown == Unknowns(site, Entries(document))
  {
    if document != [] {
      var n := |document| - 1;
      DocumentUnknowns(site, who, document[..n]);
      SectionUnknowns(site, document[n].0, document[n].1, SortDocument(site, who, document[..n]).value);
      UnknownsConcat(site, Entries(document[..n]), Named(document[n].0, document[n].1));
    }
  }

  /** A document of granted sections that names settings this build does not have is refused for
      that, before any profile or value is looked at, and told all of them at once. */
  lemma UnknownSettingsAreToldTogether(site: Site, who: Identity, document: Document, profile: Option<string>)
    requires WellFormed(site.lib, site.catalogue) && Permitted(site, who, document)
    requires !AllKnown(site, Entries(document))
    ensures ChangesForSpec(site, who, document, profile) == Err(NoSuchSettings(Unknowns(site, Entries(document))))
    ensures forall name :: name in Unknowns(site, Entries(document)) <==>
      !KnownName(site, name) && Sent(Entries(document), name)
  {
    AllSectionsPermitted(site, who, document);
    DocumentKnown(site, who, document);
    DocumentUnknowns(site, who, document);
    UnknownsAre(site, Entries(document));
  }

  predicate Sent(entries: seq<(Name, Value)>, name: Name) { exists i | 0 <= i < |entries| :: entries[i].0 == name }

  lemma LastSent(entries: seq<(Name, Value)>, name: Name)
    requires entries != []
    ensures Sent(entries, name) <==> entries[|entries| - 1].0 == name || Sent(entries[..|entries| - 1], name)
  {
    var n := |entries| - 1;
    assert forall i | 0 <= i < n :: entries[..n][i] == entries[i];
  }

  lemma {:induction false} UnknownsAre(site: Site, entries: seq<(Name, Value)>)
    ensures forall name :: name in Unknowns(site, entries) <==> !KnownName(site, name) && Sent(entries, name)
  {
    if entries != [] {
      UnknownsAre(site, entries[..|entries| - 1]);
      forall name
        ensures Sent(entries, name) <==> entries[|entries| - 1].0 == name || Sent(entries[..|entries| - 1], name)
      {
        LastSent(entries, name);
      }
    }
  }
}
