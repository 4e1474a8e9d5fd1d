/** Where a request becomes a list of changes, and the list one transaction. */
module Service {
  import opened Core
  import opened Dicts
  import opened SettingTypes
  import opened Catalogue
  import opened Resolution
  import opened Tables
  import opened Store

  /** Who a request is for and which namespaces it may touch. */
  datatype Identity = Identity(account: string, audience: string, namespaces: set<string>, service: Option<string>) {
    function Actor(): string { if service.None? then audience else "service:" + service.value }
  }

  /** `namespace -> key -> value`, as parsed. */
  type Document = Dict<string, Dict<string, Value>>

  datatype ServiceError =
    | NoSuchNamespace
    | NotGranted
    | NoSuchSetting
    | NoSuchSettings(names: seq<Name>)
    | Pinned
    | NotWritable
    | NeedsProfile
    | InvalidProfile
    | BadValue
    | LooksLikeACredential
    | UnknownVersion
    | Refused(cause: StoreError)

  const V1_PROFILE_FALLBACK := "personal"

  // -- Profiles ----------------------------------------------------------------------------------

  predicate ProfileEnd(c: char) { 'a' <= c <= 'z' || '0' <= c <= '9' }

  /** `PROFILE_NAME_PATTERN.fullmatch`: alphanumeric ends, dots, underscores and dashes between. */
  predicate ProfileShaped(s: string) {
    && s != [] && ProfileEnd(s[0]) && ProfileEnd(s[|s| - 1])
    && forall i | 0 <= i < |s| :: ProfileEnd(s[i]) || s[i] in {'.', '_', '-'}
  }

  /** No profile, or an empty name, names none. */
  predicate NoProfile(profile: Option<string>) { profile.None? || profile.value == "" }

  function NormaliseProfile(profile: Option<string>): (r: Result<Option<string>, ServiceError>)
    ensures r.Ok? && r.value.Some? ==> ProfileShaped(r.value.value) && r.value == profile
  {
    if profile.None? || profile.value == "" then Ok(None)
    else if !ProfileShaped(profile.value) then Err(InvalidProfile)
    else Ok(profile)
  }

  function StorageProfile(d: SettingDef, profile: Option<string>): Result<string, ServiceError> {
    if d.scope.AccountScope? then Ok(ACCOUNT_PROFILE)
    else if profile.None? then Err(NeedsProfile)
    else Ok(profile.value)
  }

  // -- One setting -------------------------------------------------------------------------------

  /** `_permit`: unknown first, then not granted. */
  function Permit(site: Site, who: Identity, namespace: string): Option<ServiceError> {
    if !Has(site.catalogue, namespace) then Some(NoSuchNamespace)
    else if namespace !in who.namespaces then Some(NotGranted)
    else None
  }

  function Definition(site: Site, who: Identity, namespace: string, key: string): Result<SettingDef, ServiceError> {
    var refusal := Permit(site, who, namespace);
    if refusal.Some? then Err(refusal.value)
    else
      match DefinitionFor(site.catalogue, namespace, key)
      case Err(UnknownNamespace) => Err(NoSuchNamespace)
      case Err(UnknownSetting) => Err(NoSuchSetting)
      case Ok(d) => Ok(d)
  }

  predicate MayWrite(site: Site, who: Identity, d: SettingDef) {
    !site.policy.IsPinned(d) && !(d.ownerWritableOnly && who.service.Some?)
  }

  /** `_check_writable`. */
  function WriteRefusal(site: Site, who: Identity, d: SettingDef): Option<ServiceError> {
    if site.policy.IsPinned(d) then Some(Pinned)
    else if d.ownerWritableOnly && who.service.Some? then Some(NotWritable)
    else None
  }

  /** `_change_for`: writable, then the value, then the profile. */
  function ChangeFor(site: Site, who: Identity, d: SettingDef, v: Value, profile: Option<string>)
    : Result<Change, ServiceError>
  {
    var refusal := WriteRefusal(site, who, d);
    if refusal.Some? then Err(refusal.value)
    else
      match Validated(site.lib, site.policy.DefinitionOf(d), v, site.maxValueBytes)
      case Err(InvalidValue) => Err(BadValue)
      case Err(CredentialRefused) => Err(LooksLikeACredential)
      case Ok(checked) =>
        var column :- StorageProfile(d, profile);
        Ok(Change(d.Named(), checked, false, column))
  }

  // -- A whole document -----------------------------------------------------------------------------

  type Pending = seq<(SettingDef, Value)>

  datatype Sorted = Sorted(unknown: seq<Name>, pending: Pending)

  /** `{entry.key: entry for entry in live_entries_in(namespace)}`. */
  function KnownByKey(live: seq<SettingDef>): map<string, SettingDef> {
    if live == [] then map[]
    else KnownByKey(live[..|live| - 1])[live[|live| - 1].key := live[|live| - 1]]
  }

  function KnownIn(site: Site, namespace: string): map<string, SettingDef> {
    match LiveEntriesIn(site.catalogue, namespace)
    case Err(_) => map[]
    case Ok(live) => KnownByKey(live)
  }

  function SortEntry(known: map<string, SettingDef>, namespace: string, key: string, v: Value, s: Sorted): Sorted {
    if key in known then s.(pending := s.pending + [(known[key], v)])
    else s.(unknown := s.unknown + [Name(namespace, key)])
  }

  function SortSection(known: map<string, SettingDef>, namespace: string, entries: Dict<string, Value>,
                       s: Sorted): Sorted {
    if entries == [] then s
    else
      var n := |entries| - 1;
      SortEntry(known, namespace, entries[n].0, entries[n].1, SortSection(known, namespace, entries[..n], s))
  }

  function SortDocument(site: Site, who: Identity, document: Document): Result<Sorted, ServiceError> {
    if document == [] then Ok(Sorted([], []))
    else
      var n := |document| - 1;
      var before := SortDocument(site, who, document[..n]);
      if before.Err? then before
      else
        var refusal := Permit(site, who, document[n].0);
        if refusal.Some? then Err(refusal.value)
        else Ok(SortSection(KnownIn(site, document[n].0), document[n].0, document[n].1, before.value))
  }

  function ChangesOf(site: Site, who: Identity, pending: Pending,
                     profile: Option<string>): Result<seq<Change>, ServiceError> {
    if pending == [] then Ok([])
    else
      var n := |pending| - 1;
      var before := ChangesOf(site, who, pending[..n], profile);
      if before.Err? then before
      else
        var change := ChangeFor(site, who, pending[n].0, pending[n].1, profile);
        if change.Err? then Err(change.error) else Ok(before.value + [change.value])
  }

  /** `_changes_for`: every unknown key at once, then a missing profile, then each value. */
  function ChangesForSpec(site: Site, who: Identity, document: Document, profile: Option<string>)
    : Result<seq<Change>, ServiceError>
  {
    var s :- SortDocument(site, who, document);
    if s.unknown != [] then Err(NoSuchSettings(s.unknown))
    else if profile.None? && exists i | 0 <= i < |s.pending| :: s.pending[i].0.scope.ProfileScope?
    then Err(NeedsProfile)
    else ChangesOf(site, who, s.pending, profile)
  }

  method SortedEntries(site: Site, who: Identity, document: Document) returns (r: Result<Sorted, ServiceError>)
    ensures r == SortDocument(site, who, document)
  {
    var s := Sorted([], []);
    for n := 0 to |document|
      invariant SortDocument(site, who, document[..n]) == Ok(s)
    {
      assert document[..n + 1][..n] == document[..n];
      FirstNamespaceDecides(site, who, document, n + 1);
      var namespace, entries := document[n].0, document[n].1;
      var refusal := Permit(site, who, namespace);
      if refusal.Some? {
        return Err(refusal.value);
      }
      var known := KnownIn(site, namespace);
      ghost var before := s;
      for i := 0 to |entries|
        invariant s == SortSection(known, namespace, entries[..i], before)
      {
        assert entries[..i + 1][..i] == entries[..i];
        s := SortEntry(known, namespace, entries[i].0, entries[i].1, s);
      }
      assert entries[..|entries|] == entries;
    }
    assert document[..|document|] == document;
    return Ok(s);
  }

  method ChangesFor(site: Site, who: Identity, document: Document, profile: Option<string>)
    returns (r: Result<seq<Change>, ServiceError>)
    ensures r == ChangesForSpec(site, who, document, profile)
  {
    var s := SortedEntries(site, who, document);
    if s.Err? {
      return Err(s.error);
    }
    if s.value.unknown != [] {
      return Err(NoSuchSettings(s.value.unknown));
    }
    var pending := s.value.pending;
    if profile.None? && exists i | 0 <= i < |pending| :: pending[i].0.scope.ProfileScope? {
      return Err(NeedsProfile);
    }
    var changes: seq<Change> := [];
    for i := 0 to |pending|
      invariant ChangesOf(site, who, pending[..i], profile) == Ok(changes)
    {
      assert pending[..i + 1][..i] == pending[..i];
      FirstValueDecides(site, who, pending, profile, i + 1);
      var change := ChangeFor(site, who, pending[i].0, pending[i].1, profile);
      if change.Err? {
        return Err(change.error);
      }
      changes := changes + [change.value];
    }
    assert pending[..|pending|] == pending;
    return Ok(changes);
  }

  lemma {:induction false} FirstNamespaceDecides(site: Site, who: Identity, document: Document, k: nat)
    requires k <= |document|
    ensures var r := SortDocument(site, who, document[..k]);
      r.Err? ==> SortDocument(site, who, document) == r
    decreases |document| - k
  {
    if k == |document| {
      assert document[..k] == document;
    } else {
      assert document[..k + 1][..k] == document[..k];
      FirstNamespaceDecides(site, who, document, k + 1);
    }
  }

  lemma {:induction false} FirstValueDecides(site: Site, who: Identity, pending: Pending, profile: Option<string>,
                                             k: nat)
    requires k <= |pending|
    ensures var r := ChangesOf(site, who, pending[..k], profile);
      r.Err? ==> ChangesOf(site, who, pending, profile) == r
    decreases |pending| - k
  {
    if k == |pending| {
      assert pending[..k] == pending;
    } else {
      assert pending[..k + 1][..k] == pending[..k];
      FirstValueDecides(site, who, pending, profile, k + 1);
    }
  }

  // -- Importing ------------------------------------------------------------------------------------

  datatype Legacy = Legacy(account: Document, profiled: Document, unknown: seq<Name>)

  /** `target.setdefault(namespace, {})[key] = value`. */
  function PutIn(target: Document, namespace: string, key: string, v: Value): Document {
    var section := if Has(target, namespace) then Get(target, namespace).value else [];
    Put(target, namespace, Put(section, key, v))
  }

  function SplitEntry(known: map<string, SettingDef>, namespace: string, key: string, v: Value, s: Legacy): Legacy {
    if key !in known then s.(unknown := s.unknown + [Name(namespace, key)])
    else if known[key].scope.ProfileScope? then s.(profiled := PutIn(s.profiled, namespace, key, v))
    else s.(account := PutIn(s.account, namespace, key, v))
  }

  function SplitSection(known: map<string, SettingDef>, namespace: string, entries: Dict<string, Value>,
                        s: Legacy): Legacy {
    if entries == [] then s
    else
      var n := |entries| - 1;
      SplitEntry(known, namespace, entries[n].0, entries[n].1, SplitSection(known, namespace, entries[..n], s))
  }

  function SplitAll(site: Site, who: Identity, document: Document): Result<Legacy, ServiceError> {
    if document == [] then Ok(Legacy([], [], []))
    else
      var n := |document| - 1;
      var before := SplitAll(site, who, document[..n]);
      if before.Err? then before
      else
        var refusal := Permit(site, who, document[n].0);
        if refusal.Some? then Err(refusal.value)
        else Ok(SplitSection(KnownIn(site, document[n].0), document[n].0, document[n].1, before.value))
  }

  /** `_split_legacy_document`. */
  function SplitSpec(site: Site, who: Identity, document: Document): Result<(Document, Document), ServiceError> {
    var s := SplitAll(site, who, document);
    if s.Err? then Err(s.error)
    else if s.value.unknown != [] then Err(NoSuchSettings(s.value.unknown))
    else Ok((s.value.account, s.value.profiled))
  }

  method SplitLegacyDocument(site: Site, who: Identity, document: Document)
    returns (r: Result<(Document, Document), ServiceError>)
    ensures r == SplitSpec(site, who, document)
  {
    var s := Legacy([], [], []);
    for n := 0 to |document|
      invariant SplitAll(site, who, document[..n]) == Ok(s)
    {
      assert document[..n + 1][..n] == document[..n];
      FirstSectionDecides(site, who, document, n + 1);
      var namespace, entries := document[n].0, document[n].1;
      var refusal := Permit(site, who, namespace);
      if refusal.Some? {
        return Err(refusal.value);
      }
      var known := KnownIn(site, namespace);
      ghost var before := s;
      for i := 0 to |entries|
        invariant s == SplitSection(known, namespace, entries[..i], before)
      {
        assert entries[..i + 1][..i] == entries[..i];
        s := SplitEntry(known, namespace, entries[i].0, entries[i].1, s);
      }
      assert entries[..|entries|] == entries;
    }
    assert document[..|document|] == document;
    if s.unknown != [] {
      return Err(NoSuchSettings(s.unknown));
    }
    return Ok((s.account, s.profiled));
  }

  lemma {:induction false} FirstSectionDecides(site: Site, who: Identity, document: Document, k: nat)
    requires k <= |document|
    ensures var r := SplitAll(site, who, document[..k]);
      r.Err? ==> SplitAll(site, who, document) == r
    decreases |document| - k
  {
    if k == |document| {
      assert document[..k] == document;
    } else {
      assert document[..k + 1][..k] == document[..k];
      FirstSectionDecides(site, who, document, k + 1);
    }
  }

  function ProfiledChanges(site: Site, who: Identity, profiles: Dict<string,
                           Document>): Result<seq<Change>, ServiceError> {
    if profiles == [] then Ok([])
    else
      var n := |profiles| - 1;
      var before := ProfiledChanges(site, who, profiles[..n]);
      if before.Err? then before
      else
        var named := NormaliseProfile(Some(profiles[n].0));
        if named.Err? then Err(named.error)
        else
          var more := ChangesForSpec(site, who, profiles[n].1, named.value);
          if more.Err? then more else Ok(before.value + more.value)
  }

  /** The changes of `import_document`, for either version. */
  function ImportSpec(site: Site, who: Identity, document: Document, profiles: Dict<string, Document>, version: int)
    : Result<seq<Change>, ServiceError>
  {
    if version == 1 then
      var split :- SplitSpec(site, who, document);
      var changes :- ChangesForSpec(site, who, split.0, None);
      if split.1 == [] then Ok(changes)
      else
        var more :- ChangesForSpec(site, who, split.1, Some(V1_PROFILE_FALLBACK));
        Ok(changes + more)
    else if version == 2 then
      var changes :- ChangesForSpec(site, who, document, None);
      var more :- ProfiledChanges(site, who, profiles);
      Ok(changes + more)
    else Err(UnknownVersion)
  }

  method ImportChanges(site: Site, who: Identity, document: Document, profiles: Dict<string, Document>, version: int)
    returns (r: Result<seq<Change>, ServiceError>)
    ensures r == ImportSpec(site, who, document, profiles, version)
  {
    if version != 1 && version != 2 {
      return Err(UnknownVersion);
    }
    if version == 1 {
      var split := SplitLegacyDocument(site, who, document);
      if split.Err? {
        return Err(split.error);
      }
      r := ChangesFor(site, who, split.value.0, None);
      if r.Ok? && split.value.1 != [] {
        var more := ChangesFor(site, who, split.value.1, Some(V1_PROFILE_FALLBACK));
        r := if more.Err? then more else Ok(r.value + more.value);
      }
      return;
    }
    r := ChangesFor(site, who, document, None);
    if r.Err? {
      return;
    }
    var changes := r.value;
    var profiled: seq<Change> := [];
    for n := 0 to |profiles|
      invariant ProfiledChanges(site, who, profiles[..n]) == Ok(profiled)
    {
      assert profiles[..n + 1][..n] == profiles[..n];
      FirstProfileDecides(site, who, profiles, n + 1);
      var named := NormaliseProfile(Some(profiles[n].0));
      if named.Err? {
        return Err(named.error);
      }
      var more := ChangesFor(site, who, profiles[n].1, named.value);
      if more.Err? {
        return more;
      }
      profiled := profiled + more.value;
    }
    assert profiles[..|profiles|] == profiles;
    return Ok(changes + profiled);
  }

  lemma {:induction false} FirstProfileDecides(site: Site, who: Identity, profiles: Dict<string, Document>, k: nat)
    requires k <= |profiles|
    ensures var r := ProfiledChanges(site, who, profiles[..k]);
      r.Err? ==> ProfiledChanges(site, who, profiles) == r
    decreases |profiles| - k
  {
    if k == |profiles| {
      assert profiles[..k] == profiles;
    } else {
      assert profiles[..k + 1][..k] == profiles[..k];
      FirstProfileDecides(site, who, profiles, k + 1);
    }
  }

  // -- The five writes ----------------------------------------------------------------------------

  datatype Request =
    | SetRequest(namespace: string, key: string, value: Value, profile: Option<string>)
    | UpdateRequest(document: Document, profile: Option<string>)
    | ImportRequest(document: Document, profiles: Dict<string, Document>, version: int)
    | ResetRequest(namespace: string, key: string, profile: Option<string>)
    | ResetAllRequest(namespace: string, profile: Option<string>)

  function ActionOf(request: Request): Action {
    match request
    case SetRequest(_, _, _, _) => SetSetting
    case UpdateRequest(_, _) => Update
    case ImportRequest(_, _, _) => Import
    case ResetRequest(_, _, _) => ResetSetting
    case ResetAllRequest(_, _) => ResetNamespace
  }

  /** The resets of `reset_namespace`: entries of the addressed scope this caller may write. */
  function Resets(site: Site, who: Identity, live: seq<SettingDef>, scope: Scope, column: string): seq<Change> {
    if live == [] then []
    else
      var rest := Resets(site, who, live[1..], scope, column);
      if live[0].scope == scope && MayWrite(site, who, live[0])
      then [Change(live[0].Named(), Null, true, column)] + rest
      else rest
  }

  /** The changes a request asks the store for, or why it is refused. */
  function Plan(site: Site, who: Identity, request: Request): Result<seq<Change>, ServiceError> {
    match request
    case SetRequest(namespace, key, v, profile) =>
      var named :- NormaliseProfile(profile);
      var d :- Definition(site, who, namespace, key);
      var change :- ChangeFor(site, who, d, v, named);
      Ok([change])
    case UpdateRequest(document, profile) =>
      var named :- NormaliseProfile(profile);
      ChangesForSpec(site, who, document, named)
    case ImportRequest(document, profiles, version) => ImportSpec(site, who, document, profiles, version)
    case ResetRequest(namespace, key, profile) =>
      var named :- NormaliseProfile(profile);
      var d :- Definition(site, who, namespace, key);
      var refusal := WriteRefusal(site, who, d);
      if refusal.Some? then Err(refusal.value)
      else
        var column :- StorageProfile(d, named);
        Ok([Change(d.Named(), Null, true, column)])
    case ResetAllRequest(namespace, profile) =>
      var named :- NormaliseProfile(profile);
      var refusal := Permit(site, who, namespace);
      if refusal.Some? then Err(refusal.value)
      else
        var live := Live(Get(site.catalogue, namespace).value);
        Ok(if named.None? then Resets(site, who, live, AccountScope, ACCOUNT_PROFILE)
           else Resets(site, who, live, ProfileScope, named.value))
  }

  function WriteFor(site: Site, who: Identity, request: Request, changes: seq<Change>, now: int,
                    ifRevision: Option<nat>): Write {
    Write(who.account, changes, now, ActionOf(request), who.Actor(), who.service, site.maxEvents, ifRevision)
  }

  /** One request served: refused before the store, or one `apply`. */
  function Serve(t: Tables, site: Site, who: Identity, request: Request, now: int, ifRevision: Option<nat>)
    : (Tables, Result<Applied, ServiceError>)
  {
    match Plan(site, who, request)
    case Err(e) => (t, Err(e))
    case Ok(changes) =>
      var (t', r) := ApplyTx(t, WriteFor(site, who, request, changes, now, ifRevision));
      (t', if r.Err? then Err(Refused(r.error)) else Ok(r.value))
  }

  // -- Reading what is stored ------------------------------------------------------------------------

  function Picked(rows: map<RowKey, Row>, d: SettingDef, profile: Option<string>): Option<Value> {
    if d.scope.AccountScope? then Look(rows, RowKey(ACCOUNT_PROFILE, d.Named()))
    else if profile.Some? then Look(rows, RowKey(profile.value, d.Named()))
    else None
  }

  /** The mapping resolution wants: for each entry, the one row its scope and the profile select. */
  function StoredSpec(c: Catalogue, rows: map<RowKey, Row>, profile: Option<string>): map<string, Value> {
    map q | q in Index(c) && Picked(rows, Index(c)[q], profile).Some? :: Picked(rows, Index(c)[q], profile).value
  }

  ghost predicate ListsRows(listing: Dict<RowKey, Row>, rows: map<RowKey, Row>) {
    Unique(listing) && forall k, row :: (k, row) in listing <==> k in rows && rows[k] == row
  }

  /** `_stored_for`: in whatever order the rows are listed, each key has at most one source row,
      so the result is the same. */
  method StoredFor(site: Site, listing: Dict<RowKey, Row>, profile: Option<string>, ghost rows: map<RowKey, Row>)
    returns (stored: map<string, Value>)
    requires WellFormed(site.lib, site.catalogue) && ListsRows(listing, rows)
    ensures stored == StoredSpec(site.catalogue, rows, profile)
  {
    stored := map[];
    var index := Index(site.catalogue);
    ghost var source: map<string, nat> := map[];
    for i := 0 to |listing|
      invariant source.Keys == stored.Keys
      invariant forall q | q in stored :: source[q] < i && IsSource(index, listing, source[q], q, profile, stored[q])
      invariant forall j | 0 <= j < i :: Selects(index, listing[j].0, profile) ==>
        listing[j].0.name.Qualified() in stored
    {
      var k, row := listing[i].0, listing[i].1;
      var q := k.name.Qualified();
      if q !in index {
        continue;
      }
      var d := index[q];
      if d.scope.AccountScope? {
        if k.profile == ACCOUNT_PROFILE {
          stored, source := stored[q := row.value], source[q := i];
        }
      } else if profile.Some? && k.profile == profile.value {
        stored, source := stored[q := row.value], source[q := i];
      }
    }
    SelectedOnce(site, listing, rows, profile, stored, source);
  }

  /** Whether the loop takes a row for the entry its spelling finds. */
  predicate Selects(index: map<string, SettingDef>, k: RowKey, profile: Option<string>) {
    var q := k.name.Qualified();
    q in index &&
    if index[q].scope.AccountScope? then k.profile == ACCOUNT_PROFILE else profile.Some? && k.profile == profile.value
  }

  ghost predicate IsSource(index: map<string, SettingDef>, listing: Dict<RowKey, Row>, i: nat, q: string,
                           profile: Option<string>, v: Value)
    requires i < |listing|
  {
    Selects(index, listing[i].0, profile) && listing[i].0.name.Qualified() == q && listing[i].1.value == v
  }

  lemma SelectedOnce(site: Site, listing: Dict<RowKey, Row>, rows: map<RowKey, Row>, profile: Option<string>,
                     stored: map<string, Value>, source: map<string, nat>)
    requires WellFormed(site.lib, site.catalogue) && ListsRows(listing, rows)
    requires var index := Index(site.catalogue);
      && source.Keys == stored.Keys
      && (forall q | q in stored :: source[q] < |listing| && IsSource(index, listing, source[q], q, profile, stored[q]))
      && (forall j | 0 <= j < |listing| ::
           Selects(index, listing[j].0, profile) ==> listing[j].0.name.Qualified() in stored)
    ensures stored == StoredSpec(site.catalogue, rows, profile)
  {
    var c, index := site.catalogue, Index(site.catalogue);
    var spec := StoredSpec(c, rows, profile);
    forall q | q in stored
      ensures q in spec && spec[q] == stored[q]
    {
      var i := source[q];
      IndexHoldsEntries(EveryEntry(c), q);
      SpellingNamesOneEntry(site.lib, c, index[q], listing[i].0.name);
      assert (listing[i].0, listing[i].1) in listing;
    }
    forall q | q in spec
      ensures q in stored
    {
      IndexHoldsEntries(EveryEntry(c), q);
      var d := index[q];
      var k := if d.scope.AccountScope? then RowKey(ACCOUNT_PROFILE, d.Named()) else RowKey(profile.value, d.Named());
      assert (k, rows[k]) in listing;
      var j :| 0 <= j < |listing| && listing[j] == (k, rows[k]);
      assert Selects(index, listing[j].0, profile);
    }
  }
}
