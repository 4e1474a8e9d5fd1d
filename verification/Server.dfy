/** The server as a state machine: every way the committed tables move, the documents it
    serves, and the runs the guarantees quantify over. */
module Server {
  import opened Core
  import opened Dicts
  import opened SettingTypes
  import opened Catalogue
  import opened Policies
  import opened Resolution
  import opened EntityTags
  import opened Tables
  import opened Store
  import opened Merge
  import opened Service

  /** One committed step: a request served, an account erased, or one retired key swept. Days are
      counted from a fixed date; `listing` is the order in which the sweep's query lists rows. */
  datatype Happening =
    | Requested(who: Identity, request: Request, now: int, ifRevision: Option<nat>)
    | Forgot(account: string)
    | Swept(name: Name, listing: seq<RowId>, today: int, now: int)

  /** A retired entry whose window has passed: `retired_at < today - retention`. */
  predicate Due(site: Site, d: SettingDef, today: int) {
    d.retiredAt.Some? &&
    var day := site.lib.isoDay(d.retiredAt.value);
    day.Some? && day.value < today - site.retentionDays
  }

  /** `due`: in catalogue order. */
  function DueEntries(site: Site, entries: seq<SettingDef>, today: int): seq<SettingDef> {
    if entries == [] then []
    else
      var rest := DueEntries(site, entries[1..], today);
      if Due(site, entries[0], today) then [entries[0]] + rest else rest
  }

  ghost predicate Next(site: Site, t: Tables, h: Happening, t': Tables) {
    match h
    case Requested(who, request, now, ifRevision) => t' == Serve(t, site, who, request, now, ifRevision).0
    case Forgot(account) => t' == ForgetTx(t, account)
    case Swept(name, listing, today, now) =>
      && (exists d | d in EveryEntry(site.catalogue) :: d.Named() == name && Due(site, d, today))
      && Lists(listing, Matching(t, name))
      && t' == PurgeTx(t, name, listing, now, site.maxEvents)
  }

  /** A run under one catalogue and one policy. */
  ghost predicate Run(site: Site, ts: seq<Tables>, hs: seq<Happening>) {
    && |ts| == |hs| + 1
    && forall i | 0 <= i < |hs| :: Next(site, ts[i], hs[i], ts[i + 1])
  }

  /** A deployment that starts: a checked catalogue with `common`, a log that keeps at least one
      event, and a policy the parser accepted. */
  ghost predicate Deployed(site: Site) {
    && WellFormed(site.lib, site.catalogue)
    && Has(site.catalogue, COMMON)
    && site.maxEvents >= 1
    && exists document :: WellKeyed(document) && ParseSpec(site.lib, site.catalogue, document) == Ok(site.policy)
  }

  // -- What is served ---------------------------------------------------------------------------

  datatype Served = Served(entries: Dict<string, Resolved>, revision: nat, etag: string)

  /** `resolve_for`: one namespace with `common` underneath, as of the tables. */
  function ResolveFor(site: Site, t: Tables, who: Identity, namespace: string, profile: Option<string>)
    : Result<Served, ServiceError>
    requires Has(site.catalogue, COMMON)
  {
    var named :- NormaliseProfile(profile);
    var refusal := Permit(site, who, namespace);
    if refusal.Some? then Err(refusal.value)
    else
      var stored := StoredSpec(site.catalogue, RowsOf(t.settings, who.account), named);
      var revision := RevisionOf(t, who.account);
      Ok(Served(ResolveForService(site, namespace, stored), revision, ETag(who.account, revision)))
  }

  lemma ResolvedKeysUnique(site: Site, namespace: string, stored: map<string, Value>)
    requires WellFormed(site.lib, site.catalogue) && Has(site.catalogue, namespace)
    ensures Unique(ResolveNamespace(site, namespace, stored))
  {
    var entries := Get(site.catalogue, namespace).value;
    var n :| 0 <= n < |site.catalogue| && site.catalogue[n] == (namespace, entries);
    assert WellFormedNamespace(site.lib, site.catalogue[n].0, site.catalogue[n].1);
    LiveKeepsKeysApart(entries);
  }

  lemma {:induction false} LiveKeepsKeysApart(entries: seq<SettingDef>)
    requires forall i, j | 0 <= i < j < |entries| :: entries[i].key != entries[j].key
    ensures forall i, j | 0 <= i < j < |Live(entries)| :: Live(entries)[i].key != Live(entries)[j].key
  {
    if entries != [] {
      var rest := Live(entries[1..]);
      LiveKeepsKeysApart(entries[1..]);
      LiveIn(entries[1..]);
      forall j | 0 <= j < |rest|
        ensures rest[j].key != entries[0].key
      {
        assert rest[j] in entries[1..];
      }
    }
  }

  /** A namespace's document has an entry for a key exactly when the setting is live there. */
  lemma NamespaceHolds(site: Site, namespace: string, stored: map<string, Value>, key: string)
    requires WellFormed(site.lib, site.catalogue) && Has(site.catalogue, namespace)
    ensures Get(ResolveNamespace(site, namespace, stored), key)
         == match DefinitionFor(site.catalogue, namespace, key)
            case Err(_) => None
            case Ok(d) => Some(Resolve(d, stored, site.policy))
  {
    var live := Live(Get(site.catalogue, namespace).value);
    var r := ResolveNamespace(site, namespace, stored);
    ResolvedKeysUnique(site, namespace, stored);
    var found := DefinitionFor(site.catalogue, namespace, key);
    if found.Ok? {
      IndexAgreesWithScan(site.lib, site.catalogue, namespace, key, found.value);
      var i :| 0 <= i < |live| && live[i] == found.value;
      GetAt(r, i);
    } else if Has(r, key) {
      var i :| 0 <= i < |r| && r[i].0 == key;
      IndexAgreesWithScan(site.lib, site.catalogue, namespace, key, live[i]);
    }
  }

  /** A served document has an entry for a key exactly when the setting is live in the namespace or
      in `common`, the namespace's own winning. */
  lemma DocumentHolds(site: Site, namespace: string, stored: map<string, Value>, key: string)
    requires WellFormed(site.lib, site.catalogue) && Has(site.catalogue, namespace) && Has(site.catalogue, COMMON)
    ensures var own, common := DefinitionFor(site.catalogue, namespace, key),
                              DefinitionFor(site.catalogue, COMMON, key);
      Get(ResolveForService(site, namespace, stored), key)
        == if own.Ok? then Some(Resolve(own.value, stored, site.policy))
           else if common.Ok? then Some(Resolve(common.value, stored, site.policy))
           else None
  {
    NamespaceHolds(site, namespace, stored, key);
    NamespaceHolds(site, COMMON, stored, key);
    ResolvedKeysUnique(site, namespace, stored);
    TheNamespaceWins(ResolveNamespace(site, COMMON, stored), ResolveNamespace(site, namespace, stored), key);
  }

  /** What a namespace's document has under a key: the namespace's own live entry, or else
      `common`'s. */
  ghost predicate Offered(site: Site, namespace: string, key: string, d: SettingDef) {
    LiveAs(site.catalogue, namespace, key, d) ||
    (LiveAs(site.catalogue, "common", key, d) && forall e :: !LiveAs(site.catalogue, namespace, key, e))
  }

  lemma OfferedHolds(site: Site, namespace: string, stored: map<string, Value>, key: string, d: SettingDef)
    requires WellFormed(site.lib, site.catalogue) && Has(site.catalogue, namespace) && Has(site.catalogue, COMMON)
    requires Offered(site, namespace, key, d)
    ensures Get(ResolveForService(site, namespace, stored), key) == Some(Resolve(d, stored, site.policy))
  {
    DocumentHolds(site, namespace, stored, key);
    OneLiveEntry(site.lib, site.catalogue, namespace, key);
    FoundExactlyWhen(site.lib, site.catalogue, namespace, key, d);
    FoundExactlyWhen(site.lib, site.catalogue, COMMON, key, d);
  }

  lemma HeldIsOffered(site: Site, namespace: string, stored: map<string, Value>, key: string)
    requires WellFormed(site.lib, site.catalogue) && Has(site.catalogue, namespace) && Has(site.catalogue, COMMON)
    ensures Has(ResolveForService(site, namespace, stored), key) ==> exists d :: Offered(site, namespace, key, d)
  {
    DocumentHolds(site, namespace, stored, key);
    OneLiveEntry(site.lib, site.catalogue, namespace, key);
    OneLiveEntry(site.lib, site.catalogue, COMMON, key);
    var own, common := DefinitionFor(site.catalogue, namespace, key), DefinitionFor(site.catalogue, COMMON, key);
    if own.Ok? {
      assert Offered(site, namespace, key, own.value);
    } else if common.Ok? {
      assert Offered(site, namespace, key, common.value);
    }
  }

  lemma PolicyNamesKept(site: Site)
    requires Deployed(site)
    ensures KeepsNames(site.catalogue, site.policy)
  {
    var document :| WellKeyed(document) && ParseSpec(site.lib, site.catalogue, document) == Ok(site.policy);
    forall d | d in EveryEntry(site.catalogue)
      ensures site.policy.DefinitionOf(d).Named() == d.Named()
    {
      PolicyOnlyNarrows(site.lib, site.catalogue, document, site.policy, d);
    }
  }

  predicate LiveName(site: Site, name: Name) { DefinitionFor(site.catalogue, name.namespace, name.key).Ok? }

  /** What a sweep may remove has left the request surface. */
  lemma SweptNameIsNotLive(site: Site, name: Name, today: int)
    requires Deployed(site)
    requires exists d | d in EveryEntry(site.catalogue) :: d.Named() == name && Due(site, d, today)
    ensures !LiveName(site, name)
  {
    var d :| d in EveryEntry(site.catalogue) && d.Named() == name && Due(site, d, today);
    EntryFacts(site.lib, site.catalogue, d);
  }

  /** What is selected for a live entry depends on rows of live names only. */
  lemma StoredAgrees(site: Site, r: map<RowKey, Row>, s: map<RowKey, Row>, profile: Option<string>)
    requires Deployed(site)
    requires forall k: RowKey | LiveName(site, k.name) :: Look(r, k) == Look(s, k)
    ensures AgreeOnLive(site.catalogue, StoredSpec(site.catalogue, r, profile), StoredSpec(site.catalogue, s, profile))
  {
    forall d | d in EveryEntry(site.catalogue) && !d.Retired()
      ensures Picked(r, d, profile) == Picked(s, d, profile)
      ensures d.Qualified() in Index(site.catalogue) && Index(site.catalogue)[d.Qualified()] == d
    {
      EntryFacts(site.lib, site.catalogue, d);
    }
  }

  /** Tables that agree on an account's live rows and revision serve it the same documents. */
  lemma SameRowsSameDocuments(site: Site, t: Tables, u: Tables, who: Identity, namespace: string,
                              profile: Option<string>)
    requires Deployed(site)
    requires forall k: RowKey | LiveName(site, k.name) ::
      Look(RowsOf(t.settings, who.account), k) == Look(RowsOf(u.settings, who.account), k)
    requires RevisionOf(t, who.account) == RevisionOf(u, who.account)
    ensures ResolveFor(site, t, who, namespace, profile) == ResolveFor(site, u, who, namespace, profile)
  {
    PolicyNamesKept(site);
    var named := NormaliseProfile(profile);
    if named.Ok? && Permit(site, who, namespace).None? {
      var r, s := RowsOf(t.settings, who.account), RowsOf(u.settings, who.account);
      StoredAgrees(site, r, s, named.value);
      DocumentDependsOnLive(site, namespace, StoredSpec(site.catalogue, r, named.value),
                            StoredSpec(site.catalogue, s, named.value));
    }
  }

  // -- One step, seen from one account ---------------------------------------------------------------

  lemma ServedMeans(t: Tables, site: Site, who: Identity, request: Request, now: int, ifRevision: Option<nat>)
    ensures var (t', r) := Serve(t, site, who, request, now, ifRevision);
      && (r.Err? ==> t' == t)
      && (r.Ok? ==>
            && Plan(site, who, request).Ok?
            && Committed(t, WriteFor(site, who, request, Plan(site, who, request).value, now, ifRevision), t', r.value))
  {}

  /** Whether a step is a request of this account that changed something. */
  predicate Changes(site: Site, t: Tables, h: Happening, account: string) {
    h.Requested? && h.who.account == account &&
    var r := Serve(t, site, h.who, h.request, h.now, h.ifRevision).1;
    r.Ok? && r.value.changed != []
  }

  lemma ForgetRows(t: Tables, account: string, other: string)
    ensures other != account ==> RowsOf(ForgetTx(t, account).settings, other) == RowsOf(t.settings, other)
    ensures RowsOf(ForgetTx(t, account).settings, account) == map[]
  {
    if other != account {
      SameRows(t.settings, ForgetTx(t, account).settings, other);
    }
  }

  lemma {:induction false} PurgeEventsKeeps(t: Tables, listing: seq<RowId>, name: Name, now: int, cap: nat)
    ensures PurgeEvents(t, listing, name, now, cap).settings == t.settings
    ensures PurgeEvents(t, listing, name, now, cap).accounts == t.accounts
  {
    if listing != [] { PurgeEventsKeeps(t, listing[..|listing| - 1], name, now, cap); }
  }

  lemma PurgeKeeps(t: Tables, name: Name, listing: seq<RowId>, now: int, cap: nat, account: string, k: RowKey)
    requires Lists(listing, Matching(t, name))
    ensures var t' := PurgeTx(t, name, listing, now, cap);
      && t'.accounts == t.accounts
      && Look(RowsOf(t'.settings, account), k) == if k.name == name then None else Look(RowsOf(t.settings, account), k)
  {
    if listing == [] {
      assert forall id | id in t.settings :: id !in Matching(t, name);
    } else {
      PurgeEventsKeeps(t.(settings := t.settings - Matching(t, name)), listing, name, now, cap);
    }
  }
}
