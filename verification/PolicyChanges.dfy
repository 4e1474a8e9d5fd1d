/** One build under policies that change: what rows stored under an earlier policy are worth. */
module PolicyChanges {
  import opened Core
  import opened Json
  import opened SettingTypes
  import opened Catalogue
  import opened Policies
  import opened Resolution
  import opened Tables
  import opened Store
  import opened Service
  import opened Plans
  import opened Server
  import opened Legality
  import opened Sweeper

  /** Deployments of one build: the catalogue and the library stay, the policy may be another. */
  ghost predicate SameBuild(site: Site, other: Site) {
    other.catalogue == site.catalogue && other.lib == site.lib && Deployed(other)
  }

  ghost predicate OneBuild(site: Site, sites: seq<Site>) { forall i | 0 <= i < |sites| :: SameBuild(site, sites[i]) }

  /** A row of a live setting is in the column its scope says, and holds a value the catalogue
      allows, whatever the policy was when it was stored. */
  ghost predicate RowInBuild(site: Site, k: RowKey, row: Row) {
    var found := DefinitionFor(site.catalogue, k.name.namespace, k.name.key);
    found.Ok? ==>
      && (k.profile == ACCOUNT_PROFILE <==> found.value.scope.AccountScope?)
      && Legal(site.lib, found.value, row.value)
  }

  ghost predicate RowsInBuild(site: Site, t: Tables) {
    forall id | id in t.settings :: RowInBuild(site, id.key, t.settings[id])
  }

  /** What a deployment lets through, its build allows. */
  lemma SanctionedInBuild(site: Site, other: Site, who: Identity, c: Change, row: Row)
    requires SameBuild(site, other) && Sanctioned(other, who, c) && !c.reset && row.value == c.value
    ensures RowInBuild(site, c.Key(), row)
  {
    var d := DefinitionFor(other.catalogue, c.name.namespace, c.name.key).value;
    var document :| WellKeyed(document) && ParseSpec(other.lib, other.catalogue, document) == Ok(other.policy);
    FoundEntry(other.lib, other.catalogue, c.name.namespace, c.name.key);
    PolicyOnlyNarrows(other.lib, other.catalogue, document, other.policy, d);
  }

  lemma ServeKeepsRowsInBuild(site: Site, other: Site, t: Tables, who: Identity, request: Request, now: int,
                              ifRevision: Option<nat>)
    requires SameBuild(site, other) && RowsInBuild(site, t)
    ensures RowsInBuild(site, Serve(t, other, who, request, now, ifRevision).0)
  {
    var (t', r) := Serve(t, other, who, request, now, ifRevision);
    ServedMeans(t, other, who, request, now, ifRevision);
    if r.Ok? {
      var w := WriteFor(other, who, request, Plan(other, who, request).value, now, ifRevision);
      forall id | id in t'.settings
        ensures RowInBuild(site, id.key, t'.settings[id])
      {
        RowComesFrom(t, w, t', r.value, id);
        if !(id in t.settings && t'.settings[id] == t.settings[id]) {
          var c :| c in w.changes && !c.reset && c.Key() == id.key
            && t'.settings[id].value == c.value && |c.profile| <= 64;
          PlannedChangesAreSanctioned(other, who, request, c);
          SanctionedInBuild(site, other, who, c, t'.settings[id]);
        }
      }
    }
  }

  lemma NextKeepsRowsInBuild(site: Site, other: Site, t: Tables, h: Happening, t': Tables)
    requires SameBuild(site, other) && RowsInBuild(site, t) && Next(other, t, h, t')
    ensures RowsInBuild(site, t')
  {
    match h
    case Requested(who, request, now, ifRevision) =>
      ServeKeepsRowsInBuild(site, other, t, who, request, now, ifRevision);
    case Forgot(account) =>
    case Swept(name, listing, today, now) => SweepKeepsRows(t, name, listing, now, other.maxEvents);
  }

  lemma OneStep(site: Site, sites: seq<Site>, ts: seq<Tables>, hs: seq<Happening>, m: nat)
    requires RunThrough(sites, ts, hs) && OneBuild(site, sites) && m < |hs|
    ensures SameBuild(site, sites[m]) && Next(sites[m], ts[m], hs[m], ts[m + 1])
  {}

  /** Through any changes of policy, every stored value of a live setting stays one the catalogue
      allows, in the column its scope says. */
  lemma {:induction false} RowsStayInBuild(site: Site, sites: seq<Site>, ts: seq<Tables>, hs: seq<Happening>, n: nat)
    requires RunThrough(sites, ts, hs) && OneBuild(site, sites) && RowsInBuild(site, ts[0]) && n <= |hs|
    ensures RowsInBuild(site, ts[n])
  {
    if n > 0 {
      var m := n - 1;
      RowsStayInBuild(site, sites, ts, hs, m);
      OneStep(site, sites, ts, hs, m);
      NextKeepsRowsInBuild(site, sites[m], ts[m], hs[m], ts[n]);
    }
  }

  /** What is stored for a setting is a value its build allows. */
  lemma PickedInBuild(site: Site, t: Tables, account: string, profile: Option<string>, d: SettingDef)
    requires Deployed(site) && RowsInBuild(site, t) && d in EveryEntry(site.catalogue) && !d.Retired()
    ensures var stored := Picked(RowsOf(t.settings, account), d, profile); stored.Some? ==>
      Legal(site.lib, d, stored.value)
  {
    EntryFacts(site.lib, site.catalogue, d);
    if Picked(RowsOf(t.settings, account), d, profile).Some? {
      var column := if d.scope.AccountScope? then ACCOUNT_PROFILE else profile.value;
      var id := RowId(account, RowKey(column, d.Named()));
      assert id in t.settings && RowInBuild(site, id.key, t.settings[id]);
    }
  }

  /** A row stored before a narrowing is returned as it is. After any run through any policies, what
      a setting resolves to under the policy now in force is legal under it if and only if the
      setting is pinned, or the stored value stays inside what the policy's document says of it, or
      nothing is stored and the document gives a default or leaves the catalogue's inside. */
  lemma ResolvedIsLegalNowExactlyWhen(site: Site, document: Json, sites: seq<Site>, ts: seq<Tables>,
                                      hs: seq<Happening>, n: nat,
                                      account: string, profile: Option<string>, d: SettingDef)
    requires Deployed(site) && RunThrough(sites, ts, hs) && OneBuild(site, sites) && ts[0] == EMPTY && n <= |hs|
    requires WellKeyed(document) && ParseSpec(site.lib, site.catalogue, document) == Ok(site.policy)
    requires d in EveryEntry(site.catalogue) && !d.Retired()
    ensures var clauses := ClausesOf(document.fields, d.Named());
      var stored := Picked(RowsOf(ts[n].settings, account), d, profile);
      Legal(site.lib, site.policy.DefinitionOf(d), Told(site, ts[n], account, profile, d)) <==>
        || site.policy.IsPinned(d)
        || (stored.Some? && StaysInside(d.valueType, clauses, stored.value))
        || (stored.None? && (clauses.default.Some? || StaysInside(d.valueType, clauses, d.default)))
    ensures Legal(site.lib, d, Told(site, ts[n], account, profile, d))
  {
    RowsStayInBuild(site, sites, ts, hs, n);
    PickedInBuild(site, ts[n], account, profile, d);
    ToldComesFrom(site, ts[n], account, profile, d);
    PolicyOnlyNarrows(site.lib, site.catalogue, document, site.policy, d);
    AcceptedDefaultIsLegalExactlyWhen(site.lib, site.catalogue, document, site.policy, d);
    EntryFacts(site.lib, site.catalogue, d);
    var stored := Picked(RowsOf(ts[n].settings, account), d, profile);
    if stored.Some? {
      AcceptedPolicyAllowsExactly(site.lib, site.catalogue, document, site.policy, d, stored.value);
    }
  }
}
