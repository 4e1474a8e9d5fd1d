/** What a retirement window guarantees, and the sweep that ends it. */
module Sweeper {
  import opened Core
  import opened SettingTypes
  import opened Catalogue
  import opened Resolution
  import opened Tables
  import opened Store
  import opened Merge
  import opened Service
  import opened Plans
  import opened Server
  import opened Legality

  // -- Rows of a retired key ----------------------------------------------------------------------

  /** The build has this entry, retired on this day. */
  ghost predicate RetiredOn(site: Site, name: Name, day: int) {
    exists d | d in EveryEntry(site.catalogue) :: d.Named() == name && RetiredAtDay(site, d, day)
  }

  predicate RetiredAtDay(site: Site, d: SettingDef, day: int) {
    d.retiredAt.Some? && site.lib.isoDay(d.retiredAt.value) == Some(day)
  }

  /** A run through several deployments: the catalogue and the policy may change at every step. */
  ghost predicate RunThrough(sites: seq<Site>, ts: seq<Tables>, hs: seq<Happening>) {
    && |sites| == |hs| && |ts| == |hs| + 1
    && forall i | 0 <= i < |hs| ::
       WellFormed(sites[i].lib, sites[i].catalogue) && Next(sites[i], ts[i], hs[i], ts[i + 1])
  }

  /** Nothing about this name's rows differs, their provenance included. */
  ghost predicate SameRowsOf(name: Name, r: map<RowKey, Row>, s: map<RowKey, Row>) {
    forall k: RowKey | k.name == name :: (k in r <==> k in s) && (k in r ==> r[k] == s[k])
  }

  /** A step that ends a retired key's rows: the account forgotten, or a sweep past the window. */
  predicate Ends(site: Site, h: Happening, account: string, name: Name, day: int) {
    h == Forgot(account) || (h.Swept? && h.name == name && day + site.retentionDays < h.today)
  }

  lemma RetiredIsNotLive(site: Site, name: Name, day: int)
    requires WellFormed(site.lib, site.catalogue) && RetiredOn(site, name, day)
    ensures !LiveName(site, name)
    ensures forall d | d in EveryEntry(site.catalogue) && d.Named() == name :: RetiredAtDay(site, d, day)
  {
    var e :| e in EveryEntry(site.catalogue) && e.Named() == name && RetiredAtDay(site, e, day);
    EntryFacts(site.lib, site.catalogue, e);
    forall d | d in EveryEntry(site.catalogue) && d.Named() == name
      ensures d == e
    {
      EntryFacts(site.lib, site.catalogue, d);
    }
  }

  /** No request can write or reset a retired key. */
  lemma RequestsLeaveRetiredRows(site: Site, t: Tables, who: Identity, request: Request, now: int,
                                 ifRevision: Option<nat>,
                                 account: string, name: Name)
    requires WellFormed(site.lib, site.catalogue) && !LiveName(site, name)
    ensures SameRowsOf(name, RowsOf(t.settings, account),
                       RowsOf(Serve(t, site, who, request, now, ifRevision).0.settings, account))
  {
    var (t', r) := Serve(t, site, who, request, now, ifRevision);
    ServedMeans(t, site, who, request, now, ifRevision);
    if r.Ok? {
      var w := WriteFor(site, who, request, Plan(site, who, request).value, now, ifRevision);
      if who.account != account {
        OtherRowsAfterApply(t, w, t', r.value, account);
      } else {
        forall k: RowKey | k.name == name
          ensures LastEffective(w.changes, RowsOf(t.settings, account), k).None?
        {
          LastEffectiveIs(w.changes, RowsOf(t.settings, account), k);
          forall c | c in w.changes
            ensures c.name != name
          {
            PlannedChangesAreSanctioned(site, who, request, c);
          }
        }
        forall k: RowKey | k.name == name { RowsAfterApply(t, w, t', r.value, k); }
      }
    }
  }

  lemma StepLeavesRetiredRows(site: Site, t: Tables, h: Happening, t': Tables, account: string, name: Name, day: int)
    requires WellFormed(site.lib, site.catalogue) && Next(site, t, h, t')
    requires RetiredOn(site, name, day) && !Ends(site, h, account, name, day)
    ensures SameRowsOf(name, RowsOf(t.settings, account), RowsOf(t'.settings, account))
  {
    RetiredIsNotLive(site, name, day);
    match h
    case Requested(who, request, now, ifRevision) =>
      RequestsLeaveRetiredRows(site, t, who, request, now, ifRevision, account, name);
    case Forgot(gone) => ForgetRows(t, gone, account);
    case Swept(swept, listing, today, now) =>
      SweepKeepsRows(t, swept, listing, now, site.maxEvents);
      forall k: RowKey | k.name == name { PurgeKeeps(t, swept, listing, now, site.maxEvents, account, k); }
  }

  ghost predicate RetiredThroughout(sites: seq<Site>, name: Name, day: int, i: nat, j: nat)
    requires i <= j <= |sites|
  {
    forall n | i <= n < j :: RetiredOn(sites[n], name, day)
  }

  predicate EndsAmong(sites: seq<Site>, hs: seq<Happening>, account: string, name: Name, day: int, i: nat, j: nat)
    requires i <= j <= |sites| == |hs|
  {
    exists n | i <= n < j :: Ends(sites[n], hs[n], account, name, day)
  }

  lemma SameRowsChain(name: Name, r: map<RowKey, Row>, s: map<RowKey, Row>, u: map<RowKey, Row>)
    requires SameRowsOf(name, r, s) && SameRowsOf(name, s, u)
    ensures SameRowsOf(name, r, u)
  {}

  /** Over any run in which a key stays retired, through any changes to the rest of the catalogue
      and to the policy, its rows stay exactly as they were unless the account is forgotten or a
      sweep runs after the window has passed. */
  lemma {:induction false} RetiredRowsSurvive(sites: seq<Site>, ts: seq<Tables>, hs: seq<Happening>, i: nat, j: nat,
                                              account: string, name: Name, day: int)
    requires RunThrough(sites, ts, hs) && i <= j <= |hs|
    requires RetiredThroughout(sites, name, day, i, j)
    ensures EndsAmong(sites, hs, account, name, day, i, j)
         || SameRowsOf(name, RowsOf(ts[i].settings, account), RowsOf(ts[j].settings, account))
    decreases j - i
  {
    if i < j {
      var m := j - 1;
      RetiredRowsSurvive(sites, ts, hs, i, m, account, name, day);
      if !EndsAmong(sites, hs, account, name, day, i, j) {
        StepLeavesRetiredRows(sites[m], ts[m], hs[m], ts[j], account, name, day);
        SameRowsChain(name, RowsOf(ts[i].settings, account), RowsOf(ts[m].settings, account),
                      RowsOf(ts[j].settings, account));
      }
    }
  }

  lemma PickedFromSameRows(name: Name, r: map<RowKey, Row>, s: map<RowKey, Row>, d: SettingDef, profile: Option<string>)
    requires SameRowsOf(name, r, s) && d.Named() == name
    ensures Picked(r, d, profile) == Picked(s, d, profile)
  {}

  lemma SamePolicySameRowsSameValue(before: Site, after: Site, t: Tables, u: Tables, account: string,
                                    profile: Option<string>, d: SettingDef)
    requires Deployed(before) && Deployed(after) && before.policy == after.policy
    requires !d.Retired() && d in EveryEntry(before.catalogue) && d in EveryEntry(after.catalogue)
    requires Picked(RowsOf(t.settings, account), d, profile) == Picked(RowsOf(u.settings, account), d, profile)
    ensures Told(after, u, account, profile, d) == Told(before, t, account, profile, d)
  {
    ToldComesFrom(before, t, account, profile, d);
    ToldComesFrom(after, u, account, profile, d);
  }

  /** Reverting a retirement in time restores what the setting resolved to, under every profile:
      the deployment before it and the one after it tell the account the same. */
  lemma RevertingRestores(before: Site, after: Site, sites: seq<Site>, ts: seq<Tables>, hs: seq<Happening>, i: nat,
                          j: nat,
                          account: string, profile: Option<string>, d: SettingDef, day: int)
    requires Deployed(before) && Deployed(after) && before.policy == after.policy
    requires !d.Retired() && d in EveryEntry(before.catalogue) && d in EveryEntry(after.catalogue)
    requires RunThrough(sites, ts, hs) && i <= j <= |hs|
    requires RetiredThroughout(sites, d.Named(), day, i, j)
    requires !EndsAmong(sites, hs, account, d.Named(), day, i, j)
    ensures Told(after, ts[j], account, profile, d) == Told(before, ts[i], account, profile, d)
  {
    RetiredRowsSurvive(sites, ts, hs, i, j, account, d.Named(), day);
    PickedFromSameRows(d.Named(), RowsOf(ts[i].settings, account), RowsOf(ts[j].settings, account), d, profile);
    SamePolicySameRowsSameValue(before, after, ts[i], ts[j], account, profile, d);
  }

  // -- The sweep ---------------------------------------------------------------------------------------

  /** A query's answer, in an order nothing promises. */
  method ListMatching(t: Tables, name: Name) returns (listing: seq<RowId>)
    ensures Lists(listing, Matching(t, name))
  {
    listing := [];
    var left := Matching(t, name);
    while left != {}
      invariant Distinct(listing)
      invariant left !! set id | id in listing
      invariant Matching(t, name) == left + set id | id in listing
      decreases left
    {
      var id :| id in left;
      left := left - {id};
      listing := listing + [id];
    }
  }

  function NamesOf(entries: seq<SettingDef>): set<Name> { set d | d in entries :: d.Named() }

  function RowsNamed(t: Tables, names: set<Name>): set<RowId> { set id | id in t.settings && id.key.name in names }

  lemma {:induction false} DueAre(site: Site, entries: seq<SettingDef>, today: int)
    ensures forall d :: d in DueEntries(site, entries, today) <==> d in entries && Due(site, d, today)
  {
    if entries != [] {
      DueAre(site, entries[1..], today);
      assert entries == [entries[0]] + entries[1..];
    }
  }

  /** What a sweep leaves: every row but those of the due names, and every account as it was. */
  ghost predicate SweptOf(t: Tables, names: set<Name>, t': Tables) {
    t'.accounts == t.accounts && t'.settings == t.settings - RowsNamed(t, names)
  }

  lemma PurgeSweeps(t: Tables, name: Name, listing: seq<RowId>, now: int, cap: nat)
    requires Lists(listing, Matching(t, name))
    ensures SweptOf(t, {name}, PurgeTx(t, name, listing, now, cap))
    ensures Matching(t, name) == RowsNamed(t, {name})
  {
    if listing == [] {
      assert forall id | id in t.settings :: id !in Matching(t, name);
      assert t.settings - RowsNamed(t, {name}) == t.settings;
    } else {
      PurgeEventsKeeps(t.(settings := t.settings - Matching(t, name)), listing, name, now, cap);
      assert Matching(t, name) == RowsNamed(t, {name});
    }
  }

  lemma SweepsAdd(t: Tables, u: Tables, v: Tables, done: set<Name>, name: Name)
    requires SweptOf(t, done, u) && SweptOf(u, {name}, v)
    ensures SweptOf(t, done + {name}, v)
    ensures |RowsNamed(t, done + {name})| == |RowsNamed(t, done)| + |RowsNamed(u, {name})|
  {
    assert RowsNamed(t, done + {name}) == RowsNamed(t, done) + RowsNamed(u, {name});
    assert RowsNamed(t, done) !! RowsNamed(u, {name});
    assert v.settings == t.settings - RowsNamed(t, done + {name});
  }

  lemma RunGrows(site: Site, ts: seq<Tables>, hs: seq<Happening>, h: Happening, t: Tables)
    requires Run(site, ts, hs) && Next(site, ts[|hs|], h, t)
    ensures Run(site, ts + [t], hs + [h])
  {
    forall i | 0 <= i < |hs + [h]|
      ensures Next(site, (ts + [t])[i], (hs + [h])[i], (ts + [t])[i + 1])
    {
      if i < |hs| { assert Next(site, ts[i], hs[i], ts[i + 1]); }
    }
  }

  /** An entry of this name was retired on a day the window after which has passed. */
  ghost predicate PastWindow(site: Site, name: Name, today: int) {
    exists d, day :: d in EveryEntry(site.catalogue) && d.Named() == name && RetiredAtDay(site, d, day)
                  && day + site.retentionDays < today
  }

  lemma DueIsPastWindow(site: Site, name: Name, today: int)
    ensures name in NamesOf(DueEntries(site, EveryEntry(site.catalogue), today)) <==> PastWindow(site, name, today)
  {
    var entries := EveryEntry(site.catalogue);
    DueAre(site, entries, today);
    if name in NamesOf(DueEntries(site, entries, today)) {
      var d :| d in DueEntries(site, entries, today) && d.Named() == name;
      var day := site.lib.isoDay(d.retiredAt.value).value;
      assert RetiredAtDay(site, d, day) && day + site.retentionDays < today;
    }
    if d, day :| d in entries && d.Named() == name && RetiredAtDay(site, d, day) && day + site.retentionDays < today {
      assert d in DueEntries(site, entries, today);
    }
  }

  /** What is left is every row but those past their window, and as many went. */
  lemma SweptIsPastWindow(site: Site, today: int, t: Tables, t': Tables)
    requires SweptOf(t, NamesOf(DueEntries(site, EveryEntry(site.catalogue), today)), t')
    ensures forall id :: id in t'.settings <==> id in t.settings && !PastWindow(site, id.key.name, today)
    ensures forall id | id in t'.settings :: t'.settings[id] == t.settings[id]
    ensures RowsNamed(t, NamesOf(DueEntries(site, EveryEntry(site.catalogue), today)))
         == t.settings.Keys - t'.settings.Keys
  {
    forall name
      ensures name in NamesOf(DueEntries(site, EveryEntry(site.catalogue), today)) <==> PastWindow(site, name, today)
    {
      DueIsPastWindow(site, name, today);
    }
  }

  /** `sweep_once`: a row stays exactly when no entry of its name is past its window, as it was; the
      count is of the others. One committed step a key; `ts` and `hs` are those steps. */
  method SweepOnce(store: SqlSettingsStore, site: Site, today: int, now: int)
    returns (removed: nat, ghost ts: seq<Tables>, ghost hs: seq<Happening>)
    modifies store.connection
    ensures forall id :: id in store.connection.settings <==>
      id in old(store.connection.settings) && !PastWindow(site, id.key.name, today)
    ensures forall id | id in store.connection.settings ::
      store.connection.settings[id] == old(store.connection.settings)[id]
    ensures removed == |old(store.connection.settings).Keys - store.connection.settings.Keys|
    ensures store.connection.accounts == old(store.connection.accounts)
    ensures Run(site, ts, hs) && ts[0] == old(store.connection.Now()) && ts[|hs|] == store.connection.Now()
    ensures forall i | 0 <= i < |hs| :: hs[i].Swept? && hs[i].today == today
  {
    ghost var t := store.connection.Now();
    var due := DueEntries(site, EveryEntry(site.catalogue), today);
    DueAre(site, EveryEntry(site.catalogue), today);
    removed, ts, hs := 0, [t], [];
    assert RowsNamed(t, NamesOf(due[..0])) == {};
    for i := 0 to |due|
      invariant SweptOf(t, NamesOf(due[..i]), store.connection.Now())
      invariant removed == |RowsNamed(t, NamesOf(due[..i]))|
      invariant Run(site, ts, hs) && ts[0] == t && ts[|hs|] == store.connection.Now()
      invariant forall k | 0 <= k < |hs| :: hs[k].Swept? && hs[k].today == today
    {
      ghost var u := store.connection.Now();
      var name := due[i].Named();
      var listing := ListMatching(store.connection.Now(), name);
      var gone := store.PurgeSetting(name, listing, now, site.maxEvents);
      PurgeSweeps(u, name, listing, now, site.maxEvents);
      SweepsAdd(t, u, store.connection.Now(), NamesOf(due[..i]), name);
      assert NamesOf(due[..i + 1]) == NamesOf(due[..i]) + {name} by {
        assert due[..i + 1] == due[..i] + [due[i]];
      }
      removed := removed + gone;
      assert Next(site, u, Swept(name, listing, today, now), store.connection.Now()) by {
        assert due[i] in due && due[i] in EveryEntry(site.catalogue);
      }
      RunGrows(site, ts, hs, Swept(name, listing, today, now), store.connection.Now());
      ts, hs := ts + [store.connection.Now()], hs + [Swept(name, listing, today, now)];
    }
    assert due[..|due|] == due;
    SweptIsPastWindow(site, today, t, store.connection.Now());
  }
}
