/** What holds of the server after any run of requests, erasures and sweeps. */
module Runs {
  import opened Core
  import opened SettingTypes
  import opened Resolution
  import opened Tables
  import opened EventLog
  import opened Store
  import opened Merge
  import opened Service
  import opened Server

  // -- Rows, revision and log --------------------------------------------------------------------

  /** One account's log against its revision: empty at revision zero, otherwise ending at the
      current one, each event one past the event before it unless it records a sweep, which
      repeats it. */
  ghost predicate Tracks(log: seq<Event>, revision: nat) {
    && (log == [] <==> revision == 0)
    && (log != [] ==> log[|log| - 1].revision == revision)
    && forall i | 0 < i < |log| ::
         log[i].revision == log[i - 1].revision + (if log[i].action.PurgeRetired? then 0 else 1)
  }

  ghost predicate AccountAgrees(t: Tables, account: string) {
    && Tracks(EventsOf(t.events, account), RevisionOf(t, account))
    && (RowsOf(t.settings, account) != map[] ==> account in t.accounts && RevisionOf(t, account) >= 1)
  }

  ghost predicate Agrees(t: Tables) {
    Ordered(t.events, t.nextSequence) && forall account :: AccountAgrees(t, account)
  }

  lemma TracksOn(log: seq<Event>, revision: nat, e: Event, cap: nat)
    requires Tracks(log, revision) && cap >= 1
    requires e.revision == revision + (if e.action.PurgeRetired? then 0 else 1) && e.revision >= 1
    ensures Tracks(Newest(log + [e], cap), e.revision)
  {}

  lemma ApplyAgrees(t: Tables, w: Write, t': Tables, applied: Applied)
    requires Agrees(t) && Committed(t, w, t', applied) && w.cap >= 1 && w.action != PurgeRetired
    ensures Agrees(t')
  {
    LogAfterApply(t, w, t', applied);
    forall account
      ensures AccountAgrees(t', account)
    {
      assert AccountAgrees(t, account);
      if account != w.account {
        OtherRowsAfterApply(t, w, t', applied, account);
        OtherLogsAfterApply(t, w, t', applied, account);
      } else if applied.changed != [] {
        var e := EventFor(w, applied.revision, applied.changed).(sequence := t.nextSequence);
        TracksOn(EventsOf(t.events, account), RevisionOf(t, account), e, w.cap);
      }
    }
  }

  lemma ForgetAgrees(t: Tables, gone: string)
    requires Agrees(t)
    ensures Agrees(ForgetTx(t, gone))
  {
    ErasedOrdered(t.events, t.nextSequence, gone);
    forall account
      ensures AccountAgrees(ForgetTx(t, gone), account)
    {
      assert AccountAgrees(t, account);
      ForgetRows(t, gone, account);
      ErasedForgets(t.events, gone, account);
    }
  }

  /** Logs and revisions alone, which is all the sweep's events need. */
  ghost predicate LogsAgree(t: Tables) {
    Ordered(t.events, t.nextSequence)
    && forall account :: Tracks(EventsOf(t.events, account), RevisionOf(t, account))
  }

  lemma {:induction false} PurgeEventsAgree(t: Tables, listing: seq<RowId>, name: Name, now: int, cap: nat)
    requires LogsAgree(t) && cap >= 1
    requires forall i | 0 <= i < |listing| :: RevisionOf(t, listing[i].account) >= 1
    ensures LogsAgree(PurgeEvents(t, listing, name, now, cap))
  {
    if listing != [] {
      var n := |listing| - 1;
      PurgeEventsAgree(t, listing[..n], name, now, cap);
      PurgeEventsKeeps(t, listing[..n], name, now, cap);
      var before := PurgeEvents(t, listing[..n], name, now, cap);
      var account := listing[n].account;
      var e := PurgeEvent(account, name, now, RevisionOf(before, account));
      TracksOn(EventsOf(before.events, account), RevisionOf(before, account), e.(sequence := before.nextSequence), cap);
      forall other
        ensures Tracks(EventsOf(Append(before, e, cap).events, other), RevisionOf(before, other))
        ensures Ordered(Append(before, e, cap).events, before.nextSequence + 1)
      {
        AppendKeepsNewest(before, e, cap, other);
      }
    }
  }

  lemma PurgeAgrees(t: Tables, name: Name, listing: seq<RowId>, now: int, cap: nat)
    requires Agrees(t) && Lists(listing, Matching(t, name)) && cap >= 1
    ensures Agrees(PurgeTx(t, name, listing, now, cap))
  {
    if listing != [] {
      var emptied := t.(settings := t.settings - Matching(t, name));
      forall i | 0 <= i < |listing|
        ensures RevisionOf(t, listing[i].account) >= 1
      {
        assert listing[i] in Matching(t, name);
        assert listing[i].key in RowsOf(t.settings, listing[i].account);
        assert AccountAgrees(t, listing[i].account);
      }
      assert LogsAgree(emptied) by {
        forall account
          ensures Tracks(EventsOf(t.events, account), RevisionOf(t, account))
        {
          assert AccountAgrees(t, account);
        }
      }
      PurgeEventsAgree(emptied, listing, name, now, cap);
      PurgeEventsKeeps(emptied, listing, name, now, cap);
      var t' := PurgeTx(t, name, listing, now, cap);
      forall account
        ensures AccountAgrees(t', account)
      {
        assert AccountAgrees(t, account);
        if RowsOf(t'.settings, account) != map[] {
          var k :| k in RowsOf(t'.settings, account);
          assert k in RowsOf(t.settings, account);
        }
      }
    }
  }

  lemma NextAgrees(site: Site, t: Tables, h: Happening, t': Tables)
    requires site.maxEvents >= 1 && Agrees(t) && Next(site, t, h, t')
    ensures Agrees(t')
  {
    match h
    case Requested(who, request, now, ifRevision) =>
      ServedMeans(t, site, who, request, now, ifRevision);
      var r := Serve(t, site, who, request, now, ifRevision).1;
      if r.Ok? {
        ApplyAgrees(t, WriteFor(site, who, request, Plan(site, who, request).value, now, ifRevision), t', r.value);
      }
    case Forgot(account) => ForgetAgrees(t, account);
    case Swept(name, listing, today, now) => PurgeAgrees(t, name, listing, now, site.maxEvents);
  }

  lemma EmptyAgrees()
    ensures Agrees(EMPTY)
  {
    forall account
      ensures AccountAgrees(EMPTY, account)
    {
      assert EventsOf(EMPTY.events, account) == [];
      assert RowsOf(EMPTY.settings, account) == map[];
    }
  }

  /** After any run from empty tables, rows, revisions and logs agree: a stored row implies an
      account at revision one or more, an account's newest event carries its revision, and the
      retained events that are not sweeps have consecutive revisions. */
  lemma {:induction false} RowsRevisionAndLogAgree(site: Site, ts: seq<Tables>, hs: seq<Happening>, n: nat)
    requires site.maxEvents >= 1 && Run(site, ts, hs) && ts[0] == EMPTY && n <= |hs|
    ensures Agrees(ts[n])
  {
    if n == 0 {
      EmptyAgrees();
    } else {
      RowsRevisionAndLogAgree(site, ts, hs, n - 1);
      NextAgrees(site, ts[n - 1], hs[n - 1], ts[n]);
    }
  }

  ghost predicate LogsCapped(t: Tables, cap: nat) { forall account :: |EventsOf(t.events, account)| <= cap }

  lemma {:induction false} PurgeStaysCapped(t: Tables, listing: seq<RowId>, name: Name, now: int, cap: nat)
    requires Ordered(t.events, t.nextSequence) && LogsCapped(t, cap)
    ensures LogsCapped(PurgeEvents(t, listing, name, now, cap), cap)
  {
    if listing != [] {
      var n := |listing| - 1;
      PurgeStaysCapped(t, listing[..n], name, now, cap);
      PurgeStaysOrdered(t, listing[..n], name, now, cap);
      var before := PurgeEvents(t, listing[..n], name, now, cap);
      var e := PurgeEvent(listing[n].account, name, now, RevisionOf(before, listing[n].account));
      forall account
        ensures |EventsOf(Append(before, e, cap).events, account)| <= cap
      {
        AppendKeepsNewest(before, e, cap, account);
      }
    }
  }

  lemma NextStaysCapped(site: Site, t: Tables, h: Happening, t': Tables)
    requires Next(site, t, h, t') && Ordered(t.events, t.nextSequence) && LogsCapped(t, site.maxEvents)
    ensures LogsCapped(t', site.maxEvents)
  {
    match h
    case Requested(who, request, now, ifRevision) =>
      ServedMeans(t, site, who, request, now, ifRevision);
      var r := Serve(t, site, who, request, now, ifRevision).1;
      if r.Ok? {
        var w := WriteFor(site, who, request, Plan(site, who, request).value, now, ifRevision);
        LogAfterApply(t, w, t', r.value);
        forall other | other != who.account
          ensures EventsOf(t'.events, other) == EventsOf(t.events, other)
        {
          OtherLogsAfterApply(t, w, t', r.value, other);
        }
      }
    case Forgot(gone) =>
      forall account
        ensures |EventsOf(t'.events, account)| <= site.maxEvents
      {
        ErasedForgets(t.events, gone, account);
      }
    case Swept(name, listing, today, now) =>
      if listing != [] {
        PurgeStaysCapped(t.(settings := t.settings - Matching(t, name)), listing, name, now, site.maxEvents);
      }
  }

  /** After any run from empty tables no account's log is longer than the deployment's cap. */
  lemma {:induction false} LogsStayCapped(site: Site, ts: seq<Tables>, hs: seq<Happening>, n: nat)
    requires site.maxEvents >= 1 && Run(site, ts, hs) && ts[0] == EMPTY && n <= |hs|
    ensures LogsCapped(ts[n], site.maxEvents)
  {
    if n == 0 {
      assert forall a :: EventsOf(EMPTY.events, a) == [];
    } else {
      LogsStayCapped(site, ts, hs, n - 1);
      RowsRevisionAndLogAgree(site, ts, hs, n - 1);
      NextStaysCapped(site, ts[n - 1], hs[n - 1], ts[n]);
    }
  }

  // -- Revisions count changes ----------------------------------------------------------------------

  /** One step's effect on one account's revision. */
  lemma RevisionAfter(site: Site, t: Tables, h: Happening, t': Tables, account: string)
    requires Next(site, t, h, t') && Ordered(t.events, t.nextSequence)
    ensures RevisionOf(t', account)
         == if h == Forgot(account) then 0
            else RevisionOf(t, account) + (if Changes(site, t, h, account) then 1 else 0)
  {
    match h
    case Requested(who, request, now, ifRevision) =>
      ServedMeans(t, site, who, request, now, ifRevision);
      var r := Serve(t, site, who, request, now, ifRevision).1;
      if r.Ok? {
        var w := WriteFor(site, who, request, Plan(site, who, request).value, now, ifRevision);
        LogAfterApply(t, w, t', r.value);
        if who.account != account { OtherLogsAfterApply(t, w, t', r.value, account); }
      }
    case Forgot(_) =>
    case Swept(name, listing, today, now) =>
      PurgeKeeps(t, name, listing, now, site.maxEvents, account, RowKey("", name));
  }

  /** How many requests of the account have changed something since it was last forgotten. */
  ghost function ChangesSinceForgotten(site: Site, ts: seq<Tables>, hs: seq<Happening>, account: string, n: nat): nat
    requires |ts| == |hs| + 1 && n <= |hs|
  {
    if n == 0 || hs[n - 1] == Forgot(account) then 0
    else
      var before := ChangesSinceForgotten(site, ts, hs, account, n - 1);
      if Changes(site, ts[n - 1], hs[n - 1], account) then before + 1 else before
  }

  /** The revision is that count, at every point of every run from empty tables. */
  lemma {:induction false} RevisionCountsChanges(site: Site, ts: seq<Tables>, hs: seq<Happening>, account: string,
                                                 n: nat)
    requires site.maxEvents >= 1 && Run(site, ts, hs) && ts[0] == EMPTY && n <= |hs|
    ensures RevisionOf(ts[n], account) == ChangesSinceForgotten(site, ts, hs, account, n)
  {
    if n > 0 {
      RevisionCountsChanges(site, ts, hs, account, n - 1);
      RowsRevisionAndLogAgree(site, ts, hs, n - 1);
      RevisionAfter(site, ts[n - 1], hs[n - 1], ts[n], account);
    }
  }

  // -- Entity tags identify documents -----------------------------------------------------------------

  ghost predicate NeverForgot(hs: seq<Happening>, account: string, i: nat, j: nat)
    requires i <= j <= |hs|
  {
    forall k | i <= k < j :: hs[k] != Forgot(account)
  }

  /** Tables that agree on an account's rows of live names. */
  ghost predicate SameLiveRows(site: Site, t: Tables, u: Tables, account: string) {
    forall k: RowKey | LiveName(site, k.name) ::
      Look(RowsOf(t.settings, account), k) == Look(RowsOf(u.settings, account), k)
  }

  /** A step that neither forgets nor moves the revision leaves the account's live rows alone. */
  lemma QuietStep(site: Site, t: Tables, h: Happening, t': Tables, account: string)
    requires Deployed(site) && Next(site, t, h, t') && Ordered(t.events, t.nextSequence)
    requires h != Forgot(account) && !Changes(site, t, h, account)
    ensures SameLiveRows(site, t, t', account)
  {
    match h
    case Requested(who, request, now, ifRevision) =>
      ServedMeans(t, site, who, request, now, ifRevision);
      var r := Serve(t, site, who, request, now, ifRevision).1;
      if r.Ok? {
        var w := WriteFor(site, who, request, Plan(site, who, request).value, now, ifRevision);
        if who.account == account {
          LogAfterApply(t, w, t', r.value);
        } else {
          OtherRowsAfterApply(t, w, t', r.value, account);
        }
      }
    case Forgot(gone) => ForgetRows(t, gone, account);
    case Swept(name, listing, today, now) =>
      SweptNameIsNotLive(site, name, today);
      forall k: RowKey | LiveName(site, k.name)
        ensures Look(RowsOf(t.settings, account), k) == Look(RowsOf(t'.settings, account), k)
      {
        PurgeKeeps(t, name, listing, now, site.maxEvents, account, k);
      }
  }

  lemma OneStepNames(site: Site, t: Tables, h: Happening, t': Tables, account: string)
    requires Deployed(site) && Next(site, t, h, t') && Ordered(t.events, t.nextSequence) && h != Forgot(account)
    ensures Ordered(t'.events, t'.nextSequence)
    ensures RevisionOf(t, account) <= RevisionOf(t', account)
    ensures RevisionOf(t, account) == RevisionOf(t', account) ==> SameLiveRows(site, t, t', account)
  {
    StaysOrdered(site, t, h, t');
    RevisionAfter(site, t, h, t', account);
    if !Changes(site, t, h, account) {
      QuietStep(site, t, h, t', account);
    }
  }

  lemma SameLiveRowsChain(site: Site, t: Tables, u: Tables, v: Tables, account: string)
    requires SameLiveRows(site, t, u, account) && SameLiveRows(site, u, v, account)
    ensures SameLiveRows(site, t, v, account)
  {}

  /** Without a forget the revision never falls, and while it stands still the live rows do. */
  lemma {:induction false} RevisionNamesLiveRows(site: Site, ts: seq<Tables>, hs: seq<Happening>, account: string,
                                                 i: nat, j: nat)
    requires Deployed(site) && Run(site, ts, hs) && i <= j <= |hs|
    requires Ordered(ts[i].events, ts[i].nextSequence) && NeverForgot(hs, account, i, j)
    ensures RevisionOf(ts[i], account) <= RevisionOf(ts[j], account)
    ensures RevisionOf(ts[i], account) == RevisionOf(ts[j], account) ==> SameLiveRows(site, ts[i], ts[j], account)
    ensures Ordered(ts[j].events, ts[j].nextSequence)
    decreases j - i
  {
    if i < j {
      var m := j - 1;
      RevisionNamesLiveRows(site, ts, hs, account, i, m);
      OneStepNames(site, ts[m], hs[m], ts[j], account);
      if RevisionOf(ts[i], account) == RevisionOf(ts[j], account) {
        SameLiveRowsChain(site, ts[i], ts[m], ts[j], account);
      }
    }
  }

  lemma StaysOrdered(site: Site, t: Tables, h: Happening, t': Tables)
    requires Next(site, t, h, t') && Ordered(t.events, t.nextSequence)
    ensures Ordered(t'.events, t'.nextSequence)
  {
    match h
    case Requested(who, request, now, ifRevision) =>
      ServedMeans(t, site, who, request, now, ifRevision);
      var r := Serve(t, site, who, request, now, ifRevision).1;
      if r.Ok? {
        LogAfterApply(t, WriteFor(site, who, request, Plan(site, who, request).value, now, ifRevision), t', r.value);
      }
    case Forgot(account) => ErasedOrdered(t.events, t.nextSequence, account);
    case Swept(name, listing, today, now) =>
      if listing != [] {
        PurgeStaysOrdered(t.(settings := t.settings - Matching(t, name)), listing, name, now, site.maxEvents);
      }
  }

  lemma {:induction false} PurgeStaysOrdered(t: Tables, listing: seq<RowId>, name: Name, now: int, cap: nat)
    requires Ordered(t.events, t.nextSequence)
    ensures var r := PurgeEvents(t, listing, name, now, cap); Ordered(r.events, r.nextSequence)
  {
    if listing != [] {
      var n := |listing| - 1;
      PurgeStaysOrdered(t, listing[..n], name, now, cap);
      var before := PurgeEvents(t, listing[..n], name, now, cap);
      AppendKeepsNewest(before, PurgeEvent(listing[n].account, name, now, RevisionOf(before, listing[n].account)), cap,
                        "");
    }
  }

  /** Entity tags are sound: within a run, at two moments with no forget of the account between
      them, equal revisions mean identical documents for every namespace, profile and caller --
      through changing writes, writes that change nothing, the account's creation and sweeps. */
  lemma EqualRevisionsServeEqualDocuments(site: Site, ts: seq<Tables>, hs: seq<Happening>, i: nat, j: nat,
                                          who: Identity, namespace: string, profile: Option<string>)
    requires Deployed(site) && Run(site, ts, hs) && i <= j <= |hs|
    requires Ordered(ts[i].events, ts[i].nextSequence) && NeverForgot(hs, who.account, i, j)
    requires RevisionOf(ts[i], who.account) == RevisionOf(ts[j], who.account)
    ensures ResolveFor(site, ts[i], who, namespace, profile) == ResolveFor(site, ts[j], who, namespace, profile)
  {
    RevisionNamesLiveRows(site, ts, hs, who.account, i, j);
    SameRowsSameDocuments(site, ts[i], ts[j], who, namespace, profile);
  }

  /** Optimistic concurrency: if two changing requests of one account both succeed against the
      same expected revision, the account was forgotten between them. */
  lemma SameExpectationNeedsForget(site: Site, ts: seq<Tables>, hs: seq<Happening>, i: nat, j: nat, account: string,
                                   expected: nat)
    requires Deployed(site) && Run(site, ts, hs) && i < j < |hs|
    requires Ordered(ts[i].events, ts[i].nextSequence)
    requires Changes(site, ts[i], hs[i], account) && hs[i].ifRevision == Some(expected)
    requires Changes(site, ts[j], hs[j], account) && hs[j].ifRevision == Some(expected)
    ensures exists k | i < k < j :: hs[k] == Forgot(account)
  {
    if NeverForgot(hs, account, i + 1, j) {
      RevisionAfter(site, ts[i], hs[i], ts[i + 1], account);
      StaysOrdered(site, ts[i], hs[i], ts[i + 1]);
      RevisionNamesLiveRows(site, ts, hs, account, i + 1, j);
      ExpectationMet(site, ts[i], hs[i], account);
      ExpectationMet(site, ts[j], hs[j], account);
    }
  }

  lemma ExpectationMet(site: Site, t: Tables, h: Happening, account: string)
    requires Changes(site, t, h, account) && h.ifRevision.Some?
    ensures RevisionOf(t, account) == h.ifRevision.value
  {}

  // -- And why not across a forget ----------------------------------------------------------------------

  lemma FirstSet(site: Site, t: Tables, who: Identity, request: Request, now: int, c: Change)
    requires site.maxEvents >= 1 && Agrees(t) && who.account !in t.accounts
    requires PlansOne(site, who, request, c)
    requires Serve(t, site, who, request, now, None).1.Ok?
    ensures var t' := Serve(t, site, who, request, now, None).0;
      && Agrees(t') && RevisionOf(t', who.account) == 1
      && Look(RowsOf(t'.settings, who.account), c.Key()) == Some(c.value)
  {
    var (t', r) := Serve(t, site, who, request, now, None);
    ServedMeans(t, site, who, request, now, None);
    var w := WriteFor(site, who, request, [c], now, None);
    assert AccountAgrees(t, who.account);
    RowsAfterApply(t, w, t', r.value, c.Key());
    assert LastEffective([c], map[], c.Key()) == Some(c);
    CommittedReports(t, w, t', r.value);
    assert EffectiveNames([c], map[]) == [c.name];
    LogAfterApply(t, w, t', r.value);
    ApplyAgrees(t, w, t', r.value);
  }

  /** A plan of one change that sets a row. */
  predicate PlansOne(site: Site, who: Identity, request: Request, c: Change) {
    Plan(site, who, request) == Ok([c]) && !c.reset
  }

  lemma SetPlansOne(site: Site, who: Identity, namespace: string, key: string, v: Value, profile: Option<string>)
    returns (c: Change)
    requires Plan(site, who, SetRequest(namespace, key, v, profile)).Ok?
    ensures PlansOne(site, who, SetRequest(namespace, key, v, profile), c) && c.value == v
    ensures var d := Definition(site, who, namespace, key);
      d.Ok? && c.name == d.value.Named() && StorageProfile(d.value, NormaliseProfile(profile).value) == Ok(c.profile)
  {
    c := Plan(site, who, SetRequest(namespace, key, v, profile)).value[0];
  }
}
