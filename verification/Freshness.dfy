/** What every document the client hands out is worth: whose it is, which server state it says,
    and how old that may be. */
module Freshness {
  import opened Core
  import opened Dicts
  import opened Catalogue
  import opened Resolution
  import opened EntityTags
  import opened Tables
  import opened EventLog
  import opened Service
  import opened Server
  import Runs
  import opened ClientModels
  import opened ClientCache
  import opened ClientProtocol

  /** What the server had for a key in one of its states, in the client's terms. */
  function Doc(setup: Setup, t: Tables, key: CacheKey): Option<ResolvedSettings>
    requires Has(setup.site.catalogue, COMMON)
  {
    match setup.identity(key.token)
    case None => None
    case Some(who) =>
      match ResolveFor(setup.site, t, who, key.namespace, ProfileOf(key))
      case Err(_) => None
      case Ok(served) => Some(Meaning(key.namespace, served))
  }

  /** The account behind a key is never forgotten in this history, and its id hides no wildcard
      from a list of entity tags. */
  ghost predicate Steady(setup: Setup, hs: seq<Happening>, key: CacheKey) {
    var who := setup.identity(key.token);
    who.Some? ==> !WildcardInside(who.value.account) && Runs.NeverForgot(hs, who.value.account, 0, |hs|)
  }

  function TagAt(setup: Setup, t: Tables, key: CacheKey): string {
    match setup.identity(key.token)
    case None => ""
    case Some(who) => ETag(who.account, RevisionOf(t, who.account))
  }

  // -- The server's history ------------------------------------------------------------------------

  ghost predicate History(setup: Setup, ts: seq<Tables>, hs: seq<Happening>) {
    && Run(setup.site, ts, hs)
    && forall n | 0 <= n < |ts| :: Ordered(ts[n].events, ts[n].nextSequence)
  }

  lemma HistoryGrows(setup: Setup, ts: seq<Tables>, hs: seq<Happening>, h: Happening, t: Tables)
    requires History(setup, ts, hs) && Next(setup.site, ts[|ts| - 1], h, t)
    ensures History(setup, ts + [t], hs + [h])
  {
    Runs.StaysOrdered(setup.site, ts[|ts| - 1], h, t);
    forall i | 0 <= i < |hs + [h]|
      ensures Next(setup.site, (ts + [t])[i], (hs + [h])[i], (ts + [t])[i + 1])
    {
      if i < |hs| { assert Next(setup.site, ts[i], hs[i], ts[i + 1]); }
    }
  }

  /** Equal revisions of one account, at any two moments, mean one document. */
  lemma SameTagSameDoc(setup: Setup, ts: seq<Tables>, hs: seq<Happening>, i: nat, j: nat, key: CacheKey)
    requires Deployed(setup.site) && History(setup, ts, hs) && Steady(setup, hs, key) && i < |ts| && j < |ts|
    requires var who := setup.identity(key.token);
      who.Some? ==> RevisionOf(ts[i], who.value.account) == RevisionOf(ts[j], who.value.account)
    ensures Doc(setup, ts[i], key) == Doc(setup, ts[j], key)
  {
    match setup.identity(key.token)
    case None =>
    case Some(who) =>
      if i <= j {
        Runs.EqualRevisionsServeEqualDocuments(setup.site, ts, hs, i, j, who, key.namespace, ProfileOf(key));
      } else {
        Runs.EqualRevisionsServeEqualDocuments(setup.site, ts, hs, j, i, who, key.namespace, ProfileOf(key));
      }
  }

  // -- What an answer of the server's says ------------------------------------------------------------

  /** A 304 to a request that sent the tag of some state means the documents of that state and of
      the answering one are the same. */
  lemma NotModifiedMeansSame(setup: Setup, ts: seq<Tables>, hs: seq<Happening>, parsed: nat, seen: nat, key: CacheKey,
                             etag: string)
    requires Deployed(setup.site) && History(setup, ts, hs) && parsed < |ts| && seen < |ts|
    requires Asked(setup, ts[seen], key, Some(etag)).Replied? && Asked(setup, ts[seen], key, Some(etag)).code == 304
    requires etag == "" || etag == TagAt(setup, ts[parsed], key)
    ensures Steady(setup, hs, key) ==> Doc(setup, ts[seen], key) == Doc(setup, ts[parsed], key)
  {
    var who := setup.identity(key.token).value;
    var current := RevisionOf(ts[seen], who.account);
    assert Matches(Some(etag), ETag(who.account, current));
    EmptyMatchesNothing(who.account, current);
    if Steady(setup, hs, key) {
      MatchesItsOwnRevision(who.account, RevisionOf(ts[parsed], who.account), current);
      SameTagSameDoc(setup, ts, hs, parsed, seen, key);
    }
  }

  /** A usable body of the server's is its document at that moment, and its tag is that document's. */
  lemma BodyMeans(setup: Setup, t: Tables, key: CacheKey, header: Option<string>)
    requires Has(setup.site.catalogue, COMMON)
    ensures var reply := Asked(setup, t, key, header);
      && reply.Replied?
      && (reply.code < 400 && DocumentOf(key.namespace, reply.body).Ok? ==>
            && reply.code == 200
            && Doc(setup, t, key) == Some(DocumentOf(key.namespace, reply.body).value)
            && reply.etag == Some(TagAt(setup, t, key)))
      && (reply.code == 304 ==> header.Some?)
  {
    var reply := Asked(setup, t, key, header);
    if reply.code < 400 {
      var served := ResolveFor(setup.site, t, setup.identity(key.token).value, key.namespace, ProfileOf(key)).value;
      RenderedIsReadBack(key.namespace, served);
      assert DocumentOf(key.namespace, None).Err?;
    }
  }

  /** A refusal is told as one: whatever tag came with the request and whatever is cached, a caller
      who may not have the document is never answered 304, and the client neither serves its copy
      nor falls back to defaults. */
  lemma RefusalsAreTold(setup: Setup, t: Tables, c: Client, key: CacheKey, cached: Option<nat>, now: real)
    requires Has(setup.site.catalogue, COMMON) && (cached.Some? ==> cached.value < |c.objects|)
    requires Doc(setup, t, key).None?
    ensures var reply := Asked(setup, t, key, HeaderFor(c, cached));
      && reply.Replied? && 400 <= reply.code < 500
      && Receives(c, key, cached, reply, now, setup.bound) == (c, Rejected(reply.code))
  {}

  // -- Fallbacks -------------------------------------------------------------------------------------------

  /** The deployment's outage rules for a namespace, whoever asks. */
  function DeploymentRules(site: Site, namespace: string): Fallbacks
    requires Has(site.catalogue, COMMON) && Has(site.catalogue, namespace)
  {
    Rules(ResolveForService(site, namespace, map[]))
  }

  lemma {:induction false} RuleAt(entries: Dict<string, Resolved>, key: string)
    ensures Get(Rules(entries), key)
         == match Get(entries, key)
            case None => None
            case Some(r) => Some(RuleFor(r.definition))
  {
    if entries != [] {
      RenderingTail(entries);
      RuleAt(entries[1..], key);
      GetNext(entries[0].0, RuleFor(entries[0].1.definition), Rules(entries[1..]), key);
    }
  }

  /** The deployment's rule for a key is the default and the outage rule of the entry as its policy
      has it: the namespace's own entry, or else `common`'s. It has no rule for any other key. */
  ghost predicate RulesAreOf(site: Site, namespace: string, rules: Fallbacks, key: string) {
    && (Has(rules, key) ==> exists d :: Offered(site, namespace, key, d))
    && forall d | Offered(site, namespace, key, d) ::
         var e := site.policy.DefinitionOf(d);
         Get(rules, key) == Some(Fallback(ToJson(e.default), e.onUnavailable))
  }

  lemma DeploymentRulesAre(site: Site, namespace: string, key: string)
    requires Deployed(site) && Has(site.catalogue, namespace)
    ensures RulesAreOf(site, namespace, DeploymentRules(site, namespace), key)
  {
    RuleAt(ResolveForService(site, namespace, map[]), key);
    HeldIsOffered(site, namespace, map[], key);
    forall d | Offered(site, namespace, key, d)
      ensures var e := site.policy.DefinitionOf(d);
        Get(DeploymentRules(site, namespace), key) == Some(Fallback(ToJson(e.default), e.onUnavailable))
    {
      OfferedHolds(site, namespace, map[], key, d);
    }
  }

  lemma DocCarriesTheRules(setup: Setup, t: Tables, key: CacheKey)
    requires Deployed(setup.site) && Doc(setup, t, key).Some?
    ensures Has(setup.site.catalogue, key.namespace)
    ensures Doc(setup, t, key).value.fallbacks == DeploymentRules(setup.site, key.namespace)
    ensures var d := Doc(setup, t, key).value;
      !d.stale && d.refused == {} && d.revision.Some? && d.namespace == key.namespace
  {
    var who := setup.identity(key.token).value;
    var named := NormaliseProfile(ProfileOf(key)).value;
    RulesIgnoreRows(setup.site, key.namespace,
                    StoredSpec(setup.site.catalogue, RowsOf(t.settings, who.account), named), map[]);
  }

  ghost predicate RulesKnown(setup: Setup, fallbacks: map<string, Fallbacks>)
    requires Has(setup.site.catalogue, COMMON)
  {
    forall namespace | namespace in fallbacks ::
      Has(setup.site.catalogue, namespace) && fallbacks[namespace] == DeploymentRules(setup.site, namespace)
  }

  // -- What every object, request and result satisfies --------------------------------------------------

  ghost predicate OriginOk(setup: Setup, ts: seq<Tables>, hs: seq<Happening>, o: Origin, settings: ResolvedSettings)
    requires Has(setup.site.catalogue, COMMON)
  {
    && o.parsed < |ts| && o.sent <= o.seen <= o.received < |ts|
    && Doc(setup, ts[o.parsed], o.key) == Some(settings)
    && (Steady(setup, hs, o.key) ==> Doc(setup, ts[o.seen], o.key) == Some(settings))
  }

  ghost predicate ObjectOk(setup: Setup, ts: seq<Tables>, hs: seq<Happening>, clock: real, o: Origin, e: Entry)
    requires Has(setup.site.catalogue, COMMON)
  {
    && OriginOk(setup, ts, hs, o, e.settings)
    && (e.etag == "" || e.etag == TagAt(setup, ts[o.parsed], o.key))
    && e.validatedAt == o.at <= clock
  }

  ghost predicate ObjectsOk(setup: Setup, w: World)
    requires Has(setup.site.catalogue, COMMON)
  {
    && |w.origins| == |w.client.objects|
    && forall id | 0 <= id < |w.origins| :: ObjectOk(setup, w.ts, w.hs, w.clock, w.origins[id], w.client.objects[id])
  }

  /** The object is a document of this key. */
  predicate IsOf(origins: seq<Origin>, key: CacheKey, id: nat) { id < |origins| && origins[id].key == key }

  ghost predicate EntriesOk(setup: Setup, entries: Entries, origins: seq<Origin>) {
    && Unique(entries) && |entries| <= setup.bound
    && forall e | e in entries :: IsOf(origins, e.0, e.1)
  }

  ghost predicate CarriedOk(setup: Setup, w: World, task: Task)
    requires Has(setup.site.catalogue, COMMON)
    requires task.Fetching? && task.answer.Some? && (task.cached.Some? ==> task.cached.value < |w.client.objects|)
  {
    var carried := task.answer.value;
    match carried.seen
    case None => Unhelpful(task.key, task.cached, carried.reply)
    case Some(seen) =>
      && task.sent <= seen < |w.ts|
      && var reply := Asked(setup, w.ts[seen], task.key, HeaderFor(w.client, task.cached));
         carried.reply == reply || carried.reply == WithoutTag(reply)
  }

  /** What a caller is told: a fresh answer is the server's document at its last confirmation,
      received now or less than the time to live ago; anything with a revision was read from an
      answer to a request carrying exactly this key; anything without is the deployment's rules. */
  ghost predicate ResultOk(setup: Setup, ts: seq<Tables>, hs: seq<Happening>, key: CacheKey, outcome: Outcome,
                           origin: Option<Origin>, at: real)
    requires Has(setup.site.catalogue, COMMON)
  {
    outcome.Answered? ==>
      var settings := outcome.settings;
      if settings.revision.Some? then
        && origin.Some? && origin.value.key == key
        && OriginOk(setup, ts, hs, origin.value, settings.(stale := false))
        && (!settings.stale ==> origin.value.at == at || at - origin.value.at < setup.ttl)
      else
        && Has(setup.site.catalogue, key.namespace)
        && Some(settings) == Degraded(key.namespace, None, Some(DeploymentRules(setup.site, key.namespace)))
  }

  ghost predicate TaskOk(setup: Setup, w: World, task: Task)
    requires Has(setup.site.catalogue, COMMON)
  {
    match task
    case Queued(_, _) => true
    case Fetching(key, _, cached, sent, answer) =>
      && sent < |w.ts|
      && (cached.Some? ==> cached.value < |w.client.objects| && IsOf(w.origins, key, cached.value))
      && (answer.Some? ==> CarriedOk(setup, w, task))
    case Putting(_, _, _) => true
    case Returned(key, outcome, origin, at) => ResultOk(setup, w.ts, w.hs, key, outcome, origin, at)
    case Gone => true
  }

  ghost predicate TasksOk(setup: Setup, w: World)
    requires Has(setup.site.catalogue, COMMON)
  {
    forall i | 0 <= i < |w.tasks| :: TaskOk(setup, w, w.tasks[i])
  }

  ghost predicate Honest(setup: Setup, w: World)
    requires Has(setup.site.catalogue, COMMON)
  {
    && History(setup, w.ts, w.hs)
    && ObjectsOk(setup, w)
    && EntriesOk(setup, w.client.entries, w.origins)
    && RulesKnown(setup, w.client.fallbacks)
    && TasksOk(setup, w)
  }

  // -- Time, history and tasks go by --------------------------------------------------------------------

  lemma OriginGrows(setup: Setup, ts: seq<Tables>, hs: seq<Happening>, t: Tables, h: Happening, o: Origin,
                    settings: ResolvedSettings)
    requires Has(setup.site.catalogue, COMMON) && OriginOk(setup, ts, hs, o, settings)
    ensures OriginOk(setup, ts + [t], hs + [h], o, settings)
  {
    if Steady(setup, hs + [h], o.key) {
      assert Steady(setup, hs, o.key) by {
        assert forall k | 0 <= k < |hs| :: (hs + [h])[k] == hs[k];
      }
    }
  }

  lemma TaskGrows(setup: Setup, w: World, w': World, task: Task)
    requires Has(setup.site.catalogue, COMMON) && TaskOk(setup, w, task)
    requires exists t, h :: w'.ts == w.ts + [t] && w'.hs == w.hs + [h]
    requires w'.client == w.client && w'.origins == w.origins
    ensures TaskOk(setup, w', task)
  {
    var t, h :| w'.ts == w.ts + [t] && w'.hs == w.hs + [h];
    if task.Returned? && task.outcome.Answered? && task.outcome.settings.revision.Some? {
      OriginGrows(setup, w.ts, w.hs, t, h, task.origin.value, task.outcome.settings.(stale := false));
    }
  }

  lemma ServerMovesHonestly(setup: Setup, w: World, h: Happening, t: Tables)
    requires Deployed(setup.site) && Honest(setup, w) && Next(setup.site, w.ts[|w.ts| - 1], h, t)
    ensures Honest(setup, w.(ts := w.ts + [t], hs := w.hs + [h]))
  {
    var w' := w.(ts := w.ts + [t], hs := w.hs + [h]);
    HistoryGrows(setup, w.ts, w.hs, h, t);
    forall id | 0 <= id < |w.origins|
      ensures ObjectOk(setup, w'.ts, w'.hs, w'.clock, w.origins[id], w.client.objects[id])
    {
      OriginGrows(setup, w.ts, w.hs, t, h, w.origins[id], w.client.objects[id].settings);
    }
    forall i | 0 <= i < |w'.tasks|
      ensures TaskOk(setup, w', w'.tasks[i])
    {
      TaskGrows(setup, w, w', w.tasks[i]);
    }
  }

  /** The client's own state and the history stay; one task becomes another, or joins. */
  lemma TaskStaysOk(setup: Setup, w: World, w': World, task: Task)
    requires Has(setup.site.catalogue, COMMON) && TaskOk(setup, w, task)
    requires w'.ts == w.ts && w'.hs == w.hs && w'.origins == w.origins && w'.client.objects == w.client.objects
    ensures TaskOk(setup, w', task)
  {}

  lemma TasksStayOk(setup: Setup, w: World, w': World)
    requires Has(setup.site.catalogue, COMMON) && TasksOk(setup, w)
    requires w'.ts == w.ts && w'.hs == w.hs && w'.origins == w.origins && w'.client.objects == w.client.objects
    requires forall i | 0 <= i < |w'.tasks| :: w'.tasks[i] in w.tasks || TaskOk(setup, w', w'.tasks[i])
    ensures TasksOk(setup, w')
  {
    forall i | 0 <= i < |w'.tasks|
      ensures TaskOk(setup, w', w'.tasks[i])
    {
      if w'.tasks[i] in w.tasks {
        var j :| 0 <= j < |w.tasks| && w.tasks[j] == w'.tasks[i];
        TaskStaysOk(setup, w, w', w.tasks[j]);
      }
    }
  }

  // -- The cache ---------------------------------------------------------------------------------------------

  lemma TouchedOk(setup: Setup, entries: Entries, origins: seq<Origin>, key: CacheKey)
    requires EntriesOk(setup, entries, origins)
    ensures EntriesOk(setup, Touched(entries, key), origins)
  {
    match Held(entries, key)
    case None =>
    case Some(id) =>
      RemoveIs(entries, key);
      var rest, r := Remove(entries, key), Touched(entries, key);
      assert forall i | 0 <= i < |rest| :: rest[i] in rest;
      RemoveOne(entries, key);
  }

  lemma {:induction false} RemoveOne(d: Entries, key: CacheKey)
    ensures |Remove(d, key)| == |d| - (if Has(d, key) then 1 else 0)
  {
    if d != [] {
      if d[0].0 != key {
        RemoveOne(d[1..], key);
        assert forall i | 0 <= i < |d[1..]| :: d[1..][i] == d[i + 1];
        if i :| 0 <= i < |d| && d[i].0 == key { assert d[1..][i - 1].0 == key; }
      }
    }
  }

  lemma DropsOk(setup: Setup, entries: Entries, origins: seq<Origin>, token: string, namespace: Option<string>)
    requires EntriesOk(setup, entries, origins)
    ensures EntriesOk(setup, Forgotten(entries, token, namespace), origins)
  {
    ExcludingIs(entries, Stale(entries, token, namespace));
    ExcludingLength(entries, Stale(entries, token, namespace));
  }

  lemma RememberedOk(setup: Setup, entries: Entries, origins: seq<Origin>, key: CacheKey, o: Origin)
    requires EntriesOk(setup, entries, origins) && o.key == key
    ensures EntriesOk(setup, Remembered(entries, key, |origins|, setup.bound), origins + [o])
  {
    RemoveIs(entries, key);
    var rest := Remove(entries, key);
    var grown, r := rest + [(key, |origins|)], Remembered(entries, key, |origins|, setup.bound);
    assert forall i | 0 <= i < |rest| :: rest[i] in rest;
    assert Unique(grown);
    forall e | e in r
      ensures IsOf(origins + [o], e.0, e.1)
    {
      assert e in grown;
      if e in rest { assert IsOf(origins, e.0, e.1); }
    }
    var cut := |grown| - |r|;
    assert r == grown[cut..];
    forall i, j | 0 <= i < j < |r|
      ensures r[i].0 != r[j].0
    {
      assert r[i] == grown[cut + i] && r[j] == grown[cut + j];
    }
  }

  lemma HitIsCached(c: Client, key: CacheKey, now: real, ttl: real)
    ensures var r := Hit(c, key, now, ttl);
      r.Some? ==> (key, r.value) in c.entries && r.value < |c.objects| && now - c.objects[r.value].validatedAt < ttl
  {}

  /** Served from the cache: this key's document, confirmed less than the time to live ago. */
  lemma CacheHitOk(setup: Setup, w: World, key: CacheKey, id: nat)
    requires Deployed(setup.site) && Honest(setup, w) && Hit(w.client, key, w.clock, setup.ttl) == Some(id)
    ensures id < |w.client.objects| && TaskOk(setup, w, FromCache(w, key, id))
  {
    HitIsCached(w.client, key, w.clock, setup.ttl);
    assert IsOf(w.origins, key, id);
    var o := w.origins[id];
    assert ObjectOk(setup, w.ts, w.hs, w.clock, o, w.client.objects[id]);
    DocCarriesTheRules(setup, w.ts[o.parsed], key);
    var settings := w.client.objects[id].settings;
    assert settings.(stale := false) == settings;
  }

  // -- An answer delivered -------------------------------------------------------------------------------

  /** What a delivered answer leaves, before the task leaves its region. */
  ghost predicate Delivered(setup: Setup, w: World, task: Task, w': World, outcome: Outcome, origin: Option<Origin>)
    requires task.Fetching? && task.answer.Some? && (task.cached.Some? ==> task.cached.value < |w.client.objects|)
  {
    var (client, result) := Receives(w.client, task.key, task.cached, task.answer.value.reply, w.clock, setup.bound);
    var origins := OriginsAfter(w, task, client);
    && outcome == result
    && w' == w.(client := client, origins := origins)
    && origin == if |client.objects| > |w.client.objects|
                 then (if origins == [] then None else Some(origins[|origins| - 1]))
                 else if task.cached.Some? && task.cached.value < |origins|
                 then Some(origins[task.cached.value]) else None
  }

  /** Confirming or adding an object disturbs no task: a request keeps its tag, and a result its
      history. */
  lemma ObjectsMayGrow(setup: Setup, w: World, w': World, task: Task)
    requires Has(setup.site.catalogue, COMMON) && TaskOk(setup, w, task)
    requires w'.ts == w.ts && w'.hs == w.hs && |w.origins| == |w.client.objects| <= |w'.origins| == |w'.client.objects|
    requires forall id | 0 <= id < |w.origins| ::
      w'.origins[id].key == w.origins[id].key && w'.client.objects[id].etag == w.client.objects[id].etag
    ensures TaskOk(setup, w', task)
  {}

  /** A degraded answer is the cached document marked stale, or the deployment's rules. */
  lemma DegradesOk(setup: Setup, w: World, key: CacheKey, cached: Option<nat>)
    requires Deployed(setup.site) && Honest(setup, w)
    requires cached.Some? ==> cached.value < |w.client.objects| && IsOf(w.origins, key, cached.value)
    ensures ResultOk(setup, w.ts, w.hs, key, Degrades(w.client, key, cached),
                     if cached.Some? then Some(w.origins[cached.value]) else None, w.clock)
  {
    if cached.Some? {
      var o, e := w.origins[cached.value], w.client.objects[cached.value];
      assert ObjectOk(setup, w.ts, w.hs, w.clock, o, e);
      DocCarriesTheRules(setup, w.ts[o.parsed], key);
      assert e.settings.(stale := true).(stale := false) == e.settings;
    }
  }

  lemma UnhelpfulDelivered(setup: Setup, w: World, task: Task, w': World, outcome: Outcome, origin: Option<Origin>)
    requires Deployed(setup.site) && Honest(setup, w) && task.Fetching? && task.answer.Some? && TaskOk(setup, w, task)
    requires Unhelpful(task.key, task.cached, task.answer.value.reply)
    requires Delivered(setup, w, task, w', outcome, origin)
    ensures Honest(setup, w') && ResultOk(setup, w'.ts, w'.hs, task.key, outcome, origin, w'.clock)
  {
    UnusableTeachesNothing(w.client, task.key, task.cached, task.answer.value.reply, w.clock, setup.bound);
    DegradesOk(setup, w, task.key, task.cached);
  }

  /** One object confirmed again, properly described, disturbs nothing else. */
  lemma OneConfirmation(setup: Setup, w: World, id: nat, o: Origin, at: real, w': World)
    requires Has(setup.site.catalogue, COMMON) && Honest(setup, w) && id < |w.origins| && o.key == w.origins[id].key
    requires ObjectOk(setup, w.ts, w.hs, w.clock, o, w.client.objects[id].(validatedAt := at))
    requires w' == w.(origins := w.origins[id := o],
                      client := w.client.(objects := w.client.objects[id := w.client.objects[id].(validatedAt := at)]))
    ensures Honest(setup, w')
  {
    forall i | 0 <= i < |w'.origins|
      ensures ObjectOk(setup, w'.ts, w'.hs, w'.clock, w'.origins[i], w'.client.objects[i])
    {
      if i != id { assert ObjectOk(setup, w.ts, w.hs, w.clock, w.origins[i], w.client.objects[i]); }
    }
    assert EntriesOk(setup, w'.client.entries, w'.origins) by {
      forall x | x in w.client.entries
        ensures IsOf(w'.origins, x.0, x.1)
      {
        assert IsOf(w.origins, x.0, x.1);
      }
    }
    forall i | 0 <= i < |w'.tasks|
      ensures TaskOk(setup, w', w'.tasks[i])
    {
      ObjectsMayGrow(setup, w, w', w.tasks[i]);
    }
  }

  lemma ConfirmationMeans(setup: Setup, w: World, task: Task)
    requires Deployed(setup.site) && Honest(setup, w) && task.Fetching? && task.answer.Some? && TaskOk(setup, w, task)
    requires task.answer.value.seen.Some? && Confirmed(task)
    ensures var id, seen := task.cached.value, task.answer.value.seen.value;
      && id < |w.origins| && w.origins[id].key == task.key
      && ObjectOk(setup, w.ts, w.hs, w.clock,
                  Origin(task.key, w.origins[id].parsed, task.sent, seen, |w.ts| - 1, w.clock),
                  w.client.objects[id].(validatedAt := w.clock))
  {
    var id := task.cached.value;
    var o, e := w.origins[id], w.client.objects[id];
    assert ObjectOk(setup, w.ts, w.hs, w.clock, o, e);
    NotModifiedMeansSame(setup, w.ts, w.hs, o.parsed, task.answer.value.seen.value, task.key, e.etag);
  }

  lemma ConfirmedDelivered(setup: Setup, w: World, task: Task, w': World, outcome: Outcome, origin: Option<Origin>)
    requires Deployed(setup.site) && Honest(setup, w) && task.Fetching? && task.answer.Some? && TaskOk(setup, w, task)
    requires task.answer.value.seen.Some? && Confirmed(task)
    requires Delivered(setup, w, task, w', outcome, origin)
    ensures Honest(setup, w') && ResultOk(setup, w'.ts, w'.hs, task.key, outcome, origin, w'.clock)
  {
    var id := task.cached.value;
    var settings := w.client.objects[id].settings;
    ConfirmationMeans(setup, w, task);
    var o := Origin(task.key, w.origins[id].parsed, task.sent, task.answer.value.seen.value, |w.ts| - 1, w.clock);
    OneConfirmation(setup, w, id, o, w.clock, w');
    DocCarriesTheRules(setup, w.ts[o.parsed], task.key);
    assert settings.(stale := false) == settings;
  }

  /** One more object, properly described, disturbs nothing that was there. */
  lemma OneMoreObject(setup: Setup, w: World, o: Origin, e: Entry, fallbacks: map<string, Fallbacks>, w': World)
    requires Has(setup.site.catalogue, COMMON) && Honest(setup, w)
    requires ObjectOk(setup, w.ts, w.hs, w.clock, o, e) && RulesKnown(setup, fallbacks)
    requires w' == w.(origins := w.origins + [o],
      client := w.client.(objects := w.client.objects + [e], fallbacks := fallbacks,
      entries := Remembered(w.client.entries, o.key, |w.origins|, setup.bound)))
    ensures Honest(setup, w')
  {
    forall i | 0 <= i < |w'.origins|
      ensures ObjectOk(setup, w'.ts, w'.hs, w'.clock, w'.origins[i], w'.client.objects[i])
    {
      if i < |w.origins| { assert ObjectOk(setup, w.ts, w.hs, w.clock, w.origins[i], w.client.objects[i]); }
    }
    RememberedOk(setup, w.client.entries, w.origins, o.key, o);
    forall i | 0 <= i < |w'.tasks|
      ensures TaskOk(setup, w', w'.tasks[i])
    {
      ObjectsMayGrow(setup, w, w', w.tasks[i]);
    }
  }

  /** A usable body on its way, as the object it becomes. */
  lemma BodyBecomes(setup: Setup, w: World, task: Task, settings: ResolvedSettings)
    requires Deployed(setup.site) && Honest(setup, w) && task.Fetching? && task.answer.Some? && TaskOk(setup, w, task)
    requires task.answer.value.seen.Some? && task.answer.value.reply.Replied? && task.answer.value.reply.code < 400
    requires DocumentOf(task.key.namespace, task.answer.value.reply.body) == Ok(settings)
    ensures var seen, etag := task.answer.value.seen.value, task.answer.value.reply.etag;
      && seen < |w.ts|
      && Doc(setup, w.ts[seen], task.key) == Some(settings)
      && ObjectOk(setup, w.ts, w.hs, w.clock, Origin(task.key, seen, task.sent, seen, |w.ts| - 1, w.clock),
                  Entry(settings, if etag.Some? then etag.value else "", w.clock))
  {
    BodyMeans(setup, w.ts[task.answer.value.seen.value], task.key, HeaderFor(w.client, task.cached));
  }

  lemma StoredDelivered(setup: Setup, w: World, task: Task, w': World, outcome: Outcome, origin: Option<Origin>)
    requires Deployed(setup.site) && Honest(setup, w) && task.Fetching? && task.answer.Some? && TaskOk(setup, w, task)
    requires task.answer.value.seen.Some? && task.answer.value.reply.Replied? && task.answer.value.reply.code < 400
    requires DocumentOf(task.key.namespace, task.answer.value.reply.body).Ok? && !Confirmed(task)
    requires Delivered(setup, w, task, w', outcome, origin)
    ensures Honest(setup, w') && ResultOk(setup, w'.ts, w'.hs, task.key, outcome, origin, w'.clock)
  {
    var seen, etag := task.answer.value.seen.value, task.answer.value.reply.etag;
    var settings := DocumentOf(task.key.namespace, task.answer.value.reply.body).value;
    BodyBecomes(setup, w, task, settings);
    DocCarriesTheRules(setup, w.ts[seen], task.key);
    var o := Origin(task.key, seen, task.sent, seen, |w.ts| - 1, w.clock);
    var e := Entry(settings, if etag.Some? then etag.value else "", w.clock);
    OneMoreObject(setup, w, o, e, w.client.fallbacks[task.key.namespace := settings.fallbacks], w');
    assert settings.(stale := false) == settings;
  }

  lemma DeliveredHonestly(setup: Setup, w: World, task: Task, w': World, outcome: Outcome, origin: Option<Origin>)
    requires Deployed(setup.site) && Honest(setup, w) && task.Fetching? && task.answer.Some? && TaskOk(setup, w, task)
    requires Delivered(setup, w, task, w', outcome, origin)
    ensures Honest(setup, w') && ResultOk(setup, w'.ts, w'.hs, task.key, outcome, origin, w'.clock)
  {
    var carried := task.answer.value;
    if carried.seen.None? {
      UnhelpfulDelivered(setup, w, task, w', outcome, origin);
    } else {
      BodyMeans(setup, w.ts[carried.seen.value], task.key, HeaderFor(w.client, task.cached));
      if Confirmed(task) {
        ConfirmedDelivered(setup, w, task, w', outcome, origin);
      } else if carried.reply.code < 400 && DocumentOf(task.key.namespace, carried.reply.body).Ok? {
        StoredDelivered(setup, w, task, w', outcome, origin);
      } else {
        UnhelpfulDelivered(setup, w, task, w', outcome, origin);
      }
    }
  }

  // -- Every step ----------------------------------------------------------------------------------------

  lemma DeliverHonestly(setup: Setup, w: World, i: nat, w': World)
    requires Deployed(setup.site) && Honest(setup, w) && Delivers(setup, w, i, w')
    ensures Honest(setup, w')
  {
    var task := w.tasks[i];
    assert TaskOk(setup, w, task);
    var (client, outcome) := Receives(w.client, task.key, task.cached, task.answer.value.reply, w.clock, setup.bound);
    var mid := w.(client := client, origins := OriginsAfter(w, task, client));
    var origin := w'.tasks[i].origin;
    DeliveredHonestly(setup, w, task, mid, outcome, origin);
    assert TaskOk(setup, w', w'.tasks[i]);
    TasksStayOk(setup, mid, w');
  }

  lemma GetIsCached(setup: Setup, w: World, key: CacheKey)
    requires Has(setup.site.catalogue, COMMON) && Honest(setup, w)
    ensures var cached := Held(w.client.entries, key);
      cached.Some? ==> cached.value < |w.client.objects| && IsOf(w.origins, key, cached.value)
  {
    var cached := Held(w.client.entries, key);
    if cached.Some? { assert IsOf(w.origins, key, cached.value); }
  }

  /** A step that teaches nothing: only locks, entries, tasks and the clock move. */
  lemma NothingLearned(setup: Setup, w: World, w': World)
    requires Has(setup.site.catalogue, COMMON) && Honest(setup, w)
    requires w'.ts == w.ts && w'.hs == w.hs && w'.origins == w.origins && w'.clock >= w.clock
    requires w'.client.objects == w.client.objects && w'.client.fallbacks == w.client.fallbacks
    requires EntriesOk(setup, w'.client.entries, w.origins)
    requires forall i | 0 <= i < |w'.tasks| :: w'.tasks[i] in w.tasks || TaskOk(setup, w, w'.tasks[i])
    ensures Honest(setup, w')
  {
    forall i | 0 <= i < |w'.tasks| && TaskOk(setup, w, w'.tasks[i])
      ensures TaskOk(setup, w', w'.tasks[i])
    {
      TaskStaysOk(setup, w, w', w'.tasks[i]);
    }
    TasksStayOk(setup, w, w');
  }

  lemma AcquireHonestly(setup: Setup, w: World, i: nat, w': World)
    requires Deployed(setup.site) && Honest(setup, w) && Acquires(setup, w, i, w')
    ensures Honest(setup, w')
  {
    var key := w.tasks[i].key;
    var hit := Hit(w.client, key, w.clock, setup.ttl);
    if hit.Some? {
      CacheHitOk(setup, w, key, hit.value);
    } else {
      GetIsCached(setup, w, key);
    }
    NothingLearned(setup, w, w');
  }

  lemma ResolveHonestly(setup: Setup, w: World, key: CacheKey, w': World)
    requires Deployed(setup.site) && Honest(setup, w) && Resolves(setup, w, key, w')
    ensures Honest(setup, w')
  {
    var hit := Hit(w.client, key, w.clock, setup.ttl);
    if hit.Some? { CacheHitOk(setup, w, key, hit.value); }
    TouchedOk(setup, w.client.entries, w.origins, key);
    NothingLearned(setup, w, w');
  }

  lemma AnswerHonestly(setup: Setup, w: World, s: Step, w': World)
    requires Has(setup.site.catalogue, COMMON) && Honest(setup, w) && Steps(setup, w, s, w')
    requires s.Answer? || s.Interfere?
    ensures Honest(setup, w')
  {
    assert TaskOk(setup, w, w.tasks[s.i]);
    NothingLearned(setup, w, w');
  }

  lemma DropHonestly(setup: Setup, w: World, s: Step, w': World)
    requires Has(setup.site.catalogue, COMMON) && Honest(setup, w) && Steps(setup, w, s, w')
    requires s.Forget? || s.PutDelivered?
    ensures Honest(setup, w')
  {
    if s.Forget? {
      DropsOk(setup, w.client.entries, w.origins, s.token, s.namespace);
    } else {
      DropsOk(setup, w.client.entries, w.origins, w.tasks[s.i].token, Some(w.tasks[s.i].namespace));
    }
    NothingLearned(setup, w, w');
  }

  lemma QuietHonestly(setup: Setup, w: World, s: Step, w': World)
    requires Has(setup.site.catalogue, COMMON) && Honest(setup, w) && Steps(setup, w, s, w')
    requires s.Cancel? || s.Put? || s.PutAnswered? || s.Tick?
    ensures Honest(setup, w')
  {
    NothingLearned(setup, w, w');
  }

  lemma StepHonestly(setup: Setup, w: World, s: Step, w': World)
    requires Deployed(setup.site) && Honest(setup, w) && Steps(setup, w, s, w')
    ensures Honest(setup, w')
  {
    match s
    case Resolve(key) => ResolveHonestly(setup, w, key, w');
    case Acquire(i) => AcquireHonestly(setup, w, i, w');
    case Answer(_, _) => AnswerHonestly(setup, w, s, w');
    case Interfere(_, _) => AnswerHonestly(setup, w, s, w');
    case Deliver(i) => DeliverHonestly(setup, w, i, w');
    case Forget(_, _) => DropHonestly(setup, w, s, w');
    case PutDelivered(_) => DropHonestly(setup, w, s, w');
    case ServerMoves(h, t) => ServerMovesHonestly(setup, w, h, t);
    case _ => QuietHonestly(setup, w, s, w');
  }

  lemma {:induction false} HonestAlong(setup: Setup, ws: seq<World>, ss: seq<Step>, n: nat)
    requires Deployed(setup.site) && Traced(setup, ws, ss) && Honest(setup, ws[0]) && n <= |ss|
    ensures Honest(setup, ws[n])
  {
    if n > 0 {
      HonestAlong(setup, ws, ss, n - 1);
      StepHonestly(setup, ws[n - 1], ss[n - 1], ws[n]);
    }
  }

  lemma AlwaysHonest(setup: Setup, ws: seq<World>, ss: seq<Step>, n: nat)
    requires Deployed(setup.site) && Traced(setup, ws, ss) && Starts(ws[0]) && n <= |ss|
    requires Ordered(ws[0].ts[0].events, ws[0].ts[0].nextSequence)
    ensures Honest(setup, ws[n])
  {
    HonestAlong(setup, ws, ss, n);
  }

  /** What a caller is told when the server refuses it: the refusal, even where an older document is
      cached; and the cache stays as it was. */
  lemma RefusedCallersAreTold(setup: Setup, w: World, i: nat, w': World)
    requires Deployed(setup.site) && Honest(setup, w) && Delivers(setup, w, i, w')
    requires w.tasks[i].answer.value.seen.Some?
    requires var seen := w.tasks[i].answer.value.seen.value; seen < |w.ts| ==>
      Doc(setup, w.ts[seen], w.tasks[i].key).None?
    ensures w'.tasks[i].Returned? && w'.tasks[i].outcome.Rejected?
    ensures w'.client.entries == w.client.entries && w'.client.objects == w.client.objects
    ensures w'.client.fallbacks == w.client.fallbacks
  {
    var task := w.tasks[i];
    assert TaskOk(setup, w, task);
    RefusalsAreTold(setup, w.ts[task.answer.value.seen.value], w.client, task.key, task.cached, w.clock);
  }

  // -- What callers may rely on --------------------------------------------------------------------------

  /** End to end: over every interleaving of callers, server writes, erasures of other accounts,
      sweeps, clock steps, failures and cancellations, an answer not marked stale is the document
      the server had for this token, namespace and profile at a moment between the sending and
      the receipt of the request that last confirmed it; and it was received just now, or less
      than the time to live ago. */
  lemma FreshAnswersAreTheServers(setup: Setup, ws: seq<World>, ss: seq<Step>, n: nat, i: nat)
    requires Deployed(setup.site) && Traced(setup, ws, ss) && Starts(ws[0]) && n <= |ss|
    requires Ordered(ws[0].ts[0].events, ws[0].ts[0].nextSequence)
    requires i < |ws[n].tasks| && ws[n].tasks[i].Returned? && ws[n].tasks[i].outcome.Answered?
    requires !ws[n].tasks[i].outcome.settings.stale && Steady(setup, ws[n].hs, ws[n].tasks[i].key)
    ensures ws[n].tasks[i].origin.Some?
    ensures var task := ws[n].tasks[i];
      var o := task.origin.value;
      && o.sent <= o.seen <= o.received < |ws[n].ts|
      && Doc(setup, ws[n].ts[o.seen], task.key) == Some(task.outcome.settings)
      && (o.at == task.at || task.at - o.at < setup.ttl)
  {
    AlwaysHonest(setup, ws, ss, n);
    assert TaskOk(setup, ws[n], ws[n].tasks[i]);
    var settings := ws[n].tasks[i].outcome.settings;
    assert settings.(stale := false) == settings;
  }

  /** Tokens do not mix: whatever happens, an erasure of this account included, an answer with a
      revision, stale or not, says what the server had in some state for exactly the token, the
      namespace and the profile asked for. */
  lemma AnswersAreOnesOwn(setup: Setup, ws: seq<World>, ss: seq<Step>, n: nat, i: nat)
    requires Deployed(setup.site) && Traced(setup, ws, ss) && Starts(ws[0]) && n <= |ss|
    requires Ordered(ws[0].ts[0].events, ws[0].ts[0].nextSequence)
    requires i < |ws[n].tasks| && ws[n].tasks[i].Returned? && ws[n].tasks[i].outcome.Answered?
    requires ws[n].tasks[i].outcome.settings.revision.Some?
    ensures var task := ws[n].tasks[i];
      exists state | 0 <= state < |ws[n].ts| ::
        Doc(setup, ws[n].ts[state], task.key) == Some(task.outcome.settings.(stale := false))
  {
    AlwaysHonest(setup, ws, ss, n);
    assert TaskOk(setup, ws[n], ws[n].tasks[i]);
  }

  /** A key of a document is read as the outage rule says: refused to every reader, or the default. */
  predicate ReadsByRule(settings: ResolvedSettings, key: string, default: Option<Json.Json>, rule: Fallback) {
    && settings.Contains(key)
    && settings.ReadOr(key, default) == settings.Read(key)
    && settings.Read(key) == match rule.rule
                             case Refuse => Err(SettingsRefused)
                             case UseDefault => Ok(rule.default)
  }

  /** Outages are honest end to end: a document without a revision reads every key of the namespace
      as the entry says that this deployment's policy makes of it -- its default there, or a refusal
      where it refuses to guess -- and has no other key, even for somebody whose token was never seen
      before. */
  lemma OutageAnswersFollowTheRules(setup: Setup, ws: seq<World>, ss: seq<Step>, n: nat, i: nat, key: string,
                                    default: Option<Json.Json>)
    requires Deployed(setup.site) && Traced(setup, ws, ss) && Starts(ws[0]) && n <= |ss|
    requires Ordered(ws[0].ts[0].events, ws[0].ts[0].nextSequence)
    requires i < |ws[n].tasks| && ws[n].tasks[i].Returned? && ws[n].tasks[i].outcome.Answered?
    requires ws[n].tasks[i].outcome.settings.revision.None?
    ensures var settings, namespace := ws[n].tasks[i].outcome.settings, ws[n].tasks[i].key.namespace;
      && settings.stale
      && (settings.Contains(key) ==> exists d :: Offered(setup.site, namespace, key, d))
      && forall d | Offered(setup.site, namespace, key, d) ::
           var e := setup.site.policy.DefinitionOf(d);
           ReadsByRule(settings, key, default, Fallback(ToJson(e.default), e.onUnavailable))
  {
    AlwaysHonest(setup, ws, ss, n);
    var namespace := ws[n].tasks[i].key.namespace;
    assert TaskOk(setup, ws[n], ws[n].tasks[i]);
    RulesAreUnique(setup.site, namespace);
    OutagesAreHonest(namespace, DeploymentRules(setup.site, namespace), key, default);
    DeploymentRulesAre(setup.site, namespace, key);
  }

  lemma RulesAreUnique(site: Site, namespace: string)
    requires Deployed(site) && Has(site.catalogue, namespace)
    ensures Unique(DeploymentRules(site, namespace))
  {
    var common, own := ResolveNamespace(site, COMMON, map[]), ResolveNamespace(site, namespace, map[]);
    ResolvedKeysUnique(site, COMMON, map[]);
    UpdatedKeepsUnique(common, own);
    var r := ResolveForService(site, namespace, map[]);
    assert forall i | 0 <= i < |r| :: DeploymentRules(site, namespace)[i].0 == r[i].0;
  }
}
