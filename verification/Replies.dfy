/** What the server answers, what the client reads in an answer, and what each answer becomes for the
    caller and for the cache. */
module Replies {
  import opened Core
  import opened Dicts
  import opened Json
  import opened SettingTypes
  import opened Catalogue
  import opened Resolution
  import opened EntityTags
  import opened Tables
  import opened Service
  import opened Server
  import opened Legality
  import opened Admission
  import opened ClientModels
  import opened ClientCache
  import opened ClientProtocol
  import opened Freshness

  // -- Bodies ---------------------------------------------------------------------------------------

  /** A rendered value spells the value. */
  lemma RenderedSpells(v: Value)
    ensures Policies.Spells(ToJson(v), v)
  {}

  /** A parsed body is made of dictionaries. */
  ghost predicate BodyKeyed(body: Json) {
    body.JObject? ==>
      && Unique(body.fields)
      && forall i | 0 <= i < |body.fields| && body.fields[i].1.JObject? :: ItemsKeyed(body.fields[i].1.fields)
  }

  ghost predicate ItemsKeyed(items: Dict<string, Json>) {
    forall k | 0 <= k < |items| && items[k].1.JObject? :: Unique(items[k].1.fields)
  }

  /** An object that declares this default and this outage rule, the rule in one of its two words. */
  predicate Declares(item: Json, f: Fallback) {
    && item.JObject?
    && ("default", f.default) in item.fields
    && ("on_unavailable", JStr(match f.rule case UseDefault => "use_default" case Refuse => "refuse")) in item.fields
  }

  predicate DeclaresKey(field: (string, Json), rule: (string, Fallback)) {
    field.0 == rule.0 && Declares(field.1, rule.1)
  }

  predicate AllDeclare(declared: Dict<string, Json>, fallbacks: Fallbacks) {
    |declared| == |fallbacks| && forall i | 0 <= i < |declared| :: DeclaresKey(declared[i], fallbacks[i])
  }

  /** The body is this document: its values, its revision, and a whole rule for each key it declares. */
  predicate Says(namespace: string, body: Option<Json>, settings: ResolvedSettings) {
    && body.Some? && body.value.JObject?
    && settings == ResolvedSettings(namespace, settings.values, settings.fallbacks, settings.revision, false, {})
    && settings.revision.Some?
    && ("settings", JObject(settings.values)) in body.value.fields
    && ("revision", JInt(settings.revision.value)) in body.value.fields
    && exists field | field in body.value.fields ::
         field.0 == "fallbacks" && field.1.JObject? && AllDeclare(field.1.fields, settings.fallbacks)
  }

  lemma FieldIs(fields: Dict<string, Json>, name: string, j: Json)
    requires Unique(fields)
    ensures (name, j) in fields ==> FieldOf(fields, name) == j
    ensures !j.JNull? && FieldOf(fields, name) == j ==> (name, j) in fields
  {
    GetIn(fields, name, j);
  }

  lemma RuleRead(key: string, item: Json, f: Fallback)
    requires item.JObject? ==> Unique(item.fields)
    ensures FallbackOf(key, item) == Ok(f) <==> Declares(item, f)
  {
    assert "use_default"[0] == 'u' && "refuse"[0] == 'r';
    if item.JObject? {
      GetIn(item.fields, "default", f.default);
      FieldIs(item.fields, "on_unavailable", USE_DEFAULT);
      FieldIs(item.fields, "on_unavailable", REFUSE);
    }
  }

  lemma {:induction false} RulesRead(declared: Dict<string, Json>, fallbacks: Fallbacks)
    requires ItemsKeyed(declared)
    ensures FallbacksOf(declared) == Ok(fallbacks) <==> AllDeclare(declared, fallbacks)
  {
    if declared != [] {
      assert ItemsKeyed(declared[1..]) by {
        assert forall k | 0 <= k < |declared[1..]| :: declared[1..][k] == declared[k + 1];
      }
      if fallbacks != [] {
        RuleRead(declared[0].0, declared[0].1, fallbacks[0].1);
        RulesRead(declared[1..], fallbacks[1..]);
        if |declared| == |fallbacks| {
          FirstDeclares((field, rule) => DeclaresKey(field, rule), declared, fallbacks);
        }
        FirstRuleRead(declared, fallbacks);
      }
    }
  }

  lemma FirstRuleRead(declared: Dict<string, Json>, fallbacks: Fallbacks)
    requires declared != [] && fallbacks != []
    ensures FallbacksOf(declared) == Ok(fallbacks) <==>
      && declared[0].0 == fallbacks[0].0 && FallbackOf(declared[0].0, declared[0].1) == Ok(fallbacks[0].1)
      && FallbacksOf(declared[1..]) == Ok(fallbacks[1..])
  {
    assert fallbacks == [fallbacks[0]] + fallbacks[1..];
  }

  lemma FirstDeclares(ok: ((string, Json), (string, Fallback)) -> bool, declared: Dict<string, Json>,
                      fallbacks: Fallbacks)
    requires declared != [] && fallbacks != [] && |declared| == |fallbacks|
    ensures (forall i | 0 <= i < |declared| :: ok(declared[i], fallbacks[i])) <==>
      ok(declared[0], fallbacks[0]) && forall i | 0 <= i < |declared[1..]| :: ok(declared[1..][i], fallbacks[1..][i])
  {
    assert forall i | 0 < i < |declared| :: declared[i] == declared[1..][i - 1];
    assert forall i | 0 < i < |declared| :: fallbacks[i] == fallbacks[1..][i - 1];
    if forall i | 0 <= i < |declared[1..]| :: ok(declared[1..][i], fallbacks[1..][i]) {
      forall i | 0 < i < |declared|
        ensures ok(declared[i], fallbacks[i])
      {
        assert ok(declared[1..][i - 1], fallbacks[1..][i - 1]);
      }
    }
  }

  lemma DeclaredRead(fields: Dict<string, Json>, fallbacks: Fallbacks)
    requires BodyKeyed(JObject(fields))
    ensures (exists field | field in fields ::
               field.0 == "fallbacks" && field.1.JObject? && AllDeclare(field.1.fields, fallbacks)) <==>
      var declared := FieldOf(fields, "fallbacks"); declared.JObject? && FallbacksOf(declared.fields) == Ok(fallbacks)
  {
    forall field | field in fields && field.0 == "fallbacks"
      ensures FieldOf(fields, "fallbacks") == field.1
    {
      FieldIs(fields, "fallbacks", field.1);
    }
    var declared := FieldOf(fields, "fallbacks");
    if declared.JObject? {
      FieldIs(fields, "fallbacks", declared);
      var i :| 0 <= i < |fields| && fields[i] == ("fallbacks", declared);
      RulesRead(declared.fields, fallbacks);
    }
  }

  /** The client reads a body as a document exactly when the body says that document; anything else is
      unusable. */
  lemma UsableExactlyWhen(namespace: string, body: Option<Json>, settings: ResolvedSettings)
    requires body.Some? ==> BodyKeyed(body.value)
    ensures DocumentOf(namespace, body) == Ok(settings) <==> Says(namespace, body, settings)
  {
    if body.Some? && body.value.JObject? {
      var fields := body.value.fields;
      DeclaredRead(fields, settings.fallbacks);
      FieldIs(fields, "settings", JObject(settings.values));
      if settings.revision.Some? { FieldIs(fields, "revision", JInt(settings.revision.value)); }
    }
  }

  // -- What an answer becomes ---------------------------------------------------------------------------

  /** Nothing changed since the copy held was fetched. */
  predicate Confirms(reply: Reply, cached: Option<nat>) { reply.Replied? && reply.code == 304 && cached.Some? }

  /** A fact about the caller. */
  predicate TurnsAway(reply: Reply) { reply.Replied? && 400 <= reply.code < 500 }

  /** A whole document. */
  predicate Brings(namespace: string, cached: Option<nat>, reply: Reply, settings: ResolvedSettings) {
    reply.Replied? && reply.code < 400 && !Confirms(reply, cached) && Says(namespace, reply.body, settings)
  }

  /** No answer, an unwell server, or a body this client cannot use. */
  ghost predicate Outage(namespace: string, cached: Option<nat>, reply: Reply) {
    || reply.Lost?
    || reply.code >= 500
    || (reply.code < 400 && !Confirms(reply, cached) && forall settings :: !Says(namespace, reply.body, settings))
  }

  /** A document put together from rules alone: the default of each key that falls back to it, and a
      refusal for each that does not. */
  predicate PutTogether(namespace: string, rules: Fallbacks, settings: ResolvedSettings) {
    && settings == ResolvedSettings(namespace, settings.values, rules, None, true, settings.refused)
    && (forall e | e in settings.values :: (e.0, Fallback(e.1, UseDefault)) in rules)
    && (forall f | f in rules && f.1.rule.UseDefault? :: (f.0, f.1.default) in settings.values)
    && settings.refused == set f | f in rules && f.1.rule.Refuse? :: f.0
  }

  lemma {:induction false} DefaultsGathered(rules: Fallbacks)
    ensures forall e | e in DefaultsIn(rules) :: (e.0, Fallback(e.1, UseDefault)) in rules
    ensures forall f | f in rules && f.1.rule.UseDefault? :: (f.0, f.1.default) in DefaultsIn(rules)
  {
    if rules != [] {
      DefaultsGathered(rules[1..]);
      assert rules == [rules[0]] + rules[1..];
      assert rules[0].1.rule.UseDefault? ==> rules[0] == (rules[0].0, Fallback(rules[0].1.default, UseDefault));
    }
  }

  lemma RefusalsGathered(rules: Fallbacks)
    ensures RefusedIn(rules) == set f | f in rules && f.1.rule.Refuse? :: f.0
  {
    forall f | f in rules && f.1.rule.Refuse?
      ensures f.0 in RefusedIn(rules)
    {
      var i :| 0 <= i < |rules| && rules[i] == f;
    }
  }

  lemma RulesPutTogether(namespace: string, rules: Fallbacks)
    ensures Degraded(namespace, None, Some(rules)).Some?
    ensures PutTogether(namespace, rules, Degraded(namespace, None, Some(rules)).value)
  {
    DefaultsGathered(rules);
    RefusalsGathered(rules);
  }

  // -- What is kept between steps ------------------------------------------------------------------------

  /** Every document held is a whole one. */
  ghost predicate Whole(objects: seq<Entry>) {
    forall id | 0 <= id < |objects| :: !objects[id].settings.stale && objects[id].settings.refused == {}
  }

  ghost predicate Kept(setup: Setup, w: World) {
    CacheSound(w.client.entries, |w.client.objects|, setup.bound) && Whole(w.client.objects)
  }

  predicate StillKnown(w: World, w': World) {
    forall namespace | namespace in w.client.fallbacks :: namespace in w'.client.fallbacks
  }

  lemma ReceivedKeeps(c: Client, key: CacheKey, cached: Option<nat>, reply: Reply, now: real, bound: nat)
    requires CacheSound(c.entries, |c.objects|, bound) && Whole(c.objects)
    requires cached.Some? ==> cached.value < |c.objects|
    ensures var c' := Receives(c, key, cached, reply, now, bound).0;
      && CacheSound(c'.entries, |c'.objects|, bound) && Whole(c'.objects)
      && forall namespace | namespace in c.fallbacks :: namespace in c'.fallbacks
  {
    if reply.Replied? && reply.code < 400 && !(reply.code == 304 && cached.Some?) {
      if DocumentOf(key.namespace, reply.body).Ok? {
        RememberedSound(c.entries, |c.objects| + 1, key, |c.objects|, bound);
      }
    }
  }

  lemma StepKeeps(setup: Setup, w: World, s: Step, w': World)
    requires Kept(setup, w) && Steps(setup, w, s, w')
    ensures Kept(setup, w') && StillKnown(w, w')
  {
    match s
    case Resolve(key) => TouchedSound(w.client.entries, |w.client.objects|, key, setup.bound);
    case Deliver(i) =>
      var task := w.tasks[i];
      ReceivedKeeps(w.client, task.key, task.cached, task.answer.value.reply, w.clock, setup.bound);
    case Forget(token, namespace) =>
      ForgottenSound(w.client.entries, |w.client.objects|, token, namespace, setup.bound);
    case PutDelivered(i) =>
      ForgottenSound(w.client.entries, |w.client.objects|, w.tasks[i].token, Some(w.tasks[i].namespace), setup.bound);
    case _ =>
  }

  lemma {:induction false} AlwaysKept(setup: Setup, ws: seq<World>, ss: seq<Step>, n: nat)
    requires Traced(setup, ws, ss) && Starts(ws[0]) && n <= |ss|
    ensures Kept(setup, ws[n])
  {
    if n > 0 {
      AlwaysKept(setup, ws, ss, n - 1);
      StepKeeps(setup, ws[n - 1], ss[n - 1], ws[n]);
    }
  }

  lemma KnownChain(u: World, v: World, w: World)
    requires StillKnown(u, v) && StillKnown(v, w)
    ensures StillKnown(u, w)
  {}

  lemma StepStillKnows(setup: Setup, ws: seq<World>, ss: seq<Step>, n: nat)
    requires Traced(setup, ws, ss) && Starts(ws[0]) && n < |ss|
    ensures StillKnown(ws[n], ws[n + 1])
  {
    AlwaysKept(setup, ws, ss, n);
    StepKeeps(setup, ws[n], ss[n], ws[n + 1]);
  }

  lemma {:induction false} KnownAlong(ws: seq<World>, m: nat, n: nat)
    requires m <= n < |ws| && forall k | m <= k < n :: StillKnown(ws[k], ws[k + 1])
    ensures StillKnown(ws[m], ws[n])
    decreases n - m
  {
    if m < n {
      KnownAlong(ws, m, n - 1);
      KnownChain(ws[m], ws[n - 1], ws[n]);
    }
  }

  lemma KnownStaysKnown(setup: Setup, ws: seq<World>, ss: seq<Step>, m: nat, n: nat)
    requires Traced(setup, ws, ss) && Starts(ws[0]) && m <= n <= |ss|
    ensures StillKnown(ws[m], ws[n])
  {
    forall k | m <= k < n
      ensures StillKnown(ws[k], ws[k + 1])
    {
      StepStillKnows(setup, ws, ss, k);
    }
    KnownAlong(ws, m, n);
  }

  // -- Deliveries ------------------------------------------------------------------------------------------

  /** Entries, objects and learned rules are as they were. */
  predicate NothingNew(c: Client, c': Client) {
    c'.entries == c.entries && c'.objects == c.objects && c'.fallbacks == c.fallbacks
  }

  /** The document is held under its key as of now, with the tag that came with it, and its rules are
      the namespace's. */
  ghost predicate Keeps(c: Client, key: CacheKey, settings: ResolvedSettings, etag: Option<string>, now: real,
                        bound: nat, c': Client) {
    && c'.objects == c.objects + [Entry(settings, if etag.Some? then etag.value else "", now)]
    && c'.fallbacks == c.fallbacks[key.namespace := settings.fallbacks]
    && (bound >= 1 ==> (key, |c.objects|) in c'.entries)
    && forall e | e in c'.entries :: e == (key, |c.objects|) || (e in c.entries && e.0 != key)
  }

  /** In an outage the copy held is served, marked stale and otherwise as it is; with none held, what
      the rules learned for the namespace make; and with none learned, nothing. */
  ghost predicate ServedInOutage(c: Client, namespace: string, cached: Option<nat>, outcome: Outcome)
    requires cached.Some? ==> cached.value < |c.objects|
  {
    if cached.Some? then outcome == Answered(c.objects[cached.value].settings.(stale := true))
    else if namespace in c.fallbacks then
      outcome.Answered? && PutTogether(namespace, c.fallbacks[namespace], outcome.settings)
    else outcome == Unavailable
  }

  /** What one answer becomes. */
  ghost predicate Becomes(c: Client, key: CacheKey, cached: Option<nat>, reply: Reply, now: real, bound: nat,
                          c': Client, outcome: Outcome)
    requires cached.Some? ==> cached.value < |c.objects|
  {
    && (Confirms(reply, cached) ==>
          && outcome == Answered(c.objects[cached.value].settings)
          && c'.objects == c.objects[cached.value := c.objects[cached.value].(validatedAt := now)]
          && c'.entries == c.entries && c'.fallbacks == c.fallbacks)
    && (TurnsAway(reply) ==> outcome == Rejected(reply.code) && NothingNew(c, c'))
    && (forall settings | Brings(key.namespace, cached, reply, settings) ::
          outcome == Answered(settings) && Keeps(c, key, settings, reply.etag, now, bound, c'))
    && (Outage(key.namespace, cached, reply) ==>
          ServedInOutage(c, key.namespace, cached, outcome) && NothingNew(c, c'))
  }

  lemma OutageServed(c: Client, key: CacheKey, cached: Option<nat>)
    requires Whole(c.objects) && (cached.Some? ==> cached.value < |c.objects|)
    ensures ServedInOutage(c, key.namespace, cached, Degrades(c, key, cached))
  {
    if key.namespace in c.fallbacks { RulesPutTogether(key.namespace, c.fallbacks[key.namespace]); }
  }

  lemma StoredKeeps(c: Client, key: CacheKey, settings: ResolvedSettings, etag: Option<string>, now: real, bound: nat)
    requires CacheSound(c.entries, |c.objects|, bound)
    ensures Keeps(c, key, settings, etag, now, bound,
                  Stores(c, key, settings, if etag.Some? then etag.value else "", now, bound))
  {
    RememberedHolds(c.entries, key, |c.objects|, bound);
  }

  lemma RememberedHolds(d: Entries, key: CacheKey, id: nat, bound: nat)
    requires Unique(d) && |d| <= bound
    ensures bound >= 1 ==> (key, id) in Remembered(d, key, id, bound)
    ensures forall e | e in Remembered(d, key, id, bound) :: e == (key, id) || (e in d && e.0 != key)
  {
    RemoveIs(d, key);
    PutLastUnique(d, key, id);
    var rest, grown := Remove(d, key), Remove(d, key) + [(key, id)];
    NewestUnique(grown, bound);
    forall e | e in grown
      ensures e == (key, id) || e in rest
    {}
    if bound >= 1 { GrownToBound(d, key, id, bound); }
  }

  lemma ReceivedBecomes(c: Client, key: CacheKey, cached: Option<nat>, reply: Reply, now: real, bound: nat)
    requires CacheSound(c.entries, |c.objects|, bound) && Whole(c.objects)
    requires cached.Some? ==> cached.value < |c.objects|
    requires reply.Replied? && reply.body.Some? ==> BodyKeyed(reply.body.value)
    ensures var (c', outcome) := Receives(c, key, cached, reply, now, bound);
      Becomes(c, key, cached, reply, now, bound, c', outcome)
  {
    OutageServed(c, key, cached);
    if reply.Replied? && reply.code < 400 && !Confirms(reply, cached) {
      forall settings
        ensures DocumentOf(key.namespace, reply.body) == Ok(settings) <==> Says(key.namespace, reply.body, settings)
      {
        UsableExactlyWhen(key.namespace, reply.body, settings);
      }
      var document := DocumentOf(key.namespace, reply.body);
      if document.Ok? { StoredKeeps(c, key, document.value, reply.etag, now, bound); }
    }
  }

  /** Whatever came before, an answer becomes just this for the caller who fetched it and for the
      cache: a copy confirmed, a refusal told, a document kept, or in any outage the copy held, the
      rules learned, or nothing, and nothing learned. */
  lemma EveryDelivery(setup: Setup, ws: seq<World>, ss: seq<Step>, n: nat, i: nat)
    requires Traced(setup, ws, ss) && Starts(ws[0]) && n < |ss| && ss[n] == Deliver(i)
    requires i < |ws[n].tasks| && ws[n].tasks[i].Fetching? && ws[n].tasks[i].answer.Some?
    requires var reply := ws[n].tasks[i].answer.value.reply;
      reply.Replied? && reply.body.Some? ==> BodyKeyed(reply.body.value)
    ensures var task := ws[n].tasks[i];
      && (task.cached.Some? ==> task.cached.value < |ws[n].client.objects|)
      && i < |ws[n + 1].tasks| && ws[n + 1].tasks[i].Returned? && ws[n + 1].tasks[i].key == task.key
      && Becomes(ws[n].client, task.key, task.cached, task.answer.value.reply, ws[n].clock, setup.bound,
                 ws[n + 1].client, ws[n + 1].tasks[i].outcome)
  {
    AlwaysKept(setup, ws, ss, n);
    assert Steps(setup, ws[n], ss[n], ws[n + 1]);
    var w, task := ws[n], ws[n].tasks[i];
    ReceivedBecomes(w.client, task.key, task.cached, task.answer.value.reply, w.clock, setup.bound);
  }

  /** Once any caller has been given a namespace's document, no caller is told for it that nothing is
      known, however many entries were forgotten or dropped since. */
  lemma NeverUnavailableOnceLearned(setup: Setup, ws: seq<World>, ss: seq<Step>, m: nat, n: nat, i: nat)
    requires Traced(setup, ws, ss) && Starts(ws[0]) && m <= n < |ss| && ss[n] == Deliver(i)
    requires i < |ws[n].tasks| && ws[n].tasks[i].Fetching? && ws[n].tasks[i].key.namespace in ws[m].client.fallbacks
    ensures i < |ws[n + 1].tasks| && ws[n + 1].tasks[i].Returned? && !ws[n + 1].tasks[i].outcome.Unavailable?
  {
    KnownStaysKnown(setup, ws, ss, m, n);
    assert Steps(setup, ws[n], ss[n], ws[n + 1]);
  }

  // -- Hits and drops ---------------------------------------------------------------------------------------

  /** The entry was confirmed less than the time to live ago. */
  predicate Young(c: Client, key: CacheKey, id: nat, now: real, ttl: real) {
    (key, id) in c.entries && id < |c.objects| && now - c.objects[id].validatedAt < ttl
  }

  lemma HitIsYoung(c: Client, key: CacheKey, now: real, ttl: real)
    requires Unique(c.entries)
    ensures forall id: nat :: Hit(c, key, now, ttl) == Some(id) <==> Young(c, key, id, now, ttl)
  {
    forall id: nat
      ensures Hit(c, key, now, ttl) == Some(id) <==> Young(c, key, id, now, ttl)
    {
      GetIn<CacheKey, nat>(c.entries, key, id);
    }
  }

  /** The caller has this object's document, as of now. */
  predicate HasBeenServed(w: World, key: CacheKey, id: nat, task: Task) {
    id < |w.client.objects| && task.Returned? && task.key == key
    && task.outcome == Answered(w.client.objects[id].settings) && task.at == w.clock
  }

  /** One entry is now the last, and the others are as they were before it. */
  ghost predicate MovedLast(d: Entries, e: (CacheKey, nat), d': Entries) {
    exists i | 0 <= i < |d| :: d[i] == e && d' == d[..i] + d[i + 1..] + [e]
  }

  lemma {:induction false} RemovedAt(d: Entries, key: CacheKey) returns (i: nat)
    requires Has(d, key)
    ensures i < |d| && d[i].0 == key && Remove(d, key) == d[..i] + d[i + 1..]
    ensures forall j | 0 <= j < i :: d[j].0 != key
  {
    i := 0;
    if d[0].0 != key {
      HasInRest(d, key);
      var m := RemovedAt(d[1..], key);
      i := m + 1;
      assert d[..i] == [d[0]] + d[1..][..m] && d[i + 1..] == d[1..][m + 1..];
      assert forall j | 1 <= j < i :: d[j] == d[1..][j - 1];
    }
  }

  lemma HasInRest(d: Entries, key: CacheKey)
    requires Has(d, key) && d[0].0 != key
    ensures Has(d[1..], key)
  {
    var j :| 0 <= j < |d| && d[j].0 == key;
    assert d[1..][j - 1].0 == key;
  }

  lemma {:induction false} FoundFirst(d: Entries, key: CacheKey, i: nat)
    requires i < |d| && d[i].0 == key && forall j | 0 <= j < i :: d[j].0 != key
    ensures Held(d, key) == Some(d[i].1)
  {
    if i > 0 {
      assert d[1..][i - 1] == d[i];
      FoundFirst(d[1..], key, i - 1);
    }
  }

  lemma HitMovesLast(c: Client, key: CacheKey, now: real, ttl: real)
    ensures var hit := Hit(c, key, now, ttl);
      hit.Some? ==> MovedLast(c.entries, (key, hit.value), Touched(c.entries, key))
  {
    if Hit(c, key, now, ttl).Some? {
      var i := RemovedAt(c.entries, key);
      FoundFirst(c.entries, key, i);
      assert c.entries[i] == (key, c.entries[i].1);
    }
  }

  /** In every run, a caller who arrives is served at once exactly when an entry of its key is young,
      and then that entry's document; else it waits for the key's lock. A caller who gets the lock asks
      the server exactly when there is still no such entry, with the tag of the copy held, if any. */
  lemma ServedAtOnceExactlyWhen(setup: Setup, ws: seq<World>, ss: seq<Step>, n: nat)
    requires Traced(setup, ws, ss) && Starts(ws[0]) && n < |ss|
    ensures var w, w' := ws[n], ws[n + 1];
      && (ss[n].Resolve? ==>
            && |w'.tasks| == |w.tasks| + 1
            && (forall id | Young(w.client, ss[n].key, id, w.clock, setup.ttl) ::
                  HasBeenServed(w, ss[n].key, id, w'.tasks[|w.tasks|])
                  && MovedLast(w.client.entries, (ss[n].key, id), w'.client.entries))
            && ((forall id :: !Young(w.client, ss[n].key, id, w.clock, setup.ttl)) ==> w'.tasks[|w.tasks|].Queued?))
      && (ss[n].Acquire? ==>
            && ss[n].i < |w.tasks| == |w'.tasks| && w.tasks[ss[n].i].Queued?
            && w'.client.entries == w.client.entries
            && var key := w.tasks[ss[n].i].key;
               && (forall id | Young(w.client, key, id, w.clock, setup.ttl) ::
                     HasBeenServed(w, key, id, w'.tasks[ss[n].i]))
               && ((forall id :: !Young(w.client, key, id, w.clock, setup.ttl)) ==> w'.tasks[ss[n].i].Fetching?))
  {
    AlwaysKept(setup, ws, ss, n);
    assert Steps(setup, ws[n], ss[n], ws[n + 1]);
    if ss[n].Resolve? {
      HitIsYoung(ws[n].client, ss[n].key, ws[n].clock, setup.ttl);
      HitMovesLast(ws[n].client, ss[n].key, ws[n].clock, setup.ttl);
    } else if ss[n].Acquire? {
      HitIsYoung(ws[n].client, ws[n].tasks[ss[n].i].key, ws[n].clock, setup.ttl);
    }
  }

  /** An entry of this token, and of this namespace if one is named. */
  predicate Covered(k: CacheKey, token: string, namespace: Option<string>) {
    k.token == token && (namespace.None? || k.namespace == namespace.value)
  }

  lemma DropsExactly(c: Client, token: string, namespace: Option<string>)
    requires Unique(c.entries)
    ensures forall e :: e in Drops(c, token, namespace).entries <==> e in c.entries && !Covered(e.0, token, namespace)
  {
    ExcludingIs(c.entries, Stale(c.entries, token, namespace));
  }

  /** A forget drops the entries it covers, and a write that was not refused or lost drops every
      profile's entry of its namespace, whatever its answer's body; nothing else goes, and no other
      write drops anything. */
  lemma DroppedExactlyWhen(setup: Setup, ws: seq<World>, ss: seq<Step>, n: nat, e: (CacheKey, nat))
    requires Traced(setup, ws, ss) && Starts(ws[0]) && n < |ss|
    ensures ss[n].Forget? ==>
      (e in ws[n + 1].client.entries <==>
         e in ws[n].client.entries && !Covered(e.0, ss[n].token, ss[n].namespace))
    ensures ss[n].PutDelivered? ==>
      && ss[n].i < |ws[n].tasks| && ws[n].tasks[ss[n].i].Putting? && ws[n].tasks[ss[n].i].answered.Some?
      && var task := ws[n].tasks[ss[n].i];
         var done := task.answered.value.Replied? && task.answered.value.code < 400;
         (e in ws[n + 1].client.entries <==>
            e in ws[n].client.entries && !(done && Covered(e.0, task.token, Some(task.namespace))))
  {
    AlwaysKept(setup, ws, ss, n);
    assert Steps(setup, ws[n], ss[n], ws[n + 1]);
    if ss[n].Forget? {
      DropsExactly(ws[n].client, ss[n].token, ss[n].namespace);
    } else if ss[n].PutDelivered? {
      DropsExactly(ws[n].client, ws[n].tasks[ss[n].i].token, Some(ws[n].tasks[ss[n].i].namespace));
    }
  }

  // -- What the server answers ------------------------------------------------------------------------------

  lemma RenderedKeyed(namespace: string, served: Served)
    ensures BodyKeyed(Render(namespace, served))
  {
    var fields := Render(namespace, served).fields;
    assert "namespace"[0] == 'n' && "revision"[0] == 'r' && "settings"[0] == 's' && "fallbacks"[0] == 'f';
    assert Unique(fields);
    assert ItemsKeyed(Values(served.entries));
    DeclaredKeyed(served.entries);
  }

  lemma DeclaredKeyed(entries: Dict<string, Resolved>)
    ensures ItemsKeyed(DeclaredIn(entries))
  {
    assert "default"[0] == 'd' && "on_unavailable"[0] == 'o';
  }

  lemma {:induction false} ValueAt(entries: Dict<string, Resolved>, key: string)
    ensures Get(Values(entries), key)
         == match Get(entries, key)
            case None => None
            case Some(r) => Some(ToJson(r.value))
  {
    if entries != [] {
      assert Values(entries) == [(entries[0].0, ToJson(entries[0].1.value))] + Values(entries[1..]);
      ValueAt(entries[1..], key);
      GetNext(entries[0].0, ToJson(entries[0].1.value), Values(entries[1..]), key);
    }
  }

  /** A key of a whole document is read as the value told of its setting, whatever default the reader
      names, and a key it does not have is missing. */
  ghost predicate ReadsAsTold(site: Site, t: Tables, account: string, key: CacheKey, settings: ResolvedSettings,
                              name: string, default: Option<Json>) {
    && (forall d | Offered(site, key.namespace, name, d) ::
          exists r | Tells(site, t, account, Some(key.profile), d, r) ::
            settings.Contains(name) && settings.Read(name) == settings.ReadOr(name, default) == Ok(ToJson(r.value)))
    && ((forall d :: !Offered(site, key.namespace, name, d)) ==>
          && !settings.Contains(name) && settings.Read(name) == Err(KeyError)
          && settings.ReadOr(name, default) == if default.Some? then Ok(default.value) else Err(KeyError))
  }

  lemma NoNameIsNoProfile(site: Site, t: Tables, account: string, key: CacheKey, d: SettingDef, r: Resolved)
    ensures Tells(site, t, account, ProfileOf(key), d, r) <==> Tells(site, t, account, Some(key.profile), d, r)
  {
    assert forall id ::
      SpeaksFor(t, account, ProfileOf(key), d, id) <==> SpeaksFor(t, account, Some(key.profile), d, id);
  }

  lemma EntriesReadAsTold(site: Site, t: Tables, account: string, key: CacheKey, settings: ResolvedSettings,
                          entries: Dict<string, Resolved>, name: string, default: Option<Json>)
    requires TellsAt(site, t, account, key.namespace, ProfileOf(key), name, entries)
    requires settings.values == Values(entries) && settings.refused == {}
    ensures ReadsAsTold(site, t, account, key, settings, name, default)
  {
    ValueAt(entries, name);
    forall d, r
      ensures Tells(site, t, account, ProfileOf(key), d, r) <==> Tells(site, t, account, Some(key.profile), d, r)
    {
      NoNameIsNoProfile(site, t, account, key, d, r);
    }
    forall d | Offered(site, key.namespace, name, d)
      ensures exists r | Tells(site, t, account, Some(key.profile), d, r) ::
        settings.Contains(name) && settings.Read(name) == settings.ReadOr(name, default) == Ok(ToJson(r.value))
    {
      var r := Get(entries, name).value;
      assert Tells(site, t, account, Some(key.profile), d, r);
    }
  }

  lemma DocIsServed(setup: Setup, t: Tables, key: CacheKey) returns (who: Identity, entries: Dict<string, Resolved>)
    requires Deployed(setup.site) && Doc(setup, t, key).Some?
    ensures setup.identity(key.token) == Some(who)
    ensures ResolveFor(setup.site, t, who, key.namespace, ProfileOf(key)).Ok?
    ensures entries == ResolveFor(setup.site, t, who, key.namespace, ProfileOf(key)).value.entries
    ensures var settings := Doc(setup, t, key).value;
      && settings.values == Values(entries) && settings.refused == {} && !settings.stale
      && settings.revision == Some(if who.account in t.accounts then t.accounts[who.account].revision else 0)
  {
    who := setup.identity(key.token).value;
    entries := ResolveFor(setup.site, t, who, key.namespace, ProfileOf(key)).value.entries;
  }

  /** What the server has for a key in some state says, setting by setting, what the account is told,
      and carries the deployment's outage rules and the account's revision. */
  lemma DocumentsReadAsTold(setup: Setup, t: Tables, key: CacheKey, name: string, default: Option<Json>)
    requires Deployed(setup.site) && Doc(setup, t, key).Some?
    ensures setup.identity(key.token).Some?
    ensures var who, settings := setup.identity(key.token).value, Doc(setup, t, key).value;
      && !settings.stale
      && settings.revision == Some(if who.account in t.accounts then t.accounts[who.account].revision else 0)
      && ReadsAsTold(setup.site, t, who.account, key, settings, name, default)
      && RulesAreOf(setup.site, key.namespace, settings.fallbacks, name)
  {
    var who, entries := DocIsServed(setup, t, key);
    DocumentsTell(setup.site, t, who, key.namespace, ProfileOf(key), name);
    EntriesReadAsTold(setup.site, t, who.account, key, Doc(setup, t, key).value, entries, name, default);
    DocCarriesTheRules(setup, t, key);
    DeploymentRulesAre(setup.site, key.namespace, name);
  }

  /** The answer to a request for a key: who may not ask is told why, before anything else; then a
      header that names the state's tag gets a 304; and anybody else the whole document. */
  lemma AskedExactly(setup: Setup, t: Tables, key: CacheKey, header: Option<string>)
    requires WellFormed(setup.site.lib, setup.site.catalogue) && Has(setup.site.catalogue, COMMON)
    ensures var reply := Asked(setup, t, key, header);
      match setup.identity(key.token)
      case None => reply == Replied(401, None, None)
      case Some(who) =>
        var revision := if who.account in t.accounts then t.accounts[who.account].revision else 0;
        var tag := "\"" + who.account + "." + Print(revision) + "\"";
        if |key.namespace| > 64 || |key.profile| > 64 || !ProfileFits(Some(key.profile))
        then reply == Replied(422, None, None)
        else if !HasNamespace(setup.site.catalogue, key.namespace) then reply == Replied(404, None, None)
        else if key.namespace !in who.namespaces then reply == Replied(403, None, None)
        else if Matches(header, tag) then reply == Replied(304, Some(tag), None)
        else
          && reply == Replied(200, Some(tag), reply.body)
          && Doc(setup, t, key).Some? && Says(key.namespace, reply.body, Doc(setup, t, key).value)
  {
    match setup.identity(key.token)
    case None =>
    case Some(who) =>
      ProfileTakenExactlyWhen(ProfileOf(key));
      PermittedExactlyWhen(setup.site, who, key.namespace);
      var r := ResolveFor(setup.site, t, who, key.namespace, ProfileOf(key));
      if r.Ok? {
        RenderedIsReadBack(key.namespace, r.value);
        RenderedKeyed(key.namespace, r.value);
        UsableExactlyWhen(key.namespace, Some(Render(key.namespace, r.value)), Meaning(key.namespace, r.value));
      }
  }

  /** The server would send a caller who holds nothing the whole document. */
  predicate Sends(setup: Setup, t: Tables, key: CacheKey)
    requires Has(setup.site.catalogue, COMMON)
  {
    var reply := Asked(setup, t, key, None);
    reply.Replied? && reply.code == 200
  }

  /** The tag is the one of this state, and the account's id has no comma to break it in a list. */
  predicate IsTagOf(setup: Setup, t: Tables, key: CacheKey, tag: string) {
    var who := setup.identity(key.token);
    who.Some? && ',' !in who.value.account && tag == ETag(who.value.account, RevisionOf(t, who.value.account))
  }

  lemma OwnTagIsConfirmed(setup: Setup, t: Tables, key: CacheKey, tag: string)
    requires Has(setup.site.catalogue, COMMON) && Sends(setup, t, key) && IsTagOf(setup, t, key, tag)
    ensures Asked(setup, t, key, Some(tag)) == Replied(304, Some(tag), None)
  {
    var who := setup.identity(key.token).value;
    MatchesItsOwnRevision(who.account, RevisionOf(t, who.account), RevisionOf(t, who.account));
  }

  /** A copy whose tag is still the account's is confirmed and not sent again: the request carries the
      tag of the copy held, and the answer is a 304. */
  lemma UnchangedIsNotSentAgain(setup: Setup, w: World, i: nat, keepsTag: bool, w': World)
    requires Answers(setup, w, i, keepsTag, w') && w.tasks[i].cached.Some?
    requires var t, key := w.ts[|w.ts| - 1], w.tasks[i].key;
      Sends(setup, t, key) && IsTagOf(setup, t, key, w.client.objects[w.tasks[i].cached.value].etag)
    ensures i < |w'.tasks| && w'.tasks[i].Fetching? && w'.tasks[i].answer.Some?
    ensures var reply := w'.tasks[i].answer.value.reply; reply.Replied? && reply.code == 304 && reply.body.None?
  {
    var task := w.tasks[i];
    OwnTagIsConfirmed(setup, w.ts[|w.ts| - 1], task.key, w.client.objects[task.cached.value].etag);
  }
}
