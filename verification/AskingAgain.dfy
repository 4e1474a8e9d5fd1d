/** What `forget` says of itself, to the letter: the next call for that token asks again. */
module AskingAgain {
  import opened Core
  import opened Dicts
  import opened Catalogue
  import opened Resolution
  import opened Tables
  import opened EventLog
  import opened Server
  import opened ClientModels
  import opened ClientCache
  import opened ClientProtocol
  import opened Freshness
  import opened Forgetting
  import opened FreshOrder

  // -- The promise --------------------------------------------------------------------------------

  /** A request for this key goes out. */
  ghost predicate Sends(setup: Setup, w: World, s: Step, key: CacheKey) {
    s.Acquire? && s.i < |w.tasks| && w.tasks[s.i].Queued? && w.tasks[s.i].key == key && Misses(setup, w, key)
  }

  predicate Misses(setup: Setup, w: World, key: CacheKey) { Hit(w.client, key, w.clock, setup.ttl).None? }

  ghost predicate NoSend(setup: Setup, ws: seq<World>, ss: seq<Step>, n: nat, key: CacheKey)
    requires n <= |ss| && |ws| == |ss| + 1
  {
    forall j | 0 <= j < n :: !Sends(setup, ws[j], ss[j], key)
  }

  /** Whatever happens from here on, nobody is served from the cache for this key before a request
      for it has gone out. */
  ghost predicate AsksAgain(setup: Setup, w: World, key: CacheKey) {
    forall ws, ss, n: nat | Traced(setup, ws, ss) && ws[0] == w && n <= |ss| && NoSend(setup, ws, ss, n, key) ::
      Misses(setup, ws[n], key)
  }

  // -- What breaks it -------------------------------------------------------------------------------

  /** An answer this request would store. */
  predicate StoringReply(key: CacheKey, cached: Option<nat>, reply: Reply) {
    && reply.Replied? && reply.code < 400 && DocumentOf(key.namespace, reply.body).Ok?
    && !(reply.code == 304 && cached.Some?)
  }

  /** The server gets from one state to another. */
  ghost predicate Reaches(site: Site, t: Tables, u: Tables) {
    exists ts, hs :: Run(site, ts, hs) && ts[0] == t && ts[|hs|] == u
  }

  /** What the server would answer in this state would be stored. */
  ghost predicate StoresAt(setup: Setup, u: Tables, key: CacheKey, cached: Option<nat>, header: Option<string>) {
    Has(setup.site.catalogue, COMMON) && StoringReply(key, cached, Asked(setup, u, key, header))
  }

  /** The server can come to give such an answer, from what it has now. */
  ghost predicate StoresLater(setup: Setup, t: Tables, key: CacheKey, cached: Option<nat>, header: Option<string>) {
    exists u :: Reaches(setup.site, t, u) && StoresAt(setup, u, key, cached, header)
  }

  /** Which unanswered requests may yet be answered with something to store, by the server's state. */
  type Prospect = (Tables, CacheKey, Option<nat>, Option<string>) -> bool

  ghost function Prospects(setup: Setup): Prospect {
    (t: Tables, key: CacheKey, cached: Option<nat>, header: Option<string>) =>
      StoresLater(setup, t, key, cached, header)
  }

  /** What the proofs below use of that: an answer now counts, and so does one after a step. */
  ghost predicate Foresees(setup: Setup, may: Prospect) {
    && (forall t, key, cached, header | StoresAt(setup, t, key, cached, header) :: may(t, key, cached, header))
    && (forall t, h, u, key, cached, header | Next(setup.site, t, h, u) && may(u, key, cached, header) ::
          may(t, key, cached, header))
  }

  ghost predicate MayServe(may: Prospect, w: World, task: Task) {
    && task.Fetching? && |w.ts| >= 1 && (task.cached.Some? ==> task.cached.value < |w.client.objects|)
    && may(w.ts[|w.ts| - 1], task.key, task.cached, HeaderFor(w.client, task.cached))
  }

  /** A request already out whose answer will be, or may yet be, a document to store. */
  ghost predicate MayBeStored(may: Prospect, w: World, task: Task) {
    task.Fetching? &&
    match task.answer
    case Some(carried) => StoringReply(task.key, task.cached, carried.reply)
    case None => MayServe(may, w, task)
  }

  ghost predicate NoneMayBeStored(may: Prospect, w: World, key: CacheKey) {
    forall i | 0 <= i < |w.tasks| && w.tasks[i].Fetching? && w.tasks[i].key == key :: !MayBeStored(may, w, w.tasks[i])
  }

  // -- Without it, nobody is served ------------------------------------------------------------------

  ghost predicate Empty(may: Prospect, w: World, key: CacheKey) {
    Held(w.client.entries, key).None? && NoneMayBeStored(may, w, key)
  }

  lemma EmptyMisses(setup: Setup, w: World, key: CacheKey)
    requires Held(w.client.entries, key).None?
    ensures Misses(setup, w, key)
  {}

  lemma ReachesNow(site: Site, t: Tables)
    ensures Reaches(site, t, t)
  {
    var ts, hs: seq<Happening> := [t], [];
    assert Run(site, ts, hs) && ts[0] == t && ts[|hs|] == t;
  }

  lemma ReachesBy(site: Site, ts: seq<Tables>, hs: seq<Happening>, t: Tables, u: Tables)
    requires Run(site, ts, hs) && ts[0] == t && ts[|hs|] == u
    ensures Reaches(site, t, u)
  {}

  lemma ReachesFurther(site: Site, t: Tables, h: Happening, u: Tables, v: Tables)
    requires Next(site, t, h, u) && Reaches(site, u, v)
    ensures Reaches(site, t, v)
  {
    var ts, hs :| Run(site, ts, hs) && ts[0] == u && ts[|hs|] == v;
    RunBefore(site, t, h, ts, hs);
    ReachesBy(site, [t] + ts, [h] + hs, t, v);
  }

  lemma RunBefore(site: Site, t: Tables, h: Happening, ts: seq<Tables>, hs: seq<Happening>)
    requires Run(site, ts, hs) && Next(site, t, h, ts[0])
    ensures Run(site, [t] + ts, [h] + hs)
  {
    var us, gs := [t] + ts, [h] + hs;
    forall i | 0 <= i < |gs|
      ensures Next(site, us[i], gs[i], us[i + 1])
    {
      if i > 0 { assert Next(site, ts[i - 1], hs[i - 1], ts[i]); }
    }
  }

  lemma ProspectsForesee(setup: Setup)
    ensures Foresees(setup, Prospects(setup))
  {
    var may := Prospects(setup);
    forall t, key, cached, header | StoresAt(setup, t, key, cached, header)
      ensures may(t, key, cached, header)
    {
      ReachesNow(setup.site, t);
    }
    forall t, h, u, key, cached, header | Next(setup.site, t, h, u) && may(u, key, cached, header)
      ensures may(t, key, cached, header)
    {
      var v :| Reaches(setup.site, u, v) && StoresAt(setup, v, key, cached, header);
      ReachesFurther(setup.site, t, h, u, v);
    }
  }

  lemma Foreseen(setup: Setup, may: Prospect, w: World, h: Happening, t: Tables, task: Task)
    requires Foresees(setup, may) && |w.ts| >= 1 && Next(setup.site, w.ts[|w.ts| - 1], h, t)
    requires MayServe(may, w.(ts := w.ts + [t], hs := w.hs + [h]), task)
    ensures MayServe(may, w, task)
  {}

  lemma TagDoesNotMatter(key: CacheKey, cached: Option<nat>, reply: Reply)
    ensures StoringReply(key, cached, WithoutTag(reply)) <==> StoringReply(key, cached, reply)
  {}

  /** An answer given now to a request that can never be served a document to store is not one. */
  lemma AnswerIsNotStored(setup: Setup, may: Prospect, t: Tables, key: CacheKey, cached: Option<nat>,
                          header: Option<string>)
    requires Foresees(setup, may) && Has(setup.site.catalogue, COMMON) && !may(t, key, cached, header)
    ensures !StoringReply(key, cached, Asked(setup, t, key, header))
    ensures !StoringReply(key, cached, WithoutTag(Asked(setup, t, key, header)))
  {
    TagDoesNotMatter(key, cached, Asked(setup, t, key, header));
    assert !StoresAt(setup, t, key, cached, header);
  }

  /** A task untouched by a step that leaves the server and the objects it knows alone. */
  lemma StaysUnstored(setup: Setup, may: Prospect, w: World, w': World, task: Task)
    requires Has(setup.site.catalogue, COMMON) && TaskOk(setup, w, task) && !MayBeStored(may, w, task)
    requires |w.ts| >= 1 && w'.ts == w.ts
    requires w'.client.objects == w.client.objects
    ensures !MayBeStored(may, w', task)
  {}

  lemma ResolveEmpty(setup: Setup, may: Prospect, w: World, key: CacheKey, asked: CacheKey, w': World)
    requires Has(setup.site.catalogue, COMMON) && Honest(setup, w) && Empty(may, w, key)
    requires Resolves(setup, w, asked, w')
    ensures Empty(may, w', key)
  {
    TouchLooks(w.client.entries, asked, key);
    forall i | 0 <= i < |w'.tasks| && w'.tasks[i].Fetching? && w'.tasks[i].key == key
      ensures !MayBeStored(may, w', w'.tasks[i])
    {
      assert w'.tasks[i] == w.tasks[i] && !MayBeStored(may, w, w.tasks[i]);
      StaysUnstored(setup, may, w, w', w.tasks[i]);
    }
  }

  lemma AcquireEmpty(setup: Setup, may: Prospect, w: World, key: CacheKey, i: nat, w': World)
    requires Has(setup.site.catalogue, COMMON) && Honest(setup, w) && Empty(may, w, key)
    requires Acquires(setup, w, i, w') && !Sends(setup, w, Acquire(i), key)
    ensures Empty(may, w', key)
  {
    EmptyMisses(setup, w, key);
    forall j | 0 <= j < |w'.tasks| && w'.tasks[j].Fetching? && w'.tasks[j].key == key
      ensures !MayBeStored(may, w', w'.tasks[j])
    {
      assert j != i && w'.tasks[j] == w.tasks[j] && !MayBeStored(may, w, w.tasks[j]);
      StaysUnstored(setup, may, w, w', w.tasks[j]);
    }
  }

  lemma DeliverEmpty(setup: Setup, may: Prospect, w: World, key: CacheKey, i: nat, w': World)
    requires Deployed(setup.site) && Honest(setup, w) && Flying(w.client, w.tasks) && Empty(may, w, key)
    requires Delivers(setup, w, i, w')
    ensures Empty(may, w', key)
  {
    var task := w.tasks[i];
    assert TaskOk(setup, w, task);
    FreshMeansJustConfirmed(setup, w, i, w');
    DeliverLooks(setup, may, w, key, i, w');
    forall j | 0 <= j < |w'.tasks| && w'.tasks[j].Fetching? && w'.tasks[j].key == key
      ensures !MayBeStored(may, w', w'.tasks[j])
    {
      assert j != i && w'.tasks[j] == w.tasks[j] && TaskOk(setup, w, w.tasks[j]) && !MayBeStored(may, w, w.tasks[j]);
      HeaderStays(setup, w, i, w', w.tasks[j]);
    }
  }

  /** A delivery for the key stores nothing, and one for another key stores nothing for it. */
  lemma DeliverLooks(setup: Setup, may: Prospect, w: World, key: CacheKey, i: nat, w': World)
    requires Has(setup.site.catalogue, COMMON) && Honest(setup, w) && Empty(may, w, key) && Delivers(setup, w, i, w')
    ensures Held(w'.client.entries, key).None?
  {
    var task := w.tasks[i];
    StoringStores(w.client, task.key, task.cached, task.answer.value.reply, w.clock, setup.bound);
    if task.key == key {
      assert !MayBeStored(may, w, task);
    } else {
      RememberLooks(w.client.entries, task.key, |w.client.objects|, setup.bound, key);
    }
  }

  lemma StoringStores(c: Client, key: CacheKey, cached: Option<nat>, reply: Reply, now: real, bound: nat)
    requires cached.Some? ==> cached.value < |c.objects|
    ensures var c' := Receives(c, key, cached, reply, now, bound).0;
      c'.entries == if StoringReply(key, cached, reply)
                        then Remembered(c.entries, key, |c.objects|, bound) else c.entries
  {}

  /** Objects only gain confirmations: what a request says of one stays. */
  lemma HeaderStays(setup: Setup, w: World, i: nat, w': World, task: Task)
    requires Delivers(setup, w, i, w') && task.Fetching?
    requires (task.cached.Some? ==> task.cached.value < |w.client.objects|)
    ensures |w.client.objects| <= |w'.client.objects|
    ensures HeaderFor(w'.client, task.cached) == HeaderFor(w.client, task.cached)
  {}

  lemma DropEmpty(setup: Setup, may: Prospect, w: World, key: CacheKey, s: Step, w': World)
    requires Has(setup.site.catalogue, COMMON) && Honest(setup, w) && Empty(may, w, key)
    requires Steps(setup, w, s, w') && (s.Forget? || s.PutDelivered?)
    ensures Empty(may, w', key)
  {
    if s.Forget? {
      ForgetLooks(w.client.entries, s.token, s.namespace, key);
    } else {
      ForgetLooks(w.client.entries, w.tasks[s.i].token, Some(w.tasks[s.i].namespace), key);
    }
    forall i | 0 <= i < |w'.tasks| && w'.tasks[i].Fetching? && w'.tasks[i].key == key
      ensures !MayBeStored(may, w', w'.tasks[i])
    {
      assert w'.tasks[i] == w.tasks[i] && !MayBeStored(may, w, w.tasks[i]);
      StaysUnstored(setup, may, w, w', w.tasks[i]);
    }
  }

  lemma AnswerEmpty(setup: Setup, may: Prospect, w: World, key: CacheKey, s: Step, w': World)
    requires Foresees(setup, may)
    requires Has(setup.site.catalogue, COMMON) && Honest(setup, w) && Empty(may, w, key)
    requires Steps(setup, w, s, w') && (s.Answer? || s.Interfere?)
    ensures Empty(may, w', key)
  {
    if s.Answer? && w.tasks[s.i].key == key {
      var task := w.tasks[s.i];
      assert !MayBeStored(may, w, task);
      AnswerIsNotStored(setup, may, w.ts[|w.ts| - 1], key, task.cached, HeaderFor(w.client, task.cached));
    }
    forall i | 0 <= i < |w'.tasks| && w'.tasks[i].Fetching? && w'.tasks[i].key == key
      ensures !MayBeStored(may, w', w'.tasks[i])
    {
      if i != s.i {
        assert w'.tasks[i] == w.tasks[i] && !MayBeStored(may, w, w.tasks[i]);
        StaysUnstored(setup, may, w, w', w.tasks[i]);
      }
    }
  }

  lemma QuietEmpty(setup: Setup, may: Prospect, w: World, key: CacheKey, s: Step, w': World)
    requires Has(setup.site.catalogue, COMMON) && Honest(setup, w) && Empty(may, w, key) && Steps(setup, w, s, w')
    requires s.Cancel? || s.Put? || s.PutAnswered? || s.Tick?
    ensures Empty(may, w', key)
  {
    forall i | 0 <= i < |w'.tasks| && w'.tasks[i].Fetching? && w'.tasks[i].key == key
      ensures !MayBeStored(may, w', w'.tasks[i])
    {
      assert w'.tasks[i] == w.tasks[i] && !MayBeStored(may, w, w.tasks[i]);
      StaysUnstored(setup, may, w, w', w.tasks[i]);
    }
  }

  lemma ServerEmpty(setup: Setup, may: Prospect, w: World, key: CacheKey, h: Happening, t: Tables)
    requires Foresees(setup, may)
    requires Has(setup.site.catalogue, COMMON) && Honest(setup, w) && Empty(may, w, key)
    requires Next(setup.site, w.ts[|w.ts| - 1], h, t)
    ensures Empty(may, w.(ts := w.ts + [t], hs := w.hs + [h]), key)
  {
    var w' := w.(ts := w.ts + [t], hs := w.hs + [h]);
    forall i | 0 <= i < |w.tasks| && w.tasks[i].Fetching? && w.tasks[i].key == key
      ensures !MayBeStored(may, w', w.tasks[i])
    {
      assert TaskOk(setup, w, w.tasks[i]) && !MayBeStored(may, w, w.tasks[i]);
      if MayServe(may, w', w.tasks[i]) { Foreseen(setup, may, w, h, t, w.tasks[i]); }
    }
  }

  lemma StepEmpty(setup: Setup, may: Prospect, w: World, key: CacheKey, s: Step, w': World)
    requires Foresees(setup, may)
    requires Deployed(setup.site) && Honest(setup, w) && Flying(w.client, w.tasks) && Empty(may, w, key)
    requires Steps(setup, w, s, w') && !Sends(setup, w, s, key)
    ensures Empty(may, w', key)
  {
    match s
    case Resolve(asked) => ResolveEmpty(setup, may, w, key, asked, w');
    case Acquire(i) => AcquireEmpty(setup, may, w, key, i, w');
    case Answer(_, _) => AnswerEmpty(setup, may, w, key, s, w');
    case Interfere(_, _) => AnswerEmpty(setup, may, w, key, s, w');
    case Deliver(i) => DeliverEmpty(setup, may, w, key, i, w');
    case Forget(_, _) => DropEmpty(setup, may, w, key, s, w');
    case PutDelivered(_) => DropEmpty(setup, may, w, key, s, w');
    case ServerMoves(h, t) => ServerEmpty(setup, may, w, key, h, t);
    case _ => QuietEmpty(setup, may, w, key, s, w');
  }

  lemma EmptyNext(setup: Setup, may: Prospect, w: World, key: CacheKey, s: Step, w': World)
    requires Foresees(setup, may)
    requires Deployed(setup.site) && Honest(setup, w) && Flying(w.client, w.tasks) && Empty(may, w, key)
    requires Steps(setup, w, s, w') && !Sends(setup, w, s, key)
    ensures Empty(may, w', key) && Flying(w'.client, w'.tasks) && Honest(setup, w')
  {
    StepEmpty(setup, may, w, key, s, w');
    StepFlies(setup, w, s, w');
    StepHonestly(setup, w, s, w');
  }

  ghost function EmptyAnd(setup: Setup, may: Prospect, key: CacheKey): World -> bool
    requires Has(setup.site.catalogue, COMMON)
  {
    (w: World) => Empty(may, w, key) && Flying(w.client, w.tasks) && Honest(setup, w)
  }

  /** What every step but a send keeps holds until there is one. */
  lemma {:induction false} KeptAlong(setup: Setup, holds: World -> bool, ws: seq<World>, ss: seq<Step>, n: nat,
                                     key: CacheKey)
    requires forall w, s, w' | holds(w) && Steps(setup, w, s, w') && !Sends(setup, w, s, key) :: holds(w')
    requires |ws| == |ss| + 1 && n <= |ss| && (forall i | 0 <= i < n :: Steps(setup, ws[i], ss[i], ws[i + 1]))
    requires holds(ws[0]) && NoSend(setup, ws, ss, n, key)
    ensures holds(ws[n])
  {
    if n > 0 {
      KeptAlong(setup, holds, ws, ss, n - 1, key);
      assert Steps(setup, ws[n - 1], ss[n - 1], ws[n]) && !Sends(setup, ws[n - 1], ss[n - 1], key);
    }
  }

  lemma EmptyKept(setup: Setup, may: Prospect, key: CacheKey)
    requires Foresees(setup, may) && Deployed(setup.site)
    ensures forall w, s, w' | EmptyAnd(setup, may, key)(w) && Steps(setup, w, s, w') && !Sends(setup, w, s, key) ::
      EmptyAnd(setup, may, key)(w')
  {
    forall w, s, w' | EmptyAnd(setup, may, key)(w) && Steps(setup, w, s, w') && !Sends(setup, w, s, key)
      ensures EmptyAnd(setup, may, key)(w')
    {
      EmptyNext(setup, may, w, key, s, w');
    }
  }

  lemma EmptyAsksAgain(setup: Setup, w: World, key: CacheKey)
    requires Deployed(setup.site) && Honest(setup, w) && Flying(w.client, w.tasks)
    requires Empty(Prospects(setup), w, key)
    ensures AsksAgain(setup, w, key)
  {
    ProspectsForesee(setup);
    EmptyKept(setup, Prospects(setup), key);
    forall ws, ss, n: nat | Traced(setup, ws, ss) && ws[0] == w && n <= |ss| && NoSend(setup, ws, ss, n, key)
      ensures Misses(setup, ws[n], key)
    {
      KeptAlong(setup, EmptyAnd(setup, Prospects(setup), key), ws, ss, n, key);
      EmptyMisses(setup, ws[n], key);
    }
  }

  // -- With it, somebody may be ------------------------------------------------------------------------

  lemma TraceBefore(setup: Setup, w: World, s: Step, ws: seq<World>, ss: seq<Step>)
    requires Traced(setup, ws, ss) && Steps(setup, w, s, ws[0])
    ensures Traced(setup, [w] + ws, [s] + ss)
  {
    var vs, rs := [w] + ws, [s] + ss;
    forall i | 0 <= i < |rs|
      ensures Steps(setup, vs[i], rs[i], vs[i + 1])
    {
      if i > 0 { assert Steps(setup, ws[i - 1], ss[i - 1], ws[i]); }
    }
  }

  lemma NoSendBefore(setup: Setup, w: World, s: Step, ws: seq<World>, ss: seq<Step>, n: nat, key: CacheKey)
    requires |ws| == |ss| + 1 && n <= |ss| && NoSend(setup, ws, ss, n, key) && !Sends(setup, w, s, key)
    ensures NoSend(setup, [w] + ws, [s] + ss, n + 1, key)
  {
    var vs, rs := [w] + ws, [s] + ss;
    forall i | 0 <= i < n + 1
      ensures !Sends(setup, vs[i], rs[i], key)
    {
      if i > 0 { assert !Sends(setup, ws[i - 1], ss[i - 1], key); }
    }
  }

  /** The promise holds after any step that is not a request for the key. */
  lemma AsksAgainStays(setup: Setup, w: World, s: Step, w1: World, key: CacheKey)
    requires AsksAgain(setup, w, key) && Steps(setup, w, s, w1) && !Sends(setup, w, s, key)
    ensures AsksAgain(setup, w1, key)
  {
    forall ws, ss, n: nat | Traced(setup, ws, ss) && ws[0] == w1 && n <= |ss| && NoSend(setup, ws, ss, n, key)
      ensures Misses(setup, ws[n], key)
    {
      TraceBefore(setup, w, s, ws, ss);
      NoSendBefore(setup, w, s, ws, ss, n, key);
      assert ([w] + ws)[n + 1] == ws[n];
    }
  }

  lemma AsksAgainNow(setup: Setup, w: World, key: CacheKey)
    requires AsksAgain(setup, w, key)
    ensures Misses(setup, w, key)
  {
    var ws, ss: seq<Step> := [w], [];
    assert Traced(setup, ws, ss) && NoSend(setup, ws, ss, 0, key);
  }

  /** What the cache can do at all: hold something, for some time. */
  predicate Caches(setup: Setup) { setup.bound >= 1 && setup.ttl > 0.0 }

  /** A document on its way, to be stored. */
  lemma StoringIsComing(setup: Setup, w: World, i: nat)
    requires Has(setup.site.catalogue, COMMON) && TasksOk(setup, w)
    requires i < |w.tasks| && w.tasks[i].Fetching? && w.tasks[i].answer.Some?
    requires StoringReply(w.tasks[i].key, w.tasks[i].cached, w.tasks[i].answer.value.reply)
    ensures Coming(w, i)
  {
    assert TaskOk(setup, w, w.tasks[i]);
  }

  lemma OnItsWayBreaks(setup: Setup, w: World, i: nat)
    requires Deployed(setup.site) && Honest(setup, w) && Flying(w.client, w.tasks) && Caches(setup)
    requires i < |w.tasks| && w.tasks[i].Fetching? && w.tasks[i].answer.Some?
    requires StoringReply(w.tasks[i].key, w.tasks[i].cached, w.tasks[i].answer.value.reply)
    ensures !AsksAgain(setup, w, w.tasks[i].key)
  {
    var key := w.tasks[i].key;
    if AsksAgain(setup, w, key) {
      StoringIsComing(setup, w, i);
      DeliverableWhenAnswered(setup, w, i);
      var w1 := AfterDelivery(setup, w, i);
      ComingIsStored(setup, w, i, w1);
      RememberedHits(setup, w1.client, w.client.entries, key, |w.origins|, w1.clock);
      AsksAgainStays(setup, w, Deliver(i), w1, key);
      AsksAgainNow(setup, w1, key);
    }
  }

  lemma AnsweredBreaks(setup: Setup, w: World, i: nat)
    requires Deployed(setup.site) && Honest(setup, w) && Flying(w.client, w.tasks) && Caches(setup)
    requires InFlight(w, i) && w.tasks[i].answer.None?
    requires StoresAt(setup, w.ts[|w.ts| - 1], w.tasks[i].key, w.tasks[i].cached,
                      HeaderFor(w.client, w.tasks[i].cached))
    ensures !AsksAgain(setup, w, w.tasks[i].key)
  {
    var w1 := AnswerArrives(setup, w, i);
    StepHonestly(setup, w, Answer(i, true), w1);
    StepFlies(setup, w, Answer(i, true), w1);
    OnItsWayBreaks(setup, w1, i);
    if AsksAgain(setup, w, w.tasks[i].key) { AsksAgainStays(setup, w, Answer(i, true), w1, w.tasks[i].key); }
  }

  lemma {:induction false} LaterBreaks(setup: Setup, w: World, i: nat, ts: seq<Tables>, hs: seq<Happening>)
    requires Deployed(setup.site) && Honest(setup, w) && Flying(w.client, w.tasks) && Caches(setup)
    requires InFlight(w, i) && w.tasks[i].answer.None?
    requires Run(setup.site, ts, hs) && ts[0] == w.ts[|w.ts| - 1]
    requires StoresAt(setup, ts[|hs|], w.tasks[i].key, w.tasks[i].cached, HeaderFor(w.client, w.tasks[i].cached))
    ensures !AsksAgain(setup, w, w.tasks[i].key)
    decreases |hs|
  {
    if hs == [] {
      AnsweredBreaks(setup, w, i);
    } else {
      var s := ServerMoves(hs[0], ts[1]);
      var w1 := w.(ts := w.ts + [ts[1]], hs := w.hs + [hs[0]]);
      assert Next(setup.site, ts[0], hs[0], ts[1]) && Steps(setup, w, s, w1);
      StepHonestly(setup, w, s, w1);
      RunAfter(setup.site, ts, hs);
      LaterBreaks(setup, w1, i, ts[1..], hs[1..]);
      if AsksAgain(setup, w, w.tasks[i].key) { AsksAgainStays(setup, w, s, w1, w.tasks[i].key); }
    }
  }

  lemma RunAfter(site: Site, ts: seq<Tables>, hs: seq<Happening>)
    requires Run(site, ts, hs) && hs != []
    ensures Run(site, ts[1..], hs[1..])
  {
    forall i | 0 <= i < |hs[1..]|
      ensures Next(site, ts[1..][i], hs[1..][i], ts[1..][i + 1])
    {
      assert Next(site, ts[i + 1], hs[i + 1], ts[i + 2]);
    }
  }

  lemma MayBeStoredBreaks(setup: Setup, w: World, i: nat)
    requires Deployed(setup.site) && Honest(setup, w) && Flying(w.client, w.tasks) && Caches(setup)
    requires i < |w.tasks| && MayBeStored(Prospects(setup), w, w.tasks[i])
    ensures !AsksAgain(setup, w, w.tasks[i].key)
  {
    var task := w.tasks[i];
    if task.answer.Some? {
      OnItsWayBreaks(setup, w, i);
    } else {
      assert StoresLater(setup, w.ts[|w.ts| - 1], task.key, task.cached, HeaderFor(w.client, task.cached));
      var u :| Reaches(setup.site, w.ts[|w.ts| - 1], u)
        && StoresAt(setup, u, task.key, task.cached, HeaderFor(w.client, task.cached));
      var ts, hs :| Run(setup.site, ts, hs) && ts[0] == w.ts[|w.ts| - 1] && ts[|hs|] == u;
      LaterBreaks(setup, w, i, ts, hs);
    }
  }

  // -- The condition -------------------------------------------------------------------------------------

  lemma WithoutACache(setup: Setup, w: World, key: CacheKey)
    requires Has(setup.site.catalogue, COMMON) && Honest(setup, w) && !Caches(setup)
    ensures Misses(setup, w, key)
  {
    var cached := Held(w.client.entries, key);
    GetIsCached(setup, w, key);
    if cached.Some? {
      assert ObjectOk(setup, w.ts, w.hs, w.clock, w.origins[cached.value], w.client.objects[cached.value]);
      assert (key, cached.value) in w.client.entries;
    }
  }

  lemma NothingCachedAsksAgain(setup: Setup, w: World, key: CacheKey)
    requires Deployed(setup.site) && Honest(setup, w) && !Caches(setup)
    ensures AsksAgain(setup, w, key)
  {
    forall ws, ss, n: nat | Traced(setup, ws, ss) && ws[0] == w && n <= |ss| && NoSend(setup, ws, ss, n, key)
      ensures Misses(setup, ws[n], key)
    {
      HonestAlong(setup, ws, ss, n);
      WithoutACache(setup, ws[n], key);
    }
  }

  /** With nothing cached for a key, the next call for it asks -- nobody is served before a request
      goes out, whatever happens -- if and only if the client caches nothing at all, or no request
      already out for it holds, or may yet be given, a document to store. */
  lemma AsksAgainExactlyWhen(setup: Setup, w: World, key: CacheKey)
    requires Deployed(setup.site) && Honest(setup, w) && Flying(w.client, w.tasks)
    requires Held(w.client.entries, key).None?
    ensures AsksAgain(setup, w, key) <==> !Caches(setup) || NoneMayBeStored(Prospects(setup), w, key)
  {
    if !Caches(setup) {
      NothingCachedAsksAgain(setup, w, key);
    } else if NoneMayBeStored(Prospects(setup), w, key) {
      EmptyAsksAgain(setup, w, key);
    } else {
      var i :| 0 <= i < |w.tasks| && w.tasks[i].Fetching? && w.tasks[i].key == key
        && MayBeStored(Prospects(setup), w, w.tasks[i]);
      MayBeStoredBreaks(setup, w, i);
    }
  }

  /** No request is out for any covered key: no lock of one is held, which the client can see. */
  predicate NoneHeld(m: Moment, c: Client) {
    forall key | key in c.flights && Covers(m, key) :: c.flights[key] < |c.locks| && !c.locks[c.flights[key]].held
  }

  lemma NoneHeldNoneStored(setup: Setup, m: Moment, w: World, key: CacheKey)
    requires Flying(w.client, w.tasks) && NoneHeld(m, w.client) && Covers(m, key)
    ensures NoneMayBeStored(Prospects(setup), w, key)
  {
    forall i | 0 <= i < |w.tasks| && w.tasks[i].Fetching? && w.tasks[i].key == key
      ensures false
    {
      assert Inside(w.tasks[i], key) && LockCounts(w.client, w.tasks, key);
      CountedMeansSome(w.tasks, key);
      assert Fetches(w.tasks[i], key);
    }
  }

  lemma SameRequest(may: Prospect, w: World, w': World, task: Task)
    requires w'.ts == w.ts && w'.client.objects == w.client.objects
    ensures MayBeStored(may, w', task) <==> MayBeStored(may, w, task)
  {}

  /** Dropping leaves every request, and what it may bring, as it was. */
  lemma DropKeepsProspects(setup: Setup, may: Prospect, m: Moment, w: World, s: Step, w': World, key: CacheKey)
    requires DropsAt(w, s, m) && Steps(setup, w, s, w')
    ensures NoneMayBeStored(may, w', key) <==> NoneMayBeStored(may, w, key)
  {
    forall i | 0 <= i < |w.tasks| && w.tasks[i].Fetching?
      ensures w'.tasks[i] == w.tasks[i]
      ensures MayBeStored(may, w', w.tasks[i]) <==> MayBeStored(may, w, w.tasks[i])
    {
      DropKeepsTask(setup, m, w, s, w', i);
      SameRequest(may, w, w', w.tasks[i]);
    }
    assert forall i | 0 <= i < |w'.tasks| && w'.tasks[i].Fetching? :: i < |w.tasks| && w.tasks[i].Fetching?;
  }

  lemma DropEmpties(setup: Setup, m: Moment, w: World, s: Step, w': World, key: CacheKey)
    requires DropsAt(w, s, m) && Steps(setup, w, s, w') && Covers(m, key) && Unique(w.client.entries)
    ensures Held(w'.client.entries, key).None?
  {
    var left := Forgotten(w.client.entries, m.token, m.namespace);
    ExcludingIs(w.client.entries, Stale(w.client.entries, m.token, m.namespace));
    assert forall j | 0 <= j < |left| :: left[j] in left && left[j] in w.client.entries;
  }

  /** In every run: after a forget, or a write's drop, the next call for each key it covers asks again
      if and only if the client caches nothing at all, or no request out for the key at that moment
      holds, or may yet be given, a document to store. So it certainly does when no request is out. */
  lemma ForgettingAsksAgainExactlyWhen(setup: Setup, ws: seq<World>, ss: seq<Step>, f: nat, m: Moment, key: CacheKey)
    requires Deployed(setup.site) && Traced(setup, ws, ss) && Starts(ws[0]) && f < |ss|
    requires Ordered(ws[0].ts[0].events, ws[0].ts[0].nextSequence)
    requires DropsAt(ws[f], ss[f], m) && Covers(m, key)
    ensures AsksAgain(setup, ws[f + 1], key) <==> !Caches(setup) || NoneMayBeStored(Prospects(setup), ws[f], key)
    ensures NoneHeld(m, ws[f].client) ==> AsksAgain(setup, ws[f + 1], key)
  {
    AlwaysHonest(setup, ws, ss, f);
    AlwaysHonest(setup, ws, ss, f + 1);
    AlwaysFlying(setup, ws, ss, f);
    AlwaysFlying(setup, ws, ss, f + 1);
    assert Steps(setup, ws[f], ss[f], ws[f + 1]);
    DropEmpties(setup, m, ws[f], ss[f], ws[f + 1], key);
    DropKeepsProspects(setup, Prospects(setup), m, ws[f], ss[f], ws[f + 1], key);
    AsksAgainExactlyWhen(setup, ws[f + 1], key);
    if NoneHeld(m, ws[f].client) { NoneHeldNoneStored(setup, m, ws[f], key); }
  }

  /** Whether the server serves somebody a key does not depend on what it stores. */
  lemma ServingIsFixed(setup: Setup, t: Tables, u: Tables, key: CacheKey)
    requires Has(setup.site.catalogue, COMMON)
    ensures Doc(setup, t, key).Some? <==> Doc(setup, u, key).Some?
  {}

  /** A first request, still unanswered, may yet be given a document to store if and only if the
      server serves the key at all. */
  lemma FirstRequestExactlyWhen(setup: Setup, w: World, task: Task)
    requires Has(setup.site.catalogue, COMMON) && |w.ts| >= 1
    requires task.Fetching? && task.answer.None? && task.cached.None?
    ensures MayBeStored(Prospects(setup), w, task) <==>
      && |task.key.namespace| <= 64 && |task.key.profile| <= 64
      && Doc(setup, w.ts[|w.ts| - 1], task.key).Some?
  {
    var t := w.ts[|w.ts| - 1];
    FirstRequestMay(Prospects(setup), w, task);
    if StoresLater(setup, t, task.key, None, None) { LaterIsServed(setup, t, task.key); }
    if |task.key.namespace| <= 64 && |task.key.profile| <= 64 && Doc(setup, t, task.key).Some? {
      ServedIsLater(setup, t, task.key);
    }
  }

  lemma FirstRequestMay(may: Prospect, w: World, task: Task)
    requires |w.ts| >= 1 && task.Fetching? && task.answer.None? && task.cached.None?
    ensures MayBeStored(may, w, task) <==> may(w.ts[|w.ts| - 1], task.key, None, None)
  {}

  lemma ServedIsLater(setup: Setup, t: Tables, key: CacheKey)
    requires Has(setup.site.catalogue, COMMON) && |key.namespace| <= 64 && |key.profile| <= 64
    requires Doc(setup, t, key).Some?
    ensures StoresLater(setup, t, key, None, None)
  {
    ServedIsHelpful(setup, t, key, None, None);
    assert StoresAt(setup, t, key, None, None);
    ReachesNow(setup.site, t);
  }

  lemma LaterIsServed(setup: Setup, t: Tables, key: CacheKey)
    requires Has(setup.site.catalogue, COMMON) && StoresLater(setup, t, key, None, None)
    ensures |key.namespace| <= 64 && |key.profile| <= 64 && Doc(setup, t, key).Some?
  {
    var u :| Reaches(setup.site, t, u) && StoresAt(setup, u, key, None, None);
    StoredIsServed(setup, u, key);
    ServingIsFixed(setup, t, u, key);
  }

  lemma StoredIsServed(setup: Setup, u: Tables, key: CacheKey)
    requires StoresAt(setup, u, key, None, None)
    ensures |key.namespace| <= 64 && |key.profile| <= 64 && Doc(setup, u, key).Some?
  {}
}
