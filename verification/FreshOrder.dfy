/** Fresh answers never go back in time: what one caller has been told is never undone by an older
    document passed off as fresh to a later one. */
module FreshOrder {
  import opened Core
  import opened Dicts
  import opened Catalogue
  import opened EventLog
  import opened Server
  import opened ClientCache
  import opened ClientProtocol
  import opened Freshness
  import opened Forgetting

  // -- What a fetch finds when it comes back ----------------------------------------------------

  /** While a task fetches for a key, the cache holds for it what the task found there, or nothing;
      and what it found is no newer than its request. */
  ghost predicate Undisturbed(w: World, task: Task) {
    task.Fetching? ==>
      && (Held(w.client.entries, task.key).Some? ==> task.cached == Held(w.client.entries, task.key))
      && (task.cached.Some? ==> task.cached.value < |w.origins| && w.origins[task.cached.value].seen <= task.sent)
  }

  ghost predicate AllUndisturbed(w: World) { forall i | 0 <= i < |w.tasks| :: Undisturbed(w, w.tasks[i]) }

  /** A dictionary whose entries for a key are another's finds there what the other finds, or
      nothing. */
  lemma PartLooks(part: Entries, whole: Entries, key: CacheKey)
    requires Unique(part) && Unique(whole)
    requires forall e | e in part && e.0 == key :: e in whole
    ensures Held(part, key).Some? ==> Held(part, key) == Held(whole, key)
  {
    var found := Held(part, key);
    if found.Some? {
      GetIn(part, key, found.value);
      assert (key, found.value) in whole;
      GetIn(whole, key, found.value);
    }
  }

  lemma TouchLooks(d: Entries, touched: CacheKey, key: CacheKey)
    requires Unique(d)
    ensures Unique(Touched(d, touched))
    ensures Held(Touched(d, touched), key).Some? ==> Held(Touched(d, touched), key) == Held(d, key)
    ensures forall e | e in Touched(d, touched) :: e in d
  {
    var id := Held(d, touched);
    if id.Some? {
      assert (touched, id.value) in d;
      PutLastUnique(d, touched, id.value);
    }
    PartLooks(Touched(d, touched), d, key);
  }

  lemma RememberLooks(d: Entries, stored: CacheKey, id: nat, bound: nat, key: CacheKey)
    requires Unique(d) && key != stored
    ensures Held(Remembered(d, stored, id, bound), key).Some? ==>
      Held(Remembered(d, stored, id, bound), key) == Held(d, key)
  {
    PutLastUnique(d, stored, id);
    NewestUnique(Remove(d, stored) + [(stored, id)], bound);
    PartLooks(Remembered(d, stored, id, bound), d, key);
  }

  lemma ForgetLooks(d: Entries, token: string, namespace: Option<string>, key: CacheKey)
    requires Unique(d)
    ensures var left := Forgotten(d, token, namespace); Held(left, key).Some? ==> Held(left, key) == Held(d, key)
  {
    ExcludingIs(d, Stale(d, token, namespace));
    PartLooks(Forgotten(d, token, namespace), d, key);
  }

  /** Two tasks that fetch at once fetch for different keys. */
  lemma FetchersApart(c: Client, tasks: seq<Task>, i: nat, j: nat)
    requires Flying(c, tasks) && i < |tasks| && j < |tasks| && i != j && tasks[i].Fetching? && tasks[j].Fetching?
    ensures tasks[i].key != tasks[j].key
  {
    var key := tasks[i].key;
    if tasks[j].key == key {
      assert Inside(tasks[i], key) && LockCounts(c, tasks, key);
      TaskChanges(tasks, i, Gone, key);
      CountedMeansSome(tasks[i := Gone], key);
      assert Fetches(tasks[i := Gone][j], key);
    }
  }

  /** The entries for one key can only stay or go; the history of its object stays. */
  lemma StaysUndisturbed(w: World, w': World, task: Task, task': Task)
    requires Undisturbed(w, task) && task'.Fetching? && task.Fetching?
    requires task'.key == task.key && task'.cached == task.cached && task'.sent == task.sent
    requires Held(w'.client.entries, task.key).Some? ==>
      Held(w'.client.entries, task.key) == Held(w.client.entries, task.key)
    requires |w.origins| <= |w'.origins|
    requires task.cached.Some? && task.cached.value < |w.origins| ==>
      w'.origins[task.cached.value] == w.origins[task.cached.value]
    ensures Undisturbed(w', task')
  {}

  // -- Every step --------------------------------------------------------------------------------

  lemma ResolveUndisturbed(setup: Setup, w: World, key: CacheKey, w': World)
    requires Has(setup.site.catalogue, COMMON) && Honest(setup, w) && AllUndisturbed(w) && Resolves(setup, w, key, w')
    ensures AllUndisturbed(w')
  {
    forall i | 0 <= i < |w'.tasks| && w'.tasks[i].Fetching?
      ensures Undisturbed(w', w'.tasks[i])
    {
      TouchLooks(w.client.entries, key, w'.tasks[i].key);
      assert w'.tasks[i] == w.tasks[i];
      StaysUndisturbed(w, w', w.tasks[i], w'.tasks[i]);
    }
  }

  lemma AcquireUndisturbed(setup: Setup, w: World, i: nat, w': World)
    requires Has(setup.site.catalogue, COMMON) && Honest(setup, w) && AllUndisturbed(w) && Acquires(setup, w, i, w')
    ensures AllUndisturbed(w')
  {
    var cached := Held(w.client.entries, w.tasks[i].key);
    GetIsCached(setup, w, w.tasks[i].key);
    if cached.Some? {
      assert ObjectOk(setup, w.ts, w.hs, w.clock, w.origins[cached.value], w.client.objects[cached.value]);
    }
    forall j | 0 <= j < |w'.tasks| && w'.tasks[j].Fetching?
      ensures Undisturbed(w', w'.tasks[j])
    {
      if j != i {
        assert w'.tasks[j] == w.tasks[j];
        StaysUndisturbed(w, w', w.tasks[j], w'.tasks[j]);
      }
    }
  }

  lemma DeliverUndisturbed(setup: Setup, w: World, i: nat, w': World)
    requires Deployed(setup.site) && Honest(setup, w) && Flying(w.client, w.tasks) && AllUndisturbed(w)
    requires Delivers(setup, w, i, w')
    ensures AllUndisturbed(w')
  {
    var key := w.tasks[i].key;
    assert TaskOk(setup, w, w.tasks[i]);
    DeliveryMarks(setup, w, i, w');
    forall j | 0 <= j < |w'.tasks| && w'.tasks[j].Fetching?
      ensures Undisturbed(w', w'.tasks[j])
    {
      FreshMeansJustConfirmed(setup, w, i, w');
      assert j != i && w'.tasks[j] == w.tasks[j];
      FetchersApart(w.client, w.tasks, i, j);
      assert TaskOk(setup, w, w.tasks[j]);
      if Forgetting.Stored(w, i, w', setup.bound) {
        RememberLooks(w.client.entries, key, |w.origins|, setup.bound, w.tasks[j].key);
      }
      StaysUndisturbed(w, w', w.tasks[j], w'.tasks[j]);
    }
  }

  lemma DropUndisturbed(setup: Setup, w: World, s: Step, w': World)
    requires Unique(w.client.entries) && AllUndisturbed(w) && Steps(setup, w, s, w')
    requires s.Forget? || s.PutDelivered?
    ensures AllUndisturbed(w')
  {
    forall i | 0 <= i < |w'.tasks| && w'.tasks[i].Fetching?
      ensures Undisturbed(w', w'.tasks[i])
    {
      assert w'.tasks[i] == w.tasks[i];
      if s.Forget? {
        ForgetLooks(w.client.entries, s.token, s.namespace, w.tasks[i].key);
      } else {
        ForgetLooks(w.client.entries, w.tasks[s.i].token, Some(w.tasks[s.i].namespace), w.tasks[i].key);
      }
      StaysUndisturbed(w, w', w.tasks[i], w'.tasks[i]);
    }
  }

  lemma QuietUndisturbed(setup: Setup, w: World, s: Step, w': World)
    requires AllUndisturbed(w) && Steps(setup, w, s, w')
    requires s.Answer? || s.Interfere? || s.Cancel? || s.Put? || s.PutAnswered? || s.ServerMoves? || s.Tick?
    ensures AllUndisturbed(w')
  {
    forall i | 0 <= i < |w'.tasks| && w'.tasks[i].Fetching?
      ensures Undisturbed(w', w'.tasks[i])
    {
      assert Undisturbed(w, w.tasks[i]);
      StaysUndisturbed(w, w', w.tasks[i], w'.tasks[i]);
    }
  }

  lemma StepUndisturbed(setup: Setup, w: World, s: Step, w': World)
    requires Deployed(setup.site) && Honest(setup, w) && Flying(w.client, w.tasks) && AllUndisturbed(w)
    requires Steps(setup, w, s, w')
    ensures AllUndisturbed(w')
  {
    match s
    case Resolve(key) => ResolveUndisturbed(setup, w, key, w');
    case Acquire(i) => AcquireUndisturbed(setup, w, i, w');
    case Deliver(i) => DeliverUndisturbed(setup, w, i, w');
    case Forget(_, _) => DropUndisturbed(setup, w, s, w');
    case PutDelivered(_) => DropUndisturbed(setup, w, s, w');
    case _ => QuietUndisturbed(setup, w, s, w');
  }

  lemma {:induction false} AlwaysUndisturbed(setup: Setup, ws: seq<World>, ss: seq<Step>, n: nat)
    requires Deployed(setup.site) && Traced(setup, ws, ss) && Starts(ws[0]) && n <= |ss|
    requires Ordered(ws[0].ts[0].events, ws[0].ts[0].nextSequence)
    ensures AllUndisturbed(ws[n])
  {
    if n > 0 {
      AlwaysUndisturbed(setup, ws, ss, n - 1);
      AlwaysHonest(setup, ws, ss, n - 1);
      AlwaysFlying(setup, ws, ss, n - 1);
      StepUndisturbed(setup, ws[n - 1], ss[n - 1], ws[n]);
    }
  }

  // -- From one fresh answer on --------------------------------------------------------------------

  predicate GivenFresh(w: World, i: nat) {
    && i < |w.tasks| && w.tasks[i].Returned? && w.tasks[i].outcome.Answered? && !w.tasks[i].outcome.settings.stale
    && w.tasks[i].origin.Some?
  }

  predicate GivenBy(w: World, i: nat) { i < |w.tasks| && w.tasks[i].Returned? }

  function MomentOf(key: CacheKey, state: nat): Moment {
    Moment(key.token, Some(key.namespace), Some(key.profile), state)
  }

  lemma CoversIts(key: CacheKey, state: nat, other: CacheKey)
    ensures Covers(MomentOf(key, state), other) <==> other == key
  {}

  /** A helpful answer on its way for a key is of a state no older than what the cache held when it
      was asked for. */
  lemma HelpfulIsNewer(setup: Setup, w: World, j: nat)
    requires Has(setup.site.catalogue, COMMON) && Honest(setup, w) && AllUndisturbed(w)
    requires j < |w.tasks| && Helps(w.tasks[j]) && w.tasks[j].cached.Some?
    ensures w.tasks[j].cached.value < |w.origins|
    ensures w.origins[w.tasks[j].cached.value].seen <= SeenBy(w.tasks[j])
  {
    assert TaskOk(setup, w, w.tasks[j]) && Undisturbed(w, w.tasks[j]);
  }

  /** A hit: nothing older is cached for the key, and nothing older on its way. */
  lemma SinceHit(setup: Setup, w: World, key: CacheKey, id: nat, w': World)
    requires Deployed(setup.site) && Honest(setup, w) && AllUndisturbed(w)
    requires Hit(w.client, key, w.clock, setup.ttl) == Some(id) && id < |w.origins|
    requires w'.ts == w.ts && w'.origins == w.origins && forall e | e in w'.client.entries :: e in w.client.entries
    requires forall j | 0 <= j < |w'.tasks| && w'.tasks[j].Fetching? :: j < |w.tasks| && w'.tasks[j] == w.tasks[j]
    ensures Since(MomentOf(key, w.origins[id].seen), Given(w'), w')
  {
    var m := MomentOf(key, w.origins[id].seen);
    HitIsCached(w.client, key, w.clock, setup.ttl);
    GetIn(w.client.entries, key, id);
    assert ObjectOk(setup, w.ts, w.hs, w.clock, w.origins[id], w.client.objects[id]);
    forall e | e in w'.client.entries && Covers(m, e.0)
      ensures e.1 < |w'.origins| && m.state <= w'.origins[e.1].seen
    {
      GetIn(w.client.entries, key, e.1);
    }
    forall j | 0 <= j < |w'.tasks|
      ensures Given(w')(j) || TaskSince(m, w'.tasks[j])
    {
      if w'.tasks[j].Fetching? && Covers(m, w'.tasks[j].key) && Helps(w'.tasks[j]) {
        assert Undisturbed(w, w.tasks[j]);
        HelpfulIsNewer(setup, w, j);
      }
    }
  }

  lemma DeliveredOrigin(setup: Setup, w: World, i: nat, w': World)
    requires Delivers(setup, w, i, w') && |w'.origins| == |w.origins| == |w.client.objects|
    requires w.tasks[i].cached.Some? && w.tasks[i].cached.value < |w.origins|
    ensures w'.tasks[i].Returned? && w'.tasks[i].origin == Some(w'.origins[w.tasks[i].cached.value])
  {
    var task := w.tasks[i];
    ReceivesShape(w.client, task.key, task.cached, task.answer.value.reply, w.clock, setup.bound);
  }

  lemma DeliveredEntries(setup: Setup, w: World, i: nat, w': World)
    requires Deployed(setup.site) && Honest(setup, w) && AllUndisturbed(w) && Delivers(setup, w, i, w')
    requires GivenFresh(w', i)
    ensures EntriesSince(MomentOf(w.tasks[i].key, w'.tasks[i].origin.value.seen), w'.client.entries, w'.origins)
  {
    var task := w.tasks[i];
    var m := MomentOf(task.key, w'.tasks[i].origin.value.seen);
    assert TaskOk(setup, w, task) && Undisturbed(w, task);
    DeliveryMarks(setup, w, i, w');
    FreshMeansJustConfirmed(setup, w, i, w');
    RemoveIs(w.client.entries, task.key);
    forall e | e in w'.client.entries && Covers(m, e.0)
      ensures e.1 < |w'.origins| && m.state <= w'.origins[e.1].seen
    {
      if Forgetting.Stored(w, i, w', setup.bound) {
        assert e in Remove(w.client.entries, task.key) + [(task.key, |w.origins|)];
      } else {
        GetIn(w.client.entries, task.key, e.1);
        assert IsOf(w.origins, e.0, e.1);
        DeliveredOrigin(setup, w, i, w');
      }
    }
  }

  lemma SinceDelivered(setup: Setup, w: World, i: nat, w': World)
    requires Deployed(setup.site) && Honest(setup, w) && Flying(w.client, w.tasks) && AllUndisturbed(w)
    requires Delivers(setup, w, i, w') && GivenFresh(w', i) && w'.tasks[i].origin.value.seen < |w'.ts|
    ensures Since(MomentOf(w.tasks[i].key, w'.tasks[i].origin.value.seen), Given(w'), w')
  {
    DeliveredEntries(setup, w, i, w');
    forall j | 0 <= j < |w'.tasks| && w'.tasks[j].Fetching?
      ensures w'.tasks[j].key != w.tasks[i].key
    {
      FetchersApart(w.client, w.tasks, i, j);
    }
  }

  lemma SinceResolve(setup: Setup, w: World, key: CacheKey, w': World, i: nat)
    requires Deployed(setup.site) && Honest(setup, w) && AllUndisturbed(w) && Resolves(setup, w, key, w')
    requires !GivenBy(w, i) && GivenFresh(w', i)
    ensures w'.tasks[i].key == key && Since(MomentOf(key, w'.tasks[i].origin.value.seen), Given(w'), w')
  {
    assert i == |w.tasks|;
    var hit := Hit(w.client, key, w.clock, setup.ttl);
    assert hit.Some?;
    TouchLooks(w.client.entries, key, key);
    SinceHit(setup, w, key, hit.value, w');
  }

  lemma SinceAcquire(setup: Setup, w: World, j: nat, w': World, i: nat)
    requires Deployed(setup.site) && Honest(setup, w) && AllUndisturbed(w) && Acquires(setup, w, j, w')
    requires !GivenBy(w, i) && GivenFresh(w', i)
    ensures Since(MomentOf(w'.tasks[i].key, w'.tasks[i].origin.value.seen), Given(w'), w')
  {
    assert i == j;
    var key := w.tasks[j].key;
    var hit := Hit(w.client, key, w.clock, setup.ttl);
    assert hit.Some?;
    SinceHit(setup, w, key, hit.value, w');
  }

  lemma SinceDeliver(setup: Setup, w: World, j: nat, w': World, i: nat)
    requires Deployed(setup.site) && Honest(setup, w) && Flying(w.client, w.tasks) && AllUndisturbed(w)
    requires Honest(setup, w') && Delivers(setup, w, j, w') && !GivenBy(w, i) && GivenFresh(w', i)
    ensures Since(MomentOf(w'.tasks[i].key, w'.tasks[i].origin.value.seen), Given(w'), w')
  {
    assert i == j && TaskOk(setup, w', w'.tasks[i]);
    FreshMeansJustConfirmed(setup, w, i, w');
    OriginsAreStates(setup, w', i);
    SinceDelivered(setup, w, i, w');
  }

  lemma OriginsAreStates(setup: Setup, w: World, i: nat)
    requires Has(setup.site.catalogue, COMMON) && TasksOk(setup, w) && GivenFresh(w, i)
    ensures w.tasks[i].origin.value.seen < |w.ts|
  {
    assert TaskOk(setup, w, w.tasks[i]);
  }

  lemma OtherStepsGiveNothing(setup: Setup, w: World, s: Step, w': World, i: nat)
    requires Steps(setup, w, s, w') && !s.Resolve? && !s.Acquire? && !s.Deliver?
    ensures GivenBy(w', i) ==> GivenBy(w, i)
  {}

  /** The step that gives a fresh answer leaves nothing older for its key to give. */
  lemma SinceFresh(setup: Setup, w: World, s: Step, w': World, i: nat)
    requires Deployed(setup.site) && Honest(setup, w) && Flying(w.client, w.tasks) && AllUndisturbed(w)
    requires Honest(setup, w') && Steps(setup, w, s, w') && !GivenBy(w, i) && GivenFresh(w', i)
    ensures Since(MomentOf(w'.tasks[i].key, w'.tasks[i].origin.value.seen), Given(w'), w')
  {
    if s.Resolve? {
      SinceResolve(setup, w, s.key, w', i);
    } else if s.Acquire? {
      SinceAcquire(setup, w, s.i, w', i);
    } else if s.Deliver? {
      SinceDeliver(setup, w, s.i, w', i);
    } else {
      OtherStepsGiveNothing(setup, w, s, w', i);
    }
  }

  lemma TraceFrom(setup: Setup, ws: seq<World>, ss: seq<Step>, f: nat)
    requires Traced(setup, ws, ss) && f <= |ss|
    ensures Traced(setup, ws[f..], ss[f..])
  {
    forall i | 0 <= i < |ss[f..]|
      ensures Steps(setup, ws[f..][i], ss[f..][i], ws[f..][i + 1])
    {
      assert Steps(setup, ws[f + i], ss[f + i], ws[f + i + 1]);
    }
  }

  lemma SinceFrom(setup: Setup, ws: seq<World>, ss: seq<Step>, f: nat, n: nat, m: Moment)
    requires Deployed(setup.site) && Traced(setup, ws, ss) && f <= n <= |ss|
    requires Honest(setup, ws[f]) && Since(m, Given(ws[f]), ws[f])
    ensures Since(m, Given(ws[f]), ws[n])
  {
    TraceFrom(setup, ws, ss, f);
    var later := ws[f..];
    assert later[0] == ws[f] && later[n - f] == ws[n];
    SinceAlong(setup, m, ws[f], later, ss[f..], n - f);
  }

  lemma FreshSince(m: Moment, o: World, w: World, j: nat)
    requires Since(m, Given(o), w) && !GivenBy(o, j) && GivenFresh(w, j) && Covers(m, w.tasks[j].key)
    ensures m.state <= w.tasks[j].origin.value.seen
  {
    assert TaskSince(m, w.tasks[j]);
  }

  lemma SinceOneFresh(setup: Setup, ws: seq<World>, ss: seq<Step>, f: nat, i: nat)
    requires Deployed(setup.site) && Traced(setup, ws, ss) && Starts(ws[0]) && f < |ss|
    requires Ordered(ws[0].ts[0].events, ws[0].ts[0].nextSequence)
    requires !GivenBy(ws[f], i) && GivenFresh(ws[f + 1], i)
    ensures Honest(setup, ws[f + 1])
    ensures Since(MomentOf(ws[f + 1].tasks[i].key, ws[f + 1].tasks[i].origin.value.seen), Given(ws[f + 1]), ws[f + 1])
  {
    AlwaysHonest(setup, ws, ss, f);
    AlwaysHonest(setup, ws, ss, f + 1);
    AlwaysFlying(setup, ws, ss, f);
    AlwaysUndisturbed(setup, ws, ss, f);
    assert Steps(setup, ws[f], ss[f], ws[f + 1]);
    SinceFresh(setup, ws[f], ss[f], ws[f + 1], i);
  }

  /** Over every interleaving, for one token, namespace and profile, a fresh answer given after
      another says what the server had in the same state or a later one. */
  lemma FreshAnswersNeverGoBack(setup: Setup, ws: seq<World>, ss: seq<Step>, f: nat, n: nat, i: nat, j: nat)
    requires Deployed(setup.site) && Traced(setup, ws, ss) && Starts(ws[0]) && f < n <= |ss|
    requires Ordered(ws[0].ts[0].events, ws[0].ts[0].nextSequence)
    requires !GivenBy(ws[f], i) && GivenFresh(ws[f + 1], i)
    requires !GivenBy(ws[f + 1], j) && GivenFresh(ws[n], j) && ws[n].tasks[j].key == ws[f + 1].tasks[i].key
    ensures ws[f + 1].tasks[i].origin.value.seen <= ws[n].tasks[j].origin.value.seen
  {
    var task := ws[f + 1].tasks[i];
    var m := MomentOf(task.key, task.origin.value.seen);
    SinceOneFresh(setup, ws, ss, f, i);
    SinceFrom(setup, ws, ss, f + 1, n, m);
    FreshSince(m, ws[f + 1], ws[n], j);
  }
}
