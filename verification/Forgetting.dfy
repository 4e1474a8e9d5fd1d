/** What `forget`, and the drop after a write, promise the next caller: nothing older than that
    moment, unless an older answer was already on its way. */
module Forgetting {
  import opened Core
  import opened Dicts
  import opened Catalogue
  import opened Tables
  import opened EventLog
  import opened Store
  import opened Server
  import opened ClientModels
  import opened ClientCache
  import opened ClientProtocol
  import opened Freshness

  /** Which keys are meant, and the server state at the time. */
  datatype Moment = Moment(token: string, namespace: Option<string>, profile: Option<string>, state: nat)

  predicate Covers(m: Moment, key: CacheKey) {
    Names(key, m.token, m.namespace) && (m.profile.Some? ==> key.profile == m.profile.value)
  }

  /** The answer on its way to this task will make a fresh result: it confirms what is cached, or
      it is a usable document. */
  predicate Helps(task: Task) {
    task.Fetching? && task.answer.Some? && HelpfulReply(task.key, task.cached, task.answer.value.reply)
  }

  predicate HelpfulReply(key: CacheKey, cached: Option<nat>, reply: Reply) {
    && reply.Replied?
    && ((reply.code == 304 && cached.Some?) || (reply.code < 400 && DocumentOf(key.namespace, reply.body).Ok?))
  }

  function SeenBy(task: Task): nat
    requires task.Fetching? && task.answer.Some?
  {
    if task.answer.value.seen.Some? then task.answer.value.seen.value else 0
  }

  ghost predicate EntriesSince(m: Moment, entries: Entries, origins: seq<Origin>) {
    forall e | e in entries && Covers(m, e.0) :: e.1 < |origins| && m.state <= origins[e.1].seen
  }

  /** Helpful answers on their way are of server states since, and so are fresh results. */
  predicate TaskSince(m: Moment, task: Task) {
    match task
    case Fetching(key, _, _, _, _) => Covers(m, key) && Helps(task) ==> m.state <= SeenBy(task)
    case Returned(key, outcome, origin, _) =>
      Covers(m, key) && outcome.Answered? && !outcome.settings.stale ==> origin.Some? && m.state <= origin.value.seen
    case _ => true
  }

  /** Results already given at the time are not at issue. */
  ghost predicate Since(m: Moment, given: nat -> bool, w: World) {
    && EntriesSince(m, w.client.entries, w.origins)
    && m.state < |w.ts|
    && forall i | 0 <= i < |w.tasks| :: given(i) || TaskSince(m, w.tasks[i])
  }

  lemma TasksSince(m: Moment, given: nat -> bool, w: World, i: nat, task: Task)
    requires i <= |w.tasks| && forall j | 0 <= j < |w.tasks| :: given(j) || TaskSince(m, w.tasks[j])
    requires TaskSince(m, task)
    ensures i < |w.tasks| ==> forall j | 0 <= j < |w.tasks| :: given(j) || TaskSince(m, w.tasks[i := task][j])
    ensures forall j | 0 <= j <= |w.tasks| :: given(j) || TaskSince(m, (w.tasks + [task])[j])
  {}

  lemma HitSince(setup: Setup, m: Moment, w: World, key: CacheKey, id: nat)
    requires Deployed(setup.site) && Honest(setup, w) && EntriesSince(m, w.client.entries, w.origins)
    requires Hit(w.client, key, w.clock, setup.ttl) == Some(id)
    ensures id < |w.client.objects| && TaskSince(m, FromCache(w, key, id))
  {
    HitIsCached(w.client, key, w.clock, setup.ttl);
  }

  /** Only a helpful answer stores or confirms anything, and only then is the result fresh. */
  lemma ReceivesShape(c: Client, key: CacheKey, cached: Option<nat>, reply: Reply, now: real, bound: nat)
    requires cached.Some? ==> cached.value < |c.objects|
    ensures var (c', outcome) := Receives(c, key, cached, reply, now, bound);
      && (if |c'.objects| > |c.objects|
          then |c'.objects| == |c.objects| + 1 && c'.entries == Remembered(c.entries, key, |c.objects|, bound)
          else |c'.objects| == |c.objects| && c'.entries == c.entries)
      && (HelpfulReply(key, cached, reply) <==>
            |c'.objects| > |c.objects| || (reply.Replied? && reply.code == 304 && cached.Some?))
      && (outcome.Answered? && !outcome.settings.stale ==> HelpfulReply(key, cached, reply))
  {}

  /** What a delivery does to the entries and their history: one more of this key's, or nothing
      but a later confirmation of the one it asked about. */
  lemma DeliveryMarks(setup: Setup, w: World, i: nat, w': World)
    requires Delivers(setup, w, i, w') && |w.origins| == |w.client.objects| && |w.ts| >= 1
    requires w.tasks[i].cached.Some? ==> IsOf(w.origins, w.tasks[i].key, w.tasks[i].cached.value)
    ensures w'.ts == w.ts && w'.tasks == w.tasks[i := w'.tasks[i]]
    ensures Stored(w, i, w', setup.bound) || Marked(w, i, w')
  {
    var task := w.tasks[i];
    ReceivesShape(w.client, task.key, task.cached, task.answer.value.reply, w.clock, setup.bound);
  }

  ghost predicate Stored(w: World, i: nat, w': World, bound: nat) {
    && i < |w.tasks| && Helps(w.tasks[i]) && |w'.origins| == |w.origins| + 1
    && var o := w'.origins[|w.origins|];
       && w'.origins == w.origins + [o] && o.key == w.tasks[i].key && o.seen == SeenBy(w.tasks[i])
       && w'.client.entries == Remembered(w.client.entries, w.tasks[i].key, |w.origins|, bound)
  }

  ghost predicate Marked(w: World, i: nat, w': World) {
    && i < |w.tasks| && |w'.origins| == |w.origins| && w'.client.entries == w.client.entries
    && forall id | 0 <= id < |w.origins| ::
         w'.origins[id] == w.origins[id]
         || (Helps(w.tasks[i]) && w.origins[id].key == w.tasks[i].key && w'.origins[id].seen == SeenBy(w.tasks[i]))
  }

  /** A delivered result is fresh only if the answer helped, and then it is of the state the answer
      came from. */
  lemma FreshMeansJustConfirmed(setup: Setup, w: World, i: nat, w': World)
    requires Delivers(setup, w, i, w') && |w.origins| == |w.client.objects|
    ensures var task, task' := w.tasks[i], w'.tasks[i];
      && task'.Returned? && task'.key == task.key
      && (task'.outcome.Answered? && !task'.outcome.settings.stale ==>
            Helps(task) && task'.origin.Some? && task'.origin.value.seen == SeenBy(task))
  {
    var task := w.tasks[i];
    ReceivesShape(w.client, task.key, task.cached, task.answer.value.reply, w.clock, setup.bound);
  }

  lemma DeliverSince(setup: Setup, m: Moment, given: nat -> bool, w: World, i: nat, w': World)
    requires Deployed(setup.site) && Honest(setup, w) && Since(m, given, w) && Delivers(setup, w, i, w') && !given(i)
    ensures Since(m, given, w')
  {
    assert TaskOk(setup, w, w.tasks[i]);
    DeliveryMarks(setup, w, i, w');
    MarksSince(setup, m, w, i, w');
    FreshMeansJustConfirmed(setup, w, i, w');
    TasksSince(m, given, w, i, w'.tasks[i]);
  }

  lemma MarksSince(setup: Setup, m: Moment, w: World, i: nat, w': World)
    requires EntriesOk(setup, w.client.entries, w.origins) && EntriesSince(m, w.client.entries, w.origins)
    requires Stored(w, i, w', setup.bound) || Marked(w, i, w')
    requires i < |w.tasks| && TaskSince(m, w.tasks[i])
    ensures EntriesSince(m, w'.client.entries, w'.origins)
  {
    if Stored(w, i, w', setup.bound) {
      RememberedSince(m, w.client.entries, w.origins, w.tasks[i].key, w'.origins[|w.origins|], setup.bound);
    } else {
      forall e | e in w.client.entries && Covers(m, e.0)
        ensures e.1 < |w'.origins| && m.state <= w'.origins[e.1].seen
      {
        assert IsOf(w.origins, e.0, e.1);
      }
    }
  }

  lemma RememberedSince(m: Moment, entries: Entries, origins: seq<Origin>, key: CacheKey, o: Origin, bound: nat)
    requires Unique(entries) && EntriesSince(m, entries, origins) && (Covers(m, key) ==> m.state <= o.seen)
    ensures EntriesSince(m, Remembered(entries, key, |origins|, bound), origins + [o])
  {
    RemoveIs(entries, key);
    var grown := Remove(entries, key) + [(key, |origins|)];
    forall e | e in Remembered(entries, key, |origins|, bound) && Covers(m, e.0)
      ensures e.1 < |origins + [o]| && m.state <= (origins + [o])[e.1].seen
    {
      assert e in grown;
    }
  }

  lemma DropsSince(m: Moment, entries: Entries, origins: seq<Origin>, token: string, namespace: Option<string>)
    requires Unique(entries) && EntriesSince(m, entries, origins)
    ensures EntriesSince(m, Forgotten(entries, token, namespace), origins)
  {
    ExcludingIs(entries, Stale(entries, token, namespace));
  }

  lemma ResolveSince(setup: Setup, m: Moment, given: nat -> bool, w: World, key: CacheKey, w': World)
    requires Deployed(setup.site) && Honest(setup, w) && Since(m, given, w) && Resolves(setup, w, key, w')
    ensures Since(m, given, w')
  {
    var hit := Hit(w.client, key, w.clock, setup.ttl);
    if hit.Some? {
      HitSince(setup, m, w, key, hit.value);
      RemoveIs(w.client.entries, key);
    }
    TasksSince(m, given, w, |w.tasks|, w'.tasks[|w.tasks|]);
  }

  lemma AcquireSince(setup: Setup, m: Moment, given: nat -> bool, w: World, i: nat, w': World)
    requires Deployed(setup.site) && Honest(setup, w) && Since(m, given, w) && Acquires(setup, w, i, w')
    ensures Since(m, given, w')
  {
    var hit := Hit(w.client, w.tasks[i].key, w.clock, setup.ttl);
    if hit.Some? { HitSince(setup, m, w, w.tasks[i].key, hit.value); }
    TasksSince(m, given, w, i, w'.tasks[i]);
  }

  lemma DropSince(setup: Setup, m: Moment, given: nat -> bool, w: World, s: Step, w': World)
    requires Unique(w.client.entries) && Since(m, given, w) && Steps(setup, w, s, w')
    requires s.Forget? || s.PutDelivered?
    ensures Since(m, given, w')
  {
    if s.Forget? {
      DropsSince(m, w.client.entries, w.origins, s.token, s.namespace);
    } else {
      DropsSince(m, w.client.entries, w.origins, w.tasks[s.i].token, Some(w.tasks[s.i].namespace));
      TasksSince(m, given, w, s.i, Gone);
    }
  }

  lemma QuietSince(setup: Setup, m: Moment, given: nat -> bool, w: World, s: Step, w': World)
    requires Since(m, given, w) && Steps(setup, w, s, w')
    requires s.Answer? || s.Interfere? || s.Cancel? || s.Put? || s.PutAnswered? || s.ServerMoves? || s.Tick?
    requires s.Answer? || s.Interfere? ==> !given(s.i)
    ensures Since(m, given, w')
  {
    if s.Put? {
      TasksSince(m, given, w, |w.tasks|, Putting(s.token, s.written, None));
    } else if s.Answer? || s.Interfere? || s.Cancel? || s.PutAnswered? {
      TasksSince(m, given, w, s.i, w'.tasks[s.i]);
    }
  }

  lemma StepSince(setup: Setup, m: Moment, given: nat -> bool, w: World, s: Step, w': World)
    requires Deployed(setup.site) && Honest(setup, w) && Since(m, given, w) && Steps(setup, w, s, w')
    requires forall i | 0 <= i < |w.tasks| && given(i) :: !w.tasks[i].Queued? && !w.tasks[i].Fetching?
    ensures Since(m, given, w')
  {
    match s
    case Resolve(key) => ResolveSince(setup, m, given, w, key, w');
    case Acquire(i) => AcquireSince(setup, m, given, w, i, w');
    case Deliver(i) => DeliverSince(setup, m, given, w, i, w');
    case Forget(_, _) => DropSince(setup, m, given, w, s, w');
    case PutDelivered(_) => DropSince(setup, m, given, w, s, w');
    case _ => QuietSince(setup, m, given, w, s, w');
  }

  /** The results already given when the client forgot. */
  ghost function Given(w: World): nat -> bool { (i: nat) => i < |w.tasks| && w.tasks[i].Returned? }

  lemma GivenStays(setup: Setup, w: World, s: Step, w': World, i: nat)
    requires Steps(setup, w, s, w') && i < |w.tasks| && w.tasks[i].Returned?
    ensures i < |w'.tasks| && w'.tasks[i] == w.tasks[i]
  {}

  /** A helpful answer of an older server state is on its way to a covered task. */
  predicate Late(m: Moment, task: Task) { Helps(task) && Covers(m, task.key) && SeenBy(task) < m.state }

  predicate Outstanding(m: Moment, w: World) { exists i | 0 <= i < |w.tasks| :: Late(m, w.tasks[i]) }

  /** A step that drops what the moment covers: the client's own forget, or a write answered by
      anything but a refusal. */
  ghost predicate DropsAt(w: World, s: Step, m: Moment) {
    && m.profile.None?
    && (s == Step.Forget(m.token, m.namespace) || (s.PutDelivered? && WritesAt(w, s.i, m)))
  }

  ghost predicate WritesAt(w: World, i: nat, m: Moment) {
    && i < |w.tasks| && w.tasks[i].Putting?
    && w.tasks[i].token == m.token && Some(w.tasks[i].namespace) == m.namespace
    && w.tasks[i].answered.Some? && w.tasks[i].answered.value.Replied? && w.tasks[i].answered.value.code < 400
  }

  lemma ForgetBegins(m: Moment, w: World, w': World)
    requires Unique(w.client.entries) && !Outstanding(m, w) && m.state < |w.ts|
    requires w'.client == Drops(w.client, m.token, m.namespace) && w'.origins == w.origins && w'.ts == w.ts
    requires |w'.tasks| == |w.tasks| && forall i | 0 <= i < |w.tasks| :: w'.tasks[i] == w.tasks[i] || w'.tasks[i].Gone?
    ensures Since(m, Given(w), w')
  {
    var gone := Stale(w.client.entries, m.token, m.namespace);
    ExcludingIs(w.client.entries, gone);
    forall e | e in w'.client.entries
      ensures !Covers(m, e.0)
    {
      assert e in w.client.entries && e.0 !in gone;
    }
    forall i | 0 <= i < |w.tasks|
      ensures Given(w)(i) || TaskSince(m, w'.tasks[i])
    {
    }
  }

  predicate Keeps(w: World, w': World) {
    |w.tasks| <= |w'.tasks| && forall i | 0 <= i < |w.tasks| && w.tasks[i].Returned? :: w'.tasks[i] == w.tasks[i]
  }

  lemma StepKeeps(setup: Setup, o: World, w: World, s: Step, w': World)
    requires Keeps(o, w) && Steps(setup, w, s, w')
    ensures Keeps(o, w')
  {
    forall i | 0 <= i < |w.tasks| && w.tasks[i].Returned?
      ensures w'.tasks[i] == w.tasks[i]
    {
      GivenStays(setup, w, s, w', i);
    }
    assert |w.tasks| <= |w'.tasks|;
  }

  lemma SinceNext(setup: Setup, m: Moment, o: World, w: World, s: Step, w': World)
    requires Deployed(setup.site) && Honest(setup, w) && Since(m, Given(o), w) && Keeps(o, w) && Steps(setup, w, s, w')
    ensures Since(m, Given(o), w') && Keeps(o, w')
  {
    StepSince(setup, m, Given(o), w, s, w');
    StepKeeps(setup, o, w, s, w');
  }

  lemma ForgetFirst(setup: Setup, m: Moment, w: World, s: Step, w': World)
    requires Has(setup.site.catalogue, COMMON) && Honest(setup, w) && !Outstanding(m, w) && m.state == |w.ts| - 1
    requires DropsAt(w, s, m) && Steps(setup, w, s, w')
    ensures Since(m, Given(w), w') && Keeps(w, w')
  {
    ForgetBegins(m, w, w');
  }

  lemma {:induction false} SinceAlong(setup: Setup, m: Moment, o: World, ws: seq<World>, ss: seq<Step>, n: nat)
    requires Deployed(setup.site) && Traced(setup, ws, ss) && Honest(setup, ws[0]) && n <= |ss|
    requires Since(m, Given(o), ws[0]) && Keeps(o, ws[0])
    ensures Since(m, Given(o), ws[n]) && Keeps(o, ws[n])
  {
    if n > 0 {
      SinceAlong(setup, m, o, ws, ss, n - 1);
      HonestAlong(setup, ws, ss, n - 1);
      SinceNext(setup, m, o, ws[n - 1], ss[n - 1], ws[n]);
    }
  }

  /** A result given after the moment that passes for fresh and is of an older server state. */
  predicate LateAnswer(m: Moment, o: World, w: World, i: nat) {
    && i < |w.tasks| && !(i < |o.tasks| && o.tasks[i].Returned?)
    && w.tasks[i].Returned? && Covers(m, w.tasks[i].key)
    && w.tasks[i].outcome.Answered? && !w.tasks[i].outcome.settings.stale
    && !(w.tasks[i].origin.Some? && m.state <= w.tasks[i].origin.value.seen)
  }

  /** Whatever happens from here on, no late answer is given. */
  ghost predicate NeverLate(setup: Setup, m: Moment, o: World, w: World) {
    forall ws, ss, n, i | Traced(setup, ws, ss) && ws[0] == w && 0 <= n <= |ss| && 0 <= i :: !LateAnswer(m, o, ws[n], i)
  }

  lemma DeliverableWhenAnswered(setup: Setup, w: World, i: nat)
    requires Has(setup.site.catalogue, COMMON) && TasksOk(setup, w) && Flying(w.client, w.tasks)
    requires i < |w.tasks| && w.tasks[i].Fetching? && w.tasks[i].answer.Some?
    ensures Deliverable(w, i)
  {
    var key := w.tasks[i].key;
    assert TaskOk(setup, w, w.tasks[i]);
    assert Inside(w.tasks[i], key);
    assert LockCounts(w.client, w.tasks, key);
  }

  lemma CachedIsNotStale(setup: Setup, w: World, id: nat)
    requires Deployed(setup.site) && ObjectsOk(setup, w) && id < |w.client.objects|
    ensures !w.client.objects[id].settings.stale
  {
    assert ObjectOk(setup, w.ts, w.hs, w.clock, w.origins[id], w.client.objects[id]);
    DocCarriesTheRules(setup, w.ts[w.origins[id].parsed], w.origins[id].key);
  }

  lemma HelpsMeansFresh(c: Client, key: CacheKey, cached: Option<nat>, reply: Reply, now: real, bound: nat)
    requires cached.Some? ==> cached.value < |c.objects| && !c.objects[cached.value].settings.stale
    requires HelpfulReply(key, cached, reply)
    ensures var outcome := Receives(c, key, cached, reply, now, bound).1; outcome.Answered? && !outcome.settings.stale
  {}

  lemma LateIsDelivered(setup: Setup, m: Moment, o: World, w: World, i: nat)
    requires Deliverable(w, i) && |w.origins| == |w.client.objects| && Late(m, w.tasks[i])
    requires w.tasks[i].cached.Some? ==> !w.client.objects[w.tasks[i].cached.value].settings.stale
    requires !(i < |o.tasks| && o.tasks[i].Returned?)
    ensures LateAnswer(m, o, AfterDelivery(setup, w, i), i)
  {
    var task := w.tasks[i];
    HelpsMeansFresh(w.client, task.key, task.cached, task.answer.value.reply, w.clock, setup.bound);
    FreshMeansJustConfirmed(setup, w, i, AfterDelivery(setup, w, i));
  }

  lemma OneStepTrace(setup: Setup, w: World, s: Step, w': World)
    requires Steps(setup, w, s, w')
    ensures Traced(setup, [w, w'], [s])
  {}

  lemma OneLateAnswer(setup: Setup, m: Moment, o: World, w: World, s: Step, w2: World, i: nat)
    requires Steps(setup, w, s, w2) && LateAnswer(m, o, w2, i)
    ensures !NeverLate(setup, m, o, w)
  {
    OneStepTrace(setup, w, s, w2);
    assert LateAnswer(m, o, [w, w2][1], i);
  }

  lemma LateBreaksIt(setup: Setup, m: Moment, o: World, w: World, i: nat)
    requires Deployed(setup.site) && Honest(setup, w) && Flying(w.client, w.tasks)
    requires i < |w.tasks| && Late(m, w.tasks[i]) && !(i < |o.tasks| && o.tasks[i].Returned?)
    ensures !NeverLate(setup, m, o, w)
  {
    DeliverableWhenAnswered(setup, w, i);
    if w.tasks[i].cached.Some? { CachedIsNotStale(setup, w, w.tasks[i].cached.value); }
    LateIsDelivered(setup, m, o, w, i);
    var w2 := AfterDelivery(setup, w, i);
    OneLateAnswer(setup, m, o, w, Deliver(i), w2, i);
  }

  lemma SinceKeepsIt(setup: Setup, m: Moment, o: World, w: World)
    requires Deployed(setup.site) && Honest(setup, w) && Since(m, Given(o), w) && Keeps(o, w)
    ensures NeverLate(setup, m, o, w)
  {
    forall ws, ss, n, i | Traced(setup, ws, ss) && ws[0] == w && 0 <= n <= |ss| && 0 <= i
      ensures !LateAnswer(m, o, ws[n], i)
    {
      SinceAlong(setup, m, o, ws, ss, n);
      NoneLate(m, o, ws[n], i);
    }
  }

  lemma NoneLate(m: Moment, o: World, w: World, i: nat)
    requires Since(m, Given(o), w)
    ensures !LateAnswer(m, o, w, i)
  {}

  /** A forget, or a write's drop, keeps its promise -- nothing older than it is ever passed off as
      fresh again, to any caller, whatever happens next -- if and only if no helpful answer of an
      older server state is on its way at that moment. */
  lemma ForgettingHoldsExactlyWhen(setup: Setup, m: Moment, w: World, s: Step, w': World)
    requires Deployed(setup.site) && Honest(setup, w) && Flying(w.client, w.tasks)
    requires m.state == |w.ts| - 1 && DropsAt(w, s, m) && Steps(setup, w, s, w')
    ensures NeverLate(setup, m, w, w') <==> !Outstanding(m, w)
  {
    StepHonestly(setup, w, s, w');
    if Outstanding(m, w) {
      var i :| 0 <= i < |w.tasks| && Late(m, w.tasks[i]);
      StepFlies(setup, w, s, w');
      DropKeepsTask(setup, m, w, s, w', i);
      LateBreaksIt(setup, m, w, w', i);
    } else {
      ForgetFirst(setup, m, w, s, w');
      SinceKeepsIt(setup, m, w, w');
    }
  }

  lemma DropKeepsTask(setup: Setup, m: Moment, w: World, s: Step, w': World, i: nat)
    requires DropsAt(w, s, m) && Steps(setup, w, s, w') && i < |w.tasks| && w.tasks[i].Fetching?
    ensures i < |w'.tasks| && w'.tasks[i] == w.tasks[i]
  {}

  /** Nobody inside the region of any covered key: what the caller of `forget` can look up. */
  predicate NoneInside(m: Moment, c: Client) { forall key | key in c.flights :: !Covers(m, key) }

  lemma NoneInsideNoneOutstanding(m: Moment, w: World)
    requires Flying(w.client, w.tasks) && NoneInside(m, w.client)
    ensures !Outstanding(m, w)
  {
    forall i | 0 <= i < |w.tasks|
      ensures !Late(m, w.tasks[i])
    {
      if w.tasks[i].Fetching? { assert Inside(w.tasks[i], w.tasks[i].key); }
    }
  }

  /** In every run: a forget, or a write's drop, keeps its promise if and only if no helpful answer
      of an older server state is on its way, and so certainly when the client has nobody waiting
      or fetching for what it forgets. */
  lemma ForgettingInEveryRun(setup: Setup, ws: seq<World>, ss: seq<Step>, f: nat, m: Moment)
    requires Deployed(setup.site) && Traced(setup, ws, ss) && Starts(ws[0]) && f < |ss|
    requires Ordered(ws[0].ts[0].events, ws[0].ts[0].nextSequence)
    requires DropsAt(ws[f], ss[f], m) && m.state == |ws[f].ts| - 1
    ensures NeverLate(setup, m, ws[f], ws[f + 1]) <==> !Outstanding(m, ws[f])
    ensures NoneInside(m, ws[f].client) ==> NeverLate(setup, m, ws[f], ws[f + 1])
  {
    AlwaysHonest(setup, ws, ss, f);
    AlwaysFlying(setup, ws, ss, f);
    ForgettingHoldsExactlyWhen(setup, m, ws[f], ss[f], ws[f + 1]);
    if NoneInside(m, ws[f].client) { NoneInsideNoneOutstanding(m, ws[f]); }
  }

  /** The client's own state cannot promise more: while a covered request the server would serve
      is unanswered, an answer and one server step, neither of which the client sees, lead to a
      world with the same client in which its forget breaks the promise. */
  lemma ForgettingMayBreak(setup: Setup, w: World, i: nat, m: Moment, elsewhere: string)
    returns (w1: World, w2: World, w3: World)
    requires Deployed(setup.site) && Honest(setup, w) && Flying(w.client, w.tasks)
    requires i < |w.tasks| && w.tasks[i].Fetching? && w.tasks[i].answer.None?
    requires m.state == |w.ts| && Covers(m, w.tasks[i].key)
    requires |w.tasks[i].key.namespace| <= 64 && |w.tasks[i].key.profile| <= 64 && m.profile.None?
    requires Doc(setup, w.ts[|w.ts| - 1], w.tasks[i].key).Some?
    ensures Steps(setup, w, Answer(i, true), w1)
    ensures Steps(setup, w1, ServerMoves(Forgot(elsewhere), ForgetTx(w.ts[|w.ts| - 1], elsewhere)), w2)
    ensures w2.client == w.client && Steps(setup, w2, Step.Forget(m.token, m.namespace), w3)
    ensures !NeverLate(setup, m, w2, w3)
  {
    var server := ServerMoves(Forgot(elsewhere), ForgetTx(w.ts[|w.ts| - 1], elsewhere));
    w1, w2 := UnansweredMayBreakIt(setup, w, i, m, elsewhere);
    w3 := w2.(client := Drops(w2.client, m.token, m.namespace));
    StepHonestly(setup, w, Answer(i, true), w1);
    StepHonestly(setup, w1, server, w2);
    StepFlies(setup, w, Answer(i, true), w1);
    StepFlies(setup, w1, server, w2);
    ForgettingHoldsExactlyWhen(setup, m, w2, Step.Forget(m.token, m.namespace), w3);
  }

  lemma UnansweredMayBreakIt(setup: Setup, w: World, i: nat, m: Moment, elsewhere: string)
    returns (w1: World, w2: World)
    requires Deployed(setup.site) && Honest(setup, w) && i < |w.tasks| && w.tasks[i].Fetching?
    requires w.tasks[i].answer.None?
    requires m.state == |w.ts| && Covers(m, w.tasks[i].key)
    requires |w.tasks[i].key.namespace| <= 64 && |w.tasks[i].key.profile| <= 64
    requires Doc(setup, w.ts[|w.ts| - 1], w.tasks[i].key).Some?
    ensures Steps(setup, w, Answer(i, true), w1)
    ensures Steps(setup, w1, ServerMoves(Forgot(elsewhere), ForgetTx(w.ts[|w.ts| - 1], elsewhere)), w2)
    ensures w2.client == w.client && m.state == |w2.ts| - 1 && Outstanding(m, w2)
  {
    assert TaskOk(setup, w, w.tasks[i]);
    w1 := HelpfulArrives(setup, w, i);
    var last := |w.ts| - 1;
    w2 := w1.(ts := w.ts + [ForgetTx(w.ts[last], elsewhere)], hs := w.hs + [Forgot(elsewhere)]);
    assert Late(m, w2.tasks[i]);
  }

  lemma HelpfulArrives(setup: Setup, w: World, i: nat) returns (w1: World)
    requires Has(setup.site.catalogue, COMMON) && InFlight(w, i) && w.tasks[i].answer.None? && |w.ts| >= 1
    requires |w.tasks[i].key.namespace| <= 64 && |w.tasks[i].key.profile| <= 64
    requires Doc(setup, w.ts[|w.ts| - 1], w.tasks[i].key).Some?
    ensures Steps(setup, w, Answer(i, true), w1)
    ensures w1 == w.(tasks := w1.tasks) && |w1.tasks| == |w.tasks|
    ensures w1.tasks[i].Fetching? && w1.tasks[i].key == w.tasks[i].key
    ensures Helps(w1.tasks[i]) && SeenBy(w1.tasks[i]) == |w.ts| - 1
  {
    var task := w.tasks[i];
    w1 := AnswerArrives(setup, w, i);
    ServedIsHelpful(setup, w.ts[|w.ts| - 1], task.key, HeaderFor(w.client, task.cached), task.cached);
  }

  lemma AnswerArrives(setup: Setup, w: World, i: nat) returns (w1: World)
    requires Has(setup.site.catalogue, COMMON) && InFlight(w, i) && w.tasks[i].answer.None? && |w.ts| >= 1
    ensures Steps(setup, w, Answer(i, true), w1)
    ensures var task, last := w.tasks[i], |w.ts| - 1;
      w1 == w.(tasks := w.tasks[i := task.(answer :=
        Some(Carried(Asked(setup, w.ts[last], task.key, HeaderFor(w.client, task.cached)), Some(last))))])
  {
    var task, last := w.tasks[i], |w.ts| - 1;
    var reply := Asked(setup, w.ts[last], task.key, HeaderFor(w.client, task.cached));
    w1 := w.(tasks := w.tasks[i := task.(answer := Some(Carried(reply, Some(last))))]);
  }

  lemma ServedIsHelpful(setup: Setup, t: Tables, key: CacheKey, header: Option<string>, cached: Option<nat>)
    requires Has(setup.site.catalogue, COMMON) && Doc(setup, t, key).Some?
    requires |key.namespace| <= 64 && |key.profile| <= 64 && (header.Some? <==> cached.Some?)
    ensures HelpfulReply(key, cached, Asked(setup, t, key, header))
  {
    var served := ResolveFor(setup.site, t, setup.identity(key.token).value, key.namespace, ProfileOf(key)).value;
    RenderedIsReadBack(key.namespace, served);
    assert header.None? ==> !EntityTags.Matches(header, served.etag);
  }

  /** A usable document of the server's is on its way to this task. */
  ghost predicate Coming(w: World, i: nat) {
    && InFlight(w, i) && w.tasks[i].answer.Some?
    && var a := w.tasks[i].answer.value;
       && a.seen.Some? && a.reply.Replied? && a.reply.code < 400
       && DocumentOf(w.tasks[i].key.namespace, a.reply.body).Ok?
       && !(a.reply.code == 304 && w.tasks[i].cached.Some?)
  }

  lemma ComingIsStored(setup: Setup, w: World, i: nat, w': World)
    requires Deployed(setup.site) && Honest(setup, w) && Coming(w, i) && Delivers(setup, w, i, w')
    ensures var key, seen := w.tasks[i].key, w.tasks[i].answer.value.seen.value;
      && w'.client.entries == Remembered(w.client.entries, key, |w.origins|, setup.bound)
      && |w'.client.objects| == |w.origins| + 1 == |w'.origins| && w'.clock == w.clock
      && w'.client.objects[|w.origins|].validatedAt == w.clock
      && w'.origins[|w.origins|].seen == seen < |w.ts|
      && Doc(setup, w.ts[seen], key) == Some(w'.client.objects[|w.origins|].settings)
  {
    var task := w.tasks[i];
    assert TaskOk(setup, w, task);
    BodyMeans(setup, w.ts[task.answer.value.seen.value], task.key, HeaderFor(w.client, task.cached));
  }

  lemma ForgottenIsGone(setup: Setup, c: Client, token: string, namespace: Option<string>, key: CacheKey, now: real)
    requires Unique(c.entries) && Names(key, token, namespace)
    ensures Hit(Drops(c, token, namespace), key, now, setup.ttl) == None
  {
    var left := Forgotten(c.entries, token, namespace);
    ExcludingIs(c.entries, Stale(c.entries, token, namespace));
    assert forall j | 0 <= j < |left| :: left[j] in left && left[j] in c.entries;
  }

  /** And a broken promise lasts: any request out at the time whose answer,
      however old, is a usable document, delivered after the forget, is cached again; the next
      caller is served it without asking. */
  lemma AnAnswerOnItsWayUndoesForgetting(setup: Setup, w: World, i: nat, token: string, namespace: Option<string>,
                                         w2: World, w3: World)
    requires Deployed(setup.site) && Honest(setup, w) && setup.bound >= 1 && setup.ttl > 0.0
    requires Coming(w, i) && Names(w.tasks[i].key, token, namespace)
    requires w2 == w.(client := Drops(w.client, token, namespace)) && Delivers(setup, w2, i, w3)
    ensures var key, seen := w.tasks[i].key, w.tasks[i].answer.value.seen.value;
      && Hit(w2.client, key, w2.clock, setup.ttl) == None
      && Hit(w3.client, key, w3.clock, setup.ttl) == Some(|w.origins|)
      && seen < |w.ts| && |w3.client.objects| == |w.origins| + 1
      && Doc(setup, w.ts[seen], key) == Some(w3.client.objects[|w.origins|].settings)
  {
    var key := w.tasks[i].key;
    ForgottenIsGone(setup, w.client, token, namespace, key, w.clock);
    ForgetHonestly(setup, w, token, namespace, w2);
    ComingIsStored(setup, w2, i, w3);
    RememberedHits(setup, w3.client, w2.client.entries, key, |w.origins|, w3.clock);
  }

  lemma ForgetHonestly(setup: Setup, w: World, token: string, namespace: Option<string>, w': World)
    requires Deployed(setup.site) && Honest(setup, w) && w' == w.(client := Drops(w.client, token, namespace))
    ensures Honest(setup, w')
    ensures forall i | Coming(w, i) :: Coming(w', i)
  {
    StepHonestly(setup, w, Step.Forget(token, namespace), w');
  }

  lemma RememberedHits(setup: Setup, c: Client, before: Entries, key: CacheKey, id: nat, now: real)
    requires Unique(before) && |before| <= setup.bound && setup.bound >= 1 && setup.ttl > 0.0
    requires c.entries == Remembered(before, key, id, setup.bound) && id < |c.objects|
    requires c.objects[id].validatedAt == now
    ensures Hit(c, key, now, setup.ttl) == Some(id)
  {
    StoredLast(before, key, id, setup.bound);
  }

  lemma StoredLast(d: Entries, key: CacheKey, id: nat, bound: nat)
    requires Unique(d) && |d| <= bound && bound >= 1
    ensures Held(Remembered(d, key, id, bound), key) == Some(id)
  {
    PutLastUnique(d, key, id);
    NewestUnique(Remove(d, key) + [(key, id)], bound);
    GrownToBound(d, key, id, bound);
    LastGets(Remembered(d, key, id, bound), key, id);
  }
}
