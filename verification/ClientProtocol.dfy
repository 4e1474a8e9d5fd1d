/** Client and server together: every task, request, answer, failure and cancellation as one step
    of a state machine. Tasks interleave only where the client awaits. */
module ClientProtocol {
  import opened Core
  import opened Dicts
  import opened Catalogue
  import opened Resolution
  import opened EntityTags
  import opened Tables
  import opened Service
  import opened Server
  import opened ClientModels
  import opened ClientCache

  /** What does not change while the client lives. `identity` is what the server makes of a
      person's token presented by this service, and nothing for a token it refuses. */
  datatype Setup = Setup(site: Site, identity: string -> Option<Identity>, ttl: real, bound: nat)

  /** Where a cached document came from: the server states its body was read from and last
      confirmed at, and when the confirming request was sent and answered. States are numbered as
      the server passes through them. */
  datatype Origin = Origin(key: CacheKey, parsed: nat, sent: nat, seen: nat, received: nat, at: real)

  /** An answer on its way, and the server state behind it if the server gave it. */
  datatype Carried = Carried(reply: Reply, seen: Option<nat>)

  datatype Task =
    | Queued(key: CacheKey, flight: nat)
    | Fetching(key: CacheKey, flight: nat, cached: Option<nat>, sent: nat, answer: Option<Carried>)
    | Putting(token: string, namespace: string, answered: Option<Reply>)
    | Returned(key: CacheKey, outcome: Outcome, origin: Option<Origin>, at: real)
    | Gone

  datatype World = World(
    client: Client,
    tasks: seq<Task>,
    origins: seq<Origin>,
    ts: seq<Tables>,
    hs: seq<Happening>,
    clock: real
  )

  // -- The server's side of a request -------------------------------------------------------------------

  function ProfileOf(key: CacheKey): Option<string> { if key.profile == "" then None else Some(key.profile) }

  function StatusOf(e: ServiceError): (code: nat)
    ensures 400 <= code < 500
  {
    match e
    case NotGranted => 403
    case InvalidProfile => 422
    case _ => 404
  }

  /** `resolve_settings`: the permission checks come before the 304. */
  function Asked(setup: Setup, t: Tables, key: CacheKey, ifNoneMatch: Option<string>): Reply
    requires Has(setup.site.catalogue, COMMON)
  {
    match setup.identity(key.token)
    case None => Replied(401, None, None)
    case Some(who) =>
      if |key.namespace| > 64 || |key.profile| > 64 then Replied(422, None, None)
      else
        match ResolveFor(setup.site, t, who, key.namespace, ProfileOf(key))
        case Err(e) => Replied(StatusOf(e), None, None)
        case Ok(served) =>
          if Matches(ifNoneMatch, served.etag) then Replied(304, Some(served.etag), None)
          else Replied(200, Some(served.etag), Some(Render(key.namespace, served)))
  }

  /** A lost answer, an outage, a refusal or a body this client cannot use, from whoever answers
      in the server's place. */
  predicate Unhelpful(key: CacheKey, cached: Option<nat>, reply: Reply) {
    reply.Replied? ==>
      && (reply.code >= 400 || DocumentOf(key.namespace, reply.body).Err?)
      && (reply.code == 304 ==> cached.None?)
  }

  function WithoutTag(reply: Reply): Reply { if reply.Lost? then reply else reply.(etag := None) }

  function HeaderFor(c: Client, cached: Option<nat>): Option<string>
    requires cached.Some? ==> cached.value < |c.objects|
  {
    if cached.Some? then Some(c.objects[cached.value].etag) else None
  }

  // -- Steps -----------------------------------------------------------------------------------------------

  datatype Step =
    | Resolve(key: CacheKey)
    | Acquire(i: nat)
    | Answer(i: nat, keepsTag: bool)
    | Interfere(i: nat, reply: Reply)
    | Deliver(i: nat)
    | Cancel(i: nat)
    | Forget(token: string, namespace: Option<string>)
    | Put(token: string, written: string)
    | PutAnswered(i: nat, reply: Reply)
    | PutDelivered(i: nat)
    | ServerMoves(h: Happening, t: Tables)
    | Tick(elapsed: real)

  function OriginAt(w: World, id: nat): Option<Origin> { if id < |w.origins| then Some(w.origins[id]) else None }

  function FromCache(w: World, key: CacheKey, id: nat): Task
    requires id < |w.client.objects|
  {
    Returned(key, Answered(w.client.objects[id].settings), OriginAt(w, id), w.clock)
  }

  ghost predicate Resolves(setup: Setup, w: World, key: CacheKey, w': World) {
    match Hit(w.client, key, w.clock, setup.ttl)
    case Some(id) =>
      id < |w.client.objects| &&
      w' == w.(client := w.client.(entries := Touched(w.client.entries, key)),
               tasks := w.tasks + [FromCache(w, key, id)])
    case None =>
      var (client, flight) := Entered(w.client, key);
      w' == w.(client := client, tasks := w.tasks + [Queued(key, flight)])
  }

  /** Asked again inside the lock; a hit here leaves at once and does not touch. */
  ghost predicate Acquires(setup: Setup, w: World, i: nat, w': World) {
    && i < |w.tasks| && w.tasks[i].Queued? && |w.ts| >= 1
    && var key, f := w.tasks[i].key, w.tasks[i].flight;
       && f < |w.client.locks| && !w.client.locks[f].held && w.client.locks[f].callers >= 1
       && match Hit(w.client, key, w.clock, setup.ttl)
          case Some(id) =>
            id < |w.client.objects| &&
            w' == w.(client := Left(w.client, key, f, false), tasks := w.tasks[i := FromCache(w, key, id)])
          case None =>
            w' == w.(client := Acquired(w.client, f),
                     tasks := w.tasks[i := Fetching(key, f, Held(w.client.entries, key), |w.ts| - 1, None)])
  }

  ghost predicate InFlight(w: World, i: nat) {
    i < |w.tasks| && w.tasks[i].Fetching? && (w.tasks[i].cached.Some? ==> w.tasks[i].cached.value < |w.client.objects|)
  }

  ghost predicate Answers(setup: Setup, w: World, i: nat, keepsTag: bool, w': World) {
    && InFlight(w, i) && w.tasks[i].answer.None? && |w.ts| >= 1 && Has(setup.site.catalogue, COMMON)
    && var task := w.tasks[i];
       var reply := Asked(setup, w.ts[|w.ts| - 1], task.key, HeaderFor(w.client, task.cached));
       var carried := Carried(if keepsTag then reply else WithoutTag(reply), Some(|w.ts| - 1));
       w' == w.(tasks := w.tasks[i := task.(answer := Some(carried))])
  }

  ghost predicate Interferes(w: World, i: nat, reply: Reply, w': World) {
    && InFlight(w, i) && Unhelpful(w.tasks[i].key, w.tasks[i].cached, reply)
    && w' == w.(tasks := w.tasks[i := w.tasks[i].(answer := Some(Carried(reply, None)))])
  }

  /** The history of the cached objects after an answer. */
  function OriginsAfter(w: World, task: Task, client: Client): seq<Origin>
    requires task.Fetching? && task.answer.Some?
  {
    var seen := if task.answer.value.seen.Some? then task.answer.value.seen.value else 0;
    var received := if |w.ts| == 0 then 0 else |w.ts| - 1;
    if |client.objects| > |w.client.objects|
    then w.origins + [Origin(task.key, seen, task.sent, seen, received, w.clock)]
    else if Confirmed(task) && task.cached.value < |w.origins| then
      w.origins[task.cached.value :=
        Origin(task.key, w.origins[task.cached.value].parsed, task.sent, seen, received, w.clock)]
    else w.origins
  }

  predicate Confirmed(task: Task)
    requires task.Fetching? && task.answer.Some?
  {
    task.answer.value.reply.Replied? && task.answer.value.reply.code == 304 && task.cached.Some?
  }

  ghost predicate Deliverable(w: World, i: nat) {
    && InFlight(w, i) && w.tasks[i].answer.Some?
    && w.tasks[i].flight < |w.client.locks| && w.client.locks[w.tasks[i].flight].callers >= 1
  }

  ghost function AfterDelivery(setup: Setup, w: World, i: nat): World
    requires Deliverable(w, i)
  {
    var task := w.tasks[i];
    var (client, outcome) := Receives(w.client, task.key, task.cached, task.answer.value.reply, w.clock, setup.bound);
    var origins := OriginsAfter(w, task, client);
    var origin := if |client.objects| > |w.client.objects|
                  then (if origins == [] then None else Some(origins[|origins| - 1]))
                  else if task.cached.Some? && task.cached.value < |origins|
                  then Some(origins[task.cached.value]) else None;
    w.(client := Left(client, task.key, task.flight, true), origins := origins,
       tasks := w.tasks[i := Returned(task.key, outcome, origin, w.clock)])
  }

  ghost predicate Delivers(setup: Setup, w: World, i: nat, w': World) {
    Deliverable(w, i) && w' == AfterDelivery(setup, w, i)
  }

  ghost predicate Cancels(w: World, i: nat, w': World) {
    && i < |w.tasks|
    && match w.tasks[i]
       case Queued(key, f) =>
         && f < |w.client.locks| && w.client.locks[f].callers >= 1
         && w' == w.(client := Left(w.client, key, f, false), tasks := w.tasks[i := Gone])
       case Fetching(key, f, _, _, _) =>
         && f < |w.client.locks| && w.client.locks[f].callers >= 1
         && w' == w.(client := Left(w.client, key, f, true), tasks := w.tasks[i := Gone])
       case Putting(_, _, _) => w' == w.(tasks := w.tasks[i := Gone])
       case Returned(_, _, _, _) => false
       case Gone => false
  }

  function Drops(c: Client, token: string, namespace: Option<string>): Client {
    c.(entries := Forgotten(c.entries, token, namespace))
  }

  /** `set` once its answer is in: refused and lost writes drop nothing, any other answer drops
      the namespace before its body is looked at. */
  ghost predicate PutDelivers(w: World, i: nat, w': World) {
    && i < |w.tasks| && w.tasks[i].Putting? && w.tasks[i].answered.Some?
    && var task := w.tasks[i];
       var reply := task.answered.value;
       var client := if reply.Lost? || reply.code >= 400 then w.client
                     else Drops(w.client, task.token, Some(task.namespace));
       w' == w.(client := client, tasks := w.tasks[i := Gone])
  }

  ghost predicate Steps(setup: Setup, w: World, s: Step, w': World) {
    match s
    case Resolve(key) => Resolves(setup, w, key, w')
    case Acquire(i) => Acquires(setup, w, i, w')
    case Answer(i, keepsTag) => Answers(setup, w, i, keepsTag, w')
    case Interfere(i, reply) => Interferes(w, i, reply, w')
    case Deliver(i) => Delivers(setup, w, i, w')
    case Cancel(i) => Cancels(w, i, w')
    case Forget(token, namespace) => w' == w.(client := Drops(w.client, token, namespace))
    case Put(token, namespace) => w' == w.(tasks := w.tasks + [Putting(token, namespace, None)])
    case PutAnswered(i, reply) =>
      && i < |w.tasks| && w.tasks[i].Putting?
      && w' == w.(tasks := w.tasks[i := w.tasks[i].(answered := Some(reply))])
    case PutDelivered(i) => PutDelivers(w, i, w')
    case ServerMoves(h, t) =>
      |w.ts| >= 1 && Next(setup.site, w.ts[|w.ts| - 1], h, t) && w' == w.(ts := w.ts + [t], hs := w.hs + [h])
    case Tick(elapsed) => elapsed >= 0.0 && w' == w.(clock := w.clock + elapsed)
  }

  ghost predicate Traced(setup: Setup, ws: seq<World>, ss: seq<Step>) {
    |ws| == |ss| + 1 && forall i | 0 <= i < |ss| :: Steps(setup, ws[i], ss[i], ws[i + 1])
  }

  /** A new client before a server in some state. */
  ghost predicate Starts(w: World) {
    w.client == COLD && w.tasks == [] && w.origins == [] && w.hs == [] && |w.ts| == 1
  }

  // -- Single flight ---------------------------------------------------------------------------------------

  predicate Inside(task: Task, key: CacheKey) { (task.Queued? || task.Fetching?) && task.key == key }

  predicate Fetches(task: Task, key: CacheKey) { task.Fetching? && task.key == key }

  function One(b: bool): nat { if b then 1 else 0 }

  function Callers(tasks: seq<Task>, key: CacheKey): nat {
    if tasks == [] then 0 else Callers(tasks[..|tasks| - 1], key) + One(Inside(tasks[|tasks| - 1], key))
  }

  function Fetchers(tasks: seq<Task>, key: CacheKey): nat {
    if tasks == [] then 0 else Fetchers(tasks[..|tasks| - 1], key) + One(Fetches(tasks[|tasks| - 1], key))
  }

  lemma {:induction false} TaskChanges(tasks: seq<Task>, i: nat, task: Task, key: CacheKey)
    requires i < |tasks|
    ensures Callers(tasks[i := task], key) + One(Inside(tasks[i], key)) == Callers(tasks, key) + One(Inside(task, key))
    ensures Fetchers(tasks[i := task], key) + One(Fetches(tasks[i], key))
         == Fetchers(tasks, key) + One(Fetches(task, key))
  {
    var n := |tasks| - 1;
    if i < n {
      assert tasks[i := task][..n] == tasks[..n][i := task];
      TaskChanges(tasks[..n], i, task, key);
    } else {
      assert tasks[i := task][..n] == tasks[..n];
    }
  }

  lemma TaskJoins(tasks: seq<Task>, task: Task, key: CacheKey)
    ensures Callers(tasks + [task], key) == Callers(tasks, key) + One(Inside(task, key))
    ensures Fetchers(tasks + [task], key) == Fetchers(tasks, key) + One(Fetches(task, key))
  {
    assert (tasks + [task])[..|tasks|] == tasks;
  }

  lemma {:induction false} CountedMeansSome(tasks: seq<Task>, key: CacheKey)
    ensures Callers(tasks, key) >= 1 <==> exists i | 0 <= i < |tasks| :: Inside(tasks[i], key)
    ensures Fetchers(tasks, key) >= 1 <==> exists i | 0 <= i < |tasks| :: Fetches(tasks[i], key)
  {
    if tasks != [] {
      var n := |tasks| - 1;
      CountedMeansSome(tasks[..n], key);
      assert forall i | 0 <= i < n :: tasks[..n][i] == tasks[i];
    }
  }

  /** The table of locks against the tasks: each key with tasks inside its region has one lock,
      theirs, counting them, and held exactly while one of them fetches. */
  ghost predicate Flying(c: Client, tasks: seq<Task>) {
    && (forall i, key | 0 <= i < |tasks| && Inside(tasks[i], key) ::
          key in c.flights && c.flights[key] == tasks[i].flight)
    && (forall key | key in c.flights :: LockCounts(c, tasks, key))
    && (forall j, k | j in c.flights && k in c.flights && j != k :: c.flights[j] != c.flights[k])
  }

  ghost predicate LockCounts(c: Client, tasks: seq<Task>, key: CacheKey)
    requires key in c.flights
  {
    var f := c.flights[key];
    && f < |c.locks|
    && c.locks[f].callers == Callers(tasks, key) >= 1
    && Fetchers(tasks, key) == One(c.locks[f].held)
  }

  lemma NobodyYet(c: Client, tasks: seq<Task>, key: CacheKey)
    requires Flying(c, tasks) && key !in c.flights
    ensures Callers(tasks, key) == 0 && Fetchers(tasks, key) == 0
  {
    CountedMeansSome(tasks, key);
    FetchersAreCallers(tasks, key);
    if Callers(tasks, key) >= 1 {
      var i :| 0 <= i < |tasks| && Inside(tasks[i], key);
    }
  }

  lemma EnterCounts(c: Client, tasks: seq<Task>, key: CacheKey, k: CacheKey)
    requires Flying(c, tasks) && k in Entered(c, key).0.flights
    ensures LockCounts(Entered(c, key).0, tasks + [Queued(key, Entered(c, key).1)], k)
  {
    var (c', f) := Entered(c, key);
    TaskJoins(tasks, Queued(key, f), k);
    assert !Fetches(Queued(key, f), k);
    if key in c.flights { assert LockCounts(c, tasks, key); } else { NobodyYet(c, tasks, key); }
    if k in c.flights {
      assert LockCounts(c, tasks, k);
      assert c'.flights[k] == c.flights[k];
      assert c'.locks[c'.flights[k]].held == c.locks[c.flights[k]].held;
    } else {
      assert c'.locks[c'.flights[k]] == Flight(1, false);
    }
  }

  lemma EnterFlies(c: Client, tasks: seq<Task>, key: CacheKey)
    requires Flying(c, tasks)
    ensures var (c', f) := Entered(c, key); Flying(c', tasks + [Queued(key, f)])
  {
    var (c', f) := Entered(c, key);
    if key in c.flights { assert LockCounts(c, tasks, key); }
    forall k | k in c'.flights
      ensures LockCounts(c', tasks + [Queued(key, f)], k)
    {
      EnterCounts(c, tasks, key, k);
    }
    forall j, k | j in c'.flights && k in c'.flights && j != k
      ensures c'.flights[j] != c'.flights[k]
    {
      if j in c.flights { assert LockCounts(c, tasks, j); }
      if k in c.flights { assert LockCounts(c, tasks, k); }
    }
  }

  lemma AcquireCounts(c: Client, tasks: seq<Task>, i: nat, task: Task, k: CacheKey)
    requires Flying(c, tasks) && i < |tasks| && tasks[i].Queued? && k in c.flights
    requires task.Fetching? && task.key == tasks[i].key && task.flight == tasks[i].flight
    requires task.flight < |c.locks| && !c.locks[task.flight].held
    ensures LockCounts(Acquired(c, task.flight), tasks[i := task], k)
  {
    assert Inside(tasks[i], task.key);
    assert LockCounts(c, tasks, k) && c.flights[task.key] == task.flight;
    TaskChanges(tasks, i, task, k);
    var c' := Acquired(c, task.flight);
    if k == task.key {
      assert c'.locks[c'.flights[k]].held && Fetchers(tasks, k) == 0;
      assert Fetches(task, k) && !Fetches(tasks[i], k);
    } else {
      assert c'.locks[c'.flights[k]] == c.locks[c.flights[k]];
      assert !Fetches(task, k) && !Fetches(tasks[i], k);
    }
  }

  lemma AcquireFlies(c: Client, tasks: seq<Task>, i: nat, task: Task)
    requires Flying(c, tasks) && i < |tasks| && tasks[i].Queued?
    requires task.Fetching? && task.key == tasks[i].key && task.flight == tasks[i].flight
    requires task.flight < |c.locks| && !c.locks[task.flight].held
    ensures Flying(Acquired(c, task.flight), tasks[i := task])
  {
    assert Inside(tasks[i], task.key);
    forall k | k in c.flights
      ensures LockCounts(Acquired(c, task.flight), tasks[i := task], k)
    {
      AcquireCounts(c, tasks, i, task, k);
    }
  }

  lemma LeaveFlies(c: Client, tasks: seq<Task>, i: nat, task: Task)
    requires Flying(c, tasks) && i < |tasks| && (tasks[i].Queued? || tasks[i].Fetching?)
    requires !task.Queued? && !task.Fetching?
    requires tasks[i].flight < |c.locks| && c.locks[tasks[i].flight].callers >= 1
    ensures Flying(Left(c, tasks[i].key, tasks[i].flight, tasks[i].Fetching?), tasks[i := task])
  {
    var key := tasks[i].key;
    var c', tasks' := Left(c, key, tasks[i].flight, tasks[i].Fetching?), tasks[i := task];
    assert Inside(tasks[i], key) && LockCounts(c, tasks, key);
    TaskChanges(tasks, i, task, key);
    CountedMeansSome(tasks', key);
    forall k | k in c'.flights
      ensures LockCounts(c', tasks', k)
    {
      TaskChanges(tasks, i, task, k);
      assert LockCounts(c, tasks, k);
      if k == key && tasks[i].Queued? { FetchersAreCallers(tasks', key); }
      if k == key && tasks[i].Fetching? { CountedMeansSome(tasks, key); }
    }
    forall j, k | 0 <= j < |tasks'| && Inside(tasks'[j], k)
      ensures k in c'.flights && c'.flights[k] == tasks'[j].flight
    {
      assert tasks'[j] == tasks[j];
    }
  }

  lemma {:induction false} FetchersAreCallers(tasks: seq<Task>, key: CacheKey)
    ensures Fetchers(tasks, key) <= Callers(tasks, key)
  {
    if tasks != [] { FetchersAreCallers(tasks[..|tasks| - 1], key); }
  }

  /** A step that leaves the locks alone and moves no task in or out. */
  lemma OtherwiseFlies(c: Client, tasks: seq<Task>, i: nat, task: Task, c': Client)
    requires Flying(c, tasks) && i < |tasks| && c'.flights == c.flights && c'.locks == c.locks
    requires forall k :: (Inside(task, k) <==> Inside(tasks[i], k)) && (Fetches(task, k) <==> Fetches(tasks[i], k))
    requires tasks[i].Fetching? ==> task.Fetching? && task.flight == tasks[i].flight
    requires !tasks[i].Queued?
    ensures Flying(c', tasks[i := task])
  {
    forall k | k in c'.flights
      ensures LockCounts(c', tasks[i := task], k)
    {
      TaskChanges(tasks, i, task, k);
      assert LockCounts(c, tasks, k);
    }
  }

  lemma JoinFlies(c: Client, tasks: seq<Task>, task: Task, c': Client)
    requires Flying(c, tasks) && c'.flights == c.flights && c'.locks == c.locks
    requires !task.Queued? && !task.Fetching?
    ensures Flying(c', tasks + [task])
  {
    forall k | k in c'.flights
      ensures LockCounts(c', tasks + [task], k)
    {
      TaskJoins(tasks, task, k);
      assert LockCounts(c, tasks, k);
    }
  }

  lemma SameLocksFly(c: Client, tasks: seq<Task>, c': Client)
    requires Flying(c, tasks) && c'.flights == c.flights && c'.locks == c.locks
    ensures Flying(c', tasks)
  {
    forall k | k in c'.flights
      ensures LockCounts(c', tasks, k)
    {
      assert LockCounts(c, tasks, k);
    }
  }

  lemma ReceivesLocks(c: Client, key: CacheKey, cached: Option<nat>, reply: Reply, now: real, bound: nat)
    requires cached.Some? ==> cached.value < |c.objects|
    ensures var c' := Receives(c, key, cached, reply, now, bound).0; c'.flights == c.flights && c'.locks == c.locks
  {}

  lemma StepFlies(setup: Setup, w: World, s: Step, w': World)
    requires Flying(w.client, w.tasks) && Steps(setup, w, s, w')
    ensures Flying(w'.client, w'.tasks)
  {
    match s
    case Resolve(key) =>
      var hit := Hit(w.client, key, w.clock, setup.ttl);
      if hit.None? {
        EnterFlies(w.client, w.tasks, key);
      } else {
        JoinFlies(w.client, w.tasks, FromCache(w, key, hit.value), w'.client);
      }
    case Acquire(i) =>
      var hit := Hit(w.client, w.tasks[i].key, w.clock, setup.ttl);
      if hit.None? {
        AcquireFlies(w.client, w.tasks, i, w'.tasks[i]);
      } else {
        LeaveFlies(w.client, w.tasks, i, w'.tasks[i]);
      }
    case Answer(i, keepsTag) => OtherwiseFlies(w.client, w.tasks, i, w'.tasks[i], w'.client);
    case Interfere(i, reply) => OtherwiseFlies(w.client, w.tasks, i, w'.tasks[i], w'.client);
    case Deliver(i) =>
      var task := w.tasks[i];
      var client := Receives(w.client, task.key, task.cached, task.answer.value.reply, w.clock, setup.bound).0;
      ReceivesLocks(w.client, task.key, task.cached, task.answer.value.reply, w.clock, setup.bound);
      SameLocksFly(w.client, w.tasks, client);
      LeaveFlies(client, w.tasks, i, w'.tasks[i]);
    case Cancel(i) =>
      if w.tasks[i].Putting? {
        OtherwiseFlies(w.client, w.tasks, i, Gone, w'.client);
      } else {
        LeaveFlies(w.client, w.tasks, i, Gone);
      }
    case Forget(token, namespace) => SameLocksFly(w.client, w.tasks, w'.client);
    case Put(token, namespace) => JoinFlies(w.client, w.tasks, Putting(token, namespace, None), w'.client);
    case PutAnswered(i, reply) => OtherwiseFlies(w.client, w.tasks, i, w'.tasks[i], w'.client);
    case PutDelivered(i) => OtherwiseFlies(w.client, w.tasks, i, Gone, w'.client);
    case ServerMoves(h, t) =>
    case Tick(_) =>
  }

  lemma {:induction false} AlwaysFlying(setup: Setup, ws: seq<World>, ss: seq<Step>, n: nat)
    requires Traced(setup, ws, ss) && Starts(ws[0]) && n <= |ss|
    ensures Flying(ws[n].client, ws[n].tasks)
  {
    if n > 0 {
      AlwaysFlying(setup, ws, ss, n - 1);
      StepFlies(setup, ws[n - 1], ss[n - 1], ws[n]);
    }
  }

  /** Single flight, in every reachable state: a key is in the table exactly while some task is
      inside its region; its lock counts those tasks; they all share it; no two of them fetch at
      once; and with nobody inside anywhere, after successes, failures and cancellations alike,
      the table is empty. */
  lemma SingleFlight(setup: Setup, ws: seq<World>, ss: seq<Step>, n: nat, key: CacheKey)
    requires Traced(setup, ws, ss) && Starts(ws[0]) && n <= |ss|
    ensures var c, tasks := ws[n].client, ws[n].tasks;
      && (key in c.flights <==> exists i | 0 <= i < |tasks| :: Inside(tasks[i], key))
      && (key in c.flights ==> c.flights[key] < |c.locks| && c.locks[c.flights[key]].callers == Callers(tasks, key))
      && (forall i | 0 <= i < |tasks| && Inside(tasks[i], key) :: key in c.flights && c.flights[key] == tasks[i].flight)
      && Fetchers(tasks, key) <= 1
      && ((forall i | 0 <= i < |tasks| :: !tasks[i].Queued? && !tasks[i].Fetching?) ==> c.flights == map[])
  {
    AlwaysFlying(setup, ws, ss, n);
    var c, tasks := ws[n].client, ws[n].tasks;
    CountedMeansSome(tasks, key);
    FetchersAreCallers(tasks, key);
    if key in c.flights { assert LockCounts(c, tasks, key); }
    if c.flights != map[] {
      var k :| k in c.flights;
      SomebodyInside(c, tasks, k);
    }
  }

  lemma SomebodyInside(c: Client, tasks: seq<Task>, key: CacheKey)
    requires Flying(c, tasks) && key in c.flights
    ensures exists i | 0 <= i < |tasks| :: tasks[i].Queued? || tasks[i].Fetching?
  {
    assert LockCounts(c, tasks, key);
    CountedMeansSome(tasks, key);
    var i :| 0 <= i < |tasks| && Inside(tasks[i], key);
  }
}
