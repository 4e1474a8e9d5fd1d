/** One worker, one connection: transactions run statement by statement between BEGIN and COMMIT
    or ROLLBACK, from a queue whose waiters may leave at any time. */
module Database {
  import opened Core
  import opened Catalogue
  import opened Resolution
  import opened Tables
  import opened EventLog
  import opened Store
  import opened Service
  import opened Server
  import opened Runs

  // -- Transactions as statements ---------------------------------------------------------------

  /** What is submitted. A write carries the changes the service planned; a purge carries the
      order in which its query will list rows. */
  datatype Work =
    | ServeWork(who: Identity, request: Request, changes: seq<Change>, now: int, ifRevision: Option<nat>)
    | ForgetWork(account: string)
    | PurgeWork(name: Name, today: int, now: int, order: Tables -> seq<RowId>)

  datatype Pc =
    | Begun
    | ReadState
    | ApplyChange(i: nat, state: AccountState, changed: seq<Name>)
    | BumpRevision(changed: seq<Name>)
    | InsertEvent(e: Event)
    | TrimLog(account: string)
    | DeleteEvents
    | DeleteAccount
    | DeleteRows(affected: seq<RowId>)
    | InsertPurge(affected: seq<RowId>, i: nat)
    | TrimPurge(affected: seq<RowId>, i: nat)

  datatype Outcome = More(pc: Pc) | Finished | Raised

  function Insert(t: Tables, e: Event): Tables {
    t.(events := t.events + [e.(sequence := t.nextSequence)], nextSequence := t.nextSequence + 1)
  }

  function Trim(t: Tables, account: string, cap: nat): Tables {
    match PastTheNewest(t.events, account, cap)
    case None => t
    case Some(bound) => t.(events := Without(t.events, account, bound))
  }

  function WriteOf(site: Site, work: Work): Write
    requires work.ServeWork?
  {
    WriteFor(site, work.who, work.request, work.changes, work.now, work.ifRevision)
  }

  /** One statement of `apply`. A point it never reaches raises. */
  function ApplyStatement(w: Write, t: Tables, pc: Pc): (Tables, Outcome) {
    match pc
    case Begun => (EnsureAccount(t, w.account, w.now), More(ReadState))
    case ReadState =>
      var state := Store.ReadState(t, w.account);
      if w.ifRevision.Some? && w.ifRevision.value != state.revision then (t, Raised)
      else if !WithinCap(w.changes, state.rows) then (t, Raised)
      else (t, More(ApplyChange(0, state, [])))
    case ApplyChange(i, state, changed) =>
      if i >= |w.changes| then (t, if changed == [] then Finished else More(BumpRevision(changed)))
      else if !Effective(w.changes[i], state.rows) then (t, More(ApplyChange(i + 1, state, changed)))
      else
        var wrote := WriteOne(t.settings, w.account, w.changes[i], w.now, w.actor);
        if wrote.Err? then (t, Raised)
        else (t.(settings := wrote.value), More(ApplyChange(i + 1, state, changed + [w.changes[i].name])))
    case BumpRevision(changed) =>
      if w.account !in t.accounts then (t, Raised)
      else
        var bumped := Bump(t, w.account, w.now);
        (bumped, More(InsertEvent(EventFor(w, RevisionOf(bumped, w.account), changed))))
    case InsertEvent(e) => (Insert(t, e), More(TrimLog(e.account)))
    case TrimLog(account) => (Trim(t, account, w.cap), Finished)
    case _ => (t, Raised)
  }

  function ForgetStatement(account: string, t: Tables, pc: Pc): (Tables, Outcome) {
    match pc
    case Begun =>
      (t.(settings := map id | id in t.settings && id.account != account :: t.settings[id]), More(DeleteEvents))
    case DeleteEvents => (t.(events := Erased(t.events, account)), More(DeleteAccount))
    case DeleteAccount => (t.(accounts := t.accounts - {account}), Finished)
    case _ => (t, Raised)
  }

  function PurgeStatement(work: Work, cap: nat, t: Tables, pc: Pc): (Tables, Outcome)
    requires work.PurgeWork?
  {
    match pc
    case Begun => (t, More(DeleteRows(work.order(t))))
    case DeleteRows(affected) =>
      if affected == [] then (t, Finished)
      else (t.(settings := t.settings - Matching(t, work.name)), More(InsertPurge(affected, 0)))
    case InsertPurge(affected, i) =>
      if i >= |affected| then (t, Finished)
      else
        var account := affected[i].account;
        (Insert(t, PurgeEvent(account, work.name, work.now, RevisionOf(t, account))), More(TrimPurge(affected, i)))
    case TrimPurge(affected, i) =>
      if i >= |affected| then (t, Raised)
      else (Trim(t, affected[i].account, cap), More(InsertPurge(affected, i + 1)))
    case _ => (t, Raised)
  }

  function Statement(site: Site, work: Work, t: Tables, pc: Pc): (Tables, Outcome) {
    match work
    case ServeWork(_, _, _, _, _) => ApplyStatement(WriteOf(site, work), t, pc)
    case ForgetWork(account) => ForgetStatement(account, t, pc)
    case PurgeWork(_, _, _, _) => PurgeStatement(work, site.maxEvents, t, pc)
  }

  /** The working tables and what is next, `n` statements after BEGIN. */
  ghost function After(site: Site, work: Work, t: Tables, n: nat): (Tables, Outcome) {
    if n == 0 then (t, More(Begun))
    else
      var (u, outcome) := After(site, work, t, n - 1);
      if outcome.More? then Statement(site, work, u, outcome.pc) else (u, outcome)
  }

  /** What COMMIT or ROLLBACK leaves once a transaction that began on `t` has ended. */
  ghost predicate Leaves(site: Site, work: Work, t: Tables, t': Tables) {
    exists n: nat :: EndsAs(site, work, t, n, t')
  }

  ghost predicate EndsAs(site: Site, work: Work, t: Tables, n: nat, t': Tables) {
    var (u, outcome) := After(site, work, t, n);
    !outcome.More? && t' == if outcome.Finished? then u else t
  }

  /** The transaction as one function of the tables. */
  function Effect(site: Site, work: Work, t: Tables): Tables {
    match work
    case ServeWork(_, _, _, _, _) => ApplyTx(t, WriteOf(site, work)).0
    case ForgetWork(account) => ForgetTx(t, account)
    case PurgeWork(name, _, now, order) => PurgeTx(t, name, order(t), now, site.maxEvents)
  }

  // -- Statement by statement is all at once -------------------------------------------------------

  lemma {:induction false} EndedStays(site: Site, work: Work, t: Tables, m: nat, n: nat)
    requires m <= n && !After(site, work, t, m).1.More?
    ensures After(site, work, t, n) == After(site, work, t, m)
  {
    if m < n { EndedStays(site, work, t, m, n - 1); }
  }

  lemma InsertThenTrim(t: Tables, e: Event, cap: nat)
    ensures Trim(Insert(t, e), e.account, cap) == Append(t, e, cap)
  {}

  predicate PassesChecks(w: Write, t: Tables) {
    var state := Store.ReadState(EnsureAccount(t, w.account, w.now), w.account);
    (w.ifRevision.Some? ==> w.ifRevision.value == state.revision) && WithinCap(w.changes, state.rows)
  }

  /** After the reads and `i` changes, the working tables are the loop's prefix. */
  lemma {:induction false} InTheLoop(site: Site, work: Work, t: Tables, i: nat)
    requires work.ServeWork? && PassesChecks(WriteOf(site, work), t) && i <= |work.changes|
    ensures var w := WriteOf(site, work);
      var ensured := EnsureAccount(t, w.account, w.now);
      var state := Store.ReadState(ensured, w.account);
      match WriteAll(ensured.settings, w.account, w.changes[..i], state.rows, w.now, w.actor)
      case Err(_) => After(site, work, t, 2 + i).1.Raised?
      case Ok((settings, changed)) =>
        After(site, work, t, 2 + i) == (ensured.(settings := settings), More(ApplyChange(i, state, changed)))
  {
    if i == 0 {
      assert After(site, work, t, 1) == Statement(site, work, t, Begun);
    } else {
      InTheLoop(site, work, t, i - 1);
      assert work.changes[..i][..i - 1] == work.changes[..i - 1];
    }
  }

  /** One statement further. */
  lemma OneMore(site: Site, work: Work, t: Tables, n: nat, u: Tables, pc: Pc)
    requires After(site, work, t, n) == (u, More(pc))
    ensures After(site, work, t, n + 1) == Statement(site, work, u, pc)
  {}

  lemma RefusedEnds(site: Site, work: Work, t: Tables)
    requires work.ServeWork? && !PassesChecks(WriteOf(site, work), t)
    ensures EndsAs(site, work, t, 2, Effect(site, work, t))
  {
    var w := WriteOf(site, work);
    OneMore(site, work, t, 0, t, Begun);
    OneMore(site, work, t, 1, EnsureAccount(t, w.account, w.now), ReadState);
  }

  /** From the end of the loop: the bump, the event and the trim. */
  lemma ChangedEnds(site: Site, work: Work, t: Tables, n: nat, wrote: Tables, state: AccountState, changed: seq<Name>)
    requires work.ServeWork? && changed != [] && work.who.account in wrote.accounts
    requires After(site, work, t, n) == (wrote, More(ApplyChange(|work.changes|, state, changed)))
    ensures var w := WriteOf(site, work);
      var bumped := Bump(wrote, w.account, w.now);
      EndsAs(site, work, t, n + 4, Append(bumped, EventFor(w, RevisionOf(bumped, w.account), changed), w.cap))
  {
    var w := WriteOf(site, work);
    var bumped := Bump(wrote, w.account, w.now);
    var e := EventFor(w, RevisionOf(bumped, w.account), changed);
    OneMore(site, work, t, n, wrote, ApplyChange(|work.changes|, state, changed));
    OneMore(site, work, t, n + 1, wrote, Pc.BumpRevision(changed));
    OneMore(site, work, t, n + 2, bumped, InsertEvent(e));
    OneMore(site, work, t, n + 3, Insert(bumped, e), TrimLog(w.account));
    InsertThenTrim(bumped, e, w.cap);
  }

  lemma ApplyEnds(site: Site, work: Work, t: Tables) returns (n: nat)
    requires work.ServeWork?
    ensures EndsAs(site, work, t, n, Effect(site, work, t))
  {
    var w := WriteOf(site, work);
    if !PassesChecks(w, t) {
      RefusedEnds(site, work, t);
      return 2;
    }
    var k := |work.changes|;
    n := 2 + k;
    InTheLoop(site, work, t, k);
    assert work.changes[..k] == work.changes;
    var ensured := EnsureAccount(t, w.account, w.now);
    var state := Store.ReadState(ensured, w.account);
    var loop := WriteAll(ensured.settings, w.account, w.changes, state.rows, w.now, w.actor);
    if loop.Ok? {
      var wrote, changed := ensured.(settings := loop.value.0), loop.value.1;
      if changed == [] {
        OneMore(site, work, t, n, wrote, ApplyChange(k, state, changed));
        n := 3 + k;
      } else {
        ChangedEnds(site, work, t, n, wrote, state, changed);
        n := 6 + k;
      }
    }
  }

  lemma ForgetEnds(site: Site, work: Work, t: Tables)
    requires work.ForgetWork?
    ensures EndsAs(site, work, t, 3, Effect(site, work, t))
  {
    var rows := map id | id in t.settings && id.account != work.account :: t.settings[id];
    var events := Erased(t.events, work.account);
    assert After(site, work, t, 1) == (t.(settings := rows), More(DeleteEvents));
    assert After(site, work, t, 2) == (t.(settings := rows, events := events), More(DeleteAccount));
    assert After(site, work, t, 3)
        == (t.(settings := rows, events := events, accounts := t.accounts - {work.account}), Finished);
  }

  lemma {:induction false} InThePurge(site: Site, work: Work, t: Tables, i: nat)
    requires work.PurgeWork? && work.order(t) != [] && i <= |work.order(t)|
    ensures var affected := work.order(t);
      After(site, work, t, 2 + 2 * i)
        == (PurgeEvents(t.(settings := t.settings - Matching(t, work.name)),
                        affected[..i], work.name, work.now, site.maxEvents),
            More(InsertPurge(affected, i)))
  {
    var affected := work.order(t);
    if i == 0 {
      assert After(site, work, t, 1) == (t, More(DeleteRows(affected)));
    } else {
      InThePurge(site, work, t, i - 1);
      assert affected[..i][..i - 1] == affected[..i - 1];
      var before := After(site, work, t, 2 * i).0;
      var account := affected[i - 1].account;
      var e := PurgeEvent(account, work.name, work.now, RevisionOf(before, account));
      assert After(site, work, t, 2 * i + 1) == (Insert(before, e), More(TrimPurge(affected, i - 1)));
      InsertThenTrim(before, e, site.maxEvents);
    }
  }

  lemma PurgeEnds(site: Site, work: Work, t: Tables) returns (n: nat)
    requires work.PurgeWork?
    ensures EndsAs(site, work, t, n, Effect(site, work, t))
  {
    var affected := work.order(t);
    OneMore(site, work, t, 0, t, Begun);
    OneMore(site, work, t, 1, t, DeleteRows(affected));
    if affected == [] {
      n := 2;
    } else {
      var k := |affected|;
      InThePurge(site, work, t, k);
      assert affected[..k] == affected;
      OneMore(site, work, t, 2 + 2 * k, Effect(site, work, t), InsertPurge(affected, k));
      n := 3 + 2 * k;
    }
  }

  lemma WorkEnds(site: Site, work: Work, t: Tables) returns (n: nat)
    ensures EndsAs(site, work, t, n, Effect(site, work, t))
  {
    match work
    case ServeWork(_, _, _, _, _) => n := ApplyEnds(site, work, t);
    case ForgetWork(_) => ForgetEnds(site, work, t); n := 3;
    case PurgeWork(_, _, _, _) => n := PurgeEnds(site, work, t);
  }

  /** Every transaction ends, and what it leaves, whether it commits or rolls back, is its effect
      as one function of the tables it began on. */
  lemma LeavesItsEffect(site: Site, work: Work, t: Tables, t': Tables)
    ensures Leaves(site, work, t, t') <==> t' == Effect(site, work, t)
  {
    var n := WorkEnds(site, work, t);
    if Leaves(site, work, t, t') {
      var m: nat :| EndsAs(site, work, t, m, t');
      if m <= n { EndedStays(site, work, t, m, n); } else { EndedStays(site, work, t, n, m); }
    }
  }

  method Execute(connection: Connection, site: Site, work: Work, pc: Pc) returns (outcome: Outcome)
    modifies connection
    ensures connection.Now() == Statement(site, work, old(connection.Now()), pc).0
    ensures outcome == Statement(site, work, old(connection.Now()), pc).1
  {
    var t, next := Statement(site, work, connection.Now(), pc).0, Statement(site, work, connection.Now(), pc).1;
    connection.accounts, connection.settings := t.accounts, t.settings;
    connection.events, connection.nextSequence := t.events, t.nextSequence;
    return next;
  }

  ghost predicate At(site: Site, work: Work, begun: Tables, n: nat, t: Tables, outcome: Outcome) {
    After(site, work, begun, n) == (t, outcome)
  }

  lemma AtFirst(site: Site, work: Work, begun: Tables)
    ensures At(site, work, begun, 0, begun, More(Begun))
  {}

  lemma AtNext(site: Site, work: Work, begun: Tables, n: nat, t: Tables, outcome: Outcome, total: nat)
    requires At(site, work, begun, n, t, outcome) && outcome.More? && n <= total
    requires EndsAs(site, work, begun, total, Effect(site, work, begun))
    ensures n < total
    ensures At(site, work, begun, n + 1, Statement(site, work, t, outcome.pc).0, Statement(site, work, t, outcome.pc).1)
  {}

  lemma AtEnd(site: Site, work: Work, begun: Tables, n: nat, t: Tables, outcome: Outcome)
    requires At(site, work, begun, n, t, outcome) && !outcome.More?
    ensures Effect(site, work, begun) == if outcome.Finished? then t else begun
  {
    var t' := if outcome.Finished? then t else begun;
    assert EndsAs(site, work, begun, n, t');
    LeavesItsEffect(site, work, begun, t');
  }

  /** `_in_transaction`: BEGIN, statement after statement, then COMMIT, or ROLLBACK if one raised. */
  method InTransaction(connection: Connection, site: Site, work: Work)
    modifies connection
    ensures connection.Now() == Effect(site, work, old(connection.Now()))
  {
    var begun := connection.Now();
    ghost var total := WorkEnds(site, work, begun);
    ghost var n: nat := 0;
    var outcome := More(Begun);
    AtFirst(site, work, begun);
    while outcome.More?
      invariant n <= total && At(site, work, begun, n, connection.Now(), outcome)
      decreases total - n
    {
      AtNext(site, work, begun, n, connection.Now(), outcome, total);
      outcome := Execute(connection, site, work, outcome.pc);
      n := n + 1;
    }
    AtEnd(site, work, begun, n, connection.Now(), outcome);
    if outcome.Raised? {
      connection.Rollback(begun);
    }
  }

  // -- The queue ---------------------------------------------------------------------------------------

  datatype Running = Running(ticket: nat, working: Tables, pc: Pc)

  /** Tickets index `submitted`. `finished` lists the transactions that have ended, in order. */
  datatype Worker = Worker(
    submitted: seq<Work>,
    queue: seq<nat>,
    running: Option<Running>,
    committed: Tables,
    waiting: set<nat>,
    finished: seq<nat>
  )

  datatype Move = Submit(work: Work) | Cancel(ticket: nat) | Begin | Advance

  function Dropped(queue: seq<nat>, ticket: nat): seq<nat> {
    if queue == [] then []
    else
      var rest := Dropped(queue[1..], ticket);
      if queue[0] == ticket then rest else [queue[0]] + rest
  }

  /** A cancelled waiter takes its job along only while the job is still queued; a running
      transaction runs on without it. */
  ghost predicate Moves(site: Site, s: Worker, m: Move, s': Worker) {
    match m
    case Submit(work) =>
      s' == s.(submitted := s.submitted + [work], queue := s.queue + [|s.submitted|],
               waiting := s.waiting + {|s.submitted|})
    case Cancel(ticket) =>
      ticket in s.waiting && s' == s.(queue := Dropped(s.queue, ticket), waiting := s.waiting - {ticket})
    case Begin =>
      && s.running.None? && s.queue != []
      && s' == s.(queue := s.queue[1..], running := Some(Running(s.queue[0], s.committed, Begun)))
    case Advance =>
      && s.running.Some? && s.running.value.ticket < |s.submitted|
      && var r := s.running.value;
         var (t, outcome) := Statement(site, s.submitted[r.ticket], r.working, r.pc);
         match outcome
         case More(pc) => s' == s.(running := Some(Running(r.ticket, t, pc)))
         case Finished => s' == Ended(s, r.ticket, t)
         case Raised => s' == Ended(s, r.ticket, s.committed)
  }

  function Ended(s: Worker, ticket: nat, committed: Tables): Worker {
    s.(running := None, committed := committed, waiting := s.waiting - {ticket}, finished := s.finished + [ticket])
  }

  /** One at a time, from the first tables: what each finished transaction began on and left. */
  ghost predicate Serial(site: Site, submitted: seq<Work>, order: seq<nat>, ts: seq<Tables>) {
    && |ts| == |order| + 1
    && forall i | 0 <= i < |order| :: order[i] < |submitted| && ts[i + 1] == Effect(site, submitted[order[i]], ts[i])
  }

  predicate Increasing(s: seq<nat>) { forall i, j | 0 <= i < j < |s| :: s[i] < s[j] }

  function Ticket(running: Option<Running>): seq<nat> { if running.None? then [] else [running.value.ticket] }

  /** Finished, running and queued tickets, in that order, are in the order of submission. */
  ghost predicate InOrder(s: Worker) {
    var all := s.finished + Ticket(s.running) + s.queue;
    Increasing(all) && forall i | 0 <= i < |all| :: all[i] < |s.submitted|
  }

  /** Whoever waits has a job that is queued or running, and every queued job is waited for. */
  ghost predicate NobodyLost(s: Worker) {
    && (forall n | n in s.waiting :: n in s.queue || n in Ticket(s.running))
    && (forall n | n in s.queue :: n in s.waiting)
  }

  ghost predicate UnderWay(site: Site, s: Worker) {
    s.running.Some? ==>
      && s.running.value.ticket < |s.submitted|
      && exists n: nat :: After(site, s.submitted[s.running.value.ticket], s.committed, n)
                  == (s.running.value.working, More(s.running.value.pc))
  }

  ghost predicate Sound(site: Site, s: Worker, ts: seq<Tables>) {
    && InOrder(s) && NobodyLost(s) && UnderWay(site, s)
    && Serial(site, s.submitted, s.finished, ts) && ts[|s.finished|] == s.committed
  }

  lemma {:induction false} DroppedKeeps(before: seq<nat>, queue: seq<nat>, ticket: nat)
    requires Increasing(before + queue)
    ensures Increasing(before + Dropped(queue, ticket))
    ensures forall n :: n in Dropped(queue, ticket) <==> n in queue && n != ticket
    decreases queue
  {
    if queue != [] {
      assert queue == [queue[0]] + queue[1..];
      assert before + queue == (before + [queue[0]]) + queue[1..];
      DroppedKeeps(before + [queue[0]], queue[1..], ticket);
      var rest := Dropped(queue[1..], ticket);
      assert before + ([queue[0]] + rest) == (before + [queue[0]]) + rest;
      if queue[0] == ticket {
        assert forall i | 0 <= i < |before| + |rest| ::
          (before + rest)[i] == ((before + [queue[0]]) + rest)[if i < |before| then i else i + 1];
        forall n | n in queue[1..]
          ensures n != ticket
        {
          var i :| 0 <= i < |queue[1..]| && queue[1..][i] == n;
          assert (before + queue)[|before|] < (before + queue)[|before| + 1 + i];
        }
      }
    }
  }

  lemma SubmitKeeps(site: Site, s: Worker, ts: seq<Tables>, work: Work)
    requires Sound(site, s, ts)
    ensures Sound(site, s.(submitted := s.submitted + [work], queue := s.queue + [|s.submitted|],
                           waiting := s.waiting + {|s.submitted|}), ts)
  {
    var s' := s.(submitted := s.submitted + [work], queue := s.queue + [|s.submitted|],
                waiting := s.waiting + {|s.submitted|});
    assert s'.finished + Ticket(s'.running) + s'.queue == (s.finished + Ticket(s.running) + s.queue) + [|s.submitted|];
    if s.running.Some? { assert s'.submitted[s.running.value.ticket] == s.submitted[s.running.value.ticket]; }
    forall i | 0 <= i < |s.finished|
      ensures s'.submitted[s.finished[i]] == s.submitted[s.finished[i]]
    {
    }
  }

  lemma CancelKeeps(site: Site, s: Worker, ts: seq<Tables>, ticket: nat)
    requires Sound(site, s, ts)
    ensures Sound(site, s.(queue := Dropped(s.queue, ticket), waiting := s.waiting - {ticket}), ts)
  {
    var before := s.finished + Ticket(s.running);
    DroppedKeeps(before, s.queue, ticket);
    var all, left := before + s.queue, before + Dropped(s.queue, ticket);
    forall i | 0 <= i < |left|
      ensures left[i] < |s.submitted|
    {
      assert left[i] in all;
      var j :| 0 <= j < |all| && all[j] == left[i];
    }
  }

  lemma BeginKeeps(site: Site, s: Worker, ts: seq<Tables>)
    requires Sound(site, s, ts) && s.running.None? && s.queue != []
    ensures Sound(site, s.(queue := s.queue[1..], running := Some(Running(s.queue[0], s.committed, Begun))), ts)
  {
    var s' := s.(queue := s.queue[1..], running := Some(Running(s.queue[0], s.committed, Begun)));
    var all := s.finished + Ticket(s.running) + s.queue;
    assert s'.finished + Ticket(s'.running) + s'.queue == all;
    assert all[|s.finished|] == s.queue[0];
    assert After(site, s.submitted[s.queue[0]], s.committed, 0) == (s.committed, More(Begun));
    assert s.queue == [s.queue[0]] + s.queue[1..];
  }

  lemma RunningIsApart(s: Worker)
    requires InOrder(s) && s.running.Some?
    ensures s.running.value.ticket !in s.queue
  {
    var all := s.finished + Ticket(s.running) + s.queue;
    var ticket := s.running.value.ticket;
    assert all[|s.finished|] == ticket;
    forall i | 0 <= i < |s.queue|
      ensures s.queue[i] != ticket
    {
      assert all[|s.finished|] < all[|s.finished| + 1 + i];
    }
  }

  lemma ContinueKeeps(site: Site, s: Worker, ts: seq<Tables>, n: nat, t: Tables, pc: Pc)
    requires Sound(site, s, ts) && s.running.Some?
    requires After(site, s.submitted[s.running.value.ticket], s.committed, n) == (t, More(pc))
    ensures Sound(site, s.(running := Some(Running(s.running.value.ticket, t, pc))), ts)
  {}

  lemma EndKeeps(site: Site, s: Worker, ts: seq<Tables>, committed: Tables)
    requires Sound(site, s, ts) && s.running.Some?
    requires Leaves(site, s.submitted[s.running.value.ticket], s.committed, committed)
    ensures Sound(site, Ended(s, s.running.value.ticket, committed), ts + [committed])
  {
    var ticket := s.running.value.ticket;
    var s' := Ended(s, ticket, committed);
    LeavesItsEffect(site, s.submitted[ticket], s.committed, committed);
    RunningIsApart(s);
    var all := s.finished + Ticket(s.running) + s.queue;
    assert s'.finished + Ticket(s'.running) + s'.queue == all;
    assert all[|s.finished|] == ticket;
  }

  lemma AdvanceKeeps(site: Site, s: Worker, ts: seq<Tables>, s': Worker) returns (ts': seq<Tables>)
    requires Sound(site, s, ts) && Moves(site, s, Advance, s')
    ensures Sound(site, s', ts') && ts'[0] == ts[0]
  {
    var r := s.running.value;
    var work := s.submitted[r.ticket];
    var n: nat :| After(site, work, s.committed, n) == (r.working, More(r.pc));
    OneMore(site, work, s.committed, n, r.working, r.pc);
    var (t, outcome) := Statement(site, work, r.working, r.pc);
    if outcome.More? {
      ContinueKeeps(site, s, ts, n + 1, t, outcome.pc);
      ts' := ts;
    } else {
      assert EndsAs(site, work, s.committed, n + 1, s'.committed);
      EndKeeps(site, s, ts, s'.committed);
      ts' := ts + [s'.committed];
    }
  }

  lemma MoveKeeps(site: Site, s: Worker, ts: seq<Tables>, m: Move, s': Worker) returns (ts': seq<Tables>)
    requires Sound(site, s, ts) && Moves(site, s, m, s')
    ensures Sound(site, s', ts') && ts'[0] == ts[0]
  {
    ts' := ts;
    match m
    case Submit(work) => SubmitKeeps(site, s, ts, work);
    case Cancel(ticket) => CancelKeeps(site, s, ts, ticket);
    case Begin => BeginKeeps(site, s, ts);
    case Advance => ts' := AdvanceKeeps(site, s, ts, s');
  }

  // -- Every run of the worker ---------------------------------------------------------------------------

  ghost predicate Works(site: Site, ss: seq<Worker>, ms: seq<Move>) {
    |ss| == |ms| + 1 && forall i | 0 <= i < |ms| :: Moves(site, ss[i], ms[i], ss[i + 1])
  }

  function Idle(t: Tables): Worker { Worker([], [], None, t, {}, []) }

  /** Serializability, statement by statement: at every moment of every run, whoever submits,
      cancels and waits, the committed tables are what some of the submitted transactions, each
      whole and in the order of submission, leave one after the other. */
  lemma {:induction false} CommittedIsSerial(site: Site, ss: seq<Worker>, ms: seq<Move>, n: nat, t: Tables)
    returns (ts: seq<Tables>)
    requires Works(site, ss, ms) && ss[0] == Idle(t) && n <= |ms|
    ensures Sound(site, ss[n], ts) && ts[0] == t
  {
    if n == 0 {
      ts := [t];
    } else {
      var before := CommittedIsSerial(site, ss, ms, n - 1, t);
      ts := MoveKeeps(site, ss[n - 1], before, ms[n - 1], ss[n]);
    }
  }

  /** A ticket given out and no longer queued, running or finished. */
  predicate Abandoned(s: Worker, ticket: nat) {
    ticket < |s.submitted| && ticket !in s.finished + Ticket(s.running) + s.queue
  }

  lemma {:induction false} DroppedHolds(queue: seq<nat>, ticket: nat)
    ensures forall n :: n in Dropped(queue, ticket) <==> n in queue && n != ticket
  {
    if queue != [] {
      DroppedHolds(queue[1..], ticket);
      assert queue == [queue[0]] + queue[1..];
    }
  }

  /** Cancelling a queued job abandons it. */
  lemma CancelAbandons(site: Site, s: Worker, ticket: nat, s': Worker)
    requires Moves(site, s, Cancel(ticket), s') && ticket in s.queue && InOrder(s)
    ensures Abandoned(s', ticket)
  {
    DroppedHolds(s.queue, ticket);
    var i :| 0 <= i < |s.queue| && s.queue[i] == ticket;
    var before := s.finished + Ticket(s.running);
    var all := before + s.queue;
    assert all[|before| + i] == ticket;
    forall j | 0 <= j < |before|
      ensures before[j] != ticket
    {
      assert all[j] < all[|before| + i];
    }
  }

  lemma AbandonedNext(site: Site, s: Worker, m: Move, s': Worker, ticket: nat)
    requires Moves(site, s, m, s') && Abandoned(s, ticket)
    ensures Abandoned(s', ticket)
  {
    var all, all' := s.finished + Ticket(s.running) + s.queue, s'.finished + Ticket(s'.running) + s'.queue;
    match m
    case Submit(work) => assert all' == all + [|s.submitted|];
    case Cancel(other) =>
      DroppedHolds(s.queue, other);
      assert forall n | n in all' :: n in all;
    case Begin => assert s.queue == [s.queue[0]] + s.queue[1..] && all' == all;
    case Advance => assert all' == all;
  }

  /** An abandoned job never runs. */
  lemma {:induction false} AbandonedStays(site: Site, ss: seq<Worker>, ms: seq<Move>, i: nat, j: nat, ticket: nat)
    requires Works(site, ss, ms) && i <= j <= |ms| && Abandoned(ss[i], ticket)
    ensures Abandoned(ss[j], ticket)
    decreases j - i
  {
    if i < j {
      AbandonedStays(site, ss, ms, i, j - 1, ticket);
      AbandonedNext(site, ss[j - 1], ms[j - 1], ss[j], ticket);
    }
  }

  // -- What the queue is given --------------------------------------------------------------------------

  /** A write as the service plans it; a purge of a key that is due, whose query lists the rows
      that match. */
  ghost predicate Proper(site: Site, work: Work) {
    match work
    case ServeWork(who, request, changes, _, _) => Plan(site, who, request) == Ok(changes)
    case ForgetWork(_) => true
    case PurgeWork(name, today, _, order) =>
      && (exists d | d in EveryEntry(site.catalogue) :: d.Named() == name && Due(site, d, today))
      && forall t :: Lists(order(t), Matching(t, name))
  }

  function HappeningOf(work: Work, t: Tables): Happening {
    match work
    case ServeWork(who, request, _, now, ifRevision) => Requested(who, request, now, ifRevision)
    case ForgetWork(account) => Forgot(account)
    case PurgeWork(name, today, now, order) => Swept(name, order(t), today, now)
  }

  lemma EffectIsNext(site: Site, work: Work, t: Tables)
    requires Proper(site, work)
    ensures Next(site, t, HappeningOf(work, t), Effect(site, work, t))
  {}

  function Happenings(submitted: seq<Work>, order: seq<nat>, ts: seq<Tables>): (hs: seq<Happening>)
    requires |ts| == |order| + 1 && forall i | 0 <= i < |order| :: order[i] < |submitted|
    ensures |hs| == |order|
  {
    seq(|order|, i requires 0 <= i < |order| => HappeningOf(submitted[order[i]], ts[i]))
  }

  /** So every reachable committed state is one that the server's runs reach, and all that is
      proved of those runs holds of the worker. */
  lemma SerialIsARun(site: Site, s: Worker, ts: seq<Tables>)
    requires Sound(site, s, ts) && forall i | 0 <= i < |s.submitted| :: Proper(site, s.submitted[i])
    ensures Run(site, ts, Happenings(s.submitted, s.finished, ts))
  {
    var hs := Happenings(s.submitted, s.finished, ts);
    forall i | 0 <= i < |hs|
      ensures Next(site, ts[i], hs[i], ts[i + 1])
    {
      EffectIsNext(site, s.submitted[s.finished[i]], ts[i]);
    }
  }

  /** Finished transaction `i` of this worker is a write of the account that expected this revision. */
  predicate Expects(s: Worker, i: nat, account: string, expected: nat) {
    && i < |s.finished| && s.finished[i] < |s.submitted|
    && var work := s.submitted[s.finished[i]];
       work.ServeWork? && work.who.account == account && work.ifRevision == Some(expected)
  }

  /** It changed something, beginning on these tables. */
  predicate Changed(site: Site, s: Worker, i: nat, account: string, t: Tables) {
    && i < |s.finished| && s.finished[i] < |s.submitted|
    && Changes(site, t, HappeningOf(s.submitted[s.finished[i]], t), account)
  }

  lemma SameExpectationInOrder(site: Site, s: Worker, ts: seq<Tables>, i: nat, j: nat, account: string, expected: nat)
    returns (k: nat)
    requires Deployed(site) && Sound(site, s, ts) && ts[0] == EMPTY && i < j
    requires forall m | 0 <= m < |s.submitted| :: Proper(site, s.submitted[m])
    requires Expects(s, i, account, expected) && Expects(s, j, account, expected)
    requires Changed(site, s, i, account, ts[i]) && Changed(site, s, j, account, ts[j])
    ensures i < k < j && s.finished[k] < |s.submitted| && s.submitted[s.finished[k]] == ForgetWork(account)
  {
    SerialIsARun(site, s, ts);
    var hs := Happenings(s.submitted, s.finished, ts);
    StartsOrdered(site, ts, hs, i);
    SameExpectationNeedsForget(site, ts, hs, i, j, account, expected);
    k :| i < k < j && hs[k] == Forgot(account);
  }

  /** Two changing writes that both succeed against one expected revision have a forget of the
      account between them, however the worker's moves interleave. */
  lemma SameExpectationOnTheWorker(site: Site, ss: seq<Worker>, ms: seq<Move>, n: nat, i: nat, j: nat,
                                   account: string, expected: nat)
    returns (ts: seq<Tables>, k: nat)
    requires Deployed(site) && Works(site, ss, ms) && ss[0] == Idle(EMPTY) && n <= |ms|
    requires forall m | 0 <= m < |ss[n].submitted| :: Proper(site, ss[n].submitted[m])
    requires i < j && Expects(ss[n], i, account, expected) && Expects(ss[n], j, account, expected)
    ensures Sound(site, ss[n], ts) && ts[0] == EMPTY
    ensures Changed(site, ss[n], i, account, ts[i]) && Changed(site, ss[n], j, account, ts[j]) ==>
      && i < k < j && ss[n].finished[k] < |ss[n].submitted|
      && ss[n].submitted[ss[n].finished[k]] == ForgetWork(account)
  {
    ts := CommittedIsSerial(site, ss, ms, n, EMPTY);
    k := 0;
    if Changed(site, ss[n], i, account, ts[i]) && Changed(site, ss[n], j, account, ts[j]) {
      k := SameExpectationInOrder(site, ss[n], ts, i, j, account, expected);
    }
  }

  lemma StartsOrdered(site: Site, ts: seq<Tables>, hs: seq<Happening>, n: nat)
    requires Deployed(site) && Run(site, ts, hs) && ts[0] == EMPTY && n <= |hs|
    ensures Ordered(ts[n].events, ts[n].nextSequence)
  {
    RowsRevisionAndLogAgree(site, ts, hs, n);
  }
}
