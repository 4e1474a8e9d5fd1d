/** What is written down about requests, erasures and sweeps, field by field. */
module Records {
  import opened Core
  import opened Resolution
  import opened Tables
  import opened EventLog
  import opened Store
  import opened Merge
  import opened Service
  import opened Server

  // -- Requests -------------------------------------------------------------------------------------

  /** The event's action is the kind of the request. */
  predicate SaysWhatWasDone(action: Action, request: Request) {
    match request
    case SetRequest(_, _, _, _) => action == Action.SetSetting
    case UpdateRequest(_, _) => action == Action.Update
    case ImportRequest(_, _, _) => action == Action.Import
    case ResetRequest(_, _, _) => action == Action.ResetSetting
    case ResetAllRequest(_, _) => action == Action.ResetNamespace
  }

  /** It names the namespace all changes share, if they share one, and the key if there is one
      change. */
  ghost predicate Locates(e: Event) {
    && (forall n :: e.namespace == Some(n) <==>
          e.changed != [] && forall name | name in e.changed :: name.namespace == n)
    && (forall k :: e.key == Some(k) <==> |e.changed| == 1 && e.changed[0].key == k)
  }

  /** What one event says of an accepted request. */
  ghost predicate Describes(e: Event, t: Tables, who: Identity, request: Request, now: int, changed: seq<Name>) {
    && e.sequence == t.nextSequence && e.account == who.account && e.at == now
    && SaysWhatWasDone(e.action, request)
    && e.revision == RevisionOf(t, who.account) + 1
    && e.actor == (if who.service.Some? then "service:" + who.service.value else who.audience)
    && e.service == who.service
    && e.changed == changed && Locates(e)
  }

  lemma EventLocates(w: Write, revision: nat, changed: seq<Name>)
    requires changed != []
    ensures Locates(EventFor(w, revision, changed))
  {
    var e := EventFor(w, revision, changed);
    forall n
      ensures e.namespace == Some(n) <==> forall name | name in changed :: name.namespace == n
    {
      assert changed[0] in changed;
      assert forall i | 0 <= i < |changed| :: changed[i] in changed;
    }
  }

  /** The last of these events, as many as the log may keep. */
  predicate LastOf(all: seq<Event>, cap: nat, log: seq<Event>) {
    |log| == (if |all| < cap then |all| else cap) && log == all[|all| - |log|..]
  }

  /** An account's row: made now if it was not there, its revision one more and its time now if
      anything changed. */
  predicate AccountMoves(t: Tables, t': Tables, account: string, now: int, moved: bool) {
    && account in t'.accounts
    && var before := if account in t.accounts then t.accounts[account] else Account(0, now, now);
       t'.accounts[account] == if moved then Account(before.revision + 1, before.createdAt, now) else before
  }

  /** Nothing of another account moves. */
  ghost predicate LeavesAlone(t: Tables, t': Tables, other: string) {
    && (other in t'.accounts <==> other in t.accounts)
    && (other in t.accounts ==> t'.accounts[other] == t.accounts[other])
    && EventsOf(t'.events, other) == EventsOf(t.events, other)
    && RowsOf(t'.settings, other) == RowsOf(t.settings, other)
  }

  lemma CommittedAccount(t: Tables, w: Write, t': Tables, applied: Applied)
    requires Committed(t, w, t', applied)
    ensures AccountMoves(t, t', w.account, w.now, applied.changed != [])
    ensures forall other | other != w.account ::
      (other in t'.accounts <==> other in t.accounts)
      && (other in t.accounts ==> t'.accounts[other] == t.accounts[other])
  {}

  /** One event describes the request, and the log is the last of what was there and it. */
  ghost predicate Logs(t: Tables, t': Tables, who: Identity, request: Request, now: int, changed: seq<Name>, cap: nat) {
    exists e :: Describes(e, t, who, request, now, changed)
             && LastOf(EventsOf(t.events, who.account) + [e], cap, EventsOf(t'.events, who.account))
  }

  lemma CommittedEvent(t: Tables, w: Write, t': Tables, applied: Applied, who: Identity, request: Request)
    requires Committed(t, w, t', applied) && Ordered(t.events, t.nextSequence) && applied.changed != []
    requires w.account == who.account && w.actor == who.Actor() && w.service == who.service
    requires w.action == ActionOf(request)
    ensures Logs(t, t', who, request, w.now, applied.changed, w.cap)
  {
    LogAfterApply(t, w, t', applied);
    EventLocates(w, applied.revision, applied.changed);
    var e := EventFor(w, applied.revision, applied.changed).(sequence := t.nextSequence);
    assert Describes(e, t, who, request, w.now, applied.changed);
    assert LastOf(EventsOf(t.events, who.account) + [e], w.cap, EventsOf(t'.events, who.account));
  }

  /** An accepted request leaves one event at most, which says who did what and when, at which
      revision, and which settings it changed: those whose rows differ. If nothing differs nothing is
      logged. Nobody else's account, log or rows move. */
  lemma RequestsAreRecorded(site: Site, t: Tables, who: Identity, request: Request, now: int, ifRevision: Option<nat>)
    requires Ordered(t.events, t.nextSequence) && Serve(t, site, who, request, now, ifRevision).1.Ok?
    ensures var (t', r) := Serve(t, site, who, request, now, ifRevision);
      var changed := r.value.changed;
      && (if changed == [] then t'.events == t.events else Logs(t, t', who, request, now, changed, site.maxEvents))
      && AccountMoves(t, t', who.account, now, changed != [])
      && r.value.revision == t'.accounts[who.account].revision
      && (forall name :: name in changed <==> exists p :: Differs(t, t', RowId(who.account, RowKey(p, name))))
      && (forall other | other != who.account :: LeavesAlone(t, t', other))
  {
    var (t', r) := Serve(t, site, who, request, now, ifRevision);
    ServedMeans(t, site, who, request, now, ifRevision);
    var w := WriteFor(site, who, request, Plan(site, who, request).value, now, ifRevision);
    LogAfterApply(t, w, t', r.value);
    CommittedAccount(t, w, t', r.value);
    if r.value.changed != [] { CommittedEvent(t, w, t', r.value, who, request); }
    forall name
      ensures name in r.value.changed <==> exists p :: Differs(t, t', RowId(who.account, RowKey(p, name)))
    {
      ReportIsTheDifference(t, w, t', r.value, name);
      DifferenceIsLooked(t, t', who.account, name);
    }
    forall other | other != who.account
      ensures LeavesAlone(t, t', other)
    {
      OtherRowsAfterApply(t, w, t', r.value, other);
      OtherLogsAfterApply(t, w, t', r.value, other);
    }
  }

  /** The row is there once only, or holds another value. */
  predicate Differs(t: Tables, t': Tables, id: RowId) {
    if id in t.settings && id in t'.settings then t.settings[id].value != t'.settings[id].value
    else id in t.settings || id in t'.settings
  }

  lemma DifferenceIsLooked(t: Tables, t': Tables, account: string, name: Name)
    ensures forall p :: Differs(t, t', RowId(account, RowKey(p, name))) <==>
      Look(RowsOf(t'.settings, account), RowKey(p, name)) != Look(RowsOf(t.settings, account), RowKey(p, name))
  {}

  // -- Erasures ----------------------------------------------------------------------------------------

  /** An erasure leaves nothing of the account -- no row, no account, no event -- and everything of
      every other. */
  lemma NothingIsLeft(t: Tables, account: string)
    ensures var t' := ForgetTx(t, account);
      && account !in t'.accounts
      && (forall id | id in t'.settings :: id.account != account)
      && (forall e | e in t'.events :: e.account != account)
      && (forall other | other != account :: LeavesAlone(t, t', other))
      && t'.nextSequence == t.nextSequence
  {
    var t' := ForgetTx(t, account);
    EventsOfIn(t'.events, account);
    ErasedForgets(t.events, account, account);
    forall other | other != account
      ensures LeavesAlone(t, t', other)
    {
      ErasedForgets(t.events, account, other);
      ForgetRows(t, account, other);
    }
  }
}
