/** The change log: append and trim, reading a page, and following the pages. */
module EventLog {
  import opened Core
  import opened Tables

  /** One account's events, oldest first. */
  function EventsOf(events: seq<Event>, account: string): (r: seq<Event>)
    ensures |r| <= |events|
  {
    if events == [] then []
    else
      var rest := EventsOf(events[1..], account);
      if events[0].account == account then [events[0]] + rest else rest
  }

  /** Sequences strictly increase along the table and stay below the counter. */
  ghost predicate Ordered(events: seq<Event>, next: nat) {
    && (forall i, j | 0 <= i < j < |events| :: events[i].sequence < events[j].sequence)
    && (forall i | 0 <= i < |events| :: events[i].sequence < next)
  }

  // -- Append and trim --------------------------------------------------------------------

  /** `SELECT sequence ... ORDER BY sequence DESC LIMIT 1 OFFSET cap`. */
  function PastTheNewest(events: seq<Event>, account: string, cap: nat): Option<nat> {
    var mine := EventsOf(events, account);
    if cap < |mine| then Some(mine[|mine| - 1 - cap].sequence) else None
  }

  /** `DELETE ... WHERE account_id = ? AND sequence <= ?`. */
  function Without(events: seq<Event>, account: string, bound: nat): seq<Event> {
    if events == [] then []
    else
      var rest := Without(events[1..], account, bound);
      if events[0].account == account && events[0].sequence <= bound then rest else [events[0]] + rest
  }

  /** The insertion, then `TRIM_TO_CAP`. A missing bound deletes nothing. */
  function Appended(events: seq<Event>, e: Event, cap: nat): seq<Event> {
    var inserted := events + [e];
    match PastTheNewest(inserted, e.account, cap)
    case None => inserted
    case Some(bound) => Without(inserted, e.account, bound)
  }

  function Append(t: Tables, e: Event, cap: nat): Tables {
    var stamped := e.(sequence := t.nextSequence);
    t.(events := Appended(t.events, stamped, cap), nextSequence := t.nextSequence + 1)
  }

  /** The INSERT, then `TRIM_TO_CAP`. On a table in order, the account's log becomes the newest
      `cap` of its old events and the new one, and nobody else's log moves. */
  method AppendIn(connection: Connection, e: Event, cap: nat)
    modifies connection
    ensures connection.Now() == Append(old(connection.Now()), e, cap)
    ensures Ordered(old(connection.events), old(connection.nextSequence)) ==>
      && Ordered(connection.events, connection.nextSequence)
      && EventsOf(connection.events, e.account)
           == Newest(EventsOf(old(connection.events), e.account) + [e.(sequence := old(connection.nextSequence))], cap)
      && forall other | other != e.account ::
           EventsOf(connection.events, other) == EventsOf(old(connection.events), other)
  {
    ghost var before := connection.Now();
    var stamped := e.(sequence := connection.nextSequence);
    connection.nextSequence := connection.nextSequence + 1;
    connection.events := connection.events + [stamped];
    var bound := PastTheNewest(connection.events, e.account, cap);
    if bound.Some? {
      connection.events := Without(connection.events, e.account, bound.value);
    }
    assert connection.Now() == Append(before, e, cap);
    if Ordered(before.events, before.nextSequence) {
      forall other
        ensures other != e.account ==> EventsOf(connection.events, other) == EventsOf(before.events, other)
      {
        AppendKeepsNewest(before, e, cap, other);
      }
      AppendKeepsNewest(before, e, cap, e.account);
    }
  }

  function Newest(s: seq<Event>, cap: nat): seq<Event> { if |s| <= cap then s else s[|s| - cap..] }

  lemma {:induction false} EventsOfConcat(s: seq<Event>, t: seq<Event>, account: string)
    ensures EventsOf(s + t, account) == EventsOf(s, account) + EventsOf(t, account)
  {
    if s == [] {
      assert s + t == t;
    } else {
      assert (s + t)[1..] == s[1..] + t;
      EventsOfConcat(s[1..], t, account);
    }
  }

  lemma {:induction false} EventsOfIn(events: seq<Event>, account: string)
    ensures forall e :: e in EventsOf(events, account) <==> e in events && e.account == account
  {
    if events != [] {
      EventsOfIn(events[1..], account);
      assert events == [events[0]] + events[1..];
    }
  }

  lemma {:induction false} EventsOfOrdered(events: seq<Event>, next: nat, account: string)
    requires Ordered(events, next)
    ensures Ordered(EventsOf(events, account), next)
  {
    if events != [] {
      EventsOfOrdered(events[1..], next, account);
      EventsOfIn(events[1..], account);
      OrderedFrom(events, next, EventsOf(events[1..], account));
    }
  }

  lemma {:induction false} WithoutHolds(events: seq<Event>, account: string, bound: nat)
    ensures forall e :: e in Without(events, account, bound) ==> e in events
  {
    if events != [] {
      WithoutHolds(events[1..], account, bound);
      assert events == [events[0]] + events[1..];
    }
  }

  lemma {:induction false} WithoutOrdered(events: seq<Event>, next: nat, account: string, bound: nat)
    requires Ordered(events, next)
    ensures Ordered(Without(events, account, bound), next)
  {
    if events != [] {
      WithoutOrdered(events[1..], next, account, bound);
      WithoutHolds(events[1..], account, bound);
      OrderedFrom(events, next, Without(events[1..], account, bound));
    }
  }

  /** Deleting by account and bound leaves other accounts' events. */
  lemma {:induction false} WithoutLeaves(events: seq<Event>, account: string, bound: nat, other: string)
    requires other != account
    ensures EventsOf(Without(events, account, bound), other) == EventsOf(events, other)
  {
    if events != [] {
      WithoutLeaves(events[1..], account, bound, other);
      var rest := Without(events[1..], account, bound);
      assert ([events[0]] + rest)[1..] == rest;
    }
  }

  /** The first event, put before some of the later ones, is still in order. */
  lemma OrderedFrom(events: seq<Event>, next: nat, rest: seq<Event>)
    requires Ordered(events, next) && events != [] && Ordered(rest, next)
    requires forall e :: e in rest ==> e in events[1..]
    ensures Ordered([events[0]] + rest, next)
  {
    forall i | 0 <= i < |rest|
      ensures events[0].sequence < rest[i].sequence
    {
      assert rest[i] in events[1..];
    }
  }

  /** In an ordered table those events are a prefix of the account's log. */
  lemma {:induction false} WithoutCuts(events: seq<Event>, account: string, bound: nat, n: nat)
    requires n <= |EventsOf(events, account)|
    requires forall i | 0 <= i < |EventsOf(events, account)| :: EventsOf(events, account)[i].sequence <= bound <==>
      i < n
    ensures EventsOf(Without(events, account, bound), account) == EventsOf(events, account)[n..]
  {
    if events != [] {
      var mine, tail := EventsOf(events, account), EventsOf(events[1..], account);
      if events[0].account == account {
        assert forall i | 0 <= i < |tail| :: tail[i] == mine[i + 1];
        var m := if n > 0 then n - 1 else 0;
        WithoutCuts(events[1..], account, bound, m);
        var rest := Without(events[1..], account, bound);
        assert mine[0] == events[0];
        if n > 0 {
          assert events[0].sequence <= bound && Without(events, account, bound) == rest;
          assert mine[n..] == tail[m..];
        } else {
          EventsOfConcat([events[0]], rest, account);
          OneEvent(events[0], account);
          assert mine[n..] == [events[0]] + tail[m..];
        }
      } else {
        WithoutCuts(events[1..], account, bound, n);
        EventsOfConcat([events[0]], Without(events[1..], account, bound), account);
      }
    }
  }

  /** `TRIM_TO_CAP` keeps exactly the newest `cap` events of the account. */
  lemma TrimKeepsNewest(events: seq<Event>, next: nat, account: string, cap: nat)
    requires Ordered(events, next) && PastTheNewest(events, account, cap).Some?
    ensures EventsOf(Without(events, account, PastTheNewest(events, account, cap).value), account)
         == Newest(EventsOf(events, account), cap)
  {
    EventsOfOrdered(events, next, account);
    var mine := EventsOf(events, account);
    var n := |mine| - cap;
    BoundSplits(mine, next, n);
    WithoutCuts(events, account, mine[n - 1].sequence, n);
  }

  lemma BoundSplits(mine: seq<Event>, next: nat, n: nat)
    requires Ordered(mine, next) && 1 <= n <= |mine|
    ensures forall i | 0 <= i < |mine| :: mine[i].sequence <= mine[n - 1].sequence <==> i < n
  {}

  /** Appending with the trim keeps exactly the newest `cap` events of the account, leaves every
      other account's log alone, and keeps the table in order. */
  lemma AppendKeepsNewest(t: Tables, e: Event, cap: nat, other: string)
    requires Ordered(t.events, t.nextSequence)
    ensures var r := Append(t, e, cap);
      && Ordered(r.events, r.nextSequence)
      && EventsOf(r.events, e.account)
           == Newest(EventsOf(t.events, e.account) + [e.(sequence := t.nextSequence)], cap)
      && (other != e.account ==> EventsOf(r.events, other) == EventsOf(t.events, other))
  {
    var stamped := e.(sequence := t.nextSequence);
    var inserted := t.events + [stamped];
    var next := t.nextSequence + 1;
    assert Ordered(inserted, next);
    EventsOfConcat(t.events, [stamped], e.account);
    EventsOfConcat(t.events, [stamped], other);
    OneEvent(stamped, e.account);
    OneEvent(stamped, other);
    var bound := PastTheNewest(inserted, e.account, cap);
    if bound.Some? {
      WithoutOrdered(inserted, next, e.account, bound.value);
      if other != e.account { WithoutLeaves(inserted, e.account, bound.value, other); }
      TrimKeepsNewest(inserted, next, e.account, cap);
    }
  }

  lemma OneEvent(e: Event, account: string)
    ensures EventsOf([e], account) == if e.account == account then [e] else []
  {
    assert [e][1..] == [];
  }

  // -- Erasing an account's log ---------------------------------------------------------------

  function Erased(events: seq<Event>, account: string): seq<Event> {
    if events == [] then []
    else
      var rest := Erased(events[1..], account);
      if events[0].account == account then rest else [events[0]] + rest
  }

  /** Nothing of the account's log is left, all of everybody else's is, and the number returned
      is how much shorter the table is. */
  method DeleteForAccountIn(connection: Connection, account: string) returns (deleted: nat)
    modifies connection
    ensures connection.Now() == old(connection.Now()).(events := Erased(old(connection.events), account))
    ensures EventsOf(connection.events, account) == []
    ensures forall other | other != account ::
      EventsOf(connection.events, other) == EventsOf(old(connection.events), other)
    ensures |connection.events| + deleted == |old(connection.events)|
  {
    ErasedCounts(connection.events, account);
    forall other { ErasedForgets(connection.events, account, other); }
    deleted := |EventsOf(connection.events, account)|;
    connection.events := Erased(connection.events, account);
  }

  lemma {:induction false} ErasedCounts(events: seq<Event>, account: string)
    ensures |Erased(events, account)| + |EventsOf(events, account)| == |events|
  {
    if events != [] { ErasedCounts(events[1..], account); }
  }

  lemma {:induction false} ErasedOrdered(events: seq<Event>, next: nat, account: string)
    requires Ordered(events, next)
    ensures Ordered(Erased(events, account), next)
    ensures forall e :: e in Erased(events, account) ==> e in events
  {
    if events != [] {
      ErasedOrdered(events[1..], next, account);
      OrderedFrom(events, next, Erased(events[1..], account));
    }
  }

  lemma {:induction false} ErasedForgets(events: seq<Event>, account: string, other: string)
    ensures EventsOf(Erased(events, account), other) == if other == account then [] else EventsOf(events, other)
  {
    if events != [] {
      ErasedForgets(events[1..], account, other);
      EventsOfConcat([events[0]], Erased(events[1..], account), other);
      OneEvent(events[0], other);
    }
  }

  // -- Reading pages -------------------------------------------------------------------------

  function Older(log: seq<Event>, before: Option<nat>): seq<Event> {
    if log == [] || before.None? then log
    else if log[|log| - 1].sequence < before.value then log
    else Older(log[..|log| - 1], before)
  }

  function Reversed(s: seq<Event>): seq<Event> {
    if s == [] then [] else [s[|s| - 1]] + Reversed(s[..|s| - 1])
  }

  /** `read`: the newest `limit` events below the cursor, newest first. */
  function Page(log: seq<Event>, limit: nat, before: Option<nat>): seq<Event> {
    Reversed(Newest(Older(log, before), limit))
  }

  /** `next_before`: only a full page carries a cursor, its oldest event's sequence. */
  function NextBefore(page: seq<Event>, limit: nat): Option<nat>
    requires limit >= 1
  {
    if |page| == limit then Some(page[|page| - 1].sequence) else None
  }

  /** The pages a reader gets by following `next_before`, when the account's log is `logs[i]` at
      the time of the i-th request. */
  function Walk(logs: seq<seq<Event>>, limit: nat, before: Option<nat>): seq<Event>
    requires limit >= 1
  {
    if logs == [] then []
    else
      var page := Page(logs[0], limit, before);
      var next := NextBefore(page, limit);
      if next.None? then page else page + Walk(logs[1..], limit, next)
  }

  /** Whether the walk has met a page without a cursor. */
  predicate Stops(logs: seq<seq<Event>>, limit: nat, before: Option<nat>)
    requires limit >= 1
  {
    logs != [] &&
    var next := NextBefore(Page(logs[0], limit, before), limit);
    next.None? || Stops(logs[1..], limit, next)
  }

  ghost predicate Increasing(log: seq<Event>) {
    forall i, j | 0 <= i < j < |log| :: log[i].sequence < log[j].sequence
  }

  predicate Below(e: Event, before: Option<nat>) { before.Some? ==> e.sequence < before.value }

  /** The part of an ordered log below the cursor is a prefix of it. */
  lemma {:induction false} OlderIsBelow(log: seq<Event>, before: Option<nat>)
    requires Increasing(log)
    ensures Older(log, before) <= log
    ensures forall i | 0 <= i < |log| :: Below(log[i], before) <==> i < |Older(log, before)|
  {
    if log != [] && before.Some? && log[|log| - 1].sequence >= before.value {
      OlderIsBelow(log[..|log| - 1], before);
    }
  }

  lemma {:induction false} ReversedAt(s: seq<Event>)
    ensures |Reversed(s)| == |s|
    ensures forall i | 0 <= i < |s| :: Reversed(s)[i] == s[|s| - 1 - i]
  {
    if s != [] { ReversedAt(s[..|s| - 1]); }
  }

  lemma {:induction false} ReversedConcat(s: seq<Event>, t: seq<Event>)
    ensures Reversed(s + t) == Reversed(t) + Reversed(s)
  {
    if t == [] {
      assert s + t == s;
    } else {
      assert (s + t)[..|s + t| - 1] == s + t[..|t| - 1];
      ReversedConcat(s, t[..|t| - 1]);
    }
  }

  lemma NewestReversed(s: seq<Event>, limit: nat)
    ensures var r, n := Reversed(Newest(s, limit)), |s|;
      && |r| == (if n <= limit then n else limit)
      && forall i | 0 <= i < |r| :: r[i] == s[n - 1 - i]
  {
    var newest := Newest(s, limit);
    ReversedAt(newest);
    assert forall i | 0 <= i < |newest| :: newest[i] == s[|s| - |newest| + i];
  }

  /** A page reads the log backwards from the cursor, up to the limit. */
  lemma PageAt(log: seq<Event>, limit: nat, before: Option<nat>)
    requires Increasing(log) && limit >= 1
    ensures var n, page := |Older(log, before)|, Page(log, limit, before);
      && n <= |log| && |page| == (if n <= limit then n else limit)
      && (forall i | 0 <= i < |page| :: page[i] == log[n - 1 - i])
      && (forall i | 0 <= i < |log| :: Below(log[i], before) <==> i < n)
  {
    OlderIsBelow(log, before);
    NewestReversed(Older(log, before), limit);
  }

  /** A page has a cursor exactly when the log has a page's worth of events below the one before, and
      it is then the sequence of the oldest event on the page. */
  lemma CursorExactlyWhen(log: seq<Event>, limit: nat, before: Option<nat>)
    requires Increasing(log) && limit >= 1
    ensures var page := Page(log, limit, before);
      && (NextBefore(page, limit).Some? <==> limit <= |log| && Below(log[limit - 1], before))
      && forall cursor | NextBefore(page, limit) == Some(cursor) ::
           && (exists e | e in page :: e.sequence == cursor)
           && (forall e | e in page :: cursor <= e.sequence)
  {
    PageAt(log, limit, before);
    PageFalls(log, limit, before);
  }

  /** Sequences fall along a page, and all of it lies below the cursor. */
  lemma PageFalls(log: seq<Event>, limit: nat, before: Option<nat>)
    requires Increasing(log) && limit >= 1
    ensures Falling(Page(log, limit, before))
    ensures AllBelow(Page(log, limit, before), before)
  {
    PageAt(log, limit, before);
  }

  predicate AllBelow(s: seq<Event>, before: Option<nat>) {
    forall i | 0 <= i < |s| :: Below(s[i], before)
  }

  ghost predicate Falling(s: seq<Event>) {
    forall i, j | 0 <= i < j < |s| :: s[i].sequence > s[j].sequence
  }

  /** An event below the cursor is on the page or, the page being full, below its own cursor. */
  lemma PageOrNext(log: seq<Event>, limit: nat, before: Option<nat>, e: Event)
    requires Increasing(log) && limit >= 1 && e in log && Below(e, before)
    ensures var page := Page(log, limit, before);
      e in page || (NextBefore(page, limit).Some? && Below(e, NextBefore(page, limit)))
  {
    PageAt(log, limit, before);
    var page, n := Page(log, limit, before), |Older(log, before)|;
    var i :| 0 <= i < |log| && log[i] == e;
    if i >= n - |page| {
      assert page[n - 1 - i] == e;
    } else {
      assert page[|page| - 1] == log[n - |page|];
    }
  }

  lemma FallingConcat(s: seq<Event>, t: seq<Event>, bound: nat)
    requires Falling(s) && Falling(t)
    requires forall i | 0 <= i < |s| :: s[i].sequence >= bound
    requires AllBelow(t, Some(bound))
    ensures Falling(s + t)
  {}

  /** With appends and trims between the pages, a reader still sees sequences strictly falling,
      so no event twice. */
  lemma {:induction false} PagingFalls(logs: seq<seq<Event>>, limit: nat, before: Option<nat>)
    requires limit >= 1 && forall i | 0 <= i < |logs| :: Increasing(logs[i])
    ensures Falling(Walk(logs, limit, before))
    ensures AllBelow(Walk(logs, limit, before), before)
  {
    if logs != [] {
      PageFalls(logs[0], limit, before);
      var page := Page(logs[0], limit, before);
      var next := NextBefore(page, limit);
      if next.Some? {
        PagingFalls(logs[1..], limit, next);
        var rest := Walk(logs[1..], limit, next);
        FallingConcat(page, rest, next.value);
        assert forall i | 0 <= i < |rest| :: Below(rest[i], next);
      }
    }
  }

  /** And a reader that stopped has seen every event that was there at each of its requests. */
  lemma {:induction false} PagingIsComplete(logs: seq<seq<Event>>, limit: nat, before: Option<nat>, e: Event)
    requires limit >= 1 && forall i | 0 <= i < |logs| :: Increasing(logs[i])
    requires Stops(logs, limit, before)
    requires Below(e, before) && forall i | 0 <= i < |logs| :: e in logs[i]
    ensures e in Walk(logs, limit, before)
  {
    PageOrNext(logs[0], limit, before, e);
    var page := Page(logs[0], limit, before);
    if e !in page {
      PagingIsComplete(logs[1..], limit, NextBefore(page, limit), e);
    }
  }

  /** A walk that starts without a cursor, as the first request does, stops whatever happens to
      the log meanwhile: within as many requests as the table had numbered events at the start,
      and one more. */
  lemma PagingStops(logs: seq<seq<Event>>, limit: nat, next: nat)
    requires limit >= 1 && forall i | 0 <= i < |logs| :: Increasing(logs[i])
    requires |logs| > next && Ordered(logs[0], next)
    ensures Stops(logs, limit, None)
  {
    PageAt(logs[0], limit, None);
    var page := Page(logs[0], limit, None);
    if |page| == limit {
      PagingStopsBelow(logs[1..], limit, page[|page| - 1].sequence);
    }
  }

  /** The cursor falls with every full page. */
  lemma {:induction false} PagingStopsBelow(logs: seq<seq<Event>>, limit: nat, before: nat)
    requires limit >= 1 && forall i | 0 <= i < |logs| :: Increasing(logs[i])
    requires |logs| > before
    ensures Stops(logs, limit, Some(before))
  {
    PageFalls(logs[0], limit, Some(before));
    var page := Page(logs[0], limit, Some(before));
    if |page| == limit {
      assert Below(page[|page| - 1], Some(before));
      PagingStopsBelow(logs[1..], limit, page[|page| - 1].sequence);
    }
  }

  lemma FullPageIs(log: seq<Event>, limit: nat, before: Option<nat>)
    requires |Older(log, before)| >= limit
    ensures var older := Older(log, before); Page(log, limit, before) == Reversed(older[|older| - limit..])
  {
    var older := Older(log, before);
    assert Newest(older, limit) == older[|older| - limit..];
  }

  lemma CursorIs(log: seq<Event>, limit: nat, before: Option<nat>)
    requires limit >= 1 && Increasing(log) && |Older(log, before)| >= limit
    ensures |Older(log, before)| <= |log|
    ensures NextBefore(Page(log, limit, before), limit) == Some(log[|Older(log, before)| - limit].sequence)
  {
    PageAt(log, limit, before);
  }

  /** After a full page the cursor leaves exactly the part of the log not yet read. */
  lemma FullPageLeaves(log: seq<Event>, limit: nat, before: Option<nat>)
    requires limit >= 1 && Increasing(log) && |Older(log, before)| >= limit
    ensures var older, page := Older(log, before), Page(log, limit, before);
      && NextBefore(page, limit).Some?
      && Older(log, NextBefore(page, limit)) == older[..|older| - limit]
      && page == Reversed(older[|older| - limit..])
  {
    FullPageIs(log, limit, before);
    CursorIs(log, limit, before);
    OlderIsBelow(log, before);
    var k := |Older(log, before)| - limit;
    OlderThan(log, k);
    assert log[..k] == Older(log, before)[..k];
  }

  /** What is older than one event is what comes before it. */
  lemma OlderThan(log: seq<Event>, k: nat)
    requires Increasing(log) && k < |log|
    ensures Older(log, Some(log[k].sequence)) == log[..k]
  {
    var next := Some(log[k].sequence);
    OlderIsBelow(log, next);
    assert !Below(log[k], next) && (k > 0 ==> Below(log[k - 1], next));
  }

  lemma LastPageIs(log: seq<Event>, limit: nat, before: Option<nat>)
    requires limit >= 1 && |Older(log, before)| < limit
    ensures Page(log, limit, before) == Reversed(Older(log, before))
    ensures NextBefore(Page(log, limit, before), limit).None?
  {
    ReversedAt(Older(log, before));
  }

  lemma SplitReverses(s: seq<Event>, k: nat)
    requires k <= |s|
    ensures Reversed(s) == Reversed(s[k..]) + Reversed(s[..k])
  {
    assert s == s[..k] + s[k..];
    ReversedConcat(s[..k], s[k..]);
  }

  lemma FullPageGoesOn(logs: seq<seq<Event>>, limit: nat, before: Option<nat>, next: Option<nat>)
    requires limit >= 1 && logs != []
    requires next == NextBefore(Page(logs[0], limit, before), limit) && next.Some?
    ensures Walk(logs, limit, before) == Page(logs[0], limit, before) + Walk(logs[1..], limit, next)
    ensures Stops(logs, limit, before) <==> Stops(logs[1..], limit, next)
  {}

  lemma FixedLogGoesOn(log: seq<Event>, limit: nat, before: Option<nat>, logs: seq<seq<Event>>, next: Option<nat>)
    requires limit >= 1 && Increasing(log) && logs != [] && logs[0] == log
    requires |Older(log, before)| >= limit && next == NextBefore(Page(log, limit, before), limit)
    requires Stops(logs[1..], limit, next)
    requires Walk(logs[1..], limit, next) == Reversed(Older(log, next))
    ensures Stops(logs, limit, before)
    ensures Walk(logs, limit, before) == Reversed(Older(log, before))
  {
    FullPageLeaves(log, limit, before);
    FullPageGoesOn(logs, limit, before, next);
    SplitReverses(Older(log, before), |Older(log, before)| - limit);
  }

  lemma LastPageStops(log: seq<Event>, limit: nat, before: Option<nat>, logs: seq<seq<Event>>)
    requires limit >= 1 && logs != [] && logs[0] == log && |Older(log, before)| < limit
    ensures Stops(logs, limit, before)
    ensures Walk(logs, limit, before) == Reversed(Older(log, before))
  {
    LastPageIs(log, limit, before);
  }

  /** On a log that does not change, following the cursors lists it newest first, whole and
      without repeats, and stops. */
  lemma {:induction false} PagingAFixedLog(log: seq<Event>, limit: nat, before: Option<nat>, logs: seq<seq<Event>>)
    requires limit >= 1 && Increasing(log)
    requires forall i | 0 <= i < |logs| :: logs[i] == log
    requires |logs| > |Older(log, before)|
    ensures Stops(logs, limit, before)
    ensures Walk(logs, limit, before) == Reversed(Older(log, before))
    decreases |Older(log, before)|
  {
    assert logs[0] == log;
    if |Older(log, before)| < limit {
      LastPageStops(log, limit, before, logs);
    } else {
      var next := NextBefore(Page(log, limit, before), limit);
      FullPageLeaves(log, limit, before);
      PagingAFixedLog(log, limit, next, logs[1..]);
      FixedLogGoesOn(log, limit, before, logs, next);
    }
  }
}
