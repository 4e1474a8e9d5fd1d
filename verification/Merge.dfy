/** What `apply` does to an account's rows: the loop against a snapshot, compared with merging
    the changes one after the other. */
module Merge {
  import opened Core
  import opened SettingTypes
  import opened Tables
  import opened EventLog
  import opened Store

  /** The last change to a row that differs from the snapshot. */
  function LastEffective(changes: seq<Change>, snapshot: map<RowKey, Row>, k: RowKey): Option<Change> {
    if changes == [] then None
    else
      var last := changes[|changes| - 1];
      if last.Key() == k && Effective(last, snapshot) then Some(last)
      else LastEffective(changes[..|changes| - 1], snapshot, k)
  }

  /** The last change to a row. */
  function LastOn(changes: seq<Change>, k: RowKey): Option<Change> {
    if changes == [] then None
    else
      var last := changes[|changes| - 1];
      if last.Key() == k then Some(last) else LastOn(changes[..|changes| - 1], k)
  }

  /** The old map overridden by the sets and without the resets, later changes winning. */
  function Merged(rows: map<RowKey, Row>, changes: seq<Change>, k: RowKey): Option<Value> {
    var last := LastOn(changes, k);
    if last.None? then Look(rows, k) else last.value.Target()
  }

  function EffectiveNames(changes: seq<Change>, snapshot: map<RowKey, Row>): seq<Name> {
    if changes == [] then []
    else
      var last := changes[|changes| - 1];
      var before := EffectiveNames(changes[..|changes| - 1], snapshot);
      if Effective(last, snapshot) then before + [last.name] else before
  }

  lemma {:induction false} LastEffectiveIs(changes: seq<Change>, snapshot: map<RowKey, Row>, k: RowKey)
    ensures var r := LastEffective(changes, snapshot, k);
      && (r.Some? ==> r.value in changes && r.value.Key() == k && Effective(r.value, snapshot))
      && (r.None? <==> forall c | c in changes && c.Key() == k :: !Effective(c, snapshot))
  {
    if changes != [] {
      var n := |changes| - 1;
      LastEffectiveIs(changes[..n], snapshot, k);
      assert changes == changes[..n] + [changes[n]];
    }
  }

  lemma {:induction false} LastOnIs(changes: seq<Change>, k: RowKey)
    ensures var r := LastOn(changes, k);
      && (r.Some? ==> r.value in changes && r.value.Key() == k)
      && (r.None? <==> forall c | c in changes :: c.Key() != k)
  {
    if changes != [] {
      var n := |changes| - 1;
      LastOnIs(changes[..n], k);
      assert changes == changes[..n] + [changes[n]];
    }
  }

  // -- What the loop leaves ------------------------------------------------------------------------

  lemma {:induction false} RowAfterLoop(settings: map<RowId, Row>, account: string, changes: seq<Change>,
                                        snapshot: map<RowKey, Row>, now: int, actor: string, id: RowId)
    requires WriteAll(settings, account, changes, snapshot, now, actor).Ok?
    ensures var after := WriteAll(settings, account, changes, snapshot, now, actor).value.0;
      var last := LastEffective(changes, snapshot, id.key);
      if id.account != account || last.None?
      then (id in after <==> id in settings) && (id in after ==> after[id] == settings[id])
      else if last.value.reset then id !in after
      else id in after && after[id] == Row(last.value.value, now, actor)
  {
    if changes != [] {
      var n := |changes| - 1;
      RowAfterLoop(settings, account, changes[..n], snapshot, now, actor, id);
    }
  }

  lemma {:induction false} LoopReports(settings: map<RowId, Row>, account: string, changes: seq<Change>,
                                       snapshot: map<RowKey, Row>, now: int, actor: string)
    ensures var r := WriteAll(settings, account, changes, snapshot, now, actor);
      && (r.Ok? ==> r.value.1 == EffectiveNames(changes, snapshot))
      && (r.Err? <==> exists c | c in changes :: Effective(c, snapshot) && !c.reset && !(1 <= |c.profile| <= 64))
      && (r.Err? ==> r.error == ProfileLength)
  {
    if changes != [] {
      var n := |changes| - 1;
      LoopReports(settings, account, changes[..n], snapshot, now, actor);
      assert changes == changes[..n] + [changes[n]];
    }
  }

  lemma {:induction false} EffectiveNamesAre(changes: seq<Change>, snapshot: map<RowKey, Row>)
    ensures forall name ::
      name in EffectiveNames(changes, snapshot) <==> exists c | c in changes :: c.name == name && Effective(c, snapshot)
  {
    if changes != [] {
      var n := |changes| - 1;
      EffectiveNamesAre(changes[..n], snapshot);
      assert changes == changes[..n] + [changes[n]];
    }
  }

  // -- What a committed apply means --------------------------------------------------------------

  ghost predicate Committed(t: Tables, w: Write, t': Tables, applied: Applied) {
    ApplyTx(t, w) == (t', Ok(applied))
  }

  lemma CommittedSettings(t: Tables, w: Write, t': Tables, applied: Applied)
    requires Committed(t, w, t', applied)
    ensures var wrote := WriteAll(t.settings, w.account, w.changes, RowsOf(t.settings, w.account), w.now, w.actor);
      wrote.Ok? && t'.settings == wrote.value.0
  {}

  /** Every row after a committed apply: the last change that differs from what was stored
      before decides it; a row no such change names keeps its value and its provenance. */
  lemma RowsAfterApply(t: Tables, w: Write, t': Tables, applied: Applied, k: RowKey)
    requires Committed(t, w, t', applied)
    ensures var before, after := RowsOf(t.settings, w.account), RowsOf(t'.settings, w.account);
      var last := LastEffective(w.changes, before, k);
      && (last.None? ==> (k in after <==> k in before) && (k in after ==> after[k] == before[k]))
      && (last.Some? ==> Look(after, k) == last.value.Target() != Look(before, k))
  {
    CommittedSettings(t, w, t', applied);
    SettledRow(t.settings, w, t'.settings, k);
  }

  lemma SettledRow(settings: map<RowId, Row>, w: Write, after: map<RowId, Row>, k: RowKey)
    requires var wrote := WriteAll(settings, w.account, w.changes, RowsOf(settings, w.account), w.now, w.actor);
      wrote.Ok? && after == wrote.value.0
    ensures var r, s := RowsOf(settings, w.account), RowsOf(after, w.account);
      var last := LastEffective(w.changes, r, k);
      && (last.None? ==> (k in s <==> k in r) && (k in s ==> s[k] == r[k]))
      && (last.Some? ==> Look(s, k) == last.value.Target() != Look(r, k))
  {
    var before := RowsOf(settings, w.account);
    RowAfterLoop(settings, w.account, w.changes, before, w.now, w.actor, RowId(w.account, k));
    LastEffectiveIs(w.changes, before, k);
  }

  /** A row differs afterwards exactly when some change named it and differed. */
  lemma RowDiffersExactlyWhen(t: Tables, w: Write, t': Tables, applied: Applied, k: RowKey)
    requires Committed(t, w, t', applied)
    ensures var before, after := RowsOf(t.settings, w.account), RowsOf(t'.settings, w.account);
      Look(after, k) != Look(before, k) <==> exists c | c in w.changes :: c.Key() == k && Effective(c, before)
  {
    RowsAfterApply(t, w, t', applied, k);
    LastEffectiveIs(w.changes, RowsOf(t.settings, w.account), k);
  }

  lemma CommittedReports(t: Tables, w: Write, t': Tables, applied: Applied)
    requires Committed(t, w, t', applied)
    ensures applied.changed == EffectiveNames(w.changes, RowsOf(t.settings, w.account))
  {
    LoopReports(t.settings, w.account, w.changes, RowsOf(t.settings, w.account), w.now, w.actor);
  }

  /** The report lists exactly the names of rows that differ afterwards. */
  lemma ReportIsTheDifference(t: Tables, w: Write, t': Tables, applied: Applied, name: Name)
    requires Committed(t, w, t', applied)
    ensures var before, after := RowsOf(t.settings, w.account), RowsOf(t'.settings, w.account);
      name in applied.changed <==> exists p :: Look(after, RowKey(p, name)) != Look(before, RowKey(p, name))
  {
    var before, after := RowsOf(t.settings, w.account), RowsOf(t'.settings, w.account);
    CommittedReports(t, w, t', applied);
    EffectiveNamesAre(w.changes, before);
    if name in applied.changed {
      var c :| c in w.changes && c.name == name && Effective(c, before);
      RowDiffersExactlyWhen(t, w, t', applied, RowKey(c.profile, name));
    }
    if p :| Look(after, RowKey(p, name)) != Look(before, RowKey(p, name)) {
      RowDiffersExactlyWhen(t, w, t', applied, RowKey(p, name));
    }
  }

  /** The revision rises by one exactly when something changed, and one event records it. */
  lemma LogAfterApply(t: Tables, w: Write, t': Tables, applied: Applied)
    requires Committed(t, w, t', applied) && Ordered(t.events, t.nextSequence)
    ensures applied.revision == RevisionOf(t', w.account)
         == RevisionOf(t, w.account) + (if applied.changed == [] then 0 else 1)
    ensures w.account in t'.accounts && Ordered(t'.events, t'.nextSequence)
    ensures applied.changed == [] ==>
      t'.settings == t.settings && t'.events == t.events && t'.nextSequence == t.nextSequence
    ensures applied.changed != [] ==>
      EventsOf(t'.events, w.account) == Newest(EventsOf(t.events, w.account)
        + [EventFor(w, applied.revision, applied.changed).(sequence := t.nextSequence)], w.cap)
  {
    if applied.changed == [] {
      NothingWritten(t.settings, w.account, w.changes, RowsOf(t.settings, w.account), w.now, w.actor);
    } else {
      var wrote := EnsureAccount(t, w.account, w.now).(settings := t'.settings);
      var e := EventFor(w, applied.revision, applied.changed);
      AppendKeepsNewest(Bump(wrote, w.account, w.now), e, w.cap, w.account);
    }
  }

  lemma OtherRowAfterApply(t: Tables, w: Write, t': Tables, applied: Applied, id: RowId)
    requires Committed(t, w, t', applied) && id.account != w.account
    ensures id in t'.settings <==> id in t.settings
    ensures id in t.settings ==> t'.settings[id] == t.settings[id]
  {
    RowAfterLoop(t.settings, w.account, w.changes, RowsOf(t.settings, w.account), w.now, w.actor, id);
  }

  lemma SameRows(s: map<RowId, Row>, s': map<RowId, Row>, account: string)
    requires forall id: RowId | id.account == account :: (id in s' <==> id in s) && (id in s ==> s'[id] == s[id])
    ensures RowsOf(s', account) == RowsOf(s, account)
  {
    assert RowsOf(s', account).Keys == RowsOf(s, account).Keys;
  }

  /** No other account's rows move. */
  lemma OtherRowsAfterApply(t: Tables, w: Write, t': Tables, applied: Applied, other: string)
    requires Committed(t, w, t', applied) && other != w.account
    ensures RowsOf(t'.settings, other) == RowsOf(t.settings, other)
  {
    forall id: RowId | id.account == other
      ensures (id in t'.settings <==> id in t.settings) && (id in t.settings ==> t'.settings[id] == t.settings[id])
    {
      OtherRowAfterApply(t, w, t', applied, id);
    }
    SameRows(t.settings, t'.settings, other);
  }

  /** No other account's revision or log moves. */
  lemma OtherLogsAfterApply(t: Tables, w: Write, t': Tables, applied: Applied, other: string)
    requires Committed(t, w, t', applied) && Ordered(t.events, t.nextSequence) && other != w.account
    ensures EventsOf(t'.events, other) == EventsOf(t.events, other)
    ensures other in t'.accounts <==> other in t.accounts
    ensures RevisionOf(t', other) == RevisionOf(t, other)
  {
    if applied.changed != [] {
      var wrote := EnsureAccount(t, w.account, w.now).(settings := t'.settings);
      AppendKeepsNewest(Bump(wrote, w.account, w.now), EventFor(w, applied.revision, applied.changed), w.cap, other);
    }
  }

  lemma {:induction false} NothingWritten(settings: map<RowId, Row>, account: string, changes: seq<Change>,
                                          snapshot: map<RowKey, Row>, now: int, actor: string)
    requires WriteAll(settings, account, changes, snapshot, now, actor).Ok?
    requires WriteAll(settings, account, changes, snapshot, now, actor).value.1 == []
    ensures WriteAll(settings, account, changes, snapshot, now, actor).value.0 == settings
  {
    if changes != [] {
      NothingWritten(settings, account, changes[..|changes| - 1], snapshot, now, actor);
    }
  }

  /** A raise commits nothing, and these are the writes that raise. */
  lemma RefusedExactlyWhen(t: Tables, w: Write)
    ensures var rows := RowsOf(t.settings, w.account);
      ApplyTx(t, w).1.Err? <==>
        || (w.ifRevision.Some? && w.ifRevision.value != RevisionOf(t, w.account))
        || !WithinCap(w.changes, rows)
        || exists c | c in w.changes :: Effective(c, rows) && !c.reset && !(1 <= |c.profile| <= 64)
    ensures ApplyTx(t, w).1.Err? ==> ApplyTx(t, w).0 == t
  {
    LoopReports(t.settings, w.account, w.changes, RowsOf(t.settings, w.account), w.now, w.actor);
  }

  // -- When the loop is a merge, and when repeating is harmless ----------------------------------------

  /** No row's last change restates what is stored after an earlier change to it that did not. */
  ghost predicate Settled(changes: seq<Change>, rows: map<RowKey, Row>) {
    forall k :: LastOn(changes, k).Some? && !Effective(LastOn(changes, k).value, rows) ==>
      forall c | c in changes && c.Key() == k :: !Effective(c, rows)
  }

  /** Changes to one row all ask for the same thing. */
  ghost predicate Agreeing(changes: seq<Change>) {
    forall c, d | c in changes && d in changes && c.Key() == d.Key() :: c.Target() == d.Target()
  }

  /** No row is named twice. */
  ghost predicate OneChangeEach(changes: seq<Change>) {
    forall i, j | 0 <= i < j < |changes| :: changes[i].Key() != changes[j].Key()
  }

  /** The loop is the merge exactly when the changes are settled: comparing with the snapshot
      loses the last change to a row that an earlier one moved away from its stored value. */
  lemma ApplyIsMergeExactlyWhen(t: Tables, w: Write, t': Tables, applied: Applied)
    requires Committed(t, w, t', applied)
    ensures var before, after := RowsOf(t.settings, w.account), RowsOf(t'.settings, w.account);
      (forall k :: Look(after, k) == Merged(before, w.changes, k)) <==> Settled(w.changes, before)
  {
    var before, after := RowsOf(t.settings, w.account), RowsOf(t'.settings, w.account);
    forall k
      ensures Look(after, k) == Merged(before, w.changes, k) <==>
        (LastOn(w.changes, k).Some? && !Effective(LastOn(w.changes, k).value, before) ==>
          forall c | c in w.changes && c.Key() == k :: !Effective(c, before))
    {
      RowsAfterApply(t, w, t', applied, k);
      LastOnIs(w.changes, k);
      LastEffectiveIs(w.changes, before, k);
      LastOnIsLastEffective(w.changes, before, k);
    }
  }

  lemma LastOnIsLastEffective(changes: seq<Change>, snapshot: map<RowKey, Row>, k: RowKey)
    ensures var last := LastOn(changes, k);
      last.Some? && Effective(last.value, snapshot) ==> LastEffective(changes, snapshot, k) == last
  {}

  /** Repeating a committed write commits nothing new, records nothing and reports nothing,
      exactly when the changes to each row agree. */
  lemma RepeatIsNoOpExactlyWhen(t: Tables, w: Write, t': Tables, applied: Applied, again: Write)
    requires Committed(t, w, t', applied)
    requires again.account == w.account && again.changes == w.changes && again.ifRevision == None
    ensures ApplyTx(t', again) == (t', Ok(Applied(applied.revision, []))) <==> Agreeing(w.changes)
  {
    AgreeingMeansHeld(t, w, t', applied);
    CapStillHolds(t, w, t', applied);
    AccountExists(t, w, t', applied);
    SecondApply(t', again, applied.revision);
  }

  /** The changes agree exactly when each row ends up holding what every change to it asks. */
  lemma AgreeingMeansHeld(t: Tables, w: Write, t': Tables, applied: Applied)
    requires Committed(t, w, t', applied)
    ensures Agreeing(w.changes) <==> forall c | c in w.changes :: !Effective(c, RowsOf(t'.settings, w.account))
  {
    var before, after := RowsOf(t.settings, w.account), RowsOf(t'.settings, w.account);
    forall c | c in w.changes
      ensures Look(after, c.Key()) == c.Target()
        || exists d | d in w.changes :: d.Key() == c.Key() && d.Target() != c.Target()
    {
      RowsAfterApply(t, w, t', applied, c.Key());
      LastEffectiveIs(w.changes, before, c.Key());
    }
  }

  /** A write none of whose changes differs from what is stored commits the tables it found. */
  lemma SecondApply(t: Tables, w: Write, revision: nat)
    requires w.account in t.accounts && revision == RevisionOf(t, w.account)
    requires w.ifRevision == None && WithinCap(w.changes, RowsOf(t.settings, w.account))
    ensures ApplyTx(t, w) == (t, Ok(Applied(revision, [])))
       <==> forall c | c in w.changes :: !Effective(c, RowsOf(t.settings, w.account))
  {
    var rows := RowsOf(t.settings, w.account);
    LoopReports(t.settings, w.account, w.changes, rows, w.now, w.actor);
    EffectiveNamesAre(w.changes, rows);
    if forall c | c in w.changes :: !Effective(c, rows) {
      NoneEffective(w.changes, rows);
      NothingWritten(t.settings, w.account, w.changes, rows, w.now, w.actor);
    } else {
      var c :| c in w.changes && Effective(c, rows);
      assert c.name in EffectiveNames(w.changes, rows);
    }
  }

  lemma {:induction false} NoneEffective(changes: seq<Change>, rows: map<RowKey, Row>)
    requires forall c | c in changes :: !Effective(c, rows)
    ensures EffectiveNames(changes, rows) == []
  {
    if changes != [] { NoneEffective(changes[..|changes| - 1], rows); }
  }

  lemma AccountExists(t: Tables, w: Write, t': Tables, applied: Applied)
    requires Committed(t, w, t', applied)
    ensures w.account in t'.accounts && applied.revision == RevisionOf(t', w.account)
  {}

  /** The names a committed write adds were counted before it ran. */
  lemma CapStillHolds(t: Tables, w: Write, t': Tables, applied: Applied)
    requires Committed(t, w, t', applied)
    ensures Profiles(RowsOf(t'.settings, w.account)) <= Profiles(RowsOf(t.settings, w.account)) + Incoming(w.changes)
    ensures WithinCap(w.changes, RowsOf(t'.settings, w.account))
  {
    var before, after := RowsOf(t.settings, w.account), RowsOf(t'.settings, w.account);
    forall p | p in Profiles(after)
      ensures p in Profiles(before) + Incoming(w.changes)
    {
      var k :| k in after && k.profile == p;
      RowsAfterApply(t, w, t', applied, k);
      LastEffectiveIs(w.changes, before, k);
    }
    SubsetSize(Profiles(after) + Incoming(w.changes), Profiles(before) + Incoming(w.changes));
  }

  lemma {:induction false} SubsetSize<T>(a: set<T>, b: set<T>)
    requires a <= b
    ensures |a| <= |b|
  {
    if a != {} {
      var x :| x in a;
      SubsetSize(a - {x}, b - {x});
    }
  }

  /** With one change for each row, both hold. */
  lemma OneChangeEachMerges(changes: seq<Change>, rows: map<RowKey, Row>)
    requires OneChangeEach(changes)
    ensures Settled(changes, rows) && Agreeing(changes)
  {
    forall c, d | c in changes && d in changes && c.Key() == d.Key()
      ensures c == d
    {
      var i :| 0 <= i < |changes| && changes[i] == c;
      var j :| 0 <= j < |changes| && changes[j] == d;
    }
    forall k { LastOnIs(changes, k); }
  }

  /** One row changed away from `back` and to it again. */
  function AwayAndBackChanges(name: Name, away: Value, back: Value): seq<Change> {
    [Change(name, away, false, ACCOUNT_PROFILE), Change(name, back, false, ACCOUNT_PROFILE)]
  }

  lemma LastOfTwo(name: Name, away: Value, back: Value, rows: map<RowKey, Row>)
    requires away != back
    ensures var k, changes := RowKey(ACCOUNT_PROFILE, name), AwayAndBackChanges(name, away, back);
      && LastOn(changes, k) == Some(changes[1])
      && (Look(rows, k) == Some(back) ==>
            LastEffective(changes, rows, k) == Some(changes[0]) && EffectiveNames(changes, rows) == [name])
      && (Look(rows, k) == Some(away) ==>
            LastEffective(changes, rows, k) == Some(changes[1]) && EffectiveNames(changes, rows) == [name])
  {
    var changes := AwayAndBackChanges(name, away, back);
    assert changes[..1] == [changes[0]] && changes[..1][..0] == [];
    assert LastEffective(changes[..1], rows, RowKey(ACCOUNT_PROFILE, name))
        == if Effective(changes[0], rows) then Some(changes[0]) else None;
    assert EffectiveNames(changes[..1], rows) == if Effective(changes[0], rows) then [name] else [];
  }

  lemma NoProfilesFits(name: Name, away: Value, back: Value, rows: map<RowKey, Row>)
    ensures WithinCap(AwayAndBackChanges(name, away, back), rows)
  {
    assert Incoming(AwayAndBackChanges(name, away, back)) == {};
  }

  lemma TwoCommit(t: Tables, w: Write, name: Name, away: Value, back: Value)
    requires w.changes == AwayAndBackChanges(name, away, back) && w.ifRevision == None
    ensures ApplyTx(t, w).1.Ok?
  {
    NoProfilesFits(name, away, back, RowsOf(t.settings, w.account));
    assert forall c | c in w.changes :: c.profile == ACCOUNT_PROFILE;
    RefusedExactlyWhen(t, w);
  }

  lemma OneOfTwo(t: Tables, w: Write, t': Tables, applied: Applied, name: Name, away: Value, back: Value, held: Value)
    requires w.changes == AwayAndBackChanges(name, away, back) && away != back && held in {away, back}
    requires Committed(t, w, t', applied) && Ordered(t.events, t.nextSequence)
    requires Look(RowsOf(t.settings, w.account), RowKey(ACCOUNT_PROFILE, name)) == Some(held)
    ensures Look(RowsOf(t'.settings, w.account), RowKey(ACCOUNT_PROFILE, name))
         == Some(if held == back then away else back)
    ensures applied.changed == [name]
    ensures RevisionOf(t', w.account) == RevisionOf(t, w.account) + 1 && Ordered(t'.events, t'.nextSequence)
  {
    LastOfTwo(name, away, back, RowsOf(t.settings, w.account));
    RowsAfterApply(t, w, t', applied, RowKey(ACCOUNT_PROFILE, name));
    CommittedReports(t, w, t', applied);
    LogAfterApply(t, w, t', applied);
  }

  /** Two changes to one row, away from the stored value and back, in one write: the loop keeps the
      first, where a merge keeps the second; the same write again keeps the second; and each of the
      two moves the revision. */
  lemma AwayAndBack(t: Tables, w: Write, name: Name, away: Value, back: Value)
    requires w.changes == AwayAndBackChanges(name, away, back) && w.ifRevision == None && away != back
    requires Ordered(t.events, t.nextSequence)
    requires Look(RowsOf(t.settings, w.account), RowKey(ACCOUNT_PROFILE, name)) == Some(back)
    ensures var k := RowKey(ACCOUNT_PROFILE, name);
      var (t1, first) := ApplyTx(t, w);
      var (t2, second) := ApplyTx(t1, w);
      && first.Ok? && Look(RowsOf(t1.settings, w.account), k) == Some(away)
      && Merged(RowsOf(t.settings, w.account), w.changes, k) == Some(back)
      && second.Ok? && Look(RowsOf(t2.settings, w.account), k) == Some(back)
      && RevisionOf(t2, w.account) == RevisionOf(t, w.account) + 2
    ensures !Settled(w.changes, RowsOf(t.settings, w.account)) && !Agreeing(w.changes)
  {
    var rows, t1 := RowsOf(t.settings, w.account), ApplyTx(t, w).0;
    LastOfTwo(name, away, back, rows);
    TwoCommit(t, w, name, away, back);
    TwoCommit(t1, w, name, away, back);
    OneOfTwo(t, w, t1, ApplyTx(t, w).1.value, name, away, back, back);
    OneOfTwo(t1, w, ApplyTx(t1, w).0, ApplyTx(t1, w).1.value, name, away, back, away);
    var first, second := w.changes[0], w.changes[1];
    assert first in w.changes && second in w.changes && Effective(first, rows);
  }

  // -- What a sweep records ---------------------------------------------------------------------------

  /** One record for each listed row of the account, numbered as the table numbers them. */
  function PurgeRecords(listing: seq<RowId>, account: string, e: Event, next: nat): seq<Event> {
    if listing == [] then []
    else
      var n := |listing| - 1;
      var before := PurgeRecords(listing[..n], account, e, next);
      if listing[n].account == account then before + [e.(sequence := next + n)] else before
  }

  /** A log after some records, each appended with the trim. */
  function Logged(log: seq<Event>, records: seq<Event>, cap: nat): seq<Event> {
    if records == [] then log else Newest(log + records, cap)
  }

  lemma LoggedAgain(log: seq<Event>, records: seq<Event>, e: Event, cap: nat)
    ensures Newest(Logged(log, records, cap) + [e], cap) == Logged(log, records + [e], cap)
  {
    var all := log + records;
    assert all + [e] == log + (records + [e]);
    if records == [] {
      assert all == log;
    } else if |all| > cap && cap > 0 {
      assert Newest(all, cap) + [e] == (all + [e])[|all| - cap..];
    }
  }

  ghost predicate Recorded(t: Tables, listing: seq<RowId>, name: Name, now: int, cap: nat, account: string, r: Tables) {
    && Ordered(r.events, r.nextSequence) && r.nextSequence == t.nextSequence + |listing| && r.accounts == t.accounts
    && var e := Event(0, account, now, PurgeRetired, RevisionOf(t, account), "sweeper", None, Some(name.namespace),
                      Some(name.key), [name]);
       EventsOf(r.events, account)
         == Logged(EventsOf(t.events, account), PurgeRecords(listing, account, e, t.nextSequence), cap)
  }

  /** One event more in the table, seen from one account's log. */
  lemma LogAfterRow(r: Tables, x: Event, cap: nat, account: string, log: seq<Event>, records: seq<Event>)
    requires Ordered(r.events, r.nextSequence) && EventsOf(r.events, account) == Logged(log, records, cap)
    ensures var more := if x.account == account then records + [x.(sequence := r.nextSequence)] else records;
      EventsOf(Append(r, x, cap).events, account) == Logged(log, more, cap)
  {
    AppendKeepsNewest(r, x, cap, account);
    if x.account == account { LoggedAgain(log, records, x.(sequence := r.nextSequence), cap); }
  }

  lemma CountsAfterRow(r: Tables, x: Event, cap: nat)
    requires Ordered(r.events, r.nextSequence)
    ensures var r' := Append(r, x, cap);
      && Ordered(r'.events, r'.nextSequence) && r'.nextSequence == r.nextSequence + 1 && r'.accounts == r.accounts
  {
    AppendKeepsNewest(r, x, cap, x.account);
  }

  lemma RecordsAfterRow(listing: seq<RowId>, account: string, e: Event, next: nat)
    requires listing != []
    ensures var n := |listing| - 1;
      PurgeRecords(listing, account, e, next)
        == if listing[n].account == account
           then PurgeRecords(listing[..n], account, e, next) + [e.(sequence := next + n)]
           else PurgeRecords(listing[..n], account, e, next)
  {}

  lemma OneRowRecorded(t: Tables, listing: seq<RowId>, name: Name, now: int, cap: nat, account: string, before: Tables)
    requires listing != [] && Recorded(t, listing[..|listing| - 1], name, now, cap, account, before)
    ensures var other := listing[|listing| - 1].account;
      Recorded(t, listing, name, now, cap, account,
               Append(before, PurgeEvent(other, name, now, RevisionOf(before, other)), cap))
  {
    var n := |listing| - 1;
    var other := listing[n].account;
    var e := PurgeEvent(account, name, now, RevisionOf(t, account));
    var x := PurgeEvent(other, name, now, RevisionOf(before, other));
    CountsAfterRow(before, x, cap);
    LogAfterRow(before, x, cap, account, EventsOf(t.events, account),
                PurgeRecords(listing[..n], account, e, t.nextSequence));
    RecordsAfterRow(listing, account, e, t.nextSequence);
  }

  /** A sweep leaves one event for each row it removed -- not one for each account -- at the
      account's current revision, under the same cap as any other. */
  lemma {:induction false} SweepRecordsEachRow(t: Tables, listing: seq<RowId>, name: Name, now: int, cap: nat,
                                               account: string)
    requires Ordered(t.events, t.nextSequence)
    ensures Recorded(t, listing, name, now, cap, account, PurgeEvents(t, listing, name, now, cap))
  {
    if listing != [] {
      var n := |listing| - 1;
      SweepRecordsEachRow(t, listing[..n], name, now, cap, account);
      OneRowRecorded(t, listing, name, now, cap, account, PurgeEvents(t, listing[..n], name, now, cap));
    }
  }
}
