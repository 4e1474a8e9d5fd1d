/** The client between two awaits: an ordered dictionary used as a bounded cache, a table of
    counted locks, and what each answer does to both. */
module ClientCache {
  import opened Core
  import opened Dicts
  import opened Json
  import opened ClientModels

  datatype CacheKey = CacheKey(token: string, namespace: string, profile: string)

  datatype Entry = Entry(settings: ResolvedSettings, etag: string, validatedAt: real)

  /** Cached entries in insertion order. An entry object is shared by whoever holds it, so the
      dictionary holds its place in `objects`. */
  type Entries = Dict<CacheKey, nat>

  datatype Flight = Flight(callers: nat, held: bool)

  datatype Client = Client(
    entries: Entries,
    objects: seq<Entry>,
    fallbacks: map<string, Fallbacks>,
    flights: map<CacheKey, nat>,
    locks: seq<Flight>
  )

  const COLD := Client([], [], map[], map[], [])

  // -- The ordered dictionary -----------------------------------------------------------------------

  function Held(d: Entries, k: CacheKey): Option<nat> { Get<CacheKey, nat>(d, k) }

  function Newest<K, V>(d: Dict<K, V>, bound: nat): Dict<K, V> { if |d| <= bound then d else d[|d| - bound..] }

  /** `_remember`: popped, inserted at the end, and the front dropped down to the bound. */
  function Remembered(d: Entries, k: CacheKey, id: nat, bound: nat): Entries {
    Newest(Remove(d, k) + [(k, id)], bound)
  }

  /** `_touch`. */
  function Touched(d: Entries, k: CacheKey): Entries {
    match Held(d, k)
    case None => d
    case Some(id) => Remove(d, k) + [(k, id)]
  }

  function Excluding(d: Entries, gone: set<CacheKey>): Entries {
    if d == [] then []
    else
      var rest := Excluding(d[1..], gone);
      if d[0].0 in gone then rest else [d[0]] + rest
  }

  function Stale(d: Entries, token: string, namespace: Option<string>): set<CacheKey> {
    set e | e in d && Names(e.0, token, namespace) :: e.0
  }

  /** `forget`, for one namespace or for every one. */
  function Forgotten(d: Entries, token: string, namespace: Option<string>): Entries {
    Excluding(d, Stale(d, token, namespace))
  }

  function Listed(keys: seq<CacheKey>): set<CacheKey> { set k | k in keys }

  predicate Names(k: CacheKey, token: string, namespace: Option<string>) {
    k.token == token && (namespace.None? || k.namespace == namespace.value)
  }

  lemma StaleNext(d: Entries, i: nat, token: string, namespace: Option<string>)
    requires i < |d|
    ensures Stale(d[..i + 1], token, namespace)
         == Stale(d[..i], token, namespace) + (if Names(d[i].0, token, namespace) then {d[i].0} else {})
  {
    assert d[..i + 1] == d[..i] + [d[i]];
    forall k | k in Stale(d[..i], token, namespace)
      ensures k in Stale(d[..i + 1], token, namespace)
    {
      var e :| e in d[..i] && Names(e.0, token, namespace) && e.0 == k;
      assert e in d[..i + 1];
    }
    if Names(d[i].0, token, namespace) { assert d[i] in d[..i + 1]; }
  }

  lemma NotYetStale(d: Entries, i: nat, token: string, namespace: Option<string>)
    requires Unique(d) && i < |d|
    ensures d[i].0 !in Stale(d[..i], token, namespace)
  {
    forall e | e in d[..i]
      ensures e.0 != d[i].0
    {
      var j :| 0 <= j < i && d[..i][j] == e;
      assert d[j] == e;
    }
  }

  lemma FirstApart(d: Entries)
    requires Unique(d) && d != []
    ensures Unique(d[1..]) && forall e | e in d[1..] :: e.0 != d[0].0
  {
    assert forall i | 0 <= i < |d[1..]| :: d[1..][i] == d[i + 1];
  }

  lemma {:induction false} RemoveHolds(d: Entries, k: CacheKey)
    requires Unique(d)
    ensures forall e :: e in Remove(d, k) <==> e in d && e.0 != k
  {
    if d != [] {
      assert d == [d[0]] + d[1..];
      FirstApart(d);
      RemoveHolds(d[1..], k);
    }
  }

  lemma {:induction false} RemoveIs(d: Entries, k: CacheKey)
    requires Unique(d)
    ensures Unique(Remove(d, k)) && !Has(Remove(d, k), k)
    ensures forall e :: e in Remove(d, k) <==> e in d && e.0 != k
  {
    RemoveHolds(d, k);
    var r := Remove(d, k);
    assert forall i | 0 <= i < |r| :: r[i] in r;
    if d != [] && d[0].0 != k {
      FirstApart(d);
      RemoveIs(d[1..], k);
      var rest := Remove(d[1..], k);
      assert forall i | 0 <= i < |rest| :: rest[i] in rest;
    }
  }

  lemma {:induction false} RemoveAbsent(d: Entries, k: CacheKey)
    requires !Has(d, k)
    ensures Remove(d, k) == d && forall id :: Put(d, k, id) == d + [(k, id)]
  {
    if d != [] {
      assert d[0].0 != k;
      assert forall i | 0 <= i < |d[1..]| :: d[1..][i] == d[i + 1];
      assert !Has(d[1..], k);
      RemoveAbsent(d[1..], k);
      forall id
        ensures Put(d, k, id) == d + [(k, id)]
      {
        assert Put(d, k, id) == [d[0]] + Put(d[1..], k, id);
      }
    }
  }

  lemma {:induction false} ExcludingNone(d: Entries)
    ensures Excluding(d, {}) == d
  {
    if d != [] { ExcludingNone(d[1..]); }
  }

  lemma {:induction false} ExcludingIs(d: Entries, gone: set<CacheKey>)
    requires Unique(d)
    ensures Unique(Excluding(d, gone))
    ensures forall e :: e in Excluding(d, gone) <==> e in d && e.0 !in gone
  {
    if d != [] {
      assert d == [d[0]] + d[1..];
      ExcludingIs(d[1..], gone);
      var rest := Excluding(d[1..], gone);
      forall i | 0 <= i < |rest|
        ensures rest[i].0 != d[0].0
      {
        assert rest[i] in d[1..];
      }
    }
  }

  lemma {:induction false} ExcludingOneMore(d: Entries, gone: set<CacheKey>, k: CacheKey)
    requires Unique(d) && k !in gone
    ensures Excluding(d, gone + {k}) == Remove(Excluding(d, gone), k)
  {
    if d != [] {
      ExcludingOneMore(d[1..], gone, k);
      ExcludingIs(d[1..], gone);
      if d[0].0 == k {
        var rest := Excluding(d[1..], gone);
        assert forall i | 0 <= i < |d[1..]| :: d[1..][i] == d[i + 1];
        assert forall i | 0 <= i < |rest| :: rest[i] in d[1..];
        assert !Has(rest, k);
        RemoveAbsent(rest, k);
        assert ([d[0]] + rest)[1..] == rest;
      } else if d[0].0 !in gone {
        assert ([d[0]] + Excluding(d[1..], gone))[1..] == Excluding(d[1..], gone);
      }
    }
  }

  // -- The same cache with times ----------------------------------------------------------------------

  /** What is held, and when each key was last stored or found by the fast path. */
  datatype Timed = Timed(held: map<CacheKey, nat>, used: map<CacheKey, nat>)

  /** The dictionary lists what is held from the least recently used to the most. */
  ghost predicate Lists(d: Entries, s: Timed) {
    && Unique(d)
    && s.used.Keys == s.held.Keys
    && (forall k, id :: (k, id) in d <==> k in s.held && s.held[k] == id)
    && InUseOrder(d, s.used)
  }

  ghost predicate InUseOrder(d: Entries, used: map<CacheKey, nat>) {
    (forall i | 0 <= i < |d| :: d[i].0 in used) && forall i, j | 0 <= i < j < |d| :: used[d[i].0] < used[d[j].0]
  }

  ghost predicate IsOldest(s: Timed, k: CacheKey) {
    k in s.held && k in s.used && forall j | j in s.used && j != k :: s.used[k] < s.used[j]
  }

  function Stored(s: Timed, k: CacheKey, id: nat, now: nat): Timed {
    Timed(s.held[k := id], s.used[k := now])
  }

  function Dropped(s: Timed, gone: set<CacheKey>): Timed { Timed(s.held - gone, s.used - gone) }

  /** Storing when at the bound makes room by dropping the entry used longest ago. */
  ghost predicate StoresWithin(s: Timed, k: CacheKey, id: nat, now: nat, bound: nat, s': Timed) {
    var stored := Stored(s, k, id, now);
    if |stored.held| <= bound then s' == stored
    else exists oldest :: IsOldest(stored, oldest) && s' == Dropped(stored, {oldest})
  }

  ghost predicate After(s: Timed, now: nat) { forall k | k in s.used :: s.used[k] < now }

  function KeysOf(d: Entries): set<CacheKey> { set e | e in d :: e.0 }

  lemma {:induction false} KeysCount(d: Entries)
    requires Unique(d)
    ensures |KeysOf(d)| == |d|
  {
    if d != [] {
      KeysCount(d[1..]);
      assert d == [d[0]] + d[1..];
      assert KeysOf(d) == {d[0].0} + KeysOf(d[1..]);
      forall e | e in d[1..]
        ensures e.0 != d[0].0
      {
        var i :| 0 <= i < |d[1..]| && d[1..][i] == e;
        assert d[i + 1] == e;
      }
    }
  }

  lemma CountKeys(d: Entries, held: map<CacheKey, nat>)
    requires Unique(d) && forall k, id :: (k, id) in d <==> k in held && held[k] == id
    ensures |held| == |d|
  {
    KeysCount(d);
    forall k
      ensures k in held.Keys <==> k in KeysOf(d)
    {
      if k in held { assert (k, held[k]) in d; }
      if k in KeysOf(d) {
        var e :| e in d && e.0 == k;
        assert (e.0, e.1) in d;
      }
    }
    assert held.Keys == KeysOf(d);
  }

  lemma FirstIsOldest(d: Entries, used: map<CacheKey, nat>)
    requires InUseOrder(d, used) && d != []
    ensures InUseOrder(d[1..], used)
    ensures forall e | e in d[1..] :: e.0 in used && used[d[0].0] < used[e.0]
  {
    forall e | e in d[1..]
      ensures e.0 in used && used[d[0].0] < used[e.0]
    {
      var i :| 0 <= i < |d[1..]| && d[1..][i] == e;
      assert d[i + 1] == e;
    }
    forall i, j | 0 <= i < j < |d[1..]|
      ensures d[1..][i].0 in used && d[1..][j].0 in used && used[d[1..][i].0] < used[d[1..][j].0]
    {
      assert d[1..][i] == d[i + 1] && d[1..][j] == d[j + 1];
    }
  }

  lemma OldestFirst(e: (CacheKey, nat), rest: Entries, used: map<CacheKey, nat>)
    requires InUseOrder(rest, used) && e.0 in used
    requires forall f | f in rest :: f.0 in used && used[e.0] < used[f.0]
    ensures InUseOrder([e] + rest, used)
  {
    var r := [e] + rest;
    forall i | 0 <= i < |rest|
      ensures rest[i].0 in used && used[e.0] < used[rest[i].0]
    {
      assert rest[i] in rest;
    }
  }

  lemma {:induction false} RemoveKeepsOrder(d: Entries, k: CacheKey, used: map<CacheKey, nat>)
    requires Unique(d) && InUseOrder(d, used)
    ensures InUseOrder(Remove(d, k), used)
  {
    if d != [] {
      FirstIsOldest(d, used);
      if d[0].0 != k {
        RemoveKeepsOrder(d[1..], k, used);
        RemoveIs(d[1..], k);
        OldestFirst(d[0], Remove(d[1..], k), used);
      }
    }
  }

  lemma PutLast(d: Entries, s: Timed, k: CacheKey, id: nat, now: nat)
    requires Lists(d, s) && After(s, now)
    ensures Lists(Remove(d, k) + [(k, id)], Stored(s, k, id, now))
  {
    RemoveIs(d, k);
    RemoveKeepsOrder(d, k, s.used);
    var rest, r, s' := Remove(d, k), Remove(d, k) + [(k, id)], Stored(s, k, id, now);
    assert Unique(r) by {
      forall i | 0 <= i < |rest|
        ensures rest[i].0 != k
      {
        assert rest[i] in rest;
      }
    }
    forall j, v
      ensures (j, v) in r <==> j in s'.held && s'.held[j] == v
    {
      if (j, v) in rest { assert (j, v) in d; }
      if j != k && j in s.held { assert (j, s.held[j]) in d; }
    }
    forall i | 0 <= i < |rest|
      ensures rest[i].0 in s'.used && s'.used[rest[i].0] < now && rest[i].0 != k
    {
      assert rest[i] in rest && rest[i] in d;
    }
  }

  lemma DropFirst(d: Entries, s: Timed)
    requires Lists(d, s) && d != []
    ensures IsOldest(s, d[0].0) && Lists(d[1..], Dropped(s, {d[0].0}))
  {
    var k := d[0].0;
    assert (d[0].0, d[0].1) in d;
    assert d == [d[0]] + d[1..];
    forall j | j in s.used && j != k
      ensures s.used[k] < s.used[j]
    {
      assert (j, s.held[j]) in d;
    }
    forall j, id
      ensures (j, id) in d[1..] <==> j in s.held && j != k && s.held[j] == id
    {
      if (j, id) in d[1..] {
        var i :| 0 <= i < |d[1..]| && d[1..][i] == (j, id);
        assert d[i + 1] == (j, id);
        assert (j, id) in d;
      }
      if j in s.held && j != k && s.held[j] == id { assert (j, id) in d; }
    }
  }

  lemma GrownToBound(d: Entries, k: CacheKey, id: nat, bound: nat)
    requires |d| <= bound && bound >= 1
    ensures var grown := Remove(d, k) + [(k, id)];
      && Remembered(d, k, id, bound) == (if |grown| <= bound then grown else grown[1..])
      && |Remembered(d, k, id, bound)| <= bound
      && Remembered(d, k, id, bound) != []
      && Remembered(d, k, id, bound)[|Remembered(d, k, id, bound)| - 1] == (k, id)
  {
    RemoveLength(d, k);
  }

  /** Remembering an entry is storing it with the time and, at the bound, dropping the entry
      whose last store or fast-path hit is oldest; the entry just stored survives. */
  lemma RememberRefines(d: Entries, s: Timed, k: CacheKey, id: nat, now: nat, bound: nat) returns (s': Timed)
    requires Lists(d, s) && After(s, now) && |d| <= bound && bound >= 1
    ensures StoresWithin(s, k, id, now, bound, s') && Lists(Remembered(d, k, id, bound), s')
    ensures |Remembered(d, k, id, bound)| <= bound && Held(Remembered(d, k, id, bound), k) == Some(id)
  {
    var grown, stored := Remove(d, k) + [(k, id)], Stored(s, k, id, now);
    GrownToBound(d, k, id, bound);
    PutLast(d, s, k, id, now);
    CountKeys(grown, stored.held);
    if |grown| <= bound {
      s' := stored;
    } else {
      DropFirst(grown, stored);
      s' := Dropped(stored, {grown[0].0});
    }
    LastGets(Remembered(d, k, id, bound), k, id);
  }

  lemma LastGets(d: Entries, k: CacheKey, id: nat)
    requires Unique(d) && d != [] && d[|d| - 1] == (k, id)
    ensures Held(d, k) == Some(id)
  {
    GetAt(d, |d| - 1);
  }

  lemma {:induction false} RemoveLength(d: Entries, k: CacheKey)
    ensures |Remove(d, k)| <= |d| <= |Remove(d, k)| + 1
  {
    if d != [] && d[0].0 != k { RemoveLength(d[1..], k); }
  }

  /** A fast-path hit makes its entry the most recently used and moves nothing else. */
  lemma TouchRefines(d: Entries, s: Timed, k: CacheKey, now: nat)
    requires Lists(d, s) && After(s, now) && Has(d, k)
    ensures Lists(Touched(d, k), Timed(s.held, s.used[k := now]))
    ensures |Touched(d, k)| == |d|
  {
    var id := Held(d, k).value;
    assert (k, id) in d;
    PutLast(d, s, k, id, now);
    assert s.held[k := id] == s.held;
    CountKeys(d, s.held);
    CountKeys(Touched(d, k), s.held);
  }

  /** Forgetting drops what it names and keeps the order of the rest. */
  lemma {:induction false} ExcludingKeepsOrder(d: Entries, gone: set<CacheKey>, used: map<CacheKey, nat>)
    requires Unique(d) && InUseOrder(d, used)
    ensures InUseOrder(Excluding(d, gone), used)
  {
    if d != [] {
      FirstIsOldest(d, used);
      ExcludingKeepsOrder(d[1..], gone, used);
      ExcludingIs(d[1..], gone);
      OldestFirst(d[0], Excluding(d[1..], gone), used);
    }
  }

  lemma ForgetRefines(d: Entries, s: Timed, token: string, namespace: Option<string>)
    requires Lists(d, s)
    ensures Lists(Forgotten(d, token, namespace), Dropped(s, Stale(d, token, namespace)))
    ensures |Forgotten(d, token, namespace)| <= |d|
    ensures forall k | Has(Forgotten(d, token, namespace), k) :: !Names(k, token, namespace)
  {
    var gone := Stale(d, token, namespace);
    ExcludingIs(d, gone);
    ExcludingKeepsOrder(d, gone, s.used);
    var r := Forgotten(d, token, namespace);
    assert forall i | 0 <= i < |r| :: r[i] in r;
    ExcludingLength(d, gone);
    forall k | Has(r, k)
      ensures !Names(k, token, namespace)
    {
      var i :| 0 <= i < |r| && r[i].0 == k;
      assert r[i] in d && r[i].0 !in gone;
    }
  }

  lemma {:induction false} ExcludingLength(d: Entries, gone: set<CacheKey>)
    ensures |Excluding(d, gone)| <= |d|
  {
    if d != [] { ExcludingLength(d[1..], gone); }
  }

  // -- Any sequence of uses ----------------------------------------------------------------------------

  /** The three ways the dictionary changes. */
  datatype Use = StoreUse(key: CacheKey, id: nat) | HitUse(key: CacheKey) | ForgetUse(token: string,
      namespace: Option<string>)

  function UsedOnce(d: Entries, u: Use, bound: nat): Entries {
    match u
    case StoreUse(k, id) => Remembered(d, k, id, bound)
    case HitUse(k) => Touched(d, k)
    case ForgetUse(token, namespace) => Forgotten(d, token, namespace)
  }

  function Contents(uses: seq<Use>, bound: nat): Entries {
    if uses == [] then [] else UsedOnce(Contents(uses[..|uses| - 1], bound), uses[|uses| - 1], bound)
  }

  ghost predicate TimedUse(s: Timed, u: Use, now: nat, bound: nat, s': Timed) {
    match u
    case StoreUse(k, id) => StoresWithin(s, k, id, now, bound, s')
    case HitUse(k) => s' == if k in s.held then Timed(s.held, s.used[k := now]) else s
    case ForgetUse(token, namespace) =>
      s' == Dropped(s, set k | k in s.held && Names(k, token, namespace))
  }

  /** The timed cache from empty, one state after each use. */
  ghost predicate TimedRun(ss: seq<Timed>, uses: seq<Use>, bound: nat) {
    |ss| == |uses| + 1 &&
    if uses == [] then ss[0] == Timed(map[], map[])
    else
      var n := |uses| - 1;
      TimedRun(ss[..n + 1], uses[..n], bound) && TimedUse(ss[n], uses[n], n, bound, ss[n + 1])
  }

  lemma StaleAreNamed(d: Entries, s: Timed, token: string, namespace: Option<string>)
    requires Lists(d, s)
    ensures Stale(d, token, namespace) == set k | k in s.held && Names(k, token, namespace)
  {
    forall k | k in s.held && Names(k, token, namespace)
      ensures k in Stale(d, token, namespace)
    {
      assert (k, s.held[k]) in d;
    }
    forall k | k in Stale(d, token, namespace)
      ensures k in s.held
    {
      var e :| e in d && Names(e.0, token, namespace) && e.0 == k;
      assert (e.0, e.1) in d;
    }
  }

  lemma AbsentIsNotHeld(d: Entries, s: Timed, k: CacheKey)
    requires Lists(d, s) && k in s.held
    ensures Has(d, k)
  {
    assert (k, s.held[k]) in d;
  }

  lemma HitRefines(d: Entries, s: Timed, k: CacheKey, now: nat)
    requires Lists(d, s) && After(s, now)
    ensures Lists(Touched(d, k), if k in s.held then Timed(s.held, s.used[k := now]) else s)
    ensures |Touched(d, k)| == |d|
  {
    if Has(d, k) {
      assert (k, Held(d, k).value) in d;
      TouchRefines(d, s, k, now);
    } else if k in s.held {
      AbsentIsNotHeld(d, s, k);
    }
  }

  lemma TimePasses(s: Timed, u: Use, now: nat, bound: nat, s': Timed)
    requires After(s, now) && TimedUse(s, u, now, bound, s')
    ensures After(s', now + 1)
  {}

  lemma UseRefines(d: Entries, s: Timed, u: Use, now: nat, bound: nat) returns (s': Timed)
    requires Lists(d, s) && After(s, now) && |d| <= bound && bound >= 1
    ensures TimedUse(s, u, now, bound, s') && Lists(UsedOnce(d, u, bound), s')
    ensures |UsedOnce(d, u, bound)| <= bound
  {
    match u
    case StoreUse(k, id) => s' := RememberRefines(d, s, k, id, now, bound);
    case HitUse(k) =>
      HitRefines(d, s, k, now);
      s' := if k in s.held then Timed(s.held, s.used[k := now]) else s;
    case ForgetUse(token, namespace) =>
      StaleAreNamed(d, s, token, namespace);
      ForgetRefines(d, s, token, namespace);
      s' := Dropped(s, Stale(d, token, namespace));
  }

  /** After any stores, fast-path hits and drops, in any order, the dictionary holds at most its
      bound and exactly what a cache that evicts by time of last use would hold. */
  lemma {:induction false} TheDictionaryIsABoundedRecencyCache(uses: seq<Use>, bound: nat) returns (ss: seq<Timed>)
    requires bound >= 1
    ensures TimedRun(ss, uses, bound) && Lists(Contents(uses, bound), ss[|uses|]) && After(ss[|uses|], |uses|)
    ensures |Contents(uses, bound)| <= bound
  {
    if uses == [] {
      ss := [Timed(map[], map[])];
    } else {
      var n := |uses| - 1;
      var before := TheDictionaryIsABoundedRecencyCache(uses[..n], bound);
      var last := UseRefines(Contents(uses[..n], bound), before[n], uses[n], n, bound);
      TimePasses(before[n], uses[n], n, bound, last);
      ss := before + [last];
      assert ss[..n + 1] == before;
    }
  }

  // -- Between two awaits --------------------------------------------------------------------------------

  /** `Lost` is a request that got no answer. */
  datatype Reply = Lost | Replied(code: nat, etag: Option<string>, body: Option<Json>)

  datatype Outcome = Answered(settings: ResolvedSettings) | Unavailable | Rejected(code: nat)

  /** What a write comes to: `Unknown` is no answer, or one that does not say what was saved. */
  datatype Saving = Saved(revision: int) | NotSaved(code: nat) | Unknown

  /** The cached entry, while it is younger than the time it may be served without asking. */
  function Hit(c: Client, key: CacheKey, now: real, ttl: real): Option<nat> {
    var cached := Held(c.entries, key);
    if cached.Some? && cached.value < |c.objects| && now - c.objects[cached.value].validatedAt < ttl
    then cached else None
  }

  /** `setdefault`, and one more caller. */
  function Entered(c: Client, key: CacheKey): (Client, nat) {
    if key in c.flights && c.flights[key] < |c.locks| then
      var f := c.flights[key];
      (c.(locks := c.locks[f := Flight(c.locks[f].callers + 1, c.locks[f].held)]), f)
    else
      (c.(flights := c.flights[key := |c.locks|], locks := c.locks + [Flight(1, false)]), |c.locks|)
  }

  /** One caller fewer, the last taking the lock along; whoever held the lock lets it go. */
  function Left(c: Client, key: CacheKey, f: nat, holding: bool): Client
    requires f < |c.locks| && c.locks[f].callers >= 1
  {
    var callers := c.locks[f].callers - 1;
    c.(locks := c.locks[f := Flight(callers, c.locks[f].held && !holding)],
       flights := if callers == 0 then c.flights - {key} else c.flights)
  }

  function Acquired(c: Client, f: nat): Client
    requires f < |c.locks|
  {
    c.(locks := c.locks[f := c.locks[f].(held := true)])
  }

  /** `_store`. */
  function Stores(c: Client, key: CacheKey, settings: ResolvedSettings, etag: string, now: real, bound: nat): Client {
    c.(fallbacks := c.fallbacks[key.namespace := settings.fallbacks],
       objects := c.objects + [Entry(settings, etag, now)],
       entries := Remembered(c.entries, key, |c.objects|, bound))
  }

  function Degrades(c: Client, key: CacheKey, cached: Option<nat>): Outcome
    requires cached.Some? ==> cached.value < |c.objects|
  {
    var held := if cached.Some? then Some(c.objects[cached.value].settings) else None;
    var known := if key.namespace in c.fallbacks then Some(c.fallbacks[key.namespace]) else None;
    match Degraded(key.namespace, held, known)
    case None => Unavailable
    case Some(settings) => Answered(settings)
  }

  /** What `_fetch` does once the answer is in. */
  function Receives(c: Client, key: CacheKey, cached: Option<nat>, reply: Reply, now: real, bound: nat): (Client,
      Outcome)
    requires cached.Some? ==> cached.value < |c.objects|
  {
    match reply
    case Lost => (c, Degrades(c, key, cached))
    case Replied(code, etag, body) =>
      if code == 304 && cached.Some? then
        var entry := c.objects[cached.value];
        (c.(objects := c.objects[cached.value := entry.(validatedAt := now)]), Answered(entry.settings))
      else if code >= 500 then (c, Degrades(c, key, cached))
      else if code >= 400 then (c, Rejected(code))
      else
        match DocumentOf(key.namespace, body)
        case Err(_) => (c, Degrades(c, key, cached))
        case Ok(settings) =>
          (Stores(c, key, settings, if etag.Some? then etag.value else "", now, bound), Answered(settings))
  }

  /** An answer that is not a document this client can use teaches it nothing: the cache, every
      entry in it, its times and the learned fallbacks are as they were. */
  lemma UnusableTeachesNothing(c: Client, key: CacheKey, cached: Option<nat>, reply: Reply, now: real, bound: nat)
    requires cached.Some? ==> cached.value < |c.objects|
    requires reply.Replied? ==> reply.code >= 400 || DocumentOf(key.namespace, reply.body).Err?
    requires reply.Replied? && reply.code == 304 ==> cached.None?
    ensures Receives(c, key, cached, reply, now, bound).0 == c
    ensures var outcome := Receives(c, key, cached, reply, now, bound).1;
      outcome.Answered? ==> outcome.settings.stale
  {}

  // -- The object ---------------------------------------------------------------------------------------

  method ListStale(d: Entries, token: string, namespace: Option<string>) returns (stale: seq<CacheKey>)
    requires Unique(d)
    ensures Distinct(stale) && Listed(stale) == Stale(d, token, namespace)
  {
    stale := [];
    for i := 0 to |d|
      invariant Distinct(stale) && Listed(stale) == Stale(d[..i], token, namespace)
    {
      StaleNext(d, i, token, namespace);
      if Names(d[i].0, token, namespace) {
        NotYetStale(d, i, token, namespace);
        stale := stale + [d[i].0];
      }
    }
    assert d[..|d|] == d;
  }

  /** What holds of the client between any two of its steps. */
  ghost predicate Sound(c: Client, bound: nat) {
    CacheSound(c.entries, |c.objects|, bound) && NoneStale(c.objects) && LocksSound(c.flights, c.locks)
  }

  ghost predicate CacheSound(entries: Entries, objects: nat, bound: nat) {
    Unique(entries) && |entries| <= bound && forall e | e in entries :: e.1 < objects
  }

  ghost predicate NoneStale(objects: seq<Entry>) { forall id | 0 <= id < |objects| :: !objects[id].settings.stale }

  ghost predicate LocksSound(flights: map<CacheKey, nat>, locks: seq<Flight>) {
    && (forall key | key in flights :: flights[key] < |locks| && locks[flights[key]].callers >= 1)
    && (forall j, k | j in flights && k in flights && j != k :: flights[j] != flights[k])
  }

  lemma PutLastUnique(d: Entries, k: CacheKey, id: nat)
    requires Unique(d)
    ensures Unique(Remove(d, k) + [(k, id)]) && forall e | e in Remove(d, k) + [(k, id)] :: e in d || e == (k, id)
  {
    RemoveIs(d, k);
    var rest := Remove(d, k);
    assert forall j | 0 <= j < |rest| :: rest[j] in rest;
  }

  lemma NewestUnique(d: Entries, bound: nat)
    requires Unique(d)
    ensures Unique(Newest(d, bound)) && |Newest(d, bound)| <= bound && forall e | e in Newest(d, bound) :: e in d
  {}

  lemma RememberedSound(d: Entries, objects: nat, k: CacheKey, id: nat, bound: nat)
    requires CacheSound(d, objects, bound) && id < objects
    ensures CacheSound(Remembered(d, k, id, bound), objects, bound)
    ensures bound >= 1 ==> Held(Remembered(d, k, id, bound), k) == Some(id)
  {
    PutLastUnique(d, k, id);
    NewestUnique(Remove(d, k) + [(k, id)], bound);
    if bound >= 1 {
      GrownToBound(d, k, id, bound);
      LastGets(Remembered(d, k, id, bound), k, id);
    }
  }

  lemma RememberKeepsSound(c: Client, k: CacheKey, id: nat, bound: nat)
    requires Sound(c, bound) && id < |c.objects|
    ensures Sound(c.(entries := Remembered(c.entries, k, id, bound)), bound)
    ensures bound >= 1 ==> Held(Remembered(c.entries, k, id, bound), k) == Some(id)
  {
    RememberedSound(c.entries, |c.objects|, k, id, bound);
  }

  lemma StoreKeepsSound(c: Client, key: CacheKey, settings: ResolvedSettings, etag: string, now: real, bound: nat)
    requires Sound(c, bound) && !settings.stale
    ensures Sound(Stores(c, key, settings, etag, now, bound), bound)
    ensures bound >= 1 ==> Held(Stores(c, key, settings, etag, now, bound).entries, key) == Some(|c.objects|)
  {
    RememberedSound(c.entries, |c.objects| + 1, key, |c.objects|, bound);
  }

  /** A result passed off as fresh. */
  predicate PassesForFresh(outcome: Outcome) { outcome.Answered? && !outcome.settings.stale }

  /** A result passed off as fresh is held as of now: what was already held, confirmed, or a new
      document, which a caller arriving within the time to live is served. With any other result
      nothing has been learned at all. */
  ghost predicate Learned(c: Client, key: CacheKey, cached: Option<nat>, now: real, ttl: real, bound: nat, c': Client,
                          outcome: Outcome) {
    if !PassesForFresh(outcome) then c' == c
    else if |c'.objects| == |c.objects| then
      && cached.Some? && cached.value < |c.objects|
      && c' == c.(objects := c.objects[cached.value := c.objects[cached.value].(validatedAt := now)])
      && outcome.settings == c.objects[cached.value].settings
    else
      && |c'.objects| == |c.objects| + 1 && c'.objects[..|c.objects|] == c.objects
      && c'.objects[|c.objects|].validatedAt == now && c'.objects[|c.objects|].settings == outcome.settings
      && (bound >= 1 && ttl > 0.0 ==> Hit(c', key, now, ttl) == Some(|c.objects|))
  }

  lemma ReceiveKeepsSound(c: Client, key: CacheKey, cached: Option<nat>, reply: Reply, now: real, ttl: real, bound: nat)
    requires Sound(c, bound) && (cached.Some? ==> cached.value < |c.objects|)
    ensures var (c', outcome) := Receives(c, key, cached, reply, now, bound);
      Sound(c', bound) && Learned(c, key, cached, now, ttl, bound, c', outcome)
  {
    if reply.Replied? && reply.code < 400 && !(reply.code == 304 && cached.Some?) {
      var document := DocumentOf(key.namespace, reply.body);
      if document.Ok? {
        StoreKeepsSound(c, key, document.value, if reply.etag.Some? then reply.etag.value else "", now, bound);
      }
    }
  }

  /** Popping and assigning puts a key at the end. */
  lemma PopThenPut(d: Entries, k: CacheKey, id: nat)
    requires Unique(d)
    ensures Put(Remove(d, k), k, id) == Remove(d, k) + [(k, id)]
  {
    RemoveIs(d, k);
    RemoveAbsent(Remove(d, k), k);
  }

  lemma TouchedSound(d: Entries, objects: nat, k: CacheKey, bound: nat)
    requires CacheSound(d, objects, bound)
    ensures CacheSound(Touched(d, k), objects, bound)
  {
    match Held(d, k)
    case None =>
    case Some(id) =>
      assert (k, id) in d;
      PutLastUnique(d, k, id);
      RemoveFound(d, k);
  }

  lemma ForgottenSound(d: Entries, objects: nat, token: string, namespace: Option<string>, bound: nat)
    requires CacheSound(d, objects, bound)
    ensures CacheSound(Forgotten(d, token, namespace), objects, bound)
  {
    ExcludingIs(d, Stale(d, token, namespace));
    ExcludingLength(d, Stale(d, token, namespace));
  }

  lemma EnteredSound(c: Client, key: CacheKey)
    requires LocksSound(c.flights, c.locks)
    ensures var c' := Entered(c, key).0; LocksSound(c'.flights, c'.locks)
  {}

  lemma LeftSound(c: Client, key: CacheKey, flight: nat, holding: bool)
    requires LocksSound(c.flights, c.locks) && key in c.flights && c.flights[key] == flight
    ensures var c' := Left(c, key, flight, holding); LocksSound(c'.flights, c'.locks)
  {}

  lemma {:induction false} RemoveFound(d: Entries, k: CacheKey)
    requires Has(d, k)
    ensures |Remove(d, k)| == |d| - 1
  {
    if d[0].0 != k {
      var i :| 0 <= i < |d| && d[i].0 == k;
      assert d[1..][i - 1].0 == k;
      RemoveFound(d[1..], k);
    }
  }

  class HttpSettingsClient {
    var entries: Entries
    var objects: seq<Entry>
    var fallbacks: map<string, Fallbacks>
    var flights: map<CacheKey, nat>
    var locks: seq<Flight>
    const ttl: real
    const maxEntries: nat

    constructor (ttl: real, maxEntries: nat)
      ensures Valid() && State() == COLD && this.ttl == ttl && this.maxEntries == maxEntries
    {
      this.ttl, this.maxEntries := ttl, maxEntries;
      entries, objects, fallbacks, flights, locks := [], [], map[], map[], [];
    }

    function State(): Client
      reads this
    {
      Client(entries, objects, fallbacks, flights, locks)
    }

    ghost predicate Valid()
      reads this
    {
      Sound(State(), maxEntries)
    }

    method Remember(key: CacheKey, id: nat)
      requires Valid() && id < |objects|
      modifies this`entries
      ensures Valid() && entries == Remembered(old(entries), key, id, maxEntries)
      ensures maxEntries >= 1 ==> Held(entries, key) == Some(id)
    {
      ghost var before := State();
      RememberKeepsSound(before, key, id, maxEntries);
      PopAndPut(key, id);
      Evict();
      assert State() == before.(entries := Remembered(before.entries, key, id, maxEntries));
    }

    method PopAndPut(key: CacheKey, id: nat)
      requires Unique(entries)
      modifies this`entries
      ensures entries == Remove(old(entries), key) + [(key, id)]
    {
      PopThenPut(entries, key, id);
      entries := Remove(entries, key);
      entries := Put(entries, key, id);
    }

    /** The end of `_remember`: the front goes until the bound is met. */
    method Evict()
      modifies this`entries
      ensures entries == Newest(old(entries), maxEntries)
    {
      ghost var grown := entries;
      while |entries| > maxEntries
        invariant |entries| <= |grown| && entries == grown[|grown| - |entries|..]
        invariant |entries| >= maxEntries || entries == grown
      {
        entries := entries[1..];
      }
    }

    method Touch(key: CacheKey)
      requires Valid()
      modifies this`entries
      ensures Valid() && entries == Touched(old(entries), key)
    {
      TouchedSound(entries, |objects|, key, maxEntries);
      var id := Held(entries, key);
      if id.Some? {
        PopAndPut(key, id.value);
      }
    }

    /** Both `forget` and the drop after a write: the keys are listed first, then deleted. */
    method Forget(token: string, namespace: Option<string>)
      requires Valid()
      modifies this`entries
      ensures Valid() && entries == Forgotten(old(entries), token, namespace)
      ensures forall e :: e in entries <==>
        e in old(entries) && !(e.0.token == token && (namespace.None? || e.0.namespace == namespace.value))
    {
      var before := entries;
      ExcludingIs(before, Stale(before, token, namespace));
      var stale := ListStale(before, token, namespace);
      ExcludingNone(before);
      assert Listed(stale[..0]) == {};
      for i := 0 to |stale|
        invariant entries == Excluding(before, Listed(stale[..i]))
      {
        ghost var gone := Listed(stale[..i]);
        assert stale[..i + 1] == stale[..i] + [stale[i]];
        assert Listed(stale[..i + 1]) == gone + {stale[i]};
        assert stale[i] !in gone;
        ExcludingOneMore(before, gone, stale[i]);
        entries := Remove(entries, stale[i]);
      }
      assert stale[..|stale|] == stale;
      ForgottenSound(before, |objects|, token, namespace, maxEntries);
    }

    /** The end of `set`: a write lost or refused drops nothing; any other drops the namespace's entries
        before its body is looked at, and is saved exactly when the body carries an integer revision. */
    method SetAnswered(token: string, namespace: string, reply: Reply) returns (r: Saving)
      requires Valid()
      modifies this`entries
      ensures Valid()
      ensures reply.Lost? ==> r == Unknown && entries == old(entries)
      ensures reply.Replied? && reply.code >= 400 ==> r == NotSaved(reply.code) && entries == old(entries)
      ensures reply.Replied? && reply.code < 400 ==>
        && entries == Forgotten(old(entries), token, Some(namespace))
        && (forall e :: e in entries <==> e in old(entries) && !(e.0.token == token && e.0.namespace == namespace))
        && !r.NotSaved?
        && forall n :: r == Saved(n) <==>
             reply.body.Some? && reply.body.value.JObject? && Get(reply.body.value.fields, "revision") == Some(JInt(n))
    {
      if reply.Lost? {
        return Unknown;
      }
      if reply.code >= 400 {
        return NotSaved(reply.code);
      }
      Forget(token, Some(namespace));
      var fields := JsonObject(reply.body);
      if fields.Err? {
        return Unknown;
      }
      var revision := RevisionIn(fields.value);
      return if revision.Ok? then Saved(revision.value) else Unknown;
    }

    /** `resolve` up to its first await: served at once, or in the queue for the key's lock. */
    method Arrive(key: CacheKey, now: real) returns (served: Option<nat>, flight: nat)
      requires Valid()
      modifies this`entries, this`flights, this`locks
      ensures Valid() && served == Hit(old(State()), key, now, ttl)
      ensures served.Some? ==> State() == old(State()).(entries := Touched(old(entries), key))
      ensures served.None? ==> (State(), flight) == Entered(old(State()), key)
      ensures served.None? ==> key in flights && flights[key] == flight
    {
      EnteredSound(State(), key);
      served, flight := Hit(State(), key, now, ttl), 0;
      if served.Some? {
        Touch(key);
        return;
      }
      if key !in flights {
        flights, locks := flights[key := |locks|], locks + [Flight(0, false)];
        assert locks[|locks| - 1 := Flight(1, false)] == old(locks) + [Flight(1, false)];
      }
      flight := flights[key];
      locks := locks[flight := Flight(locks[flight].callers + 1, locks[flight].held)];
    }

    /** The end of `resolve`, however it ends: the key keeps its lock exactly while callers are
        left, and no other key's lock is touched. */
    method Leave(key: CacheKey, flight: nat, holding: bool)
      requires Valid() && key in flights && flights[key] == flight
      modifies this`flights, this`locks
      ensures Valid() && State() == Left(old(State()), key, flight, holding)
      ensures key in flights <==> old(locks)[flight].callers > 1
      ensures key in flights ==> locks[flights[key]].callers == old(locks)[flight].callers - 1
      ensures forall k | k != key :: k in flights <==> k in old(flights)
      ensures forall k | k != key && k in flights ::
        flights[k] == old(flights)[k] && locks[flights[k]] == old(locks)[flights[k]]
    {
      LeftSound(State(), key, flight, holding);
      var f := locks[flight];
      locks := locks[flight := Flight(f.callers - 1, f.held && !holding)];
      if locks[flight].callers == 0 {
        flights := flights - {key};
      }
    }

    method Store(key: CacheKey, settings: ResolvedSettings, etag: string, now: real)
      requires Valid() && !settings.stale
      modifies this`entries, this`objects, this`fallbacks
      ensures Valid() && State() == Stores(old(State()), key, settings, etag, now, maxEntries)
      ensures maxEntries >= 1 ==> Held(entries, key) == Some(|objects| - 1)
    {
      StoreKeepsSound(State(), key, settings, etag, now, maxEntries);
      fallbacks := fallbacks[key.namespace := settings.fallbacks];
      objects := objects + [Entry(settings, etag, now)];
      Remember(key, |objects| - 1);
    }

    method Receive(key: CacheKey, cached: Option<nat>, reply: Reply, now: real) returns (outcome: Outcome)
      requires Valid() && (cached.Some? ==> cached.value < |objects|)
      modifies this`entries, this`objects, this`fallbacks
      ensures Valid() && (State(), outcome) == Receives(old(State()), key, cached, reply, now, maxEntries)
      ensures Learned(old(State()), key, cached, now, ttl, maxEntries, State(), outcome)
      ensures reply.Lost? || reply.code >= 500 || (reply.code < 400 && DocumentOf(key.namespace, reply.body).Err?
                                                   && !(reply.code == 304 && cached.Some?)) ==>
        && State() == old(State())
        && if cached.Some? then outcome == Answered(objects[cached.value].settings.(stale := true, refused := {}))
           else if key.namespace in fallbacks then
             var f := fallbacks[key.namespace];
             outcome == Answered(ResolvedSettings(key.namespace, DefaultsIn(f), f, None, true, RefusedIn(f)))
           else outcome == Unavailable
    {
      ReceiveKeepsSound(State(), key, cached, reply, now, ttl, maxEntries);
      if reply.Lost? {
        return Degrades(State(), key, cached);
      }
      if reply.code == 304 && cached.Some? {
        var entry := objects[cached.value];
        objects := objects[cached.value := entry.(validatedAt := now)];
        return Answered(entry.settings);
      }
      if reply.code >= 500 {
        return Degrades(State(), key, cached);
      }
      if reply.code >= 400 {
        return Rejected(reply.code);
      }
      var document := DocumentOf(key.namespace, reply.body);
      if document.Err? {
        return Degrades(State(), key, cached);
      }
      Store(key, document.value, if reply.etag.Some? then reply.etag.value else "", now);
      return Answered(document.value);
    }
  }
}
