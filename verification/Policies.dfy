/** Operator policy: narrowing the catalogue for one deployment, and never widening it. */
module Policies {
  import opened Core
  import opened Dicts
  import opened Json
  import opened SettingTypes
  import opened Catalogue

  datatype Policy = Policy(overrides: map<string, SettingDef>, pins: map<string, Value>) {
    function DefinitionOf(d: SettingDef): SettingDef {
      if d.Qualified() in overrides then overrides[d.Qualified()] else d
    }

    predicate IsPinned(d: SettingDef) { d.Qualified() in pins }

    function PinOn(d: SettingDef): Option<Value> {
      if d.Qualified() in pins then Some(pins[d.Qualified()]) else None
    }
  }

  const NO_POLICY := Policy(map[], map[])

  datatype PolicyError = Malformed | UnknownName | NotClampable | Widens | NotAllowed

  /** Everything a policy may say about one setting. */
  datatype Clauses = Clauses(
    pin: Option<Json>,
    default: Option<Json>,
    minimum: Option<Json>,
    maximum: Option<Json>,
    choices: Option<Json>,
    maxItems: Option<Json>
  )

  function ClausesIn(fields: Dict<string, Json>): Clauses {
    Clauses(Get(fields, "pin"), Get(fields, "default"), Get(fields, "minimum"),
            Get(fields, "maximum"), Get(fields, "choices"), Get(fields, "max_items"))
  }

  const CLAUSES := {"pin", "default", "minimum", "maximum", "choices", "max_items"}
  const CLAMPING := {"minimum", "maximum", "choices", "max_items"}

  // -- One setting ----------------------------------------------------------------------

  /** `_is_value`: the JSON shapes a setting may hold. */
  function AsValue(j: Json): Option<Value> {
    match j
    case JNull => Some(Null)
    case JBool(b) => Some(Bool(b))
    case JInt(n) => Some(Int(n))
    case JStr(s) => Some(Str(s))
    case JList(items) =>
      if forall i | 0 <= i < |items| :: items[i].JStr?
      then Some(Strs(seq(|items|, i requires 0 <= i < |items| && items[i].JStr? => items[i].s)))
      else None
    case _ => None
  }

  /** The JSON text of a setting's value. */
  predicate Spells(j: Json, v: Value) {
    match v
    case Null => j.JNull?
    case Bool(b) => j == JBool(b)
    case Int(n) => j == JInt(n)
    case Str(s) => j == JStr(s)
    case Strs(items) => j.JList? && |j.items| == |items| && forall i | 0 <= i < |items| :: j.items[i] == JStr(items[i])
  }

  lemma ReadAsSpelled(j: Json, v: Value)
    ensures AsValue(j) == Some(v) <==> Spells(j, v)
  {
    if j.JList? && v.Strs? && Spells(j, v) {
      assert AsValue(j).value.items == v.items;
    }
  }

  /** A text spells one value at most. */
  lemma SpelledOnce(j: Json, v: Value, u: Value)
    requires Spells(j, v) && Spells(j, u)
    ensures v == u
  {
    ReadAsSpelled(j, v);
    ReadAsSpelled(j, u);
  }

  function Checked(lib: Library, d: SettingDef, j: Json): Result<Value, PolicyError> {
    var v := AsValue(j);
    if v.Some? && Legal(lib, d, v.value) then Ok(v.value) else Err(NotAllowed)
  }

  type Narrowed = Result<Bounds, PolicyError>

  /** A minimum a policy may only raise. */
  function Raised(t: SettingType, b: Bounds, j: Json): Narrowed {
    if !j.JInt? || !t.IntType? then Err(Malformed)
    else if !AtLeast(j.n, b.minimum) then Err(Widens)
    else Ok(b.(minimum := Some(j.n)))
  }

  /** A maximum a policy may only lower. */
  function Lowered(t: SettingType, b: Bounds, j: Json): Narrowed {
    if !j.JInt? || !t.IntType? then Err(Malformed)
    else if !AtMost(j.n, b.maximum) then Err(Widens)
    else Ok(b.(maximum := Some(j.n)))
  }

  /** The choices of an entry that a list names, in the entry's own order. */
  function Kept(choices: seq<string>, names: seq<Json>): seq<string> {
    if choices == [] then []
    else (if JStr(choices[0]) in names then [choices[0]] else []) + Kept(choices[1..], names)
  }

  /** Enum choices a policy may only remove from. */
  function Subset(t: SettingType, b: Bounds, j: Json): Narrowed {
    if !t.EnumType? || !j.JList? || exists i | 0 <= i < |j.items| :: !j.items[i].JStr? then Err(Malformed)
    else if j.items == [] then Err(Malformed)
    else if exists i | 0 <= i < |j.items| :: j.items[i].s !in b.choices then Err(Widens)
    else Ok(b.(choices := Kept(b.choices, j.items)))
  }

  /** A list cap a policy may only lower. */
  function Fewer(t: SettingType, b: Bounds, j: Json): Narrowed {
    if !t.StrListType? || !j.JInt? then Err(Malformed)
    else if !AtMost(j.n, b.maxItems) then Err(Widens)
    else Ok(b.(maxItems := Some(j.n)))
  }

  /** The bounds after the four bounding clauses, in their fixed order. */
  function Bounded(t: SettingType, b: Bounds, clauses: Clauses): Narrowed {
    var b1 := if clauses.minimum.None? then Ok(b) else Raised(t, b, clauses.minimum.value);
    var b2 := if b1.Err? || clauses.maximum.None? then b1 else Lowered(t, b1.value, clauses.maximum.value);
    var b3 := if b2.Err? || clauses.choices.None? then b2 else Subset(t, b2.value, clauses.choices.value);
    if b3.Err? || clauses.maxItems.None? then b3 else Fewer(t, b3.value, clauses.maxItems.value)
  }

  /** `_narrow`: the bounds first, then the default, checked against what the bounds left. */
  function Narrow(lib: Library, d: SettingDef, clauses: Clauses): Result<SettingDef, PolicyError> {
    var bounds := Bounded(d.valueType, d.bounds, clauses);
    if bounds.Err? then Err(bounds.error)
    else
      var e := d.(bounds := bounds.value);
      if clauses.default.None? then Ok(e)
      else
        var v := Checked(lib, e, clauses.default.value);
        if v.Err? then Err(v.error) else Ok(e.(default := v.value))
  }

  // -- The whole document ------------------------------------------------------------------

  /** What one setting's clauses add to the policy built so far. */
  function ParseSetting(lib: Library, c: Catalogue, namespace: string, key: string, clauses: Json, p: Policy)
    : Result<Policy, PolicyError>
  {
    match DefinitionFor(c, namespace, key)
    case Err(_) => Err(UnknownName)
    case Ok(d) =>
      if !clauses.JObject? then Err(Malformed)
      else if exists i | 0 <= i < |clauses.fields| :: clauses.fields[i].0 !in CLAUSES then Err(Malformed)
      else if !d.operatorClampable && exists i | 0 <= i < |clauses.fields| :: clauses.fields[i].0 in CLAMPING
      then Err(NotClampable)
      else
        var read := ClausesIn(clauses.fields);
        var narrowed :- Narrow(lib, d, read);
        var q := if narrowed != d then p.(overrides := p.overrides[d.Qualified() := narrowed]) else p;
        match read.pin
        case None => Ok(q)
        case Some(j) =>
          var v :- Checked(lib, narrowed, j);
          Ok(q.(pins := q.pins[d.Qualified() := v]))
  }

  function ParseSettings(lib: Library, c: Catalogue, namespace: string, settings: Dict<string, Json>, p: Policy)
    : Result<Policy, PolicyError>
  {
    if settings == [] then Ok(p)
    else
      var n := |settings| - 1;
      var q :- ParseSettings(lib, c, namespace, settings[..n], p);
      ParseSetting(lib, c, namespace, settings[n].0, settings[n].1, q)
  }

  function ParseNamespaces(lib: Library, c: Catalogue, document: Dict<string, Json>): Result<Policy, PolicyError> {
    if document == [] then Ok(NO_POLICY)
    else
      var n := |document| - 1;
      var p :- ParseNamespaces(lib, c, document[..n]);
      if !Has(c, document[n].0) then Err(UnknownName)
      else if !document[n].1.JObject? then Err(Malformed)
      else ParseSettings(lib, c, document[n].0, document[n].1.fields, p)
  }

  function ParseSpec(lib: Library, c: Catalogue, document: Json): Result<Policy, PolicyError> {
    if document.JObject? then ParseNamespaces(lib, c, document.fields) else Err(Malformed)
  }

  /** `parse`: fills the overrides and the pins, namespace by namespace and key by key, and
      stops at the first thing it refuses. */
  method Parse(lib: Library, c: Catalogue, document: Json) returns (r: Result<Policy, PolicyError>)
    ensures r == ParseSpec(lib, c, document)
  {
    if !document.JObject? {
      return Err(Malformed);
    }
    var fields := document.fields;
    var policy := NO_POLICY;
    for n := 0 to |fields|
      invariant ParseNamespaces(lib, c, fields[..n]) == Ok(policy)
    {
      assert fields[..n + 1][..n] == fields[..n];
      NamespacesRefuse(lib, c, fields, n + 1);
      if !Has(c, fields[n].0) {
        return Err(UnknownName);
      }
      if !fields[n].1.JObject? {
        return Err(Malformed);
      }
      var next := ParseSettingsIn(lib, c, fields[n].0, fields[n].1.fields, policy);
      if next.Err? {
        return next;
      }
      policy := next.value;
    }
    assert fields[..|fields|] == fields;
    return Ok(policy);
  }

  /** The inner loop: one namespace's settings. */
  method ParseSettingsIn(lib: Library, c: Catalogue, namespace: string, settings: Dict<string, Json>, before: Policy)
    returns (r: Result<Policy, PolicyError>)
    ensures r == ParseSettings(lib, c, namespace, settings, before)
  {
    var policy := before;
    for i := 0 to |settings|
      invariant ParseSettings(lib, c, namespace, settings[..i], before) == Ok(policy)
    {
      assert settings[..i + 1][..i] == settings[..i];
      SettingsRefuse(lib, c, namespace, settings, before, i + 1);
      var next := ParseSetting(lib, c, namespace, settings[i].0, settings[i].1, policy);
      if next.Err? {
        return next;
      }
      policy := next.value;
    }
    assert settings[..|settings|] == settings;
    return Ok(policy);
  }

  /** The first refusal is the answer, whatever follows it. */
  lemma {:induction false} SettingsRefuse(lib: Library, c: Catalogue, namespace: string,
                                          settings: Dict<string, Json>, p: Policy, k: nat)
    requires k <= |settings|
    ensures var r := ParseSettings(lib, c, namespace, settings[..k], p);
      r.Err? ==> ParseSettings(lib, c, namespace, settings, p) == r
    decreases |settings| - k
  {
    if k == |settings| {
      assert settings[..k] == settings;
    } else {
      assert settings[..k + 1][..k] == settings[..k];
      SettingsRefuse(lib, c, namespace, settings, p, k + 1);
    }
  }

  lemma {:induction false} NamespacesRefuse(lib: Library, c: Catalogue, document: Dict<string, Json>, k: nat)
    requires k <= |document|
    ensures var r := ParseNamespaces(lib, c, document[..k]);
      r.Err? ==> ParseNamespaces(lib, c, document) == r
    decreases |document| - k
  {
    if k == |document| {
      assert document[..k] == document;
    } else {
      assert document[..k + 1][..k] == document[..k];
      NamespacesRefuse(lib, c, document, k + 1);
    }
  }

  // -- Narrowing ---------------------------------------------------------------------------

  ghost predicate Subsequence<T>(s: seq<T>, t: seq<T>) {
    if s == [] then true
    else t != [] && (if s[0] == t[0] then Subsequence(s[1..], t[1..]) else Subsequence(s, t[1..]))
  }

  /** `e` is `d` with tighter bounds, fewer choices and perhaps another default. */
  ghost predicate Tightens(lib: Library, d: SettingDef, e: SettingDef) {
    && e == d.(bounds := e.bounds, default := e.default)
    && (forall v :: Legal(lib, e, v) ==> Legal(lib, d, v))
    && ChoicesKept(d.valueType, d.bounds, e.bounds)
    && (e.default == d.default || Legal(lib, e, e.default))
  }

  /** Narrowed choices are a non-empty, duplicate-free subsequence of the originals. */
  ghost predicate ChoicesKept(t: SettingType, b: Bounds, c: Bounds) {
    t.EnumType? ==> c.choices != [] && Distinct(c.choices) && Subsequence(c.choices, b.choices)
  }

  predicate Tighter(b: Bounds, c: Bounds) {
    && (b.minimum.Some? ==> c.minimum.Some? && b.minimum.value <= c.minimum.value)
    && (b.maximum.Some? ==> c.maximum.Some? && c.maximum.value <= b.maximum.value)
    && (b.maxItems.Some? ==> c.maxItems.Some? && c.maxItems.value <= b.maxItems.value)
    && (forall s | s in c.choices :: s in b.choices)
  }

  lemma {:induction false} KeptIsSubsequence(choices: seq<string>, names: seq<Json>)
    ensures Subsequence(Kept(choices, names), choices)
    ensures forall s :: s in Kept(choices, names) <==> s in choices && JStr(s) in names
    ensures Distinct(choices) ==> Distinct(Kept(choices, names))
  {
    if choices != [] {
      KeptIsSubsequence(choices[1..], names);
      assert choices == [choices[0]] + choices[1..];
      if JStr(choices[0]) in names {
        assert Kept(choices, names)[1..] == Kept(choices[1..], names);
      } else {
        var k := Kept(choices[1..], names);
        assert k != [] ==> k[0] in k;
        assert Kept(choices, names) == k;
      }
    }
  }

  lemma {:induction false} SubsequenceOfItself<T>(s: seq<T>)
    ensures Subsequence(s, s)
  {
    if s != [] { SubsequenceOfItself(s[1..]); }
  }

  lemma BoundedTightens(t: SettingType, b: Bounds, clauses: Clauses)
    requires t.EnumType? ==> b.choices != [] && Distinct(b.choices)
    requires Bounded(t, b, clauses).Ok?
    ensures Tighter(b, Bounded(t, b, clauses).value)
    ensures ChoicesKept(t, b, Bounded(t, b, clauses).value)
  {
    SubsequenceOfItself(b.choices);
    if t.EnumType? && clauses.choices.Some? {
      var items := clauses.choices.value.items;
      KeptIsSubsequence(b.choices, items);
      assert items[0] == JStr(items[0].s);
      assert items[0].s in Kept(b.choices, items);
    }
  }

  lemma TighterAllowsLess(lib: Library, d: SettingDef, e: SettingDef, v: Value)
    requires e == d.(bounds := e.bounds, default := e.default) && Tighter(d.bounds, e.bounds)
    ensures Legal(lib, e, v) ==> Legal(lib, d, v)
  {}

  lemma NarrowTightens(lib: Library, d: SettingDef, clauses: Clauses)
    requires WellFormedEntry(lib, d)
    requires Narrow(lib, d, clauses).Ok?
    ensures Tightens(lib, d, Narrow(lib, d, clauses).value)
  {
    BoundedTightens(d.valueType, d.bounds, clauses);
    var e := Narrow(lib, d, clauses).value;
    forall v
      ensures Legal(lib, e, v) ==> Legal(lib, d, v)
    {
      TighterAllowsLess(lib, d, e, v);
    }
  }

  // -- Exactly what narrowing leaves ----------------------------------------------------------

  function IntClause(j: Option<Json>): Option<int> {
    if j.Some? && j.value.JInt? then Some(j.value.n) else None
  }

  /** Whether a value lies inside the bounds one setting's clauses set. */
  predicate StaysInside(t: SettingType, clauses: Clauses, v: Value) {
    match t
    case IntType =>
      v.Int? ==> AtLeast(v.n, IntClause(clauses.minimum)) && AtMost(v.n, IntClause(clauses.maximum))
    case EnumType =>
      var j := clauses.choices;
      v.Str? && j.Some? && j.value.JList? ==> JStr(v.s) in j.value.items
    case StrListType => v.Strs? ==> AtMost(|v.items|, IntClause(clauses.maxItems))
    case _ => true
  }

  /** Entries that differ in bounds and default only. */
  ghost predicate SameBut(d: SettingDef, e: SettingDef) { e == d.(bounds := e.bounds, default := e.default) }

  lemma ChoicesAllow(lib: Library, d: SettingDef, e: SettingDef, clauses: Clauses, v: Value)
    requires d.valueType.EnumType? && SameBut(d, e) && Bounded(EnumType, d.bounds, clauses) == Ok(e.bounds)
    ensures Legal(lib, e, v) <==> Legal(lib, d, v) && StaysInside(EnumType, clauses, v)
  {
    BoundedChoices(d.bounds, clauses);
  }

  lemma NumbersAllow(lib: Library, d: SettingDef, e: SettingDef, clauses: Clauses, v: Value)
    requires d.valueType.IntType? || d.valueType.StrListType?
    requires SameBut(d, e) && Bounded(d.valueType, d.bounds, clauses) == Ok(e.bounds)
    ensures Legal(lib, e, v) <==> Legal(lib, d, v) && StaysInside(d.valueType, clauses, v)
  {
    BoundedNumbers(d.valueType, d.bounds, clauses);
  }

  lemma NothingToBound(t: SettingType, b: Bounds, clauses: Clauses)
    requires (t.BoolType? || t.StrType?) && Bounded(t, b, clauses).Ok?
    ensures Bounded(t, b, clauses).value == b
  {}

  /** A narrowed entry allows exactly the values that the catalogue allows and the clauses do:
      no clause is dropped and none takes more than it says. */
  lemma NarrowAllowsExactly(lib: Library, d: SettingDef, clauses: Clauses, v: Value)
    requires Narrow(lib, d, clauses).Ok?
    ensures Legal(lib, Narrow(lib, d, clauses).value, v) <==> Legal(lib, d, v) && StaysInside(d.valueType, clauses, v)
  {
    var e := Narrow(lib, d, clauses).value;
    if d.valueType.EnumType? {
      ChoicesAllow(lib, d, e, clauses, v);
    } else if d.valueType.IntType? || d.valueType.StrListType? {
      NumbersAllow(lib, d, e, clauses, v);
    } else {
      NothingToBound(d.valueType, d.bounds, clauses);
    }
  }

  lemma BoundedChoices(b: Bounds, clauses: Clauses)
    requires Bounded(EnumType, b, clauses).Ok?
    ensures forall s :: s in Bounded(EnumType, b, clauses).value.choices <==>
      s in b.choices &&
        (clauses.choices.Some? ==> clauses.choices.value.JList? && JStr(s) in clauses.choices.value.items)
  {
    if clauses.choices.Some? { KeptIsSubsequence(b.choices, clauses.choices.value.items); }
  }

  lemma BoundedNumbers(t: SettingType, b: Bounds, clauses: Clauses)
    requires Bounded(t, b, clauses).Ok?
    ensures var c := Bounded(t, b, clauses).value;
      && c.minimum == (if clauses.minimum.Some? then IntClause(clauses.minimum) else b.minimum)
      && c.maximum == (if clauses.maximum.Some? then IntClause(clauses.maximum) else b.maximum)
      && c.maxItems == (if clauses.maxItems.Some? then IntClause(clauses.maxItems) else b.maxItems)
      && (clauses.minimum.Some? ==> clauses.minimum.value.JInt? && AtLeast(clauses.minimum.value.n, b.minimum))
      && (clauses.maximum.Some? ==> clauses.maximum.value.JInt? && AtMost(clauses.maximum.value.n, b.maximum))
      && (clauses.maxItems.Some? ==> clauses.maxItems.value.JInt? && AtMost(clauses.maxItems.value.n, b.maxItems))
  {}

  /** Nothing re-checks the catalogue's default against narrowed bounds. The narrowed default is
      legal exactly when the policy gives one, or the catalogue's stays inside. */
  lemma NarrowedDefaultIsLegalExactlyWhen(lib: Library, d: SettingDef, clauses: Clauses)
    requires WellFormedEntry(lib, d)
    requires Narrow(lib, d, clauses).Ok?
    ensures var e := Narrow(lib, d, clauses).value;
      Legal(lib, e, e.default) <==> clauses.default.Some? || StaysInside(d.valueType, clauses, d.default)
  {
    var e := Narrow(lib, d, clauses).value;
    if clauses.default.None? {
      NarrowAllowsExactly(lib, d, clauses, d.default);
    } else {
      var bounded := d.(bounds := e.bounds);
      assert e == bounded.(default := e.default);
      assert Legal(lib, bounded, e.default);
    }
  }

  // -- When a policy contradicts itself -----------------------------------------------------------

  /** Nothing said about a setting. */
  const NO_CLAUSES := Clauses(None, None, None, None, None, None)

  /** The bound in force: the clause's where there is one, else the entry's. */
  function InForce(clause: Option<Json>, bound: Option<int>): Option<int> {
    if clause.Some? then IntClause(clause) else bound
  }

  /** What an operator can read off the entry and the clauses: the range is not empty, and the
      list cap not negative. */
  predicate LeavesRoom(d: SettingDef, clauses: Clauses) {
    d.nullable ||
    match d.valueType
    case IntType =>
      var low, high := InForce(clauses.minimum, d.bounds.minimum), InForce(clauses.maximum, d.bounds.maximum);
      low.Some? && high.Some? ==> low.value <= high.value
    case StrListType => AtMost(0, InForce(clauses.maxItems, d.bounds.maxItems))
    case _ => true
  }

  ghost predicate Satisfiable(lib: Library, d: SettingDef) { exists v :: Legal(lib, d, v) }

  lemma RangeSatisfiable(lib: Library, d: SettingDef)
    requires d.valueType.IntType? && !d.nullable
    ensures Satisfiable(lib, d) <==>
      (d.bounds.minimum.Some? && d.bounds.maximum.Some? ==> d.bounds.minimum.value <= d.bounds.maximum.value)
  {
    var b := d.bounds;
    var v := Int(if b.minimum.Some? then b.minimum.value else if b.maximum.Some? then b.maximum.value else 0);
    if b.minimum.Some? && b.maximum.Some? ==> b.minimum.value <= b.maximum.value {
      assert Legal(lib, d, v);
    }
  }

  lemma ListSatisfiable(lib: Library, d: SettingDef)
    requires d.valueType.StrListType? && !d.nullable
    ensures Satisfiable(lib, d) <==> AtMost(0, d.bounds.maxItems)
  {
    if AtMost(0, d.bounds.maxItems) { assert Legal(lib, d, Strs([])); }
  }

  /** An accepted narrowing leaves a setting some legal value if and only if it leaves room.
      Nothing else can empty it: the parser checks that choices stay, and does not check the rest. */
  lemma NarrowedIsSatisfiableExactlyWhen(lib: Library, d: SettingDef, clauses: Clauses)
    requires WellFormedEntry(lib, d)
    requires Narrow(lib, d, clauses).Ok?
    ensures Satisfiable(lib, Narrow(lib, d, clauses).value) <==> LeavesRoom(d, clauses)
  {
    var e := Narrow(lib, d, clauses).value;
    if d.nullable {
      assert Legal(lib, e, Null);
    } else if d.valueType.IntType? || d.valueType.StrListType? {
      NumbersSatisfiable(lib, d, e, clauses);
    } else if d.valueType.EnumType? {
      BoundedTightens(EnumType, d.bounds, clauses);
      ChoiceSatisfies(lib, e);
    } else {
      NarrowAllowsExactly(lib, d, clauses, d.default);
    }
  }

  lemma NumbersSatisfiable(lib: Library, d: SettingDef, e: SettingDef, clauses: Clauses)
    requires (d.valueType.IntType? || d.valueType.StrListType?) && !d.nullable
    requires SameBut(d, e) && Bounded(d.valueType, d.bounds, clauses) == Ok(e.bounds)
    ensures Satisfiable(lib, e) <==> LeavesRoom(d, clauses)
  {
    BoundedNumbers(d.valueType, d.bounds, clauses);
    if d.valueType.IntType? { RangeSatisfiable(lib, e); } else { ListSatisfiable(lib, e); }
  }

  lemma ChoiceSatisfies(lib: Library, e: SettingDef)
    requires e.valueType.EnumType? && e.bounds.choices != []
    ensures Satisfiable(lib, e)
  {
    assert Legal(lib, e, Str(e.bounds.choices[0]));
  }

  /** Two clause sets that are accepted and contradict themselves: a minimum above the maximum,
      and a negative list cap. */
  lemma ContradictionsAreAccepted(lib: Library, d: SettingDef, e: SettingDef)
    requires WellFormedEntry(lib, d) && d.valueType.IntType? && d.bounds.minimum == d.bounds.maximum == None
    requires !d.nullable
    requires WellFormedEntry(lib, e) && e.valueType.StrListType? && e.bounds.maxItems == None && !e.nullable
    ensures var crossed := NO_CLAUSES.(minimum := Some(JInt(10)), maximum := Some(JInt(3)));
      Narrow(lib, d, crossed).Ok? && !Satisfiable(lib, Narrow(lib, d, crossed).value)
    ensures var negative := NO_CLAUSES.(maxItems := Some(JInt(-1)));
      Narrow(lib, e, negative).Ok? && !Satisfiable(lib, Narrow(lib, e, negative).value)
  {
    NarrowedIsSatisfiableExactlyWhen(lib, d, NO_CLAUSES.(minimum := Some(JInt(10)), maximum := Some(JInt(3))));
    NarrowedIsSatisfiableExactlyWhen(lib, e, NO_CLAUSES.(maxItems := Some(JInt(-1))));
  }

  // -- Every accepted document narrows ----------------------------------------------------------

  /** A parsed document is made of dictionaries: no key occurs twice at either level. */
  ghost predicate WellKeyed(document: Json) {
    document.JObject? ==>
      && Unique(document.fields)
      && forall i | 0 <= i < |document.fields| ::
           document.fields[i].1.JObject? ==> Unique(document.fields[i].1.fields)
  }

  predicate LiveAt(c: Catalogue, q: string) {
    q in Index(c) && !Index(c)[q].Retired() && Index(c)[q].Qualified() == q
  }

  /** What holds of a policy at every point of `parse`. */
  ghost predicate Sound(lib: Library, c: Catalogue, p: Policy) {
    && (forall q | q in p.overrides :: LiveAt(c, q) && Tightens(lib, Index(c)[q], p.overrides[q]))
    && (forall q | q in p.pins :: LiveAt(c, q) && Legal(lib, p.DefinitionOf(Index(c)[q]), p.pins[q]))
  }

  /** Everything the policy speaks of lies in the namespaces done, or in the keys done of the
      one at hand. */
  ghost predicate Within(c: Catalogue, p: Policy, done: set<string>, namespace: string, keys: set<string>) {
    forall q | q in p.overrides || q in p.pins ::
      q in Index(c) &&
      (Index(c)[q].namespace in done || (Index(c)[q].namespace == namespace && Index(c)[q].key in keys))
  }

  /** What one accepted clause set makes of the policy: at most one override and one pin. */
  ghost predicate Extends(lib: Library, p: Policy, d: SettingDef, r: Policy) {
    var q := d.Qualified();
    && (r.overrides == p.overrides || (exists e :: Tightens(lib, d, e) && r.overrides == p.overrides[q := e]))
    && (r.pins == p.pins || (exists v :: Legal(lib, r.DefinitionOf(d), v) && r.pins == p.pins[q := v]))
  }

  lemma SettingExtends(lib: Library, c: Catalogue, namespace: string, key: string, clauses: Json, p: Policy)
    requires WellFormed(lib, c)
    requires ParseSetting(lib, c, namespace, key, clauses, p).Ok?
    requires Name(namespace, key).Qualified() !in p.overrides
    ensures Extends(lib, p, DefinitionFor(c, namespace, key).value,
                    ParseSetting(lib, c, namespace, key, clauses, p).value)
  {
    FoundEntry(lib, c, namespace, key);
    SettingEnters(lib, c, namespace, key, clauses, p);
    EnteredExtends(lib, p, DefinitionFor(c, namespace, key).value, ClausesIn(clauses.fields),
                   ParseSetting(lib, c, namespace, key, clauses, p).value);
  }

  lemma EnteredExtends(lib: Library, p: Policy, d: SettingDef, read: Clauses, r: Policy)
    requires WellFormedEntry(lib, d) && Entered(lib, p, d, read, r) && d.Qualified() !in p.overrides
    ensures Extends(lib, p, d, r)
  {
    NarrowTightens(lib, d, read);
    var narrowed := Narrow(lib, d, read).value;
    assert r.DefinitionOf(d) == narrowed;
    if read.pin.Some? {
      var v := Checked(lib, narrowed, read.pin.value).value;
      assert Legal(lib, r.DefinitionOf(d), v) && r.pins == p.pins[d.Qualified() := v];
    }
  }

  lemma ExtensionIsSound(lib: Library, c: Catalogue, p: Policy, d: SettingDef, r: Policy)
    requires Sound(lib, c, p) && Extends(lib, p, d, r)
    requires LiveAt(c, d.Qualified()) && Index(c)[d.Qualified()] == d
    requires d.Qualified() !in p.overrides && d.Qualified() !in p.pins
    ensures Sound(lib, c, r)
  {
    forall q | q in r.pins
      ensures LiveAt(c, q) && Legal(lib, r.DefinitionOf(Index(c)[q]), r.pins[q])
    {
      if q != d.Qualified() {
        assert r.DefinitionOf(Index(c)[q]) == p.DefinitionOf(Index(c)[q]);
      }
    }
  }

  lemma SettingStaysSound(lib: Library, c: Catalogue, namespace: string, key: string, clauses: Json,
                          p: Policy, done: set<string>, keys: set<string>)
    requires WellFormed(lib, c) && Sound(lib, c, p) && Within(c, p, done, namespace, keys)
    requires namespace !in done && key !in keys
    requires ParseSetting(lib, c, namespace, key, clauses, p).Ok?
    ensures var r := ParseSetting(lib, c, namespace, key, clauses, p).value;
      Sound(lib, c, r) && Within(c, r, done, namespace, keys + {key})
  {
    FoundEntry(lib, c, namespace, key);
    var d := DefinitionFor(c, namespace, key).value;
    assert d.Qualified() !in p.overrides && d.Qualified() !in p.pins;
    SettingExtends(lib, c, namespace, key, clauses, p);
    ExtensionIsSound(lib, c, p, d, ParseSetting(lib, c, namespace, key, clauses, p).value);
  }

  function KeyNames(d: Dict<string, Json>): set<string> { set i | 0 <= i < |d| :: d[i].0 }

  lemma LastKeyName(d: Dict<string, Json>)
    requires Unique(d) && d != []
    ensures var n := |d| - 1;
      KeyNames(d) == KeyNames(d[..n]) + {d[n].0} && d[n].0 !in KeyNames(d[..n]) && Unique(d[..n])
  {
    var n := |d| - 1;
    assert forall i | 0 <= i < n :: d[..n][i] == d[i];
    forall k | k in KeyNames(d)
      ensures k in KeyNames(d[..n]) + {d[n].0}
    {
      var i :| 0 <= i < |d| && d[i].0 == k;
      if i < n { assert d[..n][i].0 == k; }
    }
  }

  lemma {:induction false} SettingsStaySound(lib: Library, c: Catalogue, namespace: string,
                                             settings: Dict<string, Json>, p: Policy, done: set<string>)
    requires WellFormed(lib, c) && Sound(lib, c, p) && Within(c, p, done, namespace, {})
    requires namespace !in done && Unique(settings)
    requires ParseSettings(lib, c, namespace, settings, p).Ok?
    ensures var r := ParseSettings(lib, c, namespace, settings, p).value;
      Sound(lib, c, r) && Within(c, r, done, namespace, KeyNames(settings))
  {
    if settings == [] {
      assert KeyNames(settings) == {};
    } else {
      var n := |settings| - 1;
      LastKeyName(settings);
      SettingsStaySound(lib, c, namespace, settings[..n], p, done);
      var q := ParseSettings(lib, c, namespace, settings[..n], p).value;
      SettingStaysSound(lib, c, namespace, settings[n].0, settings[n].1, q, done, KeyNames(settings[..n]));
    }
  }

  lemma {:induction false} NamespacesStaySound(lib: Library, c: Catalogue, document: Dict<string, Json>)
    requires WellFormed(lib, c) && WellKeyed(JObject(document))
    requires ParseNamespaces(lib, c, document).Ok?
    ensures var r := ParseNamespaces(lib, c, document).value;
      Sound(lib, c, r) && Within(c, r, KeyNames(document), "", {})
  {
    if document != [] {
      var n := |document| - 1;
      var done := KeyNames(document[..n]);
      LastKeyName(document);
      WellKeyedSoFar(document);
      NamespacesStaySound(lib, c, document[..n]);
      var p := ParseNamespaces(lib, c, document[..n]).value;
      NextNamespace(c, p, done, document[n].0);
      SettingsStaySound(lib, c, document[n].0, document[n].1.fields, p, done);
      NamespaceDone(c, ParseNamespaces(lib, c, document).value, done, document[n].0, KeyNames(document[n].1.fields));
    }
  }

  lemma WellKeyedSoFar(document: Dict<string, Json>)
    requires WellKeyed(JObject(document)) && document != []
    ensures WellKeyed(JObject(document[..|document| - 1]))
  {
    var n := |document| - 1;
    assert forall i | 0 <= i < n :: document[..n][i] == document[i];
  }

  lemma NextNamespace(c: Catalogue, p: Policy, done: set<string>, namespace: string)
    requires Within(c, p, done, "", {})
    ensures Within(c, p, done, namespace, {})
  {}

  lemma NamespaceDone(c: Catalogue, p: Policy, done: set<string>, namespace: string, keys: set<string>)
    requires Within(c, p, done, namespace, keys)
    ensures Within(c, p, done + {namespace}, "", {})
  {}

  // -- The policy is what the document says -------------------------------------------------------

  /** What a document says about one setting. */
  function ClausesFor(document: Dict<string, Json>, name: Name): Option<Json> {
    match Get(document, name.namespace)
    case None => None
    case Some(settings) => if settings.JObject? then Get(settings.fields, name.key) else None
  }

  predicate Silent(p: Policy, d: SettingDef) { d.Qualified() !in p.overrides && d.Qualified() !in p.pins }

  predicate SameOn(p: Policy, r: Policy, d: SettingDef) {
    p.DefinitionOf(d) == r.DefinitionOf(d) && p.PinOn(d) == r.PinOn(d) && (Silent(p, d) <==> Silent(r, d))
  }

  /** The policy treats an entry as its clauses say: the entry narrowed by them, and pinned to
      exactly the value they pin. */
  ghost predicate Says(lib: Library, p: Policy, d: SettingDef, clauses: Option<Json>) {
    match clauses
    case None => Silent(p, d)
    case Some(j) =>
      j.JObject? &&
      var read := ClausesIn(j.fields);
      && Narrow(lib, d, read) == Ok(p.DefinitionOf(d))
      && match read.pin
         case None => !p.IsPinned(d)
         case Some(pin) => p.IsPinned(d) && AsValue(pin) == p.PinOn(d)
  }

  /** What accepted clauses leave in the policy: at most one override and one pin, of the entry
      named. */
  ghost predicate Entered(lib: Library, p: Policy, found: SettingDef, read: Clauses, r: Policy) {
    var q, narrowed := found.Qualified(), Narrow(lib, found, read);
    && narrowed.Ok?
    && r.overrides == (if narrowed.value != found then p.overrides[q := narrowed.value] else p.overrides)
    && match read.pin
       case None => r.pins == p.pins
       case Some(j) =>
         var v := Checked(lib, narrowed.value, j);
         v.Ok? && r.pins == p.pins[q := v.value]
  }

  lemma SettingEnters(lib: Library, c: Catalogue, namespace: string, key: string, clauses: Json, p: Policy)
    requires ParseSetting(lib, c, namespace, key, clauses, p).Ok?
    ensures DefinitionFor(c, namespace, key).Ok? && clauses.JObject?
    ensures Entered(lib, p, DefinitionFor(c, namespace, key).value, ClausesIn(clauses.fields),
                    ParseSetting(lib, c, namespace, key, clauses, p).value)
  {}

  lemma EnteredSays(lib: Library, p: Policy, d: SettingDef, clauses: Json, r: Policy)
    requires clauses.JObject? && Entered(lib, p, d, ClausesIn(clauses.fields), r) && Silent(p, d)
    ensures Says(lib, r, d, Some(clauses))
  {}

  lemma EnteredElsewhere(lib: Library, p: Policy, found: SettingDef, read: Clauses, r: Policy, d: SettingDef)
    requires Entered(lib, p, found, read, r) && d.Qualified() != found.Qualified()
    ensures SameOn(p, r, d)
  {}

  lemma SettingSays(lib: Library, c: Catalogue, namespace: string, key: string, clauses: Json, p: Policy, d: SettingDef)
    requires WellFormed(lib, c) && d in EveryEntry(c)
    requires ParseSetting(lib, c, namespace, key, clauses, p).Ok?
    ensures var r := ParseSetting(lib, c, namespace, key, clauses, p).value;
      if d.Named() == Name(namespace, key) then Silent(p, d) ==> Says(lib, r, d, Some(clauses)) else SameOn(p, r, d)
  {
    SettingEnters(lib, c, namespace, key, clauses, p);
    FoundEntry(lib, c, namespace, key);
    EntryFacts(lib, c, d);
    var r, found := ParseSetting(lib, c, namespace, key, clauses, p).value, DefinitionFor(c, namespace, key).value;
    if d.Qualified() == found.Qualified() {
      if Silent(p, d) { EnteredSays(lib, p, d, clauses, r); }
    } else {
      EnteredElsewhere(lib, p, found, ClausesIn(clauses.fields), r, d);
    }
  }

  lemma {:induction false} SettingsSay(lib: Library, c: Catalogue, namespace: string, settings: Dict<string, Json>,
                                       p: Policy,
                                       d: SettingDef)
    requires WellFormed(lib, c) && d in EveryEntry(c) && Unique(settings)
    requires ParseSettings(lib, c, namespace, settings, p).Ok?
    ensures var r := ParseSettings(lib, c, namespace, settings, p).value;
      if d.namespace == namespace then Silent(p, d) ==> Says(lib, r, d, Get(settings, d.key)) else SameOn(p, r, d)
  {
    if settings != [] {
      var n := |settings| - 1;
      LastGet(settings, d.key);
      SettingsSay(lib, c, namespace, settings[..n], p, d);
      var q := ParseSettings(lib, c, namespace, settings[..n], p).value;
      SettingSays(lib, c, namespace, settings[n].0, settings[n].1, q, d);
    }
  }

  lemma {:induction false} NamespacesSay(lib: Library, c: Catalogue, document: Dict<string, Json>, d: SettingDef)
    requires WellFormed(lib, c) && d in EveryEntry(c) && WellKeyed(JObject(document))
    requires ParseNamespaces(lib, c, document).Ok?
    ensures Says(lib, ParseNamespaces(lib, c, document).value, d, ClausesFor(document, d.Named()))
  {
    if document != [] {
      var n := |document| - 1;
      LastGet(document, d.namespace);
      assert WellKeyed(JObject(document[..n])) by {
        assert forall i | 0 <= i < n :: document[..n][i] == document[i];
      }
      NamespacesSay(lib, c, document[..n], d);
      SettingsSay(lib, c, document[n].0, document[n].1.fields, ParseNamespaces(lib, c, document[..n]).value, d);
    }
  }

  /** The parsed policy is the document, setting by setting: an entry the document names is
      narrowed by exactly its clauses and pinned to exactly its pin, and every other entry is as
      the catalogue has it. */
  lemma PolicyIsTheDocument(lib: Library, c: Catalogue, document: Json, p: Policy, d: SettingDef)
    requires WellFormed(lib, c) && WellKeyed(document) && d in EveryEntry(c)
    requires ParseSpec(lib, c, document) == Ok(p)
    ensures Says(lib, p, d, ClausesFor(document.fields, d.Named()))
  {
    NamespacesSay(lib, c, document.fields, d);
  }

  /** The clauses an accepted document has for a setting. */
  function ClausesOf(document: Dict<string, Json>, name: Name): Clauses {
    match ClausesFor(document, name)
    case None => NO_CLAUSES
    case Some(j) => if j.JObject? then ClausesIn(j.fields) else NO_CLAUSES
  }

  lemma UnnamedIsSatisfiable(lib: Library, d: SettingDef)
    requires WellFormedEntry(lib, d)
    ensures Satisfiable(lib, d) && LeavesRoom(d, NO_CLAUSES)
  {
    assert Legal(lib, d, d.default);
  }

  /** A deployment is promised not to start on a contradictory policy. It starts on every document
      the parser accepts, and then a setting has some legal value here if and only if the
      document's clauses for it leave room. */
  lemma AcceptedPolicyIsSatisfiableExactlyWhen(lib: Library, c: Catalogue, document: Json, p: Policy, d: SettingDef)
    requires WellFormed(lib, c) && WellKeyed(document) && d in EveryEntry(c)
    requires ParseSpec(lib, c, document) == Ok(p)
    ensures Satisfiable(lib, p.DefinitionOf(d)) <==> LeavesRoom(d, ClausesOf(document.fields, d.Named()))
  {
    PolicyIsTheDocument(lib, c, document, p, d);
    EntryFacts(lib, c, d);
    var clauses := ClausesFor(document.fields, d.Named());
    if clauses.None? {
      UnnamedIsSatisfiable(lib, d);
    } else {
      NarrowedIsSatisfiableExactlyWhen(lib, d, ClausesIn(clauses.value.fields));
    }
  }

  /** The default in force for a setting is legal there if and only if the document gives it one, or
      the catalogue's stays inside what the document's clauses leave. */
  lemma AcceptedDefaultIsLegalExactlyWhen(lib: Library, c: Catalogue, document: Json, p: Policy, d: SettingDef)
    requires WellFormed(lib, c) && WellKeyed(document) && d in EveryEntry(c)
    requires ParseSpec(lib, c, document) == Ok(p)
    ensures var clauses := ClausesOf(document.fields, d.Named());
      Legal(lib, p.DefinitionOf(d), p.DefinitionOf(d).default) <==>
        clauses.default.Some? || StaysInside(d.valueType, clauses, d.default)
  {
    PolicyIsTheDocument(lib, c, document, p, d);
    EntryFacts(lib, c, d);
    var clauses := ClausesFor(document.fields, d.Named());
    if clauses.Some? { NarrowedDefaultIsLegalExactlyWhen(lib, d, ClausesIn(clauses.value.fields)); }
  }

  /** A value legal in the catalogue is legal here if and only if it stays inside the document's
      clauses for the setting. */
  lemma AcceptedPolicyAllowsExactly(lib: Library, c: Catalogue, document: Json, p: Policy, d: SettingDef, v: Value)
    requires WellFormed(lib, c) && WellKeyed(document) && d in EveryEntry(c)
    requires ParseSpec(lib, c, document) == Ok(p)
    ensures Legal(lib, p.DefinitionOf(d), v) <==>
      Legal(lib, d, v) && StaysInside(d.valueType, ClausesOf(document.fields, d.Named()), v)
  {
    PolicyIsTheDocument(lib, c, document, p, d);
    var clauses := ClausesFor(document.fields, d.Named());
    if clauses.Some? { NarrowAllowsExactly(lib, d, ClausesIn(clauses.value.fields), v); }
  }

  /** Policy only narrows. For every document `parse` accepts and every live entry, the entry
      this deployment has allows nothing the catalogue refuses, keeps a non-empty duplicate-free
      subsequence of the choices, and a pin or a default the policy gave is legal for it. */
  lemma PolicyOnlyNarrows(lib: Library, c: Catalogue, document: Json, p: Policy, d: SettingDef)
    requires WellFormed(lib, c) && WellKeyed(document)
    requires ParseSpec(lib, c, document) == Ok(p)
    requires d in EveryEntry(c)
    ensures Tightens(lib, d, p.DefinitionOf(d))
    ensures p.IsPinned(d) ==> Legal(lib, p.DefinitionOf(d), p.PinOn(d).value)
    ensures ClausesOf(document.fields, d.Named()).default.Some? ==>
      Legal(lib, p.DefinitionOf(d), p.DefinitionOf(d).default)
    ensures d.Retired() ==> p.DefinitionOf(d) == d && !p.IsPinned(d)
  {
    AcceptedDefaultIsLegalExactlyWhen(lib, c, document, p, d);
    NamespacesStaySound(lib, c, document.fields);
    SpellingNamesOneEntry(lib, c, d, d.Named());
    SubsequenceOfItself(d.bounds.choices);
    EveryEntryIn(c);
    var n :| 0 <= n < |c| && d in c[n].1;
    assert WellFormedNamespace(lib, c[n].0, c[n].1);
  }
}
