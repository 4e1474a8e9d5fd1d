/** What a consuming service reads, and how a body becomes it. */
module ClientModels {
  import opened Core
  import opened Dicts
  import opened Json
  import opened SettingTypes
  import opened Catalogue
  import opened Resolution
  import opened Server

  datatype Fallback = Fallback(default: Json, rule: OnUnavailable)

  type Fallbacks = Dict<string, Fallback>

  /** `revision` is absent from a document assembled from fallbacks. */
  datatype ResolvedSettings = ResolvedSettings(
    namespace: string,
    values: Dict<string, Json>,
    fallbacks: Fallbacks,
    revision: Option<int>,
    stale: bool,
    refused: set<string>
  ) {
    /** `settings[key]`. */
    function Read(key: string): Result<Json, ReadError> {
      if key in refused then Err(SettingsRefused)
      else
        match Get(values, key)
        case None => Err(KeyError)
        case Some(v) => Ok(v)
    }

    /** `settings.get(key, default)`. */
    function ReadOr(key: string, default: Option<Json>): Result<Json, ReadError> {
      if key in refused then Err(SettingsRefused)
      else if !Has(values, key) then (if default.None? then Err(KeyError) else Ok(default.value))
      else Ok(Get(values, key).value)
    }

    /** `key in settings`. */
    predicate Contains(key: string) { Has(values, key) || key in refused }
  }

  datatype ReadError = SettingsRefused | KeyError

  // -- A body read -----------------------------------------------------------------------------------

  datatype Unusable = NotJson | NotAnObject | NoSettings | NoFallbacks | NoRevision | BadFallback(key: string)

  const USE_DEFAULT := JStr("use_default")
  const REFUSE := JStr("refuse")

  function FieldOf(fields: Dict<string, Json>, name: string): Json {
    match Get(fields, name)
    case None => JNull
    case Some(v) => v
  }

  function FallbackOf(key: string, item: Json): Result<Fallback, Unusable> {
    if !item.JObject? || !Has(item.fields, "default") then Err(BadFallback(key))
    else
      var rule := FieldOf(item.fields, "on_unavailable");
      if rule == USE_DEFAULT then Ok(Fallback(FieldOf(item.fields, "default"), UseDefault))
      else if rule == REFUSE then Ok(Fallback(FieldOf(item.fields, "default"), Refuse))
      else Err(BadFallback(key))
  }

  function FallbacksOf(declared: Dict<string, Json>): Result<Fallbacks, Unusable> {
    if declared == [] then Ok([])
    else
      var first :- FallbackOf(declared[0].0, declared[0].1);
      var rest :- FallbacksOf(declared[1..]);
      Ok([(declared[0].0, first)] + rest)
  }

  function RevisionIn(fields: Dict<string, Json>): Result<int, Unusable> {
    var revision := FieldOf(fields, "revision");
    if revision.JInt? then Ok(revision.n) else Err(NoRevision)
  }

  function JsonObject(body: Option<Json>): Result<Dict<string, Json>, Unusable> {
    if body.None? then Err(NotJson)
    else if !body.value.JObject? then Err(NotAnObject)
    else Ok(body.value.fields)
  }

  /** `_document_of`; a body that is not JSON is no value at all. */
  function DocumentOf(namespace: string, body: Option<Json>): Result<ResolvedSettings, Unusable> {
    var fields :- JsonObject(body);
    var values := FieldOf(fields, "settings");
    if !values.JObject? then Err(NoSettings)
    else
      var declared := FieldOf(fields, "fallbacks");
      if !declared.JObject? then Err(NoFallbacks)
      else
        var revision :- RevisionIn(fields);
        var fallbacks :- FallbacksOf(declared.fields);
        Ok(ResolvedSettings(namespace, values.fields, fallbacks, Some(revision), false, {}))
  }

  // -- A body written --------------------------------------------------------------------------------

  function Strings(items: seq<string>): seq<Json> { seq(|items|, i requires 0 <= i < |items| => JStr(items[i])) }

  function ToJson(v: Value): Json {
    match v
    case Null => JNull
    case Bool(b) => JBool(b)
    case Int(n) => JInt(n)
    case Str(s) => JStr(s)
    case Strs(items) => JList(Strings(items))
  }

  /** `_values`. */
  function Values(entries: Dict<string, Resolved>): Dict<string, Json> {
    seq(|entries|, i requires 0 <= i < |entries| => (entries[i].0, ToJson(entries[i].1.value)))
  }

  function RuleText(rule: OnUnavailable): Json { if rule.UseDefault? then USE_DEFAULT else REFUSE }

  function Declared(d: SettingDef): Json {
    JObject([("default", ToJson(d.default)), ("on_unavailable", RuleText(d.onUnavailable))])
  }

  /** `_fallbacks`, from the narrowed definitions. */
  function DeclaredIn(entries: Dict<string, Resolved>): Dict<string, Json> {
    seq(|entries|, i requires 0 <= i < |entries| => (entries[i].0, Declared(entries[i].1.definition)))
  }

  function Render(namespace: string, served: Served): Json {
    JObject([("namespace", JStr(namespace)),
             ("revision", JInt(served.revision)),
             ("settings", JObject(Values(served.entries))),
             ("fallbacks", JObject(DeclaredIn(served.entries)))])
  }

  // -- Read back ----------------------------------------------------------------------------------------

  /** What a served document says, in the client's terms. */
  function Meaning(namespace: string, served: Served): ResolvedSettings {
    ResolvedSettings(namespace, Values(served.entries), Rules(served.entries), Some(served.revision), false, {})
  }

  function Rules(entries: Dict<string, Resolved>): Fallbacks {
    seq(|entries|, i requires 0 <= i < |entries| =>
      (entries[i].0, RuleFor(entries[i].1.definition)))
  }

  function RuleFor(d: SettingDef): Fallback { Fallback(ToJson(d.default), d.onUnavailable) }

  lemma GetNext<V>(k: string, v: V, rest: Dict<string, V>, q: string)
    ensures Get([(k, v)] + rest, q) == if q == k then Some(v) else Get(rest, q)
  {
    assert ([(k, v)] + rest)[1..] == rest;
  }

  lemma DeclaredReads(key: string, d: SettingDef)
    ensures FallbackOf(key, Declared(d)) == Ok(RuleFor(d))
  {
    var rule := [("on_unavailable", RuleText(d.onUnavailable))];
    assert Declared(d).fields == [("default", ToJson(d.default))] + rule;
    GetNext("default", ToJson(d.default), rule, "default");
    GetNext("default", ToJson(d.default), rule, "on_unavailable");
    GetNext("on_unavailable", RuleText(d.onUnavailable), [], "on_unavailable");
    assert rule == [("on_unavailable", RuleText(d.onUnavailable))] + [];
  }

  lemma RenderingTail(entries: Dict<string, Resolved>)
    requires entries != []
    ensures DeclaredIn(entries) == [(entries[0].0, Declared(entries[0].1.definition))] + DeclaredIn(entries[1..])
    ensures Rules(entries) == [(entries[0].0, RuleFor(entries[0].1.definition))] + Rules(entries[1..])
  {}

  lemma {:induction false} DeclaredAllRead(entries: Dict<string, Resolved>)
    ensures FallbacksOf(DeclaredIn(entries)) == Ok(Rules(entries))
  {
    if entries == [] {
      assert DeclaredIn(entries) == [] && Rules(entries) == [];
    } else {
      RenderingTail(entries);
      DeclaredReads(entries[0].0, entries[0].1.definition);
      DeclaredAllRead(entries[1..]);
      assert DeclaredIn(entries)[1..] == DeclaredIn(entries[1..]);
    }
  }

  lemma FourFields(a: (string, Json), b: (string, Json), c: (string, Json), d: (string, Json))
    requires Unique([a, b, c, d])
    ensures var fields := [a, b, c, d];
      FieldOf(fields, b.0) == b.1 && FieldOf(fields, c.0) == c.1 && FieldOf(fields, d.0) == d.1
  {
    var fields := [a, b, c, d];
    GetAt(fields, 1);
    GetAt(fields, 2);
    GetAt(fields, 3);
  }

  lemma FieldsOfRendered(namespace: string, served: Served)
    ensures var fields := Render(namespace, served).fields;
      && FieldOf(fields, "settings") == JObject(Values(served.entries))
      && FieldOf(fields, "fallbacks") == JObject(DeclaredIn(served.entries))
      && FieldOf(fields, "revision") == JInt(served.revision)
  {
    assert "namespace"[0] == 'n' && "revision"[0] == 'r' && "settings"[0] == 's' && "fallbacks"[0] == 'f';
    FourFields(("namespace", JStr(namespace)), ("revision", JInt(served.revision)),
                   ("settings", JObject(Values(served.entries))), ("fallbacks", JObject(DeclaredIn(served.entries))));
  }

  /** The client reads a served document as exactly what was served: every value, every default,
      every outage rule and the revision. */
  lemma RenderedIsReadBack(namespace: string, served: Served)
    ensures DocumentOf(namespace, Some(Render(namespace, served))) == Ok(Meaning(namespace, served))
  {
    FieldsOfRendered(namespace, served);
    DeclaredAllRead(served.entries);
  }

  // -- Outages -------------------------------------------------------------------------------------------

  function DefaultsIn(fallbacks: Fallbacks): Dict<string, Json> {
    if fallbacks == [] then []
    else
      var rest := DefaultsIn(fallbacks[1..]);
      if fallbacks[0].1.rule.UseDefault? then [(fallbacks[0].0, fallbacks[0].1.default)] + rest else rest
  }

  function RefusedIn(fallbacks: Fallbacks): set<string> {
    set i | 0 <= i < |fallbacks| && fallbacks[i].1.rule.Refuse? :: fallbacks[i].0
  }

  /** `_degrade`: the cached document marked stale, else one assembled from fallbacks, else
      nothing honest. */
  function Degraded(namespace: string, cached: Option<ResolvedSettings>,
                    known: Option<Fallbacks>): Option<ResolvedSettings> {
    if cached.Some? then
      Some(ResolvedSettings(cached.value.namespace, cached.value.values, cached.value.fallbacks,
                            cached.value.revision, true, {}))
    else if known.None? then None
    else Some(ResolvedSettings(namespace, DefaultsIn(known.value), known.value, None, true, RefusedIn(known.value)))
  }

  lemma {:induction false} DefaultsAre(fallbacks: Fallbacks, key: string)
    requires Unique(fallbacks)
    ensures Get(DefaultsIn(fallbacks), key)
         == match Get(fallbacks, key)
            case None => None
            case Some(f) => if f.rule.UseDefault? then Some(f.default) else None
  {
    if fallbacks != [] {
      DefaultsAre(fallbacks[1..], key);
      var rest := DefaultsIn(fallbacks[1..]);
      GetNext(fallbacks[0].0, fallbacks[0].1.default, rest, key);
      if key == fallbacks[0].0 {
        assert !Has(fallbacks[1..], key) by {
          assert forall i | 0 <= i < |fallbacks[1..]| :: fallbacks[1..][i] == fallbacks[i + 1];
        }
      }
    }
  }

  /** In an outage document each key the deployment declared is either its default or refused,
      never both and never neither, and no other key is there at all. A refused key cannot be
      read around: not by subscript and not by naming a default. */
  lemma OutagesAreHonest(namespace: string, known: Fallbacks, key: string, default: Option<Json>)
    requires Unique(known)
    ensures var r := Degraded(namespace, None, Some(known)).value;
      && r.stale && r.revision.None?
      && (r.Contains(key) <==> Has(known, key))
      && !(Has(r.values, key) && key in r.refused)
      && (Has(known, key) && Get(known, key).value.rule.Refuse? ==>
            r.Read(key) == r.ReadOr(key, default) == Err(SettingsRefused))
      && (Has(known, key) && Get(known, key).value.rule.UseDefault? ==>
            r.Read(key) == r.ReadOr(key, default) == Ok(Get(known, key).value.default))
  {
    DefaultsAre(known, key);
    if Has(known, key) {
      var i :| 0 <= i < |known| && known[i].0 == key;
      GetAt(known, i);
    }
    if key in RefusedIn(known) {
      var i :| 0 <= i < |known| && known[i].1.rule.Refuse? && known[i].0 == key;
      GetAt(known, i);
    }
  }

  // -- Fallbacks are the deployment's -----------------------------------------------------------------------

  /** Same keys in the same order with the same definitions; values may differ. */
  ghost predicate SameDefinitions(d: Dict<string, Resolved>, e: Dict<string, Resolved>) {
    |d| == |e| && forall i | 0 <= i < |d| :: d[i].0 == e[i].0 && d[i].1.definition == e[i].1.definition
  }

  lemma {:induction false} PutSameDefinitions(d: Dict<string, Resolved>, e: Dict<string, Resolved>, k: string,
                                              v: Resolved, w: Resolved)
    requires SameDefinitions(d, e) && v.definition == w.definition
    ensures SameDefinitions(Put(d, k, v), Put(e, k, w))
  {
    if d != [] && d[0].0 != k {
      PutSameDefinitions(d[1..], e[1..], k, v, w);
    }
  }

  lemma {:induction false} UpdatedSameDefinitions(d: Dict<string, Resolved>, e: Dict<string, Resolved>,
                                                  over: Dict<string, Resolved>, under: Dict<string, Resolved>)
    requires SameDefinitions(d, e) && SameDefinitions(over, under)
    ensures SameDefinitions(Updated(d, over), Updated(e, under))
  {
    if over != [] {
      var n := |over| - 1;
      UpdatedSameDefinitions(d, e, over[..n], under[..n]);
      PutSameDefinitions(Updated(d, over[..n]), Updated(e, under[..n]), over[n].0, over[n].1, under[n].1);
    }
  }

  /** The outage rules a document carries are facts about the deployment: whoever it was resolved
      for, whatever they chose, they are the same. */
  lemma RulesIgnoreRows(site: Site, namespace: string, s: map<string, Value>, t: map<string, Value>)
    requires Has(site.catalogue, namespace) && Has(site.catalogue, COMMON)
    ensures Rules(ResolveForService(site, namespace, s)) == Rules(ResolveForService(site, namespace, t))
  {
    UpdatedSameDefinitions(ResolveNamespace(site, COMMON, s), ResolveNamespace(site, COMMON, t),
                           ResolveNamespace(site, namespace, s), ResolveNamespace(site, namespace, t));
  }

  lemma {:induction false} UpdatedKeepsUnique(d: Dict<string, Resolved>, over: Dict<string, Resolved>)
    requires Unique(d)
    ensures Unique(Updated(d, over))
  {
    if over != [] {
      var n := |over| - 1;
      UpdatedKeepsUnique(d, over[..n]);
      PutKeepsUnique(Updated(d, over[..n]), over[n].0, over[n].1);
    }
  }
}
