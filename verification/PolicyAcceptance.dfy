/** Which policy documents start a deployment, and what an accepted one makes of each entry, read
    off the document's own fields. */
module PolicyAcceptance {
  import opened Core
  import opened Dicts
  import opened Json
  import opened SettingTypes
  import opened Catalogue
  import opened Policies

  // -- What a document has to be ----------------------------------------------------------------

  /** A parsed document is made of dictionaries, at all three levels. */
  ghost predicate Dictionaries(document: Json) {
    WellKeyed(document) &&
    (document.JObject? ==>
       forall i | 0 <= i < |document.fields| :: document.fields[i].1.JObject? ==>
         ClausesKeyed(document.fields[i].1.fields))
  }

  ghost predicate ClausesKeyed(settings: Dict<string, Json>) {
    forall k | 0 <= k < |settings| :: settings[k].1.JObject? ==> Unique(settings[k].1.fields)
  }

  /** A clause this build knows; a bounding one only where the operator may clamp, of the shape and
      on the type it is for, and no looser than the catalogue's bound. */
  predicate Narrows(d: SettingDef, name: string, j: Json) {
    && name in {"pin", "default", "minimum", "maximum", "choices", "max_items"}
    && (name in {"minimum", "maximum", "choices", "max_items"} ==> d.operatorClampable)
    && (name == "minimum" ==>
          d.valueType.IntType? && j.JInt? && (d.bounds.minimum.Some? ==> d.bounds.minimum.value <= j.n))
    && (name == "maximum" ==>
          d.valueType.IntType? && j.JInt? && (d.bounds.maximum.Some? ==> j.n <= d.bounds.maximum.value))
    && (name == "choices" ==>
          && d.valueType.EnumType? && j.JList? && j.items != []
          && forall item | item in j.items :: item.JStr? && item.s in d.bounds.choices)
    && (name == "max_items" ==>
          d.valueType.StrListType? && j.JInt? && (d.bounds.maxItems.Some? ==> j.n <= d.bounds.maxItems.value))
  }

  /** What one clause lets through. */
  predicate LetsThrough(name: string, j: Json, v: Value) {
    && (name == "minimum" && j.JInt? && v.Int? ==> j.n <= v.n)
    && (name == "maximum" && j.JInt? && v.Int? ==> v.n <= j.n)
    && (name == "choices" && j.JList? && v.Str? ==> JStr(v.s) in j.items)
    && (name == "max_items" && j.JInt? && v.Strs? ==> |v.items| <= j.n)
  }

  ghost predicate AllNarrow(d: SettingDef, fields: Dict<string, Json>) {
    forall i | 0 <= i < |fields| :: Narrows(d, fields[i].0, fields[i].1)
  }

  ghost predicate AllLetThrough(fields: Dict<string, Json>, v: Value) {
    forall i | 0 <= i < |fields| :: LetsThrough(fields[i].0, fields[i].1, v)
  }

  /** A default or a pin: the text of a value the catalogue allows and every clause lets through. */
  ghost predicate Fits(lib: Library, d: SettingDef, fields: Dict<string, Json>, j: Json) {
    exists v :: Spells(j, v) && Legal(lib, d, v) && AllLetThrough(fields, v)
  }

  ghost predicate AcceptableClauses(lib: Library, d: SettingDef, fields: Dict<string, Json>) {
    && AllNarrow(d, fields)
    && forall i | 0 <= i < |fields| && fields[i].0 in {"default", "pin"} :: Fits(lib, d, fields, fields[i].1)
  }

  ghost predicate AcceptableSetting(lib: Library, c: Catalogue, namespace: string, key: string, clauses: Json) {
    && clauses.JObject?
    && exists d :: LiveAs(c, namespace, key, d) && AcceptableClauses(lib, d, clauses.fields)
  }

  ghost predicate AcceptableSettings(lib: Library, c: Catalogue, namespace: string, settings: Dict<string, Json>) {
    forall k | 0 <= k < |settings| :: AcceptableSetting(lib, c, namespace, settings[k].0, settings[k].1)
  }

  ghost predicate AcceptableNamespace(lib: Library, c: Catalogue, namespace: string, settings: Json) {
    HasNamespace(c, namespace) && settings.JObject? && AcceptableSettings(lib, c, namespace, settings.fields)
  }

  ghost predicate Acceptable(lib: Library, c: Catalogue, document: Json) {
    && document.JObject?
    && forall i | 0 <= i < |document.fields| ::
         AcceptableNamespace(lib, c, document.fields[i].0, document.fields[i].1)
  }

  // -- One setting's clauses ----------------------------------------------------------------------

  /** A field is what a lookup of its name finds. */
  lemma FieldFound(fields: Dict<string, Json>, name: string)
    requires Unique(fields)
    ensures forall i | 0 <= i < |fields| && fields[i].0 == name :: Get(fields, name) == Some(fields[i].1)
    ensures Get(fields, name).Some? ==> exists i :: 0 <= i < |fields| && fields[i] == (name, Get(fields, name).value)
  {
    forall i | 0 <= i < |fields| && fields[i].0 == name
      ensures Get(fields, name) == Some(fields[i].1)
    {
      GetAt(fields, i);
    }
  }

  /** One kind of clause is fine wherever it occurs. */
  ghost predicate FineAt(d: SettingDef, name: string, clause: Option<Json>) {
    clause.Some? ==> Narrows(d, name, clause.value)
  }

  lemma FieldsFine(d: SettingDef, fields: Dict<string, Json>, name: string)
    requires Unique(fields)
    ensures FineAt(d, name, Get(fields, name)) <==>
      forall i | 0 <= i < |fields| && fields[i].0 == name :: Narrows(d, name, fields[i].1)
  {
    FieldFound(fields, name);
  }

  lemma BoundedExactlyWhen(d: SettingDef, read: Clauses)
    requires d.operatorClampable
    ensures Bounded(d.valueType, d.bounds, read).Ok? <==>
      && FineAt(d, "minimum", read.minimum) && FineAt(d, "maximum", read.maximum)
      && FineAt(d, "choices", read.choices) && FineAt(d, "max_items", read.maxItems)
  {
    if read.choices.Some? { ChoicesFine(d, read.choices); }
    OneName();
  }

  lemma ChoicesFine(d: SettingDef, clause: Option<Json>)
    requires d.operatorClampable && clause.Some?
    ensures FineAt(d, "choices", clause) <==> Subset(d.valueType, d.bounds, clause.value).Ok?
  {
    var j := clause.value;
    OneName();
    if j.JList? {
      forall i | 0 <= i < |j.items| ensures j.items[i] in j.items {}
    }
  }

  lemma OneName()
    ensures "minimum" != "maximum" && "minimum" != "choices" && "minimum" != "max_items"
    ensures "maximum" != "choices" && "maximum" != "max_items" && "choices" != "max_items"
    ensures "pin" !in CLAMPING && "default" !in CLAMPING
  {
    assert "minimum"[0] == 'm' && "maximum"[0] == 'm' && "choices"[0] == 'c' && "max_items"[0] == 'm';
    assert "minimum"[1] == 'i' && "maximum"[1] == 'a' && "max_items"[1] == 'a';
    assert "maximum"[3] == 'i' && "max_items"[3] == '_';
    assert "pin"[0] == 'p' && "default"[0] == 'd';
  }

  /** The tests on field names that come before the bounds. */
  ghost predicate NamesPass(d: SettingDef, fields: Dict<string, Json>) {
    && (forall i | 0 <= i < |fields| :: fields[i].0 in CLAUSES)
    && (d.operatorClampable || forall i | 0 <= i < |fields| :: fields[i].0 !in CLAMPING)
  }

  lemma UnclampedNarrows(d: SettingDef, fields: Dict<string, Json>)
    requires !d.operatorClampable && NamesPass(d, fields)
    ensures AllNarrow(d, fields) && Bounded(d.valueType, d.bounds, ClausesIn(fields)) == Ok(d.bounds)
  {}

  lemma ClampedNarrows(d: SettingDef, fields: Dict<string, Json>)
    requires d.operatorClampable && Unique(fields) && NamesPass(d, fields)
    ensures Bounded(d.valueType, d.bounds, ClausesIn(fields)).Ok? <==> AllNarrow(d, fields)
  {
    OneName();
    BoundedExactlyWhen(d, ClausesIn(fields));
    FieldsFine(d, fields, "minimum");
    FieldsFine(d, fields, "maximum");
    FieldsFine(d, fields, "choices");
    FieldsFine(d, fields, "max_items");
  }

  lemma BoundsExactlyWhen(d: SettingDef, fields: Dict<string, Json>)
    requires Unique(fields)
    ensures NamesPass(d, fields) && Bounded(d.valueType, d.bounds, ClausesIn(fields)).Ok? <==> AllNarrow(d, fields)
  {
    if NamesPass(d, fields) {
      if d.operatorClampable { ClampedNarrows(d, fields); } else { UnclampedNarrows(d, fields); }
    }
  }

  /** Where the clauses narrow, staying inside them is being let through by each. */
  lemma InsideIsLetThrough(lib: Library, d: SettingDef, fields: Dict<string, Json>, v: Value)
    requires Unique(fields) && AllNarrow(d, fields) && Legal(lib, d, v)
    ensures StaysInside(d.valueType, ClausesIn(fields), v) <==> AllLetThrough(fields, v)
  {
    FieldFound(fields, "minimum");
    FieldFound(fields, "maximum");
    FieldFound(fields, "choices");
    FieldFound(fields, "max_items");
  }

  /** Checked against the entry as bounded, a value passes exactly when it fits. */
  lemma CheckedExactlyWhen(lib: Library, d: SettingDef, e: SettingDef, fields: Dict<string, Json>, j: Json)
    requires Unique(fields) && AllNarrow(d, fields) && SameBut(d, e)
    requires Bounded(d.valueType, d.bounds, ClausesIn(fields)) == Ok(e.bounds)
    ensures Checked(lib, e, j).Ok? <==> Fits(lib, d, fields, j)
  {
    forall v
      ensures Spells(j, v) <==> AsValue(j) == Some(v)
      ensures Legal(lib, e, v) <==> Legal(lib, d, v) && AllLetThrough(fields, v)
    {
      ReadAsSpelled(j, v);
      AllowsWhatIsLetThrough(lib, d, e, fields, v);
    }
  }

  lemma AllowsWhatIsLetThrough(lib: Library, d: SettingDef, e: SettingDef, fields: Dict<string, Json>, v: Value)
    requires Unique(fields) && AllNarrow(d, fields) && SameBut(d, e)
    requires Bounded(d.valueType, d.bounds, ClausesIn(fields)) == Ok(e.bounds)
    ensures Legal(lib, e, v) <==> Legal(lib, d, v) && AllLetThrough(fields, v)
  {
    var bare := ClausesIn(fields).(default := None);
    assert Narrow(lib, d, bare) == Ok(d.(bounds := e.bounds));
    NarrowAllowsExactly(lib, d, bare, v);
    if Legal(lib, d, v) { InsideIsLetThrough(lib, d, fields, v); }
  }

  ghost predicate FitsAt(lib: Library, d: SettingDef, fields: Dict<string, Json>, name: string) {
    forall i | 0 <= i < |fields| && fields[i].0 == name :: Fits(lib, d, fields, fields[i].1)
  }

  lemma DefaultExactlyWhen(lib: Library, d: SettingDef, fields: Dict<string, Json>)
    requires Unique(fields)
    ensures NamesPass(d, fields) && Narrow(lib, d, ClausesIn(fields)).Ok? <==>
      AllNarrow(d, fields) && FitsAt(lib, d, fields, "default")
  {
    BoundsExactlyWhen(d, fields);
    FieldFound(fields, "default");
    var bounds := Bounded(d.valueType, d.bounds, ClausesIn(fields));
    if AllNarrow(d, fields) && Has(fields, "default") {
      CheckedExactlyWhen(lib, d, d.(bounds := bounds.value), fields, Get(fields, "default").value);
    }
  }

  ghost predicate PinPasses(lib: Library, d: SettingDef, fields: Dict<string, Json>)
    requires Narrow(lib, d, ClausesIn(fields)).Ok?
  {
    Has(fields, "pin") ==> Checked(lib, Narrow(lib, d, ClausesIn(fields)).value, Get(fields, "pin").value).Ok?
  }

  lemma PinExactlyWhen(lib: Library, d: SettingDef, fields: Dict<string, Json>)
    requires Unique(fields) && AllNarrow(d, fields) && Narrow(lib, d, ClausesIn(fields)).Ok?
    ensures PinPasses(lib, d, fields) <==> FitsAt(lib, d, fields, "pin")
  {
    FieldFound(fields, "pin");
    if Has(fields, "pin") {
      CheckedExactlyWhen(lib, d, Narrow(lib, d, ClausesIn(fields)).value, fields, Get(fields, "pin").value);
    }
  }

  lemma TakenInTurn(lib: Library, c: Catalogue, namespace: string, key: string, clauses: Json, p: Policy, d: SettingDef)
    requires DefinitionFor(c, namespace, key) == Ok(d) && clauses.JObject?
    ensures ParseSetting(lib, c, namespace, key, clauses, p).Ok? <==>
      && NamesPass(d, clauses.fields)
      && Narrow(lib, d, ClausesIn(clauses.fields)).Ok?
      && PinPasses(lib, d, clauses.fields)
  {}

  lemma AcceptableInParts(lib: Library, d: SettingDef, fields: Dict<string, Json>)
    ensures AcceptableClauses(lib, d, fields) <==>
      AllNarrow(d, fields) && FitsAt(lib, d, fields, "default") && FitsAt(lib, d, fields, "pin")
  {}

  /** One setting's clauses are taken exactly when they are acceptable, whatever the policy holds
      already. */
  lemma SettingExactlyWhen(lib: Library, c: Catalogue, namespace: string, key: string, clauses: Json, p: Policy)
    requires WellFormed(lib, c) && (clauses.JObject? ==> Unique(clauses.fields))
    ensures ParseSetting(lib, c, namespace, key, clauses, p).Ok? <==> AcceptableSetting(lib, c, namespace, key, clauses)
  {
    OneLiveEntry(lib, c, namespace, key);
    var found := DefinitionFor(c, namespace, key);
    if found.Ok? && clauses.JObject? {
      TakenInTurn(lib, c, namespace, key, clauses, p, found.value);
      DefaultExactlyWhen(lib, found.value, clauses.fields);
      if AllNarrow(found.value, clauses.fields) && FitsAt(lib, found.value, clauses.fields, "default") {
        PinExactlyWhen(lib, found.value, clauses.fields);
      }
      AcceptableInParts(lib, found.value, clauses.fields);
    }
  }

  // -- The whole document ---------------------------------------------------------------------------

  /** Every field passes exactly when the last does and those before it do. */
  lemma LastPasses(passes: (string, Json) -> bool, fields: Dict<string, Json>)
    requires fields != []
    ensures var n := |fields| - 1;
      (forall k | 0 <= k < |fields| :: passes(fields[k].0, fields[k].1)) <==>
        (forall k | 0 <= k < n :: passes(fields[..n][k].0, fields[..n][k].1)) && passes(fields[n].0, fields[n].1)
  {
    var n := |fields| - 1;
    assert forall k | 0 <= k < n :: fields[..n][k] == fields[k];
  }

  lemma SettingsSoFar(lib: Library, c: Catalogue, namespace: string, settings: Dict<string, Json>, p: Policy)
    requires settings != []
    ensures var n := |settings| - 1;
      var before := ParseSettings(lib, c, namespace, settings[..n], p);
      ParseSettings(lib, c, namespace, settings, p).Ok? <==>
        before.Ok? && ParseSetting(lib, c, namespace, settings[n].0, settings[n].1, before.value).Ok?
  {}

  lemma {:induction false} SettingsExactlyWhen(lib: Library, c: Catalogue, namespace: string,
                                               settings: Dict<string, Json>, p: Policy)
    requires WellFormed(lib, c) && ClausesKeyed(settings)
    ensures ParseSettings(lib, c, namespace, settings, p).Ok? <==> AcceptableSettings(lib, c, namespace, settings)
  {
    if settings != [] {
      var n := |settings| - 1;
      LastPasses((key, clauses) => AcceptableSetting(lib, c, namespace, key, clauses), settings);
      assert ClausesKeyed(settings[..n]) by {
        assert forall k | 0 <= k < n :: settings[..n][k] == settings[k];
      }
      SettingsExactlyWhen(lib, c, namespace, settings[..n], p);
      SettingsSoFar(lib, c, namespace, settings, p);
      var before := ParseSettings(lib, c, namespace, settings[..n], p);
      if before.Ok? {
        SettingExactlyWhen(lib, c, namespace, settings[n].0, settings[n].1, before.value);
      }
    }
  }

  lemma DictionariesSoFar(document: Dict<string, Json>)
    requires Dictionaries(JObject(document)) && document != []
    ensures Dictionaries(JObject(document[..|document| - 1]))
    ensures var last := document[|document| - 1].1; last.JObject? ==> ClausesKeyed(last.fields)
  {
    WellKeyedSoFar(document);
    var n := |document| - 1;
    assert forall i | 0 <= i < n :: document[..n][i] == document[i];
  }

  lemma {:induction false} NamespacesExactlyWhen(lib: Library, c: Catalogue, document: Dict<string, Json>)
    requires WellFormed(lib, c) && Dictionaries(JObject(document))
    ensures ParseNamespaces(lib, c, document).Ok? <==> Acceptable(lib, c, JObject(document))
  {
    if document != [] {
      var n := |document| - 1;
      LastPasses((namespace, settings) => AcceptableNamespace(lib, c, namespace, settings), document);
      DictionariesSoFar(document);
      NamespacesExactlyWhen(lib, c, document[..n]);
      var before := ParseNamespaces(lib, c, document[..n]);
      HasIsNamespace(c, document[n].0);
      if before.Ok? && document[n].1.JObject? {
        SettingsExactlyWhen(lib, c, document[n].0, document[n].1.fields, before.value);
      }
    }
  }

  lemma HasIsNamespace(c: Catalogue, namespace: string)
    ensures Has(c, namespace) <==> HasNamespace(c, namespace)
  {}

  /** A deployment starts on exactly the documents that are objects of known namespaces, of live
      settings, of clauses this build knows; that bound only what the operator may clamp, in the
      right shape, and never wider; and whose defaults and pins are legal inside those bounds. */
  lemma StartsExactlyWhen(lib: Library, c: Catalogue, document: Json)
    requires WellFormed(lib, c) && Dictionaries(document)
    ensures ParseSpec(lib, c, document).Ok? <==> Acceptable(lib, c, document)
  {
    if document.JObject? { NamespacesExactlyWhen(lib, c, document.fields); }
  }

  // -- What an accepted document makes of an entry ----------------------------------------------------

  /** The document has this clause for this entry. */
  ghost predicate Written(document: Json, d: SettingDef, name: string, j: Json) {
    document.JObject? &&
    exists i | 0 <= i < |document.fields| ::
      && document.fields[i].0 == d.namespace && document.fields[i].1.JObject?
      && WrittenIn(document.fields[i].1.fields, d.key, name, j)
  }

  ghost predicate WrittenIn(settings: Dict<string, Json>, key: string, name: string, j: Json) {
    exists k | 0 <= k < |settings| ::
      settings[k].0 == key && settings[k].1.JObject? && (name, j) in settings[k].1.fields
  }

  /** What the document has of this name for this entry, if anything. */
  ghost predicate Writes(document: Json, d: SettingDef, name: string, clause: Option<Json>) {
    match clause
    case Some(j) => Written(document, d, name, j)
    case None => forall j :: !Written(document, d, name, j)
  }

  lemma WrittenIsFound(document: Json, d: SettingDef, name: string, j: Json)
    requires Dictionaries(document) && document.JObject?
    ensures Written(document, d, name, j) <==>
      var clauses := ClausesFor(document.fields, d.Named());
      clauses.Some? && clauses.value.JObject? && Get(clauses.value.fields, name) == Some(j)
  {
    var settings := Get(document.fields, d.namespace);
    if settings.Some? {
      var i :| 0 <= i < |document.fields| && document.fields[i] == (d.namespace, settings.value);
      if settings.value.JObject? { WrittenInIsFound(settings.value.fields, d.key, name, j); }
    }
    FieldFound(document.fields, d.namespace);
  }

  lemma WrittenInIsFound(settings: Dict<string, Json>, key: string, name: string, j: Json)
    requires Unique(settings) && ClausesKeyed(settings)
    ensures WrittenIn(settings, key, name, j) <==>
      var clauses := Get(settings, key);
      clauses.Some? && clauses.value.JObject? && Get(clauses.value.fields, name) == Some(j)
  {
    FieldFound(settings, key);
    forall k | 0 <= k < |settings| && settings[k].1.JObject?
      ensures Get(settings[k].1.fields, name) == Some(j) <==> (name, j) in settings[k].1.fields
    {
      GetIn(settings[k].1.fields, name, j);
    }
  }

  /** What a policy makes of an entry is what the document has for it, field by field, and the
      catalogue's where it has nothing. */
  ghost predicate ReadsAs(document: Json, p: Policy, d: SettingDef) {
    var e, q := p.DefinitionOf(d), d.Qualified();
    && e == d.(bounds := e.bounds, default := e.default)
    && BoundsRead(document, d, e.bounds)
    && ValuesRead(document, d, e.default, if q in p.pins then Some(p.pins[q]) else None)
  }

  ghost predicate BoundsRead(document: Json, d: SettingDef, after: Bounds) {
    && (forall clause | Writes(document, d, "minimum", clause) :: NumberReads(clause, d.bounds.minimum, after.minimum))
    && (forall clause | Writes(document, d, "maximum", clause) :: NumberReads(clause, d.bounds.maximum, after.maximum))
    && (forall clause | Writes(document, d, "max_items", clause) ::
          NumberReads(clause, d.bounds.maxItems, after.maxItems))
    && (forall clause | Writes(document, d, "choices", clause) :: ChoicesRead(clause, d.bounds.choices, after.choices))
  }

  ghost predicate ValuesRead(document: Json, d: SettingDef, default: Value, pin: Option<Value>) {
    && (forall clause | Writes(document, d, "default", clause) :: ValueReads(clause, Some(d.default), Some(default)))
    && (forall clause | Writes(document, d, "pin", clause) :: ValueReads(clause, None, pin))
  }

  predicate NumberReads(clause: Option<Json>, before: Option<int>, after: Option<int>) {
    if clause.Some? then clause.value.JInt? && after == Some(clause.value.n) else after == before
  }

  predicate ValueReads(clause: Option<Json>, before: Option<Value>, after: Option<Value>) {
    if clause.Some? then after.Some? && Spells(clause.value, after.value) else after == before
  }

  /** The choices a list names, in the catalogue's order. */
  ghost predicate ChoicesRead(clause: Option<Json>, before: seq<string>, after: seq<string>) {
    match clause
    case None => after == before
    case Some(j) =>
      && j.JList? && Subsequence(after, before)
      && forall s :: s in after <==> s in before && JStr(s) in j.items
  }

  lemma BoundedReads(d: SettingDef, read: Clauses)
    requires Bounded(d.valueType, d.bounds, read).Ok?
    ensures var b := Bounded(d.valueType, d.bounds, read).value;
      && NumberReads(read.minimum, d.bounds.minimum, b.minimum)
      && NumberReads(read.maximum, d.bounds.maximum, b.maximum)
      && NumberReads(read.maxItems, d.bounds.maxItems, b.maxItems)
      && ChoicesRead(read.choices, d.bounds.choices, b.choices)
  {
    BoundedNumbers(d.valueType, d.bounds, read);
    if read.choices.Some? && read.choices.value.JList? {
      KeptIsSubsequence(d.bounds.choices, read.choices.value.items);
    }
  }

  lemma DefaultReads(lib: Library, d: SettingDef, read: Clauses)
    requires Narrow(lib, d, read).Ok?
    ensures var e := Narrow(lib, d, read).value;
      && e == d.(bounds := e.bounds, default := e.default)
      && Bounded(d.valueType, d.bounds, read) == Ok(e.bounds)
      && ValueReads(read.default, Some(d.default), Some(e.default))
  {
    if read.default.Some? { ReadAsSpelled(read.default.value, Narrow(lib, d, read).value.default); }
  }

  lemma PinReads(lib: Library, p: Policy, d: SettingDef, clauses: Json)
    requires Says(lib, p, d, Some(clauses))
    ensures ValueReads(Get(clauses.fields, "pin"), None, p.PinOn(d))
  {
    var pin := Get(clauses.fields, "pin");
    if pin.Some? { ReadAsSpelled(pin.value, p.pins[d.Qualified()]); }
  }

  /** A policy reads an entry so, whatever it was parsed from. */
  ghost predicate ReadFrom(read: Clauses, p: Policy, d: SettingDef) {
    var e := p.DefinitionOf(d);
    && e == d.(bounds := e.bounds, default := e.default)
    && NumberReads(read.minimum, d.bounds.minimum, e.bounds.minimum)
    && NumberReads(read.maximum, d.bounds.maximum, e.bounds.maximum)
    && NumberReads(read.maxItems, d.bounds.maxItems, e.bounds.maxItems)
    && ChoicesRead(read.choices, d.bounds.choices, e.bounds.choices)
    && ValueReads(read.default, Some(d.default), Some(e.default))
    && ValueReads(read.pin, None, p.PinOn(d))
  }

  lemma SaidReads(lib: Library, p: Policy, d: SettingDef, clauses: Json)
    requires Says(lib, p, d, Some(clauses))
    ensures ReadFrom(ClausesIn(clauses.fields), p, d)
  {
    DefaultReads(lib, d, ClausesIn(clauses.fields));
    BoundedReads(d, ClausesIn(clauses.fields));
    PinReads(lib, p, d, clauses);
  }

  /** What the document has of a name is what a lookup among the entry's clauses finds. */
  ghost predicate FoundAmong(document: Json, d: SettingDef, fields: Dict<string, Json>) {
    forall name, clause | Writes(document, d, name, clause) :: clause == Get(fields, name)
  }

  lemma WritesWhatIsFound(document: Json, d: SettingDef, fields: Dict<string, Json>)
    requires document.JObject? && Dictionaries(document)
    requires var clauses := ClausesFor(document.fields, d.Named());
      if clauses.Some? then clauses.value == JObject(fields) else fields == []
    ensures FoundAmong(document, d, fields)
  {
    forall name, j
      ensures Written(document, d, name, j) <==> Get(fields, name) == Some(j)
    {
      WrittenIsFound(document, d, name, j);
    }
  }

  lemma FoundBoundsRead(document: Json, d: SettingDef, fields: Dict<string, Json>, after: Bounds)
    requires FoundAmong(document, d, fields)
    requires var read := ClausesIn(fields);
      && NumberReads(read.minimum, d.bounds.minimum, after.minimum)
      && NumberReads(read.maximum, d.bounds.maximum, after.maximum)
      && NumberReads(read.maxItems, d.bounds.maxItems, after.maxItems)
      && ChoicesRead(read.choices, d.bounds.choices, after.choices)
    ensures BoundsRead(document, d, after)
  {}

  lemma FoundReads(document: Json, p: Policy, d: SettingDef, fields: Dict<string, Json>)
    requires FoundAmong(document, d, fields) && ReadFrom(ClausesIn(fields), p, d)
    ensures ReadsAs(document, p, d)
  {
    FoundBoundsRead(document, d, fields, p.DefinitionOf(d).bounds);
  }

  /** The policy of an accepted document is the document, field by field, for every entry of the
      build. */
  lemma PolicyReads(lib: Library, c: Catalogue, document: Json, p: Policy, d: SettingDef)
    requires WellFormed(lib, c) && Dictionaries(document) && d in EveryEntry(c)
    requires ParseSpec(lib, c, document) == Ok(p)
    ensures ReadsAs(document, p, d)
  {
    PolicyIsTheDocument(lib, c, document, p, d);
    var clauses := ClausesFor(document.fields, d.Named());
    var fields := if clauses.Some? then clauses.value.fields else [];
    WritesWhatIsFound(document, d, fields);
    if clauses.Some? { SaidReads(lib, p, d, clauses.value); }
    FoundReads(document, p, d, fields);
  }
}
