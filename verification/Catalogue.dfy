/** The checked table of settings and the lookups over it. */
module Catalogue {
  import opened Core
  import opened Dicts
  import opened SettingTypes
  import opened EntryRules

  const COMMON := "common"

  datatype NamespaceModule = NamespaceModule(namespace: string, settings: seq<SettingDef>)

  /** Every namespace in documentation order, with its entries in declared order. */
  type Catalogue = Dict<string, seq<SettingDef>>

  /** What `_assemble` promises of the table it returns. */
  ghost predicate WellFormed(lib: Library, c: Catalogue) {
    Unique(c) && forall n | 0 <= n < |c| :: WellFormedNamespace(lib, c[n].0, c[n].1)
  }

  ghost predicate WellFormedNamespace(lib: Library, namespace: string, entries: seq<SettingDef>) {
    && (forall i | 0 <= i < |entries| ::
          entries[i].namespace == namespace && WellFormedEntry(lib, entries[i]))
    && (forall i, j | 0 <= i < j < |entries| :: entries[i].key != entries[j].key)
  }

  /** `_assemble`: refuses the build if a namespace is claimed twice, an entry is declared in
      the wrong module or twice, or an entry fails its own checks; otherwise the table is the
      modules as given. */
  method Assemble(lib: Library, modules: seq<NamespaceModule>) returns (r: Option<Catalogue>)
    ensures r.Some? ==> WellFormed(lib, r.value)
    ensures r.Some? ==> |r.value| == |modules|
    ensures r.Some? ==>
      forall n | 0 <= n < |modules| :: r.value[n] == (modules[n].namespace, modules[n].settings)
    ensures r.None? ==>
      || (exists m, n | 0 <= m < n < |modules| :: modules[m].namespace == modules[n].namespace)
      || (exists n | 0 <= n < |modules| :: !WellFormedNamespace(lib, modules[n].namespace, modules[n].settings))
  {
    var catalogue: Catalogue := [];
    for n := 0 to |modules|
      invariant |catalogue| == n
      invariant forall m | 0 <= m < n :: catalogue[m] == (modules[m].namespace, modules[m].settings)
      invariant WellFormed(lib, catalogue)
    {
      var namespace, entries := modules[n].namespace, modules[n].settings;
      if Has(catalogue, namespace) {
        return None;
      }
      var checked := CheckModule(lib, namespace, entries);
      if !checked {
        return None;
      }
      AddingKeepsWellFormed(lib, catalogue, namespace, entries);
      catalogue := catalogue + [(namespace, entries)];
    }
    return Some(catalogue);
  }

  /** The inner loop: every entry in its own module, declared once and passing its checks. */
  method CheckModule(lib: Library, namespace: string, entries: seq<SettingDef>) returns (ok: bool)
    ensures ok <==> WellFormedNamespace(lib, namespace, entries)
  {
    var seen: set<string> := {};
    for i := 0 to |entries|
      invariant seen == EntryKeys(entries[..i]) && WellFormedNamespace(lib, namespace, entries[..i])
    {
      OneMoreEntry(lib, namespace, entries, i);
      var passes := CheckEntry(lib, entries[i]);
      if entries[i].namespace != namespace || entries[i].key in seen || !passes {
        return false;
      }
      seen := seen + {entries[i].key};
    }
    assert entries[..|entries|] == entries;
    return true;
  }

  function EntryKeys(entries: seq<SettingDef>): set<string> { set i | 0 <= i < |entries| :: entries[i].key }

  /** Every entry passes, and no key occurs twice. */
  ghost predicate KeyedAll(passes: SettingDef -> bool, entries: seq<SettingDef>) {
    && (forall i | 0 <= i < |entries| :: passes(entries[i]))
    && (forall i, j | 0 <= i < j < |entries| :: entries[i].key != entries[j].key)
  }

  lemma OneMoreKeyed(passes: SettingDef -> bool, before: seq<SettingDef>, d: SettingDef)
    requires KeyedAll(passes, before)
    ensures KeyedAll(passes, before + [d]) <==> passes(d) && d.key !in EntryKeys(before)
    ensures EntryKeys(before + [d]) == EntryKeys(before) + {d.key}
  {
    var after := before + [d];
    assert after[|before|] == d && forall j | 0 <= j < |before| :: after[j] == before[j];
    if d.key in EntryKeys(before) {
      var j :| 0 <= j < |before| && before[j].key == d.key;
      assert after[j].key == after[|before|].key;
    }
    forall k | k in EntryKeys(before) + {d.key}
      ensures k in EntryKeys(after)
    {
      if k != d.key {
        var j :| 0 <= j < |before| && before[j].key == k;
        assert after[j].key == k;
      }
    }
  }

  lemma PrefixKeyed(passes: SettingDef -> bool, entries: seq<SettingDef>, n: nat)
    requires n <= |entries| && KeyedAll(passes, entries)
    ensures KeyedAll(passes, entries[..n])
  {}

  /** After the entries before it, one more is well formed exactly when it passes the three tests;
      if it does not, the module is not. */
  lemma OneMoreEntry(lib: Library, namespace: string, entries: seq<SettingDef>, i: nat)
    requires i < |entries| && WellFormedNamespace(lib, namespace, entries[..i])
    ensures EntryKeys(entries[..i + 1]) == EntryKeys(entries[..i]) + {entries[i].key}
    ensures WellFormedNamespace(lib, namespace, entries[..i + 1]) <==>
      entries[i].namespace == namespace && entries[i].key !in EntryKeys(entries[..i])
      && WellFormedEntry(lib, entries[i])
    ensures WellFormedNamespace(lib, namespace, entries) ==> WellFormedNamespace(lib, namespace, entries[..i + 1])
  {
    var passes := (d: SettingDef) => d.namespace == namespace && WellFormedEntry(lib, d);
    assert entries[..i + 1] == entries[..i] + [entries[i]];
    OneMoreKeyed(passes, entries[..i], entries[i]);
    if KeyedAll(passes, entries) { PrefixKeyed(passes, entries, i + 1); }
  }

  lemma AddingKeepsWellFormed(lib: Library, c: Catalogue, namespace: string, entries: seq<SettingDef>)
    requires WellFormed(lib, c) && !Has(c, namespace) && WellFormedNamespace(lib, namespace, entries)
    ensures WellFormed(lib, c + [(namespace, entries)])
  {}

  // -- Lookups ----------------------------------------------------------------------------

  /** `every_entry`. */
  function EveryEntry(c: Catalogue): seq<SettingDef> {
    if c == [] then [] else c[0].1 + EveryEntry(c[1..])
  }

  /** `BY_QUALIFIED`: a comprehension over every entry, a later one of the same name winning. */
  function ByQualified(entries: seq<SettingDef>): map<string, SettingDef> {
    if entries == [] then map[]
    else
      var last := entries[|entries| - 1];
      ByQualified(entries[..|entries| - 1])[last.Qualified() := last]
  }

  function Index(c: Catalogue): map<string, SettingDef> { ByQualified(EveryEntry(c)) }

  function Live(entries: seq<SettingDef>): seq<SettingDef> {
    if entries == [] then []
    else (if entries[0].Retired() then [] else [entries[0]]) + Live(entries[1..])
  }

  datatype LookupError = UnknownNamespace | UnknownSetting

  /** `live_entries_in`. */
  function LiveEntriesIn(c: Catalogue, namespace: string): Result<seq<SettingDef>, LookupError> {
    match Get(c, namespace)
    case None => Err(UnknownNamespace)
    case Some(entries) => Ok(Live(entries))
  }

  /** `definition_for`: through the index, by the dotted spelling. */
  function DefinitionFor(c: Catalogue, namespace: string, key: string): Result<SettingDef, LookupError> {
    if !Has(c, namespace) then Err(UnknownNamespace)
    else
      var q := Name(namespace, key).Qualified();
      if q !in Index(c) || Index(c)[q].Retired() then Err(UnknownSetting) else Ok(Index(c)[q])
  }

  // -- The index finds what a scan finds ------------------------------------------------------

  lemma {:induction false} IndexHoldsEntries(entries: seq<SettingDef>, q: string)
    ensures q in ByQualified(entries) ==>
      ByQualified(entries)[q] in entries && ByQualified(entries)[q].Qualified() == q
    ensures forall d | d in entries :: d.Qualified() in ByQualified(entries)
  {
    if entries != [] {
      IndexHoldsEntries(entries[..|entries| - 1], q);
      assert entries == entries[..|entries| - 1] + [entries[|entries| - 1]];
      forall d | d in entries
        ensures d.Qualified() in ByQualified(entries)
      {
        if d in entries[..|entries| - 1] { IndexHoldsEntries(entries[..|entries| - 1], q); }
      }
    }
  }

  lemma {:induction false} LiveIn(entries: seq<SettingDef>)
    ensures forall d :: d in Live(entries) <==> d in entries && !d.Retired()
  {
    if entries != [] {
      LiveIn(entries[1..]);
      assert entries == [entries[0]] + entries[1..];
    }
  }

  lemma {:induction false} EveryEntryIn(c: Catalogue)
    ensures forall d :: d in EveryEntry(c) <==> exists n | 0 <= n < |c| :: d in c[n].1
  {
    if c != [] {
      EveryEntryIn(c[1..]);
      assert c == [c[0]] + c[1..];
      forall d
        ensures d in EveryEntry(c) <==> exists n | 0 <= n < |c| :: d in c[n].1
      {
        if n :| 0 <= n < |c| && d in c[n].1 {
          if n > 0 { assert d in c[1..][n - 1].1; }
        }
        if m :| 0 <= m < |c[1..]| && d in c[1..][m].1 { assert d in c[m + 1].1; }
      }
    }
  }

  /** In a checked catalogue a spelling belongs to one entry, so whatever name is asked for,
      the index answers with the entry of exactly that name. */
  lemma SpellingNamesOneEntry(lib: Library, c: Catalogue, d: SettingDef, name: Name)
    requires WellFormed(lib, c)
    requires d in EveryEntry(c) && d.Qualified() == name.Qualified()
    ensures name.Qualified() in Index(c)
    ensures d.Named() == name && Index(c)[name.Qualified()] == d
  {
    EveryEntryIn(c);
    IndexHoldsEntries(EveryEntry(c), name.Qualified());
    var e := Index(c)[name.Qualified()];
    var m :| 0 <= m < |c| && d in c[m].1;
    var n :| 0 <= n < |c| && e in c[n].1;
    KeyShapedHasNoDot(d.namespace);
    KeyShapedHasNoDot(d.key);
    QualifiedDetermines(name, d.Named());
    QualifiedDetermines(e.Named(), d.Named());
    assert c[m].0 == c[n].0;
    assert WellFormedNamespace(lib, c[m].0, c[m].1);
  }

  /** For a namespace this build has, `definition_for` returns an entry exactly when a scan of
      the live entries meets it: dots in the key asked for never find another entry. */
  lemma IndexAgreesWithScan(lib: Library, c: Catalogue, namespace: string, key: string, d: SettingDef)
    requires WellFormed(lib, c)
    ensures LiveEntriesIn(c, namespace).Err? <==> DefinitionFor(c, namespace, key) == Err(UnknownNamespace)
    ensures DefinitionFor(c, namespace, key) == Ok(d)
       <==> LiveEntriesIn(c, namespace).Ok? && d in LiveEntriesIn(c, namespace).value && d.key == key
  {
    var name := Name(namespace, key);
    match Get(c, namespace)
    case None =>
    case Some(entries) =>
      LiveIn(entries);
      EveryEntryIn(c);
      IndexHoldsEntries(EveryEntry(c), name.Qualified());
      var n :| 0 <= n < |c| && c[n] == (namespace, entries);
      assert WellFormedNamespace(lib, namespace, entries);
      if DefinitionFor(c, namespace, key) == Ok(d) {
        SpellingNamesOneEntry(lib, c, d, name);
        var m :| 0 <= m < |c| && d in c[m].1;
        assert WellFormedNamespace(lib, c[m].0, c[m].1);
        assert c[m].0 == namespace;
        assert m == n;
      }
      if d in Live(entries) && d.key == key {
        assert d.Named() == name;
        SpellingNamesOneEntry(lib, c, d, name);
      }
  }

  /** The build declares this entry under this namespace and key, and has not retired it. */
  ghost predicate LiveAs(c: Catalogue, namespace: string, key: string, d: SettingDef) {
    exists n | 0 <= n < |c| :: c[n].0 == namespace && d in c[n].1 && d.key == key && d.retiredAt.None?
  }

  ghost predicate HasNamespace(c: Catalogue, namespace: string) { exists n | 0 <= n < |c| :: c[n].0 == namespace }

  /** A lookup finds exactly the live entry of the namespace and key, and blames the namespace
      exactly when there is no such namespace. */
  lemma FoundExactlyWhen(lib: Library, c: Catalogue, namespace: string, key: string, d: SettingDef)
    requires WellFormed(lib, c)
    ensures DefinitionFor(c, namespace, key) == Ok(d) <==> LiveAs(c, namespace, key, d)
    ensures DefinitionFor(c, namespace, key) == Err(UnknownNamespace) <==> !HasNamespace(c, namespace)
    ensures Has(c, namespace) <==> HasNamespace(c, namespace)
  {
    IndexAgreesWithScan(lib, c, namespace, key, d);
    match Get(c, namespace)
    case None =>
    case Some(entries) =>
      LiveIn(entries);
      var n :| 0 <= n < |c| && c[n] == (namespace, entries);
      if LiveAs(c, namespace, key, d) {
        var m :| 0 <= m < |c| && c[m].0 == namespace && d in c[m].1 && d.key == key && d.retiredAt.None?;
        assert m == n;
      }
  }

  /** At most one entry is live under a name, and nothing is found where none is. */
  lemma OneLiveEntry(lib: Library, c: Catalogue, namespace: string, key: string)
    requires WellFormed(lib, c)
    ensures DefinitionFor(c, namespace, key).Ok? <==> exists d :: LiveAs(c, namespace, key, d)
    ensures forall d, e | LiveAs(c, namespace, key, d) && LiveAs(c, namespace, key, e) :: d == e
    ensures DefinitionFor(c, namespace, key).Ok? ==>
      LiveAs(c, namespace, key, DefinitionFor(c, namespace, key).value)
  {
    var found := DefinitionFor(c, namespace, key);
    if found.Ok? { FoundExactlyWhen(lib, c, namespace, key, found.value); }
    forall d | LiveAs(c, namespace, key, d)
      ensures found == Ok(d)
    {
      FoundExactlyWhen(lib, c, namespace, key, d);
    }
  }

  /** What finding an entry says about it. */
  lemma FoundEntry(lib: Library, c: Catalogue, namespace: string, key: string)
    requires WellFormed(lib, c)
    ensures var r := DefinitionFor(c, namespace, key); r.Ok? ==>
      && r.value.Named() == Name(namespace, key)
      && !r.value.Retired()
      && r.value in EveryEntry(c)
      && WellFormedEntry(lib, r.value)
      && r.value.Qualified() in Index(c)
      && Index(c)[r.value.Qualified()] == r.value
  {
    var r := DefinitionFor(c, namespace, key);
    if r.Ok? {
      var d := r.value;
      IndexAgreesWithScan(lib, c, namespace, key, d);
      var entries := Get(c, namespace).value;
      LiveIn(entries);
      EveryEntryIn(c);
      var n :| 0 <= n < |c| && c[n] == (namespace, entries);
      assert WellFormedNamespace(lib, namespace, entries);
      SpellingNamesOneEntry(lib, c, d, Name(namespace, key));
    }
  }

  /** Every entry is well formed and is the one its spelling finds. */
  lemma EntryFacts(lib: Library, c: Catalogue, d: SettingDef)
    requires WellFormed(lib, c) && d in EveryEntry(c)
    ensures WellFormedEntry(lib, d)
    ensures d.Qualified() in Index(c) && Index(c)[d.Qualified()] == d
    ensures !d.Retired() ==> DefinitionFor(c, d.namespace, d.key) == Ok(d)
  {
    EveryEntryIn(c);
    var n :| 0 <= n < |c| && d in c[n].1;
    assert WellFormedNamespace(lib, c[n].0, c[n].1);
    SpellingNamesOneEntry(lib, c, d, d.Named());
  }
}
