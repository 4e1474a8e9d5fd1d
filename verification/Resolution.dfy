/** Turning three layers -- catalogue, policy, account -- into one answer. */
module Resolution {
  import opened Dicts
  import opened SettingTypes
  import opened Catalogue
  import opened Policies

  /** One deployment: its catalogue, its policy, its limits and the library code it calls. */
  datatype Site = Site(
    lib: Library,
    catalogue: Catalogue,
    policy: Policy,
    maxEvents: nat,
    maxValueBytes: nat,
    retentionDays: nat
  )

  datatype Source = FromDefault | FromPolicy | FromAccount

  datatype Resolved = Resolved(definition: SettingDef, value: Value, source: Source, setByAccount: bool, pinned: bool)

  /** Last wins, except that a pin beats the account. `stored` is keyed by `namespace.key`. */
  function Resolve(d: SettingDef, stored: map<string, Value>, policy: Policy): Resolved {
    var effective := policy.DefinitionOf(d);
    var q := effective.Qualified();
    if policy.IsPinned(d) then Resolved(effective, policy.PinOn(d).value, FromPolicy, q in stored, true)
    else if q in stored then Resolved(effective, stored[q], FromAccount, true, false)
    else Resolved(effective, effective.default,
                  if effective.default != d.default then FromPolicy else FromDefault, false, false)
  }

  function ResolveEntries(entries: seq<SettingDef>, stored: map<string, Value>,
                          policy: Policy): Dict<string, Resolved> {
    seq(|entries|, i requires 0 <= i < |entries| => (entries[i].key, Resolve(entries[i], stored, policy)))
  }

  /** Every live setting of a namespace the build has. */
  function ResolveNamespace(site: Site, namespace: string, stored: map<string, Value>): Dict<string, Resolved>
    requires Has(site.catalogue, namespace)
  {
    ResolveEntries(Live(Get(site.catalogue, namespace).value), stored, site.policy)
  }

  /** `merged.update(over)`. */
  function Updated<V>(under: Dict<string, V>, over: Dict<string, V>): Dict<string, V> {
    if over == [] then under
    else
      var last := over[|over| - 1];
      Put(Updated(under, over[..|over| - 1]), last.0, last.1)
  }

  /** The namespace with `common` merged underneath it. */
  function ResolveForService(site: Site, namespace: string, stored: map<string, Value>): Dict<string, Resolved>
    requires Has(site.catalogue, namespace) && Has(site.catalogue, COMMON)
  {
    var common := ResolveNamespace(site, COMMON, stored);
    if namespace == COMMON then common
    else Updated(common, ResolveNamespace(site, namespace, stored))
  }

  /** On a key both have, the namespace wins; every other key reads as it did. */
  lemma {:induction false} TheNamespaceWins<V>(under: Dict<string, V>, over: Dict<string, V>, k: string)
    requires Unique(over)
    ensures Get(Updated(under, over), k) == if Has(over, k) then Get(over, k) else Get(under, k)
  {
    if over != [] {
      var n := |over| - 1;
      TheNamespaceWins(under, over[..n], k);
      PutGets(Updated(under, over[..n]), over[n].0, over[n].1, k);
      LastGet(over, k);
    }
  }

  /** Two accounts of what is stored that agree on every live setting resolve alike. */
  ghost predicate AgreeOnLive(c: Catalogue, s: map<string, Value>, t: map<string, Value>) {
    forall d | d in EveryEntry(c) && !d.Retired() ::
      (d.Qualified() in s <==> d.Qualified() in t) && (d.Qualified() in s ==> s[d.Qualified()] == t[d.Qualified()])
  }

  /** Every override keeps the name of the entry it narrows. */
  ghost predicate KeepsNames(c: Catalogue, policy: Policy) {
    forall d | d in EveryEntry(c) :: policy.DefinitionOf(d).Named() == d.Named()
  }

  lemma LiveEntriesOf(c: Catalogue, namespace: string)
    requires Has(c, namespace)
    ensures forall d | d in Live(Get(c, namespace).value) :: d in EveryEntry(c) && !d.Retired()
  {
    var entries := Get(c, namespace).value;
    LiveIn(entries);
    EveryEntryIn(c);
    var n :| 0 <= n < |c| && c[n] == (namespace, entries);
  }

  lemma NamespaceDependsOnLive(site: Site, namespace: string, s: map<string, Value>, t: map<string, Value>)
    requires Has(site.catalogue, namespace) && KeepsNames(site.catalogue, site.policy)
    requires AgreeOnLive(site.catalogue, s, t)
    ensures ResolveNamespace(site, namespace, s) == ResolveNamespace(site, namespace, t)
  {
    LiveEntriesOf(site.catalogue, namespace);
    var live := Live(Get(site.catalogue, namespace).value);
    forall i | 0 <= i < |live|
      ensures Resolve(live[i], s, site.policy) == Resolve(live[i], t, site.policy)
    {
      assert live[i] in live;
    }
  }

  /** The document a service gets is a function of the live settings alone. */
  lemma DocumentDependsOnLive(site: Site, namespace: string, s: map<string, Value>, t: map<string, Value>)
    requires Has(site.catalogue, namespace) && Has(site.catalogue, COMMON)
    requires KeepsNames(site.catalogue, site.policy) && AgreeOnLive(site.catalogue, s, t)
    ensures ResolveForService(site, namespace, s) == ResolveForService(site, namespace, t)
  {
    NamespaceDependsOnLive(site, namespace, s, t);
    NamespaceDependsOnLive(site, COMMON, s, t);
  }
}
