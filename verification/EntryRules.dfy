/** The checks of a value and of an entry as they run, rule after rule, against what they decide. */
module EntryRules {
  import opened Core
  import opened SettingTypes

  // -- Repetitions, by counting ---------------------------------------------------------------------

  function Elements<T>(s: seq<T>): set<T> { set x | x in s }

  /** A sequence has as many elements as places exactly when nothing in it repeats. */
  lemma {:induction false} CountsShowRepetition<T>(s: seq<T>)
    ensures |Elements(s)| <= |s|
    ensures |Elements(s)| == |s| <==> Distinct(s)
  {
    if s != [] {
      var n := |s| - 1;
      CountsShowRepetition(s[..n]);
      LastElement(s);
      if s[n] in s[..n] {
        var i :| 0 <= i < n && s[i] == s[n];
      }
    }
  }

  lemma LastElement<T>(s: seq<T>)
    requires s != []
    ensures var n := |s| - 1;
      && Elements(s) == Elements(s[..n]) + {s[n]}
      && (s[n] in s[..n] <==> s[n] in Elements(s[..n]))
      && (Distinct(s) <==> Distinct(s[..n]) && s[n] !in s[..n])
  {
    var n := |s| - 1;
    assert s == s[..n] + [s[n]];
    assert forall i | 0 <= i < n :: s[..n][i] == s[i];
  }

  // -- A value ----------------------------------------------------------------------------------------

  /** `_check_str_list`. */
  method CheckStrList(d: SettingDef, items: seq<string>) returns (ok: bool)
    ensures ok <==>
      && AtMost(|items|, d.bounds.maxItems)
      && (forall i | 0 <= i < |items| :: AtMost(|items[i]|, d.text.maxItemChars))
      && Distinct(items)
  {
    if d.bounds.maxItems.Some? && |items| > d.bounds.maxItems.value {
      return false;
    }
    for i := 0 to |items|
      invariant forall j | 0 <= j < i :: AtMost(|items[j]|, d.text.maxItemChars)
    {
      if d.text.maxItemChars.Some? && |items[i]| > d.text.maxItemChars.value {
        return false;
      }
    }
    CountsShowRepetition(items);
    return |Elements(items)| == |items|;
  }

  /** `SettingDef.validate`: null first, then the checks of the type, one after the other. A value is
      passed exactly when it is legal. */
  method Validate(lib: Library, d: SettingDef, v: Value) returns (ok: bool)
    ensures ok <==> Legal(lib, d, v)
  {
    if v.Null? {
      return d.nullable;
    }
    match d.valueType {
      case BoolType =>
        return v.Bool?;
      case IntType =>
        if !v.Int? {
          return false;
        }
        if d.bounds.minimum.Some? && v.n < d.bounds.minimum.value {
          return false;
        }
        return !(d.bounds.maximum.Some? && v.n > d.bounds.maximum.value);
      case StrType =>
        if !v.Str? {
          return false;
        }
        if d.text.maxChars.Some? && |v.s| > d.text.maxChars.value {
          return false;
        }
        if d.text.pattern.Some? && !lib.fullmatch(d.text.pattern.value, v.s) {
          return false;
        }
        return !(d.text.timezone && !lib.hasZone(v.s));
      case EnumType =>
        return v.Str? && v.s in d.bounds.choices;
      case StrListType =>
        if !v.Strs? {
          return false;
        }
        ok := CheckStrList(d, v.items);
    }
  }

  // -- An entry -----------------------------------------------------------------------------------------

  /** `_entry_bounds`. */
  method CheckBounds(d: SettingDef) returns (ok: bool)
    ensures ok <==> BoundsBelong(d)
  {
    CountsShowRepetition(d.bounds.choices);
    if d.valueType.EnumType? {
      if d.bounds.choices == [] || |Elements(d.bounds.choices)| != |d.bounds.choices| {
        return false;
      }
    } else if d.bounds.choices != [] {
      return false;
    }
    if !d.valueType.IntType? && (d.bounds.minimum.Some? || d.bounds.maximum.Some?) {
      return false;
    }
    if d.bounds.minimum.Some? && d.bounds.maximum.Some? && d.bounds.minimum.value > d.bounds.maximum.value {
      return false;
    }
    if d.text.pattern.Some? {
      var p := d.text.pattern.value;
      return |p| >= 1 && p[0] == '^' && p[|p| - 1] == '$';
    }
    return true;
  }

  /** `SettingDef.check`: the rules in their order. An entry passes exactly when it is well formed. */
  method CheckEntry(lib: Library, d: SettingDef) returns (ok: bool)
    ensures ok <==> WellFormedEntry(lib, d)
  {
    if !KeyShaped(d.namespace) || !KeyShaped(d.key) {
      return false;
    }
    if d.notes.summary == "" || |d.notes.summary| > 120 || d.notes.description == "" || |d.notes.description| > 1200 {
      return false;
    }
    if lib.stripped(d.notes.summary) == lib.stripped(d.notes.description) {
      return false;
    }
    var bounded := CheckBounds(d);
    if !bounded {
      return false;
    }
    var allowed := Validate(lib, d, d.default);
    if !allowed {
      return false;
    }
    if d.onUnavailable.UseDefault? && (d.conservativeValues == [] || d.default !in d.conservativeValues) {
      return false;
    }
    if d.retiredAt.Some? && lib.isoDay(d.retiredAt.value).None? {
      return false;
    }
    if d.notes.deprecatedBy.Some? && '.' !in d.notes.deprecatedBy.value {
      return false;
    }
    ok := CheckAgentAccess(d);
    if d.scope.ProfileScope? && (d.namespace == "common" || d.key == "default_profile") {
      return false;
    }
  }

  /** `_entry_agent_access`. */
  method CheckAgentAccess(d: SettingDef) returns (ok: bool)
    ensures ok <==> AgentRestrained(d)
  {
    var access := d.notes.agentWritable;
    if d.ownerWritableOnly && access.Freely? {
      return false;
    }
    if d.retiredAt.Some? && !access.Never? {
      return false;
    }
    return !(d.onUnavailable.Refuse? && access.Freely?);
  }
}
