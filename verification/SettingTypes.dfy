/** What a setting is and which values it takes. Mirrors the five declared types; values are
    tagged, so `true` is never a number and `"5"` is never one either. */
module SettingTypes {
  import opened Core

  datatype Value = Null | Bool(b: bool) | Int(n: int) | Str(s: string) | Strs(items: seq<string>)

  datatype SettingType = BoolType | IntType | StrType | EnumType | StrListType

  datatype OnUnavailable = UseDefault | Refuse

  datatype Scope = AccountScope | ProfileScope

  /** The library code the rules call and this model does not open: regular expressions, the
      time zone table, the credential detector, the JSON encoder's byte count, `strip` on any
      text, and ISO dates as days counted from a fixed one. */
  datatype Library = Library(
    fullmatch: (string, string) -> bool,
    hasZone: string -> bool,
    credential: string -> bool,
    encodedBytes: Value -> nat,
    stripped: string -> string,
    isoDay: string -> Option<int>
  )

  /** The bounds a deployment's policy may tighten. */
  datatype Bounds = Bounds(minimum: Option<int>, maximum: Option<int>, choices: seq<string>, maxItems: Option<int>)

  /** The rules on text that no policy touches. */
  datatype TextRules = TextRules(maxChars: Option<int>, pattern: Option<string>, maxItemChars: Option<int>,
                                 timezone: bool)

  datatype AgentAccess = Never | WithApproval | Freely

  /** What an entry says about itself; none of it decides which values are legal. */
  datatype Notes = Notes(summary: string, description: string, agentWritable: AgentAccess, deprecatedBy: Option<string>)

  datatype SettingDef = SettingDef(
    namespace: string,
    key: string,
    valueType: SettingType,
    default: Value,
    onUnavailable: OnUnavailable,
    bounds: Bounds,
    text: TextRules,
    nullable: bool,
    operatorClampable: bool,
    ownerWritableOnly: bool,
    scope: Scope,
    conservativeValues: seq<Value>,
    notes: Notes,
    retiredAt: Option<string>
  ) {
    function Named(): Name { Name(namespace, key) }
    function Qualified(): string { Named().Qualified() }
    predicate Retired() { retiredAt.Some? }
  }

  predicate AtMost(n: int, bound: Option<int>) { bound.Some? ==> n <= bound.value }

  predicate AtLeast(n: int, bound: Option<int>) { bound.Some? ==> bound.value <= n }

  /** Whether `SettingDef.validate` returns the value rather than raising. */
  predicate Legal(lib: Library, d: SettingDef, v: Value) {
    if v.Null? then d.nullable
    else
      match d.valueType
      case BoolType => v.Bool?
      case IntType => v.Int? && AtLeast(v.n, d.bounds.minimum) && AtMost(v.n, d.bounds.maximum)
      case StrType =>
        && v.Str?
        && AtMost(|v.s|, d.text.maxChars)
        && (d.text.pattern.Some? ==> lib.fullmatch(d.text.pattern.value, v.s))
        && (d.text.timezone ==> lib.hasZone(v.s))
      case EnumType => v.Str? && v.s in d.bounds.choices
      case StrListType =>
        && v.Strs?
        && AtMost(|v.items|, d.bounds.maxItems)
        && (forall i | 0 <= i < |v.items| :: AtMost(|v.items[i]|, d.text.maxItemChars))
        && Distinct(v.items)
  }

  // -- What `check` refuses about an entry -------------------------------------------------

  /** `KEY_PATTERN.match`: lower snake case starting with a letter. `match` lets the final `$`
      stand before one trailing newline, and so does this. */
  predicate KeyShaped(s: string) {
    SnakeCase(if s != [] && s[|s| - 1] == '\n' then s[..|s| - 1] else s)
  }

  /** Lower snake case, as the documentation of the pattern has it. */
  predicate SnakeCase(s: string) { s != [] && 'a' <= s[0] <= 'z' && forall i | 0 <= i < |s| :: KeyChar(s[i]) }

  predicate KeyChar(c: char) { 'a' <= c <= 'z' || '0' <= c <= '9' || c == '_' }

  const MAX_SUMMARY_CHARS := 120
  const MAX_DESCRIPTION_CHARS := 1200

  /** A summary, and a description that does not merely repeat it. */
  predicate Described(lib: Library, n: Notes) {
    && 1 <= |n.summary| <= MAX_SUMMARY_CHARS
    && 1 <= |n.description| <= MAX_DESCRIPTION_CHARS
    && lib.stripped(n.summary) != lib.stripped(n.description)
  }

  /** A retirement date is a date, and a replacement names a namespace and a key. */
  predicate Dated(lib: Library, d: SettingDef) {
    && (d.retiredAt.Some? ==> lib.isoDay(d.retiredAt.value).Some?)
    && (d.notes.deprecatedBy.Some? ==> '.' in d.notes.deprecatedBy.value)
  }

  /** An assistant has no more reach over a setting than the rest of the entry allows. */
  predicate AgentRestrained(d: SettingDef) {
    && (d.ownerWritableOnly || d.onUnavailable.Refuse? ==> !d.notes.agentWritable.Freely?)
    && (d.Retired() ==> d.notes.agentWritable.Never?)
  }

  /** Bounds belong to the type they are written on, and a pattern is anchored. */
  predicate BoundsBelong(d: SettingDef) {
    && (if d.valueType.EnumType? then d.bounds.choices != [] && Distinct(d.bounds.choices) else d.bounds.choices == [])
    && (!d.valueType.IntType? ==> d.bounds.minimum.None? && d.bounds.maximum.None?)
    && (d.bounds.minimum.Some? && d.bounds.maximum.Some? ==> d.bounds.minimum.value <= d.bounds.maximum.value)
    && (d.text.pattern.Some? ==> "^" <= d.text.pattern.value && d.text.pattern.value[|d.text.pattern.value| - 1] == '$')
  }

  /** The rules on names, prose, bounds, default, fallback, lifecycle, agent access and scope. */
  predicate WellFormedEntry(lib: Library, d: SettingDef) {
    && KeyShaped(d.namespace) && KeyShaped(d.key)
    && Described(lib, d.notes) && Dated(lib, d) && AgentRestrained(d)
    && BoundsBelong(d)
    && Legal(lib, d, d.default)
    && (d.onUnavailable.UseDefault? ==> d.default in d.conservativeValues)
    && (d.namespace == "common" || d.key == "default_profile" ==> d.scope.AccountScope?)
  }

  /** What is accepted beyond lower snake case is exactly such a name and one newline. */
  lemma AcceptedBeyondSnakeCase(s: string)
    ensures KeyShaped(s) && !SnakeCase(s) <==> s != [] && s[|s| - 1] == '\n' && SnakeCase(s[..|s| - 1])
  {
    if s != [] && s[|s| - 1] == '\n' { assert !KeyChar(s[|s| - 1]); }
  }

  lemma KeyShapedHasNoDot(s: string)
    requires KeyShaped(s)
    ensures '.' !in s
  {
    var t := if s[|s| - 1] == '\n' then s[..|s| - 1] else s;
    forall i | 0 <= i < |s|
      ensures s[i] != '.'
    {
      if i < |t| { assert KeyChar(t[i]) && t[i] == s[i]; }
    }
  }

  // -- What a request's value must also satisfy ---------------------------------------------

  /** A string of the value, on its own or in a list, looks like a credential. */
  predicate HoldsCredential(lib: Library, v: Value) {
    match v
    case Str(s) => lib.credential(s)
    case Strs(items) => exists i | 0 <= i < |items| :: lib.credential(items[i])
    case _ => false
  }

  datatype Refusal = InvalidValue | CredentialRefused

  /** `values.validate`: shape, then credentials, then size, the first failure deciding. */
  function Validated(lib: Library, d: SettingDef, v: Value, maxBytes: nat): (r: Result<Value, Refusal>)
    ensures r.Ok? || r == Err(InvalidValue) || r == Err(CredentialRefused)
    ensures r.Ok? <==> Legal(lib, d, v) && !HoldsCredential(lib, v) && lib.encodedBytes(v) <= maxBytes
    ensures r == Err(CredentialRefused) <==>
      && Legal(lib, d, v)
      && ((v.Str? && lib.credential(v.s)) || (v.Strs? && exists item | item in v.items :: lib.credential(item)))
    ensures r.Ok? ==> r.value == v
  {
    if !Legal(lib, d, v) then Err(InvalidValue)
    else if HoldsCredential(lib, v) then Err(CredentialRefused)
    else if lib.encodedBytes(v) > maxBytes then Err(InvalidValue)
    else Ok(v)
  }
}
