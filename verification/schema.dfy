/** The per-field rule map both SDK validators walk, and the checks they run on a value
    that is present, in the order they run them. The two validators differ only in how a
    missing value is recognised and in the primitive tests gathered in `Dialect`. */
module Schema {
  import opened Wrappers
  import opened Json

  /** One field's rules. An empty `kind` means no type rule; `pattern` is the compiled
      regular expression as a predicate (the regex engine is not modelled); `custom` is
      the caller's validation callable. */
  datatype FieldRule = FieldRule(
    kind: string,
    required: bool,
    minLength: Option<int>,
    maxLength: Option<int>,
    email: bool,
    url: bool,
    pattern: Option<string -> bool>,
    min: Option<real>,
    max: Option<real>,
    custom: Option<Value -> bool>)

  /** The reasons a validator rejects a field. */
  datatype Violation =
    | RequiredMissing
    | WrongType(expected: string)
    | TooShort(minLength: int)
    | TooLong(maxLength: int)
    | NotEmail
    | NotUrl
    | NoPatternMatch
    | BelowMin(min: real)
    | AboveMax(max: real)
    | CustomRejected

  /** The single error a validation reports: the field and why it failed. */
  datatype FieldError = FieldError(field: string, violation: Violation)

  /** The primitive tests a binding supplies: its type table, its email and URL
      shapes, and which values count as numbers. */
  datatype Dialect = Dialect(
    typeMatches: (Value, string) -> bool,
    isEmail: string -> bool,
    isUrl: string -> bool,
    asNumber: Value -> Option<real>)

  /** Every string rule `s` breaks, in checking order: min_length, max_length, email,
      url, pattern. */
  function StringViolations(s: string, rule: FieldRule, d: Dialect): seq<Violation> {
    (if rule.minLength.Some? && |s| < rule.minLength.value then [TooShort(rule.minLength.value)] else [])
    + (if rule.maxLength.Some? && |s| > rule.maxLength.value then [TooLong(rule.maxLength.value)] else [])
    + (if rule.email && !d.isEmail(s) then [NotEmail] else [])
    + (if rule.url && !d.isUrl(s) then [NotUrl] else [])
    + (if rule.pattern.Some? && !rule.pattern.value(s) then [NoPatternMatch] else [])
  }

  /** Every numeric bound `n` breaks; both bounds are inclusive. */
  function NumberViolations(n: real, rule: FieldRule): seq<Violation> {
    (if rule.min.Some? && n < rule.min.value then [BelowMin(rule.min.value)] else [])
    + (if rule.max.Some? && n > rule.max.value then [AboveMax(rule.max.value)] else [])
  }

  /** Every rule a present value breaks, in checking order: the type rule, the string
      rules, the numeric bounds, and the custom callable last. */
  function Violations(v: Value, rule: FieldRule, d: Dialect): seq<Violation> {
    (if rule.kind != "" && !d.typeMatches(v, rule.kind) then [WrongType(rule.kind)] else [])
    + (if v.Str? then StringViolations(v.s, rule, d) else [])
    + (if d.asNumber(v).Some? then NumberViolations(d.asNumber(v).value, rule) else [])
    + (if rule.custom.Some? && !rule.custom.value(v) then [CustomRejected] else [])
  }

  /** The validators' early-return chain on a present value. It reports exactly the
      first broken rule of `Violations`, and nothing when no rule is broken. */
  function CheckValue(v: Value, rule: FieldRule, d: Dialect): (r: Option<Violation>)
    ensures r.None? <==> Violations(v, rule, d) == []
    ensures r.Some? ==> r.value == Violations(v, rule, d)[0]
  {
    if rule.kind != "" && !d.typeMatches(v, rule.kind) then Some(WrongType(rule.kind))
    else if v.Str? && rule.minLength.Some? && |v.s| < rule.minLength.value then Some(TooShort(rule.minLength.value))
    else if v.Str? && rule.maxLength.Some? && |v.s| > rule.maxLength.value then Some(TooLong(rule.maxLength.value))
    else if v.Str? && rule.email && !d.isEmail(v.s) then Some(NotEmail)
    else if v.Str? && rule.url && !d.isUrl(v.s) then Some(NotUrl)
    else if v.Str? && rule.pattern.Some? && !rule.pattern.value(v.s) then Some(NoPatternMatch)
    else if d.asNumber(v).Some? && rule.min.Some? && d.asNumber(v).value < rule.min.value then Some(BelowMin(rule.min.value))
    else if d.asNumber(v).Some? && rule.max.Some? && d.asNumber(v).value > rule.max.value then Some(AboveMax(rule.max.value))
    else if rule.custom.Some? && !rule.custom.value(v) then Some(CustomRejected)
    else None
  }

  /** The type rule is checked before any constraint, a string's first broken rule in
      the order min_length, max_length, email, url, pattern is the one reported, and the
      custom callable only decides when every built-in rule passed. */
  lemma CheckOrder(v: Value, rule: FieldRule, d: Dialect)
    ensures rule.kind != "" && !d.typeMatches(v, rule.kind) ==> CheckValue(v, rule, d) == Some(WrongType(rule.kind))
    ensures CheckValue(v, rule, d) == Some(CustomRejected) ==> Violations(v, rule, d) == [CustomRejected]
    ensures v.Str? && (rule.kind == "" || d.typeMatches(v, rule.kind)) && StringViolations(v.s, rule, d) != []
            ==> CheckValue(v, rule, d) == Some(StringViolations(v.s, rule, d)[0])
  {
  }
}
