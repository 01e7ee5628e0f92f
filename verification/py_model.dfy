/** The Python SDK's schema validation (`Model._validate` and its helpers) and the
    validate-before-write guards of `create` and `update`,
    sdks/python/toonstore_torm/model.py. */
module PyModel {
  import opened Wrappers
  import opened Json
  import opened Schema
  import Shapes

  /** `_check_type`: the six known names test the value's class (`bool` is a subclass
      of `int` in Python, so a boolean passes 'int'); any other name passes. */
  function CheckType(v: Value, expected: string): (r: bool)
    ensures !KnownType(expected) ==> r
    ensures v.Null? ==> (r <==> !KnownType(expected))
  {
    if expected == "str" then v.Str?
    else if expected == "int" then v.Int? || v.Bool?
    else if expected == "float" then v.Float?
    else if expected == "bool" then v.Bool?
    else if expected == "list" then v.Arr?
    else if expected == "dict" then v.Obj?
    else true
  }

  predicate KnownType(expected: string) {
    expected in {"str", "int", "float", "bool", "list", "dict"}
  }

  /** `isinstance(value, (int, float))`, with the value as a number (True is 1). */
  function AsNumber(v: Value): (r: Option<real>)
    ensures r.Some? <==> v.Int? || v.Float? || v.Bool?
  {
    match v
    case Int(i) => Some(i as real)
    case Float(f) => Some(f)
    case Bool(b) => Some(if b then 1.0 else 0.0)
    case _ => None
  }

  /** `_is_email`: the pattern `^[^\s@]+@[^\s@]+\.[^\s@]+$` as `re.match` runs it. `$`
      also matches just before a final newline, so one trailing "\n" is accepted, and an
      accepted address holds one '@' after a non-empty local part. */
  function IsEmailAsWritten(s: string): (r: bool)
    ensures r ==> Shapes.AtCount(s) == 1 && s[0] != '@'
  {
    if Shapes.EmailShape(s, Shapes.PySpace) then
      Shapes.EmailShapeFacts(s, Shapes.PySpace);
      true
    else if |s| > 0 && s[|s| - 1] == '\n' && Shapes.EmailShape(s[..|s| - 1], Shapes.PySpace) then
      NewlineAfterShape(s[..|s| - 1]);
      assert s == s[..|s| - 1] + ['\n'];
      true
    else false
  }

  /** `_is_email` as evidently intended: the whole string has the shape, so it holds no
      whitespace at all. */
  function IsEmail(s: string): (r: bool)
    ensures r <==> Shapes.EmailShape(s, Shapes.PySpace)
    ensures r ==> Shapes.AtCount(s) == 1 && s[0] != '@' && forall i :: 0 <= i < |s| ==> !Shapes.PySpace(s[i])
  {
    if Shapes.EmailShape(s, Shapes.PySpace) then Shapes.EmailShapeFacts(s, Shapes.PySpace); true else false
  }

  /** `_is_url`: `^https?://.+`, so the scheme must be followed by at least one
      character other than a newline ('.' does not match "\n"). */
  function IsUrl(s: string): (r: bool)
    ensures r ==> |s| > 7 && ("http://" <= s || "https://" <= s)
  {
    || (|s| > 7 && s[..7] == "http://" && s[7] != '\n')
    || (|s| > 8 && s[..8] == "https://" && s[8] != '\n')
  }

  /** The primitive tests `_validate` runs, with `_is_email` as written. */
  const Dialect: Schema.Dialect := Schema.Dialect(CheckType, IsEmailAsWritten, IsUrl, AsNumber)

  /** The same tests with the email shape as evidently intended (no trailing newline). */
  const IntendedDialect: Schema.Dialect := Schema.Dialect(CheckType, IsEmail, IsUrl, AsNumber)

  /** `data.get(field)`, where a stored None (JSON null) reads like a missing key. */
  function Present(data: Doc, field: string): (r: Option<Value>)
    ensures r.Some? <==> field in data && data[field] != Null
    ensures r.Some? ==> r.value == data[field]
  {
    if field in data && data[field] != Null then Some(data[field]) else None
  }

  /** One loop iteration of `_validate`: the required check (skipped when `partial`),
      the skip for a missing value, then the checks on a present value. */
  function CheckField(data: Doc, field: string, rule: FieldRule, partial: bool): (r: Option<Violation>)
    ensures Present(data, field).None? ==> (r.Some? <==> rule.required && !partial)
    ensures r == Some(RequiredMissing) ==> Present(data, field).None?
    ensures Present(data, field).Some? ==> r == CheckValue(Present(data, field).value, rule, Dialect)
  {
    match Present(data, field)
    case None => if rule.required && !partial then Some(RequiredMissing) else None
    case Some(v) => CheckValue(v, rule, Dialect)
  }

  /** The schema is a dict, walked in insertion order. */
  type Rules = seq<(string, FieldRule)>

  /** `_validate`: the first failing field raises, and nothing else is reported; the
      error names a schema field and the first rule it breaks. */
  function Validate(schema: Rules, data: Doc, partial: bool): (r: Result<(), FieldError>)
    ensures r.Err? ==> exists i :: 0 <= i < |schema| && schema[i].0 == r.error.field
                                   && CheckField(data, schema[i].0, schema[i].1, partial) == Some(r.error.violation)
    decreases |schema|
  {
    if |schema| == 0 then Ok(())
    else match CheckField(data, schema[0].0, schema[0].1, partial)
      case Some(v) => Err(FieldError(schema[0].0, v))
      case None => Validate(schema[1..], data, partial)
  }

  /** Validation succeeds exactly when every field passes, and an error names the first
      failing field in schema order together with that field's first broken rule. */
  lemma {:induction false} ValidateFirstError(schema: Rules, data: Doc, partial: bool)
    ensures Validate(schema, data, partial).Ok?
            <==> forall i :: 0 <= i < |schema| ==> CheckField(data, schema[i].0, schema[i].1, partial).None?
    ensures Validate(schema, data, partial).Err? ==>
              exists i :: 0 <= i < |schema|
                && (forall j :: 0 <= j < i ==> CheckField(data, schema[j].0, schema[j].1, partial).None?)
                && Validate(schema, data, partial).error.field == schema[i].0
                && CheckField(data, schema[i].0, schema[i].1, partial) == Some(Validate(schema, data, partial).error.violation)
  {
    ValidateOkIff(schema, data, partial);
    ValidateNamesFirst(schema, data, partial);
  }

  lemma {:induction false} ValidateOkIff(schema: Rules, data: Doc, partial: bool)
    ensures Validate(schema, data, partial).Ok?
            <==> forall i :: 0 <= i < |schema| ==> CheckField(data, schema[i].0, schema[i].1, partial).None?
    decreases |schema|
  {
    if |schema| > 0 {
      ValidateOkIff(schema[1..], data, partial);
      assert forall i :: 0 < i < |schema| ==> schema[i] == schema[1..][i - 1];
    }
  }

  lemma {:induction false} ValidateNamesFirst(schema: Rules, data: Doc, partial: bool)
    ensures Validate(schema, data, partial).Err? ==>
              exists i :: 0 <= i < |schema|
                && (forall j :: 0 <= j < i ==> CheckField(data, schema[j].0, schema[j].1, partial).None?)
                && Validate(schema, data, partial).error.field == schema[i].0
                && CheckField(data, schema[i].0, schema[i].1, partial) == Some(Validate(schema, data, partial).error.violation)
    decreases |schema|
  {
    if |schema| > 0 {
      ValidateNamesFirst(schema[1..], data, partial);
      if CheckField(data, schema[0].0, schema[0].1, partial).None? && Validate(schema, data, partial).Err? {
        var tail := schema[1..];
        var i :| 0 <= i < |tail|
          && (forall j :: 0 <= j < i ==> CheckField(data, tail[j].0, tail[j].1, partial).None?)
          && Validate(tail, data, partial).error.field == tail[i].0
          && CheckField(data, tail[i].0, tail[i].1, partial) == Some(Validate(tail, data, partial).error.violation);
        assert schema[i + 1] == tail[i];
        forall j | 0 < j < i + 1 ensures CheckField(data, schema[j].0, schema[j].1, partial).None? {
          assert schema[j] == tail[j - 1];
        }
      }
    }
  }

  /** A partial validation (an update) never reports a missing required field, and it
      passes whenever the full validation (a create) passes. */
  lemma {:induction false} PartialIsWeaker(schema: Rules, data: Doc)
    ensures Validate(schema, data, true).Err? ==> Validate(schema, data, true).error.violation != RequiredMissing
    ensures Validate(schema, data, false).Ok? ==> Validate(schema, data, true).Ok?
    decreases |schema|
  {
    if |schema| > 0 {
      PartialIsWeaker(schema[1..], data);
    }
  }

  /** A required field that is missing or null fails a full validation. */
  lemma RequiredFieldMustBeSet(schema: Rules, data: Doc, i: nat)
    requires i < |schema| && schema[i].1.required
    requires schema[i].0 !in data || data[schema[i].0] == Null
    ensures Validate(schema, data, false).Err?
  {
    ValidateFirstError(schema, data, false);
  }

  /** Keys outside the schema are never looked at, and a null value is treated exactly
      like a missing key. */
  lemma {:induction false} OnlySchemaFieldsMatter(schema: Rules, data: Doc, other: Doc, partial: bool)
    requires forall i :: 0 <= i < |schema| ==> Present(data, schema[i].0) == Present(other, schema[i].0)
    ensures Validate(schema, data, partial) == Validate(schema, other, partial)
    decreases |schema|
  {
    if |schema| > 0 {
      assert Present(data, schema[0].0) == Present(other, schema[0].0);
      OnlySchemaFieldsMatter(schema[1..], data, other, partial);
    }
  }

  /** Setting a field to null is the same as deleting it. */
  lemma NullIsMissing(schema: Rules, data: Doc, field: string, partial: bool)
    ensures Validate(schema, data[field := Null], partial) == Validate(schema, data - {field}, partial)
  {
    OnlySchemaFieldsMatter(schema, data[field := Null], data - {field}, partial);
  }

  /** `_check_type` rejects only values of another class under one of the six known
      names; an unknown name passes everything. */
  lemma CheckTypeTable(v: Value, expected: string)
    ensures !KnownType(expected) ==> CheckType(v, expected)
    ensures CheckType(v, "int") <==> v.Int? || v.Bool?
    ensures CheckType(v, "float") <==> v.Float?
    ensures v.Str? <==> CheckType(v, "str")
  {
  }

  /** An address `_is_email` accepts has exactly one '@' and a non-empty local part, and
      its only possible whitespace is a single final newline. */
  lemma EmailFacts(s: string)
    requires IsEmailAsWritten(s)
    ensures Shapes.AtCount(s) == 1
    ensures forall i :: 0 <= i < |s| - 1 ==> !Shapes.PySpace(s[i])
    ensures Shapes.PySpace(s[|s| - 1]) ==> s[|s| - 1] == '\n'
    ensures s[0] != '@'
  {
    if Shapes.EmailShape(s, Shapes.PySpace) {
      Shapes.EmailShapeFacts(s, Shapes.PySpace);
    } else {
      assert s[|s| - 1] == '\n' && Shapes.EmailShape(s[..|s| - 1], Shapes.PySpace);
      NewlineEndedFacts(s);
    }
  }

  lemma NewlineEndedFacts(s: string)
    requires |s| > 0 && s[|s| - 1] == '\n' && Shapes.EmailShape(s[..|s| - 1], Shapes.PySpace)
    ensures Shapes.AtCount(s) == 1 && s[0] != '@'
    ensures forall i :: 0 <= i < |s| - 1 ==> !Shapes.PySpace(s[i])
  {
    var t := s[..|s| - 1];
    NewlineAfterShape(t);
    assert s == t + ['\n'];
  }

  lemma {:induction false} NewlineAfterShape(t: string)
    requires Shapes.EmailShape(t, Shapes.PySpace)
    ensures Shapes.AtCount(t + ['\n']) == 1
    ensures forall i :: 0 <= i < |t| ==> !Shapes.PySpace((t + ['\n'])[i])
    ensures t[0] != '@'
  {
    Shapes.EmailShapeFacts(t, Shapes.PySpace);
    Shapes.AtCountAppend(t, ['\n']);
    assert Shapes.AtCount(['\n']) == 0 by {
      assert ['\n'][1..] == [];
    }
  }

  /** "a@b.co" has the email shape. */
  lemma ShortAddressShape()
    ensures Shapes.EmailShape("a@b.co", Shapes.PySpace)
  {
    var s := "a@b.co";
    assert s[1] == '@' && s[..1] == "a" && s[2..] == "b.co";
    assert "b.co"[1] == '.';
  }

  /** The pattern as written differs from the intended shape only by one trailing
      newline; "a@b.co\n" shows the difference. */
  lemma EmailTrailingNewline()
    ensures IsEmailAsWritten("a@b.co\n")
    ensures !IsEmail("a@b.co\n")
    ensures forall s :: IsEmail(s) ==> IsEmailAsWritten(s)
  {
    ShortAddressShape();
    var t := "a@b.co\n";
    assert t[..|t| - 1] == "a@b.co";
    if IsEmail(t) {
      assert Shapes.PySpace(t[6]);
    }
  }

  /** The intended email shape only narrows what a present value may be: wherever the two
      check chains disagree, the intended one rejects the value as not an email while the
      one `_validate` runs lets the same string through its email rule. */
  lemma IntendedDialectNarrows(v: Value, rule: FieldRule)
    ensures CheckValue(v, rule, IntendedDialect).None? ==> CheckValue(v, rule, Dialect).None?
    ensures CheckValue(v, rule, Dialect) != CheckValue(v, rule, IntendedDialect) ==>
              && CheckValue(v, rule, IntendedDialect) == Some(NotEmail)
              && v.Str? && IsEmailAsWritten(v.s) && !IsEmail(v.s)
  {
    EmailTrailingNewline();
  }

  /** `_validate` accepts "a@b.co\n" for a required email field, which the intended
      shape rejects. */
  lemma TrailingNewlineAddressPasses()
    ensures var rule := FieldRule("str", true, None, None, true, false, None, None, None, None);
            && Validate([("email", rule)], map["email" := Str("a@b.co\n")], false).Ok?
            && CheckValue(Str("a@b.co\n"), rule, IntendedDialect) == Some(NotEmail)
  {
    EmailTrailingNewline();
    var rule := FieldRule("str", true, None, None, true, false, None, None, None, None);
    var data := map["email" := Str("a@b.co\n")];
    assert Present(data, "email") == Some(Str("a@b.co\n"));
    assert CheckField(data, "email", rule, false).None?;
  }

  /** `_is_url` needs a scheme and at least one more character: "http://" alone and
      "ftp://x" fail, "https://x" passes. */
  lemma UrlExamples()
    ensures IsUrl("https://x") && IsUrl("http://example.com")
    ensures !IsUrl("http://") && !IsUrl("https://") && !IsUrl("ftp://x")
  {
    assert "https://x"[..8] == "https://";
    assert "http://example.com"[..7] == "http://";
    assert "https://"[4] == 's';
  }

  /** After either web scheme, `_is_url` needs at least one more character, and that
      character must not be a newline. */
  lemma UrlNeedsMoreThanScheme(rest: string)
    ensures IsUrl("http://" + rest) <==> |rest| > 0 && rest[0] != '\n'
    ensures IsUrl("https://" + rest) <==> |rest| > 0 && rest[0] != '\n'
  {
    var s, t := "http://" + rest, "https://" + rest;
    assert s[..7] == "http://" && t[..8] == "https://";
    assert |s| > 8 ==> s[..8] != "https://" by {
      assert |s| > 8 ==> s[..8][4] == ':';
    }
    assert |t| > 7 ==> t[..7] != "http://" by {
      assert |t| > 7 ==> t[..7][4] == 's';
    }
    assert |rest| > 0 ==> s[7] == rest[0] && t[8] == rest[0];
  }

  // ---------------------------------------------------------------------------
  // The write guards
  // ---------------------------------------------------------------------------

  /** The parts of a `Model` that decide validation. */
  datatype ModelConfig = ModelConfig(schema: Rules, validateEnabled: bool)

  /** `create` validates fully before sending, when validation is on and the schema is
      non-empty; an Err means no request is made. */
  function CreateGuard(m: ModelConfig, data: Doc): Result<(), FieldError> {
    if m.validateEnabled && |m.schema| > 0 then Validate(m.schema, data, false) else Ok(())
  }

  /** `update` validates with `partial=True`. */
  function UpdateGuard(m: ModelConfig, data: Doc): Result<(), FieldError> {
    if m.validateEnabled && |m.schema| > 0 then Validate(m.schema, data, true) else Ok(())
  }

  /** `create` is refused exactly when validation is on and some schema field fails its
      full check, and then the error names a failing field. */
  lemma CreateGuardSpec(m: ModelConfig, data: Doc)
    ensures CreateGuard(m, data).Ok? <==>
      !m.validateEnabled || forall i :: 0 <= i < |m.schema| ==> CheckField(data, m.schema[i].0, m.schema[i].1, false).None?
    ensures CreateGuard(m, data).Err? ==>
      exists i :: 0 <= i < |m.schema| && m.schema[i].0 == CreateGuard(m, data).error.field
        && CheckField(data, m.schema[i].0, m.schema[i].1, false).Some?
  {
    ValidateFirstError(m.schema, data, false);
  }

  /** `update` validates partially: it never reports a missing required field, and accepts
      everything `create` accepts. */
  lemma UpdateGuardSpec(m: ModelConfig, data: Doc)
    ensures !m.validateEnabled ==> UpdateGuard(m, data).Ok?
    ensures UpdateGuard(m, data).Err? ==> UpdateGuard(m, data).error.violation != RequiredMissing
    ensures CreateGuard(m, data).Ok? ==> UpdateGuard(m, data).Ok?
  {
    PartialIsWeaker(m.schema, data);
  }
}
