/** The Go SDK's schema validation (`validateData`, `checkType`, `isEmail`, `isURL`),
    sdks/go/validation.go. */
module GoValidation {
  import opened Wrappers
  import opened Json
  import opened Schema
  import Shapes
  import PyModel
  import GoQuery
  import RustValidation

  /** `checkType`: the known names test the dynamic type; any other name passes. Go's
      `bool` is not an integer type, and a nil value fails every known name. */
  function CheckType(v: Value, expected: string): (r: bool)
    ensures !KnownType(expected) ==> r
    ensures v.Null? ==> (r <==> !KnownType(expected))
  {
    if expected == "str" || expected == "string" then v.Str?
    else if expected == "int" then v.Int?
    else if expected == "float" then v.Float?
    else if expected == "bool" then v.Bool?
    else if expected == "map" then v.Obj?
    else if expected == "slice" || expected == "array" then v.Arr?
    else true
  }

  predicate KnownType(expected: string) {
    expected in {"str", "string", "int", "float", "bool", "map", "slice", "array"}
  }

  /** `isEmail`: the shape over RE2's whitespace class; `$` matches only at the end, so
      an accepted address holds one '@' after a non-empty local part and no RE2
      whitespace. */
  function IsEmail(s: string): (r: bool)
    ensures r <==> Shapes.EmailShape(s, Shapes.GoSpace)
    ensures r ==> Shapes.AtCount(s) == 1 && s[0] != '@' && forall i :: 0 <= i < |s| ==> !Shapes.GoSpace(s[i])
  {
    if Shapes.EmailShape(s, Shapes.GoSpace) then Shapes.EmailShapeFacts(s, Shapes.GoSpace); true else false
  }

  /** `isURL`: a prefix test only, the same test as the Rust crate's `url`. */
  function IsUrl(s: string): (r: bool)
    ensures r <==> RustValidation.Url(s).Ok?
  {
    "http://" <= s || "https://" <= s
  }

  const Dialect: Schema.Dialect := Schema.Dialect(CheckType, IsEmail, IsUrl, GoQuery.ToFloat64)

  /** One loop iteration of `validateData`: presence of the key, not its value, decides
      the required check and the skip. */
  function CheckField(data: Doc, field: string, rule: FieldRule, partial: bool): (r: Option<Violation>)
    ensures field !in data ==> (r.Some? <==> rule.required && !partial)
    ensures r == Some(RequiredMissing) ==> field !in data
    ensures field in data ==> r == CheckValue(data[field], rule, Dialect)
  {
    if field !in data then (if rule.required && !partial then Some(RequiredMissing) else None)
    else CheckValue(data[field], rule, Dialect)
  }

  /** `order` lists every key of the schema once: one possible iteration order of a Go
      map. */
  predicate Enumerates(order: seq<string>, schema: map<string, FieldRule>) {
    && (forall i, j :: 0 <= i < j < |order| ==> order[i] != order[j])
    && (forall i :: 0 <= i < |order| ==> order[i] in schema)
    && (forall f :: f in schema ==> f in order)
  }

  /** `validateData` with the map visited in `order`: an error names a visited field
      and the first rule that field breaks. */
  function ValidateData(schema: map<string, FieldRule>, order: seq<string>, data: Doc, partial: bool): (r: Result<(), FieldError>)
    requires forall i :: 0 <= i < |order| ==> order[i] in schema
    ensures r.Err? ==> r.error.field in order && CheckField(data, r.error.field, schema[r.error.field], partial) == Some(r.error.violation)
    decreases |order|
  {
    if |order| == 0 then Ok(())
    else match CheckField(data, order[0], schema[order[0]], partial)
      case Some(v) => Err(FieldError(order[0], v))
      case None => ValidateData(schema, order[1..], data, partial)
  }

  /** The walk succeeds exactly when every visited field passes, and an error names a
      visited field whose first broken rule it reports. */
  lemma {:induction false} ValidateWalk(schema: map<string, FieldRule>, order: seq<string>, data: Doc, partial: bool)
    requires forall i :: 0 <= i < |order| ==> order[i] in schema
    ensures ValidateData(schema, order, data, partial).Ok?
            <==> forall i :: 0 <= i < |order| ==> CheckField(data, order[i], schema[order[i]], partial).None?
    ensures ValidateData(schema, order, data, partial).Err? ==>
              var e := ValidateData(schema, order, data, partial).error;
              e.field in order && CheckField(data, e.field, schema[e.field], partial) == Some(e.violation)
    decreases |order|
  {
    if |order| > 0 {
      ValidateWalk(schema, order[1..], data, partial);
      assert forall i :: 0 < i < |order| ==> order[i] == order[1..][i - 1];
    }
  }

  /** Success does not depend on the iteration order: `validateData` returns nil iff
      every schema field passes. Which failing field is named may depend on it. */
  lemma ValidateIffAllPass(schema: map<string, FieldRule>, order: seq<string>, data: Doc, partial: bool)
    requires Enumerates(order, schema)
    ensures ValidateData(schema, order, data, partial).Ok?
            <==> forall f :: f in schema ==> CheckField(data, f, schema[f], partial).None?
    ensures ValidateData(schema, order, data, partial).Err? ==>
              var e := ValidateData(schema, order, data, partial).error;
              e.field in schema && CheckField(data, e.field, schema[e.field], partial) == Some(e.violation)
  {
    ValidateWalk(schema, order, data, partial);
    if ValidateData(schema, order, data, partial).Ok? {
      forall f | f in schema ensures CheckField(data, f, schema[f], partial).None? {
        var i :| 0 <= i < |order| && order[i] == f;
      }
    }
  }

  /** Two iteration orders give the same verdict. */
  lemma VerdictIndependentOfOrder(schema: map<string, FieldRule>, o1: seq<string>, o2: seq<string>, data: Doc, partial: bool)
    requires Enumerates(o1, schema) && Enumerates(o2, schema)
    ensures ValidateData(schema, o1, data, partial).Ok? == ValidateData(schema, o2, data, partial).Ok?
  {
    ValidateIffAllPass(schema, o1, data, partial);
    ValidateIffAllPass(schema, o2, data, partial);
  }

  /** A partial validation never reports a missing required field, and it passes
      whenever the full one does. */
  lemma {:induction false} PartialIsWeaker(schema: map<string, FieldRule>, order: seq<string>, data: Doc)
    requires forall i :: 0 <= i < |order| ==> order[i] in schema
    ensures ValidateData(schema, order, data, true).Err? ==> ValidateData(schema, order, data, true).error.violation != RequiredMissing
    ensures ValidateData(schema, order, data, false).Ok? ==> ValidateData(schema, order, data, true).Ok?
    decreases |order|
  {
    if |order| > 0 {
      PartialIsWeaker(schema, order[1..], data);
    }
  }

  /** `checkType` rejects only values of another type under a known name. */
  lemma CheckTypeTable(v: Value, expected: string)
    ensures !KnownType(expected) ==> CheckType(v, expected)
    ensures CheckType(v, "string") == CheckType(v, "str") == v.Str?
    ensures CheckType(v, "slice") == CheckType(v, "array") == v.Arr?
    ensures CheckType(v, "int") <==> v.Int?
  {
  }

  /** Whatever the Python URL check accepts passes Go's, and so (by `IsUrl`) Rust's. */
  lemma UrlAcrossBindings(s: string)
    ensures PyModel.IsUrl(s) ==> IsUrl(s)
  {
    if PyModel.IsUrl(s) {
      if |s| > 7 && s[..7] == "http://" {
        assert "http://" <= s;
      } else {
        assert "https://" <= s;
      }
    }
  }

  /** `isURL` accepts a bare scheme, which the Python check rejects. */
  lemma UrlBareScheme()
    ensures IsUrl("http://") && !PyModel.IsUrl("http://")
    ensures !IsUrl("ftp://x")
  {
    assert "ftp://x"[0] != 'h';
  }

  /** `isURL` accepts either web scheme followed by anything; the Python check rejects
      such a string exactly when nothing follows the scheme or a newline does. */
  lemma UrlOnlyGoAccepts(rest: string)
    ensures IsUrl("http://" + rest) && IsUrl("https://" + rest)
    ensures !PyModel.IsUrl("http://" + rest) <==> rest == "" || rest[0] == '\n'
    ensures !PyModel.IsUrl("https://" + rest) <==> rest == "" || rest[0] == '\n'
  {
    RustValidation.UrlAcceptsWebSchemes(rest);
    UrlAcrossBindings("http://" + rest);
    UrlAcrossBindings("https://" + rest);
    PyModel.UrlNeedsMoreThanScheme(rest);
  }

  // ---------------------------------------------------------------------------
  // Where the two SDKs disagree
  // ---------------------------------------------------------------------------

  /** A key present with a null value satisfies Go's required check, and the remaining
      checks then run on the null; Python treats the null as missing and rejects it. */
  lemma NullSatisfiesRequired(data: Doc, field: string, rule: FieldRule)
    requires field in data && data[field] == Null
    requires rule.required
    ensures CheckField(data, field, rule, false) != Some(RequiredMissing)
    ensures PyModel.CheckField(data, field, rule, false) == Some(RequiredMissing)
    ensures rule.kind == "str" ==> CheckField(data, field, rule, false) == Some(WrongType("str"))
  {
  }

  /** RE2's `\s` is ASCII only: a no-break space (U+00A0) passes the Go email check and
      fails the Python one. */
  lemma NoBreakSpaceInEmail()
    ensures IsEmail("a\U{00A0}@b.co") && !PyModel.IsEmailAsWritten("a\U{00A0}@b.co")
  {
    var s := "a\U{00A0}@b.co";
    assert s[2] == '@' && s[..2] == "a\U{00A0}" && s[3..] == "b.co";
    assert "b.co"[1] == '.';
    assert Shapes.EmailShape(s, Shapes.GoSpace);
    if PyModel.IsEmailAsWritten(s) {
      PyModel.EmailFacts(s);
    }
  }
}
