/** The Rust crate's primitive checks (`Validators`) and its error accumulator
    (`ValidationErrors`), crates/torm/src/validation.rs. */
module RustValidation {
  import opened Wrappers
  import opened Text
  import Shapes

  /** Why a built-in validator failed (the source reports each as `Error::Validation`
      with a message). */
  datatype Failure =
    | BelowMin
    | AboveMax
    | TooShort(min: nat)
    | TooLong(max: nat)
    | InvalidEmail
    | InvalidUrl
    | RequiredEmpty
    | InvalidPattern
    | NoMatch(pattern: string)

  type Check = Result<(), Failure>

  /** `Validators::min`: passes when the value is at least the bound. */
  function Min(value: real, min: real): Check {
    if value >= min then Ok(()) else Err(BelowMin)
  }

  /** `Validators::max`: passes when the value is at most the bound. */
  function Max(value: real, max: real): Check {
    if value <= max then Ok(()) else Err(AboveMax)
  }

  /** `Validators::min_length` (length counted in characters here). */
  function MinLength(value: string, min: nat): Check {
    if |value| >= min then Ok(()) else Err(TooShort(min))
  }

  /** `Validators::max_length`. */
  function MaxLength(value: string, max: nat): Check {
    if |value| <= max then Ok(()) else Err(TooLong(max))
  }

  /** `Validators::range`: `min` then `max`, returning the first failure. */
  function Range(value: real, min: real, max: real): (r: Check)
    ensures r.Ok? <==> min <= value <= max
    ensures value < min ==> r == Err(BelowMin)
    ensures min <= value && value > max ==> r == Err(AboveMax)
  {
    match Min(value, min)
    case Err(e) => Err(e)
    case Ok(_) => Max(value, max)
  }

  /** `Validators::length_range`: `min_length` then `max_length`. */
  function LengthRange(value: string, min: nat, max: nat): (r: Check)
    ensures r.Ok? <==> min <= |value| <= max
    ensures |value| < min ==> r == Err(TooShort(min))
    ensures min <= |value| && |value| > max ==> r == Err(TooLong(max))
  {
    match MinLength(value, min)
    case Err(e) => Err(e)
    case Ok(_) => MaxLength(value, max)
  }

  /** Both numeric bounds are inclusive: a value equal to the bound passes both, and
      a value passes both only if it equals the bound. */
  lemma BoundsInclusive(value: real, bound: real)
    ensures Min(bound, bound).Ok? && Max(bound, bound).Ok?
    ensures Min(value, bound).Ok? && Max(value, bound).Ok? <==> value == bound
    ensures Min(value, bound).Ok? || Max(value, bound).Ok?
  {
  }

  /** Both length bounds are inclusive. */
  lemma LengthBoundsInclusive(value: string, bound: nat)
    ensures MinLength(value, |value|).Ok? && MaxLength(value, |value|).Ok?
    ensures MinLength(value, bound).Ok? && MaxLength(value, bound).Ok? <==> |value| == bound
  {
  }

  /** The crate's unit-test expectations for the bound checks. */
  lemma BoundTestCases()
    ensures Min(10.0, 5.0).Ok? && Min(3.0, 5.0).Err?
    ensures Max(5.0, 10.0).Ok? && Max(15.0, 10.0).Err?
    ensures MinLength("hello", 3).Ok? && MinLength("hi", 3).Err?
    ensures MaxLength("hello", 10).Ok? && MaxLength("hello world", 5).Err?
    ensures Range(5.0, 1.0, 10.0).Ok? && Range(0.0, 1.0, 10.0).Err? && Range(11.0, 1.0, 10.0).Err?
  {
  }

  predicate IsAsciiLetter(c: char) {
    'a' <= c <= 'z' || 'A' <= c <= 'Z'
  }

  predicate IsAsciiAlnum(c: char) {
    IsAsciiLetter(c) || '0' <= c <= '9'
  }

  /** `[a-zA-Z0-9._%+-]` */
  predicate IsLocalChar(c: char) {
    IsAsciiAlnum(c) || c == '.' || c == '_' || c == '%' || c == '+' || c == '-'
  }

  /** `[a-zA-Z0-9.-]` */
  predicate IsDomainChar(c: char) {
    IsAsciiAlnum(c) || c == '.' || c == '-'
  }

  /** `[a-zA-Z0-9.-]+\.[a-zA-Z]{2,}` with the literal '.' at index `dot`. */
  predicate DomainSplitAt(d: string, dot: int) {
    && 0 < dot < |d|
    && d[dot] == '.'
    && (forall i | 0 <= i < dot :: IsDomainChar(d[i]))
    && |d| - dot - 1 >= 2
    && (forall i | dot < i < |d| :: IsAsciiLetter(d[i]))
  }

  /** The domain part matched against the whole text after the '@'. */
  predicate DomainMatches(d: string) {
    exists dot | 0 < dot < |d| :: DomainSplitAt(d, dot)
  }

  /** `[a-zA-Z0-9._%+-]+@` followed by a matching domain, with the '@' at index `at`. */
  predicate EmailSplitAt(s: string, at: int) {
    && 0 < at < |s|
    && s[at] == '@'
    && (forall i | 0 <= i < at :: IsLocalChar(s[i]))
    && DomainMatches(s[at + 1..])
  }

  /** The email regex `^[a-zA-Z0-9._%+-]+@[a-zA-Z0-9.-]+\.[a-zA-Z]{2,}$`. */
  predicate EmailMatches(s: string) {
    exists at | 0 < at < |s| :: EmailSplitAt(s, at)
  }

  /** The shortest address the regex accepts, "a@b.cc", has six characters. */
  lemma EmailMinLength(s: string)
    requires EmailMatches(s)
    ensures |s| >= 6 && s[0] != '@'
  {
    var at :| 0 < at < |s| && EmailSplitAt(s, at);
    var d := s[at + 1..];
    var dot :| 0 < dot < |d| && DomainSplitAt(d, dot);
  }

  /** `Validators::email`: accepted addresses have a local part, an '@' and a domain
      with a top-level part of two letters or more. */
  function Email(value: string): (r: Check)
    ensures r.Ok? ==> |value| >= 6 && value[0] != '@'
    ensures r.Err? ==> r.error == InvalidEmail
  {
    if EmailMatches(value) then EmailMinLength(value); Ok(()) else Err(InvalidEmail)
  }

  /** Conversely, every `local@domain.tld` over the regex's alphabets passes: a
      non-empty local part, a non-empty domain, and a top-level part of two letters or
      more. */
  lemma EmailAcceptsEveryAddress(l: string, d: string, t: string)
    requires |l| > 0 && forall i | 0 <= i < |l| :: IsLocalChar(l[i])
    requires |d| > 0 && forall i | 0 <= i < |d| :: IsDomainChar(d[i])
    requires |t| >= 2 && forall i | 0 <= i < |t| :: IsAsciiLetter(t[i])
    ensures Email(l + "@" + d + "." + t).Ok?
  {
    var s := l + "@" + d + "." + t;
    var domain := d + "." + t;
    assert DomainSplitAt(domain, |d|);
    assert s[|l| + 1..] == domain;
    assert EmailSplitAt(s, |l|);
  }

  /** `Validators::url`: only the two web schemes are accepted, by prefix. */
  function Url(value: string): (r: Check)
    ensures r.Ok? ==> (|value| >= 7 && value[..7] == "http://") || (|value| >= 8 && value[..8] == "https://")
    ensures r.Err? ==> r.error == InvalidUrl
  {
    if "http://" <= value || "https://" <= value then Ok(()) else Err(InvalidUrl)
  }

  /** Conversely, whatever follows either web scheme, even nothing, is accepted. */
  lemma UrlAcceptsWebSchemes(rest: string)
    ensures Url("http://" + rest).Ok? && Url("https://" + rest).Ok?
  {
    assert ("http://" + rest)[..7] == "http://";
    assert ("https://" + rest)[..8] == "https://";
  }

  /** `Validators::required`: a non-empty string, so it agrees with `required_option`
      on a string that is present exactly when it is non-empty. */
  function Required(value: string): (r: Check)
    ensures r.Ok? <==> RequiredOption(if value == "" then None else Some(value)).Ok?
    ensures r.Err? ==> r.error == RequiredEmpty
  {
    if |value| > 0 then Ok(()) else Err(RequiredEmpty)
  }

  /** `Validators::required_option`. */
  function RequiredOption<T>(value: Option<T>): Check {
    if value.Some? then Ok(()) else Err(RequiredEmpty)
  }

  /** `required` rejects only the empty string, and agrees with `required_option` on
      whether a value is there; the crate's tests: "hello" passes, "" fails. */
  lemma RequiredSpec(s: string)
    ensures Required(s).Ok? <==> s != ""
    ensures Required(s).Ok? == RequiredOption(if s == "" then None else Some(s)).Ok?
    ensures Required("hello").Ok? && Required("").Err?
  {
  }

  /** `Validators::pattern`: `regex` is the compiled pattern, None when the pattern is
      not a valid regular expression. */
  function Pattern(value: string, pattern: string, regex: Option<string -> bool>): (r: Check)
    ensures r.Ok? ==> regex.Some? && regex.value(value)
    ensures r.Err? ==> r.error == InvalidPattern || r.error == NoMatch(pattern)
  {
    match regex
    case None => Err(InvalidPattern)
    case Some(matches) => if matches(value) then Ok(()) else Err(NoMatch(pattern))
  }

  /** No character of the Rust classes is whitespace for either engine, or '@'. */
  lemma RustClassesArePlain(c: char)
    requires IsLocalChar(c) || IsDomainChar(c)
    ensures !Shapes.GoSpace(c) && !Shapes.PySpace(c) && c != '@'
  {
  }

  lemma LocalPartPlain(s: string, at: int)
    requires EmailSplitAt(s, at)
    ensures Shapes.AllPlain(s[..at], Shapes.GoSpace) && Shapes.AllPlain(s[..at], Shapes.PySpace)
  {
    forall i | 0 <= i < at
      ensures !Shapes.GoSpace(s[..at][i]) && !Shapes.PySpace(s[..at][i]) && s[..at][i] != '@'
    {
      RustClassesArePlain(s[i]);
    }
  }

  lemma DomainPlain(d: string, dot: int)
    requires DomainSplitAt(d, dot)
    ensures Shapes.DomainShape(d, Shapes.GoSpace) && Shapes.DomainShape(d, Shapes.PySpace)
  {
    forall i | 0 <= i < |d|
      ensures !Shapes.GoSpace(d[i]) && !Shapes.PySpace(d[i]) && d[i] != '@'
    {
      if i != dot {
        RustClassesArePlain(d[i]);
      }
    }
  }

  /** A pattern that does not compile is always an error; a compiled one passes
      exactly the strings it matches. */
  lemma PatternSpec(value: string, pattern: string, regex: Option<string -> bool>)
    ensures regex.None? ==> Pattern(value, pattern, regex) == Err(InvalidPattern)
    ensures regex.Some? ==> (Pattern(value, pattern, regex).Ok? <==> regex.value(value))
    ensures Pattern(value, pattern, regex).Err? && regex.Some? ==> Pattern(value, pattern, regex) == Err(NoMatch(pattern))
  {
  }

  /** The Rust email pattern is stricter than the shape the SDKs use: every address
      it accepts also passes the Go and the Python shape. */
  lemma EmailStricterThanSdkShape(s: string)
    requires Email(s).Ok?
    ensures Shapes.EmailShape(s, Shapes.GoSpace)
    ensures Shapes.EmailShape(s, Shapes.PySpace)
  {
    var at :| 0 < at < |s| && EmailSplitAt(s, at);
    var d := s[at + 1..];
    var dot :| 0 < dot < |d| && DomainSplitAt(d, dot);
    LocalPartPlain(s, at);
    DomainPlain(d, dot);
  }

  /** An accepted address contains an '@'. */
  lemma EmailHasAt(s: string)
    requires EmailMatches(s)
    ensures '@' in s
  {
    var at :| 0 < at < |s| && EmailSplitAt(s, at);
  }

  /** The accepted case the crate's tests pin down. */
  lemma EmailAcceptsExample()
    ensures Email("test@example.com").Ok?
  {
    var s := "test@example.com";
    var d := s[5..];
    assert d == "example.com";
    forall i | 0 <= i < 4 ensures IsLocalChar(s[i]) {
      assert s[..4] == "test";
      assert s[i] == s[..4][i];
    }
    forall i | 0 <= i < 7 ensures IsDomainChar(d[i]) {
      assert d[..7] == "example";
      assert d[i] == d[..7][i];
    }
    forall i | 7 < i < |d| ensures IsAsciiLetter(d[i]) {
      assert d[8..] == "com";
      assert d[i] == d[8..][i - 8];
    }
    assert DomainSplitAt(d, 7);
    assert EmailSplitAt(s, 4);
  }

  /** The rejected cases the crate's tests pin down: no '@' at all, and an empty local
      part. */
  lemma EmailRejectsExamples()
    ensures Email("invalid-email").Err?
    ensures Email("@example.com").Err?
  {
    if EmailMatches("invalid-email") {
      EmailHasAt("invalid-email");
    }
    var t := "@example.com";
    forall at | 0 < at < |t| ensures !EmailSplitAt(t, at) {
      assert !IsLocalChar(t[0]);
    }
  }

  lemma UrlExamples()
    ensures Url("http://example.com").Ok? && Url("https://example.com").Ok?
    ensures Url("ftp://example.com").Err? && Url("example.com").Err?
  {
    assert "http://" <= "http://example.com";
    assert "https://" <= "https://example.com";
    assert "ftp://example.com"[0] != 'h';
    assert "example.com"[0] != 'h';
  }

  // ---------------------------------------------------------------------------
  // The error accumulator
  // ---------------------------------------------------------------------------

  datatype ValidationError = ValidationError(field: string, message: string)

  datatype ValidationErrors = ValidationErrors(errors: seq<ValidationError>)

  function NewErrors(): (r: ValidationErrors)
    ensures IsEmpty(r)
  {
    ValidationErrors([])
  }

  /** `add`: appends one error after the earlier ones. */
  function Add(es: ValidationErrors, field: string, message: string): (r: ValidationErrors)
    ensures |r.errors| == |es.errors| + 1
    ensures r.errors[..|es.errors|] == es.errors
    ensures r.errors[|es.errors|] == ValidationError(field, message)
    ensures !IsEmpty(r)
  {
    ValidationErrors(es.errors + [ValidationError(field, message)])
  }

  predicate IsEmpty(es: ValidationErrors) {
    |es.errors| == 0
  }

  /** `"{field}: {message}"` */
  function Render(e: ValidationError): string {
    e.field + ": " + e.message
  }

  function RenderAll(errors: seq<ValidationError>): (r: seq<string>)
    ensures |r| == |errors|
    ensures forall i :: 0 <= i < |errors| ==> r[i] == Render(errors[i])
    decreases |errors|
  {
    if |errors| == 0 then [] else [Render(errors[0])] + RenderAll(errors[1..])
  }

  /** `into_result`: Ok when nothing was added, otherwise one message joining every
      rendered error with ", ". */
  function IntoResult(es: ValidationErrors): (r: Result<(), string>)
    ensures r.Ok? <==> es.errors == []
    ensures r.Err? ==> forall i :: 0 <= i < |es.errors| ==> IsSubstring(Render(es.errors[i]), r.error)
  {
    if IsEmpty(es) then Ok(())
    else
      JoinContainsParts(RenderAll(es.errors), ", ");
      Err(Join(RenderAll(es.errors), ", "))
  }

  /** The crate's test: two additions leave two errors and an Err result. */
  lemma AddTwiceExample()
    ensures var es := Add(Add(NewErrors(), "name", "Name is required"), "age", "Age must be >= 18");
            |es.errors| == 2 && IntoResult(es).Err?
  {
  }
}
