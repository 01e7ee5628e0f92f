# torm query evaluation and schema validation in Dafny

torm is an object mapper for a Redis-backed document store, with a Rust crate and Go and
Python client SDKs. This project models the parts that decide *which documents a query
returns* and *which documents a schema accepts*:

- the Rust crate's in-memory query evaluator (`QueryBuilder`: the builder, `matches_filter`,
  `compare_json_values`, and the filter → sort → skip → limit pipeline of `exec`, plus
  `count`), module `RustQuery`;
- the Rust crate's primitive validators and error accumulator (`Validators`,
  `ValidationErrors`), module `RustValidation`;
- the Python SDK's schema validator (`Model._validate`, `_check_type`, `_is_email`,
  `_is_url`, and the guards in `create` / `update`), module `PyModel`, and its client-side
  query evaluation (`_matches_filter`, `_matches_filters`, the filter-then-sort part of
  `exec`, `count`), module `PyQuery`;
- the Go SDK's schema validator (`validateData`, `checkType`, `isEmail`, `isURL`), module
  `GoValidation`, and its client-side query evaluation (`matchesFilter`, `compareValues`,
  `sortDocuments`, `contains`, `toFloat64`, `Exec`, `Count`), module `GoQuery`.

Shared pieces:

- `Json.Value` is the dynamically typed field value. Integers and floats are kept apart,
  because the type checks and serde_json's equality distinguish them.
- `Sequences` holds the order-preserving filter `Keep` and a stable insertion `Sort`.
  Permutation, sortedness, stability (`Ties`) and idempotence are proved about it, under a
  total-preorder hypothesis.
- `Orders` holds the three-way comparisons on reals, booleans and strings.
- `Text` holds substring search and `Join`.
- `Schema` holds the per-field rule record and the early-return check chain. The two SDK
  validators share this chain and differ only in their `Dialect`.
- `Shapes` holds the `[^\s@]+@[^\s@]+\.[^\s@]+` email shape, parameterised by the
  engine's whitespace class.

Host behaviour enters as parameters:

- Go's `fmt.Sprintf("%v", x)` is the function parameter `verb`.
- Python's `str(x)` is the parameter `show`.
- A compiled regular expression is a predicate `string -> bool`.
- The documents the store or server returns are an argument.

Python exceptions the matcher or sort can raise (`TypeError`, and `AttributeError` on an
item that is not a dict) are `Err` results.

## How the bindings behave

The three bindings do not agree with each other everywhere. The model keeps each one's
own behaviour:

- **Required check on null (Go).** Go's `validateData` tests only whether the key is
  present. A present null passes the required check and then meets the other rules
  (`GoValidation.NullSatisfiesRequired`). Python reads the field with `data.get`, so a
  null counts as missing.
- **Type names.** Python's `_check_type` knows `str/int/float/bool/list/dict`. Go's
  `checkType` knows `str|string/int/float/bool/map/slice|array`. Any other name passes.
- **URLs.** All three bindings test only for the prefix `http://` or `https://`. Python's
  pattern also needs one more character that is not a newline.
- **Sort stability.** Go sorts with `sort.Slice`, which is not stable. Rust's `sort_by`
  and Python's `list.sort` are stable.
- **Comparison fallback.** When two values are not both numbers, the bindings differ:
  - Rust compares strings, then booleans, and calls every other pair Equal.
  - Go compares the `%v` texts.
  - Python raises TypeError, except for two strings or two lists.
- **`in` with an operand that is not a list.** Go's `in` never matches and its `not_in`
  always matches. Python raises TypeError when the operand is not iterable
  (`PyQuery.MembershipOperators`).
- **Returned items that are not objects.** Go drops them. Python raises AttributeError
  as soon as a filter or the sort reads a field from one, and returns them unchanged
  when there is neither (`PyQuery.NonDictItems`).

## Model

| member | source | states |
|---|---|---|
| RustQuery.New | crates/torm/src/query.rs:106-116 | a fresh plan has no filters, no sort, no limit and no skip |
| RustQuery.Filter | crates/torm/src/query.rs:118-122 | `filter` appends exactly one condition at the end and leaves collection, sort, limit and skip alone |
| RustQuery.SortBy | crates/torm/src/query.rs:124-128 | `sort_by` replaces any earlier sort and changes nothing else |
| RustQuery.Limit | crates/torm/src/query.rs:130-134 | `limit` records the bound and changes nothing else |
| RustQuery.Skip | crates/torm/src/query.rs:136-140 | `skip` records the offset and changes nothing else |
| RustQuery.BuilderTestCase | crates/torm/src/query.rs:357-368 | the crate's builder test: a chain with two filters, a sort and `limit(10)` records all of them |
| RustQuery.MatchesFilters | crates/torm/src/query.rs:232-240 | the early-exit loop holds exactly when every condition holds (the empty list matches all) |
| RustQuery.MatchesFilter | crates/torm/src/query.rs:243-320 | a missing field (or a document that is not an object) satisfies Ne and NotIn and no other operator |
| RustQuery.EqualityOperators | crates/torm/src/query.rs:244-248 | Eq holds iff the field is present and structurally equal; Ne is its exact negation, so a missing field satisfies every Ne; Eq against e is In against the list [e] and Ne is NotIn against [e]; a field Eq to a number also satisfies Gte and Lte against it |
| RustQuery.EqIsStructural | crates/torm/src/query.rs:247-300 | the converse fails: the integer 1 satisfies Gte and Lte against the float 1.0 but not Eq, because Eq compares JSON values, not numbers |
| RustQuery.OrderingOperators | crates/torm/src/query.rs:249-300 | Gt/Gte/Lt/Lte never match a missing field or a non-number; on two numbers they are >, ≥, <, ≤, so Gt and Lte are complementary, and so are Gte and Lt |
| RustQuery.FiltersAgreeWithComparatorOnNumbers | crates/torm/src/query.rs:249-336 | on two numbers Gt and Lt agree with the sort comparator; on two different strings the comparator orders them while Gt and Lt never match |
| RustQuery.ContainsOperator | crates/torm/src/query.rs:301-306 | Contains holds iff the field is a string having the operand as a substring; non-strings never match |
| RustQuery.MembershipOperators | crates/torm/src/query.rs:307-318 | In needs a present field equal to some listed value; NotIn is its negation for a present field and holds for a missing one; In holds iff Eq holds against some listed value, and NotIn iff Ne holds against every one |
| RustQuery.CompareJsonValues | crates/torm/src/query.rs:324-351 | an absent value sorts before a present one; equal arguments compare Equal; two strings compare Equal only when identical |
| RustQuery.CompareAntisymmetric | crates/torm/src/query.rs:324-351 | swapping the arguments of `compare_json_values` reverses the ordering |
| RustQuery.CompareTransitive | crates/torm/src/query.rs:324-351 | with present keys of one family, "not Greater" is transitive (missing keys first) |
| RustQuery.ComparatorPreorder | crates/torm/src/query.rs:173-183 | the sort comparator, ascending or reversed for Desc, is a total preorder on documents whose keys share a family |
| RustQuery.Documents | crates/torm/src/query.rs:157-167 | exactly the stored values that were read are kept: a value is in the result iff it was stored and read; all survive iff every key held a parseable value |
| RustQuery.DocumentsAppend | crates/torm/src/query.rs:157-167 | the key list is walked in order: the values read for keys a then b are those for a followed by those for b, so the result keeps key order |
| RustQuery.Arranged | crates/torm/src/query.rs:169-183 | the arranged list is a permutation of the filtered documents |
| RustQuery.SkipFirst | crates/torm/src/query.rs:188-191 | `skip(n)` drops exactly the first n elements, all of them when n is too large |
| RustQuery.Truncate | crates/torm/src/query.rs:193-196 | `truncate(n)` keeps a prefix of length min(n, len) |
| RustQuery.Exec | crates/torm/src/query.rs:169-198 | the result is the window of the arranged list starting at the skip offset, of length min(limit, len − skip) |
| RustQuery.ArrangedMembers | crates/torm/src/query.rs:157-182 | after `retain` and the sort, a document is in the list iff it was stored, read, and passes every filter; the list is never longer than the store |
| RustQuery.ExecResultsMatch | crates/torm/src/query.rs:169-198 | every returned document is a stored document passing every filter; the result is never longer than the limit or the store; without skip and limit every stored document that passes is returned |
| RustQuery.ExecWindow | crates/torm/src/query.rs:188-196 | skip is applied before limit: skip k then limit m gives positions k..k+m of the arranged list |
| RustQuery.ExecSortedAndStable | crates/torm/src/query.rs:169-198 | with uniform keys, the arranged list and every page are sorted by the comparator, and documents tying on the key keep their input order |
| RustQuery.ArrangedKeepsOrderedInput | crates/torm/src/query.rs:172-183 | documents already in comparator order are left in place by the sort |
| RustQuery.StableSortExample | crates/torm/src/query.rs:172-183 | documents b and a with the same integer age and c with a larger one, sorted by age ascending, come back as b, a, c: the tie keeps its input order |
| RustQuery.PaginationExample | crates/torm/src/query.rs:169-198 | skip 1 then limit 2 over four documents already sorted by name (A, B, C, D) returns the second and third (B, C) |
| RustQuery.CountAgainstExec | crates/torm/src/query.rs:201-230 | with filters, `count` equals the length of an unpaginated `exec`; without filters it counts keys, which exceeds `exec` exactly when some key is unreadable |
| RustQuery.Count | crates/torm/src/query.rs:201-230 | `count` lies between the number of stored documents passing the filters and the number of keys |
| Sequences.KeepAppend | crates/torm/src/query.rs:170 | filtering distributes over concatenation, so `retain` keeps input order |
| Sequences.SortSorted | crates/torm/src/query.rs:173-183 | the sort's output is ordered by any total preorder |
| Sequences.SortStable | crates/torm/src/query.rs:173-183 | the sort preserves the input order within every class of tying elements |
| Sequences.SortIdempotent | crates/torm/src/query.rs:173-183 | sorting a sorted list changes nothing |
| Sequences.FlipPreorder | crates/torm/src/query.rs:178-181 | reversing a total preorder (Desc) gives a total preorder |
| Orders.StringsAntisymmetric | crates/torm/src/query.rs:339-341 | lexicographic string comparison reverses when its arguments swap |
| Orders.StringsTransitive | crates/torm/src/query.rs:339-341 | lexicographic "not Greater" is transitive |
| Orders.StringsEqualIff | crates/torm/src/query.rs:339-341 | two strings compare Equal iff they are the same string |
| Orders.StringsLessIff | crates/torm/src/query.rs:339-341 | the string comparison answers Less exactly when the first string comes before the second in dictionary order (a proper prefix, or a smaller code point at the first difference) |
| RustValidation.Range | crates/torm/src/validation.rs:190-195 | `range` passes iff min ≤ value ≤ max and reports the min failure before the max failure |
| RustValidation.LengthRange | crates/torm/src/validation.rs:197-202 | `length_range` passes iff min ≤ length ≤ max, reporting too-short before too-long |
| RustValidation.BoundsInclusive | crates/torm/src/validation.rs:84-106 | both numeric bounds are inclusive, and every value passes at least one of them |
| RustValidation.LengthBoundsInclusive | crates/torm/src/validation.rs:108-130 | both length bounds are inclusive |
| RustValidation.BoundTestCases | crates/torm/src/validation.rs:209-259 | the crate's unit-test expectations for min, max, min_length, max_length and range |
| RustValidation.Email | crates/torm/src/validation.rs:133-144 | an accepted address has at least six characters and does not start with '@'; a rejection is the invalid-email error |
| RustValidation.EmailAcceptsEveryAddress | crates/torm/src/validation.rs:133-144 | every `local@domain.tld` over the regex alphabets, with a top-level part of two letters or more, is accepted |
| RustValidation.Url | crates/torm/src/validation.rs:147-155 | an accepted URL starts with "http://" or "https://"; a rejection is the invalid-URL error |
| RustValidation.UrlAcceptsWebSchemes | crates/torm/src/validation.rs:147-155 | every string starting with "http://" or "https://", the bare scheme included, is accepted |
| RustValidation.Required | crates/torm/src/validation.rs:157-165 | `required` passes exactly when `required_option` passes on the string taken as present iff non-empty |
| RustValidation.Pattern | crates/torm/src/validation.rs:175-188 | a pass means the pattern compiled and matched; a failure is the invalid-pattern error or the no-match error naming the pattern |
| RustValidation.RequiredSpec | crates/torm/src/validation.rs:157-173 | `required` rejects exactly the empty string and agrees with `required_option` |
| RustValidation.PatternSpec | crates/torm/src/validation.rs:175-188 | an invalid pattern fails before matching; otherwise the check passes iff the regex matches |
| RustValidation.EmailStricterThanSdkShape | crates/torm/src/validation.rs:132-144 | whatever the Rust email regex accepts also has the SDKs' email shape under both whitespace classes |
| RustValidation.EmailAcceptsExample | crates/torm/src/validation.rs:234-238 | "test@example.com" is accepted |
| RustValidation.EmailRejectsExamples | crates/torm/src/validation.rs:234-238 | "invalid-email" and "@example.com" are rejected |
| RustValidation.UrlExamples | crates/torm/src/validation.rs:240-246 | http:// and https:// prefixes pass; "ftp://…" and a bare host fail |
| RustValidation.NewErrors | crates/torm/src/validation.rs:33-36 | a new collection is empty |
| RustValidation.Add | crates/torm/src/validation.rs:38-41 | `add` appends one error after the earlier ones, which are kept, so the collection is no longer empty |
| RustValidation.RenderAll | crates/torm/src/validation.rs:58-62 | every error is rendered "field: message", one per error, in order |
| RustValidation.IntoResult | crates/torm/src/validation.rs:53-65 | `into_result` is Ok iff no error was added; an Err message contains every rendered error |
| RustValidation.AddTwiceExample | crates/torm/src/validation.rs:261-273 | the crate's test: two additions leave two errors and an Err result |
| Text.JoinContainsParts | crates/torm/src/validation.rs:58-63 | each part of a `join` occurs in the joined text |
| Schema.CheckValue | sdks/python/toonstore_torm/model.py:184-218 | the early-return chain reports exactly the first broken rule, and nothing iff no rule is broken |
| Schema.CheckOrder | sdks/go/validation.go:38-82 | the type rule comes first; the string rules run in the order min_length, max_length, email, url, pattern; the custom callable decides only when all built-in rules pass |
| Shapes.EmailShapeFacts | sdks/go/validation.go:125-130 | an address of the email shape has exactly one '@', no whitespace, and a non-empty local part |
| PyModel.AsNumber | sdks/python/toonstore_torm/model.py:207-208 | integers, floats and booleans (a Python `bool` is an `int`) are numbers; nothing else is |
| PyModel.CheckType | sdks/python/toonstore_torm/model.py:220-234 | an unknown type name accepts every value; None fails every known name |
| PyModel.Present | sdks/python/toonstore_torm/model.py:173-182 | `data.get(field)` is None both for a missing key and for a null value |
| PyModel.CheckField | sdks/python/toonstore_torm/model.py:172-218 | an absent or null field fails iff it is required and the check is not partial; a present one is judged by the shared check chain with `_is_email` as written |
| PyModel.Validate | sdks/python/toonstore_torm/model.py:170-218 | an error names a schema field and the first rule that field breaks |
| PyModel.ValidateFirstError | sdks/python/toonstore_torm/model.py:170-218 | validation passes iff every schema field passes its checks (the email rule as written); an error names the first failing field in schema order and that field's first broken rule |
| PyModel.PartialIsWeaker | sdks/python/toonstore_torm/model.py:175-178 | a partial validation never reports a missing required field, and passes whenever the full one does |
| PyModel.RequiredFieldMustBeSet | sdks/python/toonstore_torm/model.py:175-178 | a required field that is missing or null fails a full validation |
| PyModel.OnlySchemaFieldsMatter | sdks/python/toonstore_torm/model.py:171-182 | keys outside the schema are never looked at: documents that agree on the schema fields get the same verdict |
| PyModel.NullIsMissing | sdks/python/toonstore_torm/model.py:180-182 | setting a field to null is the same as deleting it |
| PyModel.CheckTypeTable | sdks/python/toonstore_torm/model.py:220-234 | unknown type names accept everything; 'int' accepts booleans too; 'float' only floats; 'str' only strings |
| PyModel.IsEmailAsWritten | sdks/python/toonstore_torm/model.py:236-239 | an address `re.match` accepts holds exactly one '@' and does not start with it |
| PyModel.EmailFacts | sdks/python/toonstore_torm/model.py:236-239 | an address `_is_email` accepts has one '@' after a non-empty local part, and its only possible whitespace is one final newline |
| PyModel.IsEmail | sdks/python/toonstore_torm/model.py:236-239 | the intended email check: it accepts exactly the strings whose whole text has the email shape with Python's whitespace class; such an address holds one '@', after a non-empty local part, and no whitespace at all |
| PyModel.EmailTrailingNewline | sdks/python/toonstore_torm/model.py:236-239 | the regex as written also accepts "a@b.co\n", which the intended shape rejects; every intended address is accepted as written |
| PyModel.IntendedDialectNarrows | sdks/python/toonstore_torm/model.py:198-201 | with the intended email shape, a present value passes only if it passes the checks `_validate` runs; where they differ, the value is a string the regex accepts that has a trailing newline, rejected as not an email |
| PyModel.TrailingNewlineAddressPasses | sdks/python/toonstore_torm/model.py:198-201 | `_validate` accepts "a@b.co\n" for a required email field, which the intended shape rejects |
| PyModel.UrlExamples | sdks/python/toonstore_torm/model.py:241-244 | "https://x" passes; a bare scheme and "ftp://x" fail |
| PyModel.IsUrl | sdks/python/toonstore_torm/model.py:241-244 | an accepted URL has a web scheme prefix and more than seven characters |
| PyModel.UrlNeedsMoreThanScheme | sdks/python/toonstore_torm/model.py:241-244 | a web scheme followed by `rest` passes iff `rest` is non-empty and does not start with a newline |
| PyModel.CreateGuardSpec | sdks/python/toonstore_torm/model.py:44-45 | `create` is refused iff validation is on and some schema field fails its full check (the email rule as written), and the error names such a field |
| PyModel.UpdateGuardSpec | sdks/python/toonstore_torm/model.py:110-111 | `update` never fails for a missing required field, accepts whatever `create` accepts, and never rejects with validation off |
| PyQuery.New | sdks/python/toonstore_torm/query.py:27-34 | a fresh builder has no filters, no sort field, order "asc", no limit and no skip |
| PyQuery.FilterBy | sdks/python/toonstore_torm/query.py:36-53 | `filter` appends exactly one entry and changes nothing else |
| PyQuery.WhereIsEqFilter | sdks/python/toonstore_torm/query.py:55-66 | `where` is `filter` with 'eq' |
| PyQuery.SortBy | sdks/python/toonstore_torm/query.py:68-81 | `sort` sets field and order and changes nothing else |
| PyQuery.Limit | sdks/python/toonstore_torm/query.py:83-94 | `limit` records its argument and changes nothing else |
| PyQuery.Skip | sdks/python/toonstore_torm/query.py:96-107 | `skip` records its argument and changes nothing else |
| PyQuery.PyEqualsReflexive | sdks/python/toonstore_torm/query.py:176-177 | Python `==` on JSON values is reflexive (floats are exact here) |
| PyQuery.PyEqualsSymmetric | sdks/python/toonstore_torm/query.py:176-179 | Python `==` on JSON values is symmetric |
| PyQuery.FirstDifference | sdks/python/toonstore_torm/query.py:180-187 | the first index where two lists differ: all earlier elements are `==`, the element there is not |
| PyQuery.PyCompare | sdks/python/toonstore_torm/query.py:180-187 | a comparison raises only TypeError, and two numbers (booleans included) always compare |
| PyQuery.PyIn | sdks/python/toonstore_torm/query.py:190-193 | `in` raises only TypeError, and never when the operand is a list |
| PyQuery.PyCompareAntisymmetric | sdks/python/toonstore_torm/query.py:180-187 | comparing the other way round raises on the same pairs and otherwise gives the reversed ordering |
| PyQuery.PyCompareAgreesWithEquals | sdks/python/toonstore_torm/query.py:176-187 | where `<` does not raise, two values compare Equal iff `==` holds |
| PyQuery.MatchesFiltersIsConjunction | sdks/python/toonstore_torm/query.py:161-171 | a document matches iff every filter matches; a False stops the walk before a later filter can raise |
| PyQuery.MatchesFilter | sdks/python/toonstore_torm/query.py:173-194 | only TypeError escapes the matcher; 'eq' and 'ne' never raise; an unknown operator is False |
| PyQuery.MissingReadsAsNone | sdks/python/toonstore_torm/query.py:167 | a missing field and a null field are indistinguishable to the matcher |
| PyQuery.EqualityOperators | sdks/python/toonstore_torm/query.py:176-187 | 'eq' is reflexive and symmetric, 'ne' is its negation, and where the ordering operators do not raise, 'eq' holds iff both 'gte' and 'lte' do |
| PyQuery.OrderingOperators | sdks/python/toonstore_torm/query.py:180-187 | the ordering operators raise exactly when the values cannot be compared |
| PyQuery.OrderingByValue | sdks/python/toonstore_torm/query.py:180-187 | on two numbers (booleans as 0 and 1) 'gt', 'gte', 'lt', 'lte' are >, ≥, <, ≤ on the values; on two strings they follow dictionary order; against None they raise TypeError |
| PyQuery.OrderingConverse | sdks/python/toonstore_torm/query.py:180-187 | 'gt' is 'lt' read backwards, and 'gte' is 'lte' read backwards |
| PyQuery.ContainsOperator | sdks/python/toonstore_torm/query.py:188-189 | 'contains' is a substring test on the value's text; a non-string operand raises |
| PyQuery.MembershipOperators | sdks/python/toonstore_torm/query.py:190-193 | 'not_in' raises exactly when 'in' does and otherwise negates it; on a list operand 'in' holds iff 'eq' holds against some item and 'not_in' iff 'ne' holds against every item; on two strings 'in' is 'contains' with the roles swapped |
| PyQuery.KeepMatchingSpec | sdks/python/toonstore_torm/query.py:137-138 | the comprehension raises iff the matcher raises on some item (a non-dict item raises AttributeError), and otherwise keeps the matching items in order |
| PyQuery.KeepMatching | sdks/python/toonstore_torm/query.py:137-138 | a successful comprehension keeps no more items than it was given, and only given ones |
| PyQuery.ByKeyPreorder | sdks/python/toonstore_torm/query.py:141-145 | on sortable keys the sort comparator (reversed for 'desc') is a total preorder |
| PyQuery.Exec | sdks/python/toonstore_torm/query.py:136-147 | a successful `exec` returns no more items than the server did; with no filters and no sort it returns them unchanged |
| PyQuery.NonDictItems | sdks/python/toonstore_torm/query.py:136-145 | an item that is not a dict makes `exec` raise whenever there is a filter or a sort; with neither the items come back unchanged |
| PyQuery.ExecSpec | sdks/python/toonstore_torm/query.py:136-147 | a successful `exec` returns a permutation of the matching items, each a returned item that matches every filter, sorted and stable when a sort is set; once a filter or the sort read them, all are dicts |
| PyQuery.SortableIffComparable | sdks/python/toonstore_torm/query.py:141-145 | sortable keys are exactly those Python's `<` accepts: on them any two distinct items compare as the sort orders them; otherwise, unless every key is a list, two distinct items raise TypeError when compared |
| PyQuery.SortRaisesIffUnsortable | sdks/python/toonstore_torm/query.py:141-145 | without filters, a requested sort raises exactly when an item is not a dict (AttributeError) or the keys are neither all numbers nor all strings; a successful sort compared every pair without raising, and a TypeError names two items that `<` cannot compare |
| PyQuery.Count | sdks/python/toonstore_torm/query.py:152-159 | `count` raises exactly when `exec` raises |
| PyQuery.CountMatching | sdks/python/toonstore_torm/query.py:152-159 | a successful `count` is the number of matching items, at most the number returned, all of them without filters |
| GoValidation.CheckField | sdks/go/validation.go:25-36 | key presence alone decides the required check and the skip; a present value goes through the check chain |
| GoValidation.ValidateData | sdks/go/validation.go:24-86 | an error names a visited schema field and the first rule that field breaks |
| GoValidation.ValidateWalk | sdks/go/validation.go:24-86 | the walk passes iff every visited field passes; an error names a visited field and its first broken rule |
| GoValidation.ValidateIffAllPass | sdks/go/validation.go:24-86 | for any map iteration order, `validateData` returns nil iff every schema field passes |
| GoValidation.VerdictIndependentOfOrder | sdks/go/validation.go:25 | two iteration orders of the schema map give the same verdict |
| GoValidation.PartialIsWeaker | sdks/go/validation.go:28-36 | a partial validation never reports a missing field and passes whenever the full one does |
| GoValidation.CheckTypeTable | sdks/go/validation.go:88-123 | "string" is the same as "str", and "slice" the same as "array"; "int" accepts only integers; unknown names pass |
| GoValidation.CheckType | sdks/go/validation.go:88-123 | an unknown type name accepts every value; nil fails every known name |
| GoValidation.IsEmail | sdks/go/validation.go:125-130 | `isEmail` accepts exactly the strings that have the email shape under RE2's ASCII whitespace class; such an address holds one '@', after a non-empty local part, and no whitespace |
| GoValidation.IsUrl | sdks/go/validation.go:132-135 | `isURL` accepts exactly what the Rust crate's `url` accepts |
| GoValidation.UrlAcrossBindings | sdks/go/validation.go:132-135 | whatever Python's `_is_url` accepts passes Go's `isURL` |
| GoValidation.UrlBareScheme | sdks/go/validation.go:132-135 | a bare "http://" passes in Go but not in Python; "ftp://x" fails |
| GoValidation.UrlOnlyGoAccepts | sdks/go/validation.go:132-135 | `isURL` accepts either web scheme followed by anything; Python's `_is_url` rejects such a string exactly when nothing or a newline follows the scheme |
| GoValidation.NullSatisfiesRequired | sdks/go/validation.go:26-43 | a present null passes Go's required check (and fails a "str" type rule) while Python reports it missing |
| GoValidation.NoBreakSpaceInEmail | sdks/go/validation.go:125-130 | "a", a no-break space (U+00A0), then "@b.co" passes Go's email check and fails Python's, because RE2's `\s` is ASCII only |
| GoQuery.FilterBy | sdks/go/query.go:56-64 | `Filter` appends exactly one condition and changes nothing else |
| GoQuery.WhereIsEqFilter | sdks/go/query.go:66-69 | `Where` is `Filter` with Eq |
| GoQuery.SortBy | sdks/go/query.go:71-78 | `Sort` sets field and order and changes nothing else |
| GoQuery.Limit | sdks/go/query.go:80-84 | `Limit` records its argument and changes nothing else |
| GoQuery.Skip | sdks/go/query.go:86-90 | `Skip` records its argument and changes nothing else |
| GoQuery.ToFloat64 | sdks/go/query.go:270-285 | integers and floats convert to their value; nothing else converts, not even bool |
| GoQuery.ToFloat64AcrossBindings | sdks/go/query.go:270-285 | Go's number conversion is Rust's exactly, and differs from Python's exactly on booleans, which Python counts as numbers |
| GoQuery.FindFromSpec | sdks/go/query.go:261-268 | the scan from index i finds t iff t occurs in s at some position ≥ i |
| GoQuery.Contains | sdks/go/query.go:256-259 | `contains(s, t)` holds iff t is a substring of s |
| GoQuery.ContainsIsSubstring | sdks/go/query.go:256-259 | the length guard and the shortcuts of `contains` in front of the scan decide exactly whether t is a substring of s |
| GoQuery.CompareValues | sdks/go/query.go:207-230 | the result is always -1, 0 or 1 |
| GoQuery.CompareValuesCases | sdks/go/query.go:208-230 | two numbers compare by value; otherwise the result is -1, 0 or 1 exactly as the first `%v` text comes before, equals or comes after the second in dictionary order |
| GoQuery.CompareValuesAntisymmetric | sdks/go/query.go:208-230 | a value compares 0 with itself, and swapping the arguments negates the result |
| GoQuery.MatchesFilters | sdks/go/query.go:155-164 | the early-exit loop holds exactly when every filter holds; a missing key reads as nil |
| GoQuery.MatchesFilter | sdks/go/query.go:167-206 | a value compared with itself satisfies eq, gte, lte and contains and fails ne, gt and lt; an unknown operator never matches |
| GoQuery.EqualityOperators | sdks/go/query.go:169-180 | where a side is not numeric, 'eq' holds iff both 'gte' and 'lte' do; 'eq' is symmetric and 'ne' is its negation |
| GoQuery.OrderingOperators | sdks/go/query.go:173-180 | gt is lt with the arguments swapped, gte is not-lt, and every value is gte and lte itself |
| GoQuery.ContainsOperator | sdks/go/query.go:181-184 | contains is a substring test on the two `%v` texts |
| GoQuery.MembershipOperators | sdks/go/query.go:185-202 | in needs an array operand with an item of the same text; not_in is its negation on every input; on an array operand in holds iff eq holds against some item, and not_in iff ne holds against every item |
| GoQuery.SortDocuments | sdks/go/query.go:232-252 | `sortDocuments` returns a permutation of its input |
| GoQuery.ByFieldPreorder | sdks/go/query.go:238-251 | with uniform keys, the comparison the less function induces, reversed unless ascending, is a total preorder |
| GoQuery.SortDocumentsSorted | sdks/go/query.go:232-252 | with uniform keys the output is ordered by `compareValues` on the sort field |
| GoQuery.Objects | sdks/go/query.go:124-136 | exactly the JSON objects of the response are kept as documents; nothing else survives |
| GoQuery.Exec | sdks/go/query.go:124-143 | without a "documents" array nothing is returned; otherwise never more than the response held |
| GoQuery.ExecSpec | sdks/go/query.go:124-143 | every returned document is an object of the response matching every filter, and every such object is returned; without a sort they come in response order; `Count` is the length of `Exec` |
| GoQuery.ExecSorted | sdks/go/query.go:138-141 | with a sort and uniform keys, the result is ordered by the sort field |
| GoQuery.Count | sdks/go/query.go:146-153 | `Count` never exceeds the number of items in the response |
| GoQuery.StringlyComparisons | sdks/go/query.go:169-170 | because comparisons fall back to `%v` text, the string "30" equals the number 30, and "9" is greater than "10" |

## Left out

- Redis, HTTP and JSON decoding are not modelled. The stored values (`RustQuery`) and the
  server's response (`GoQuery`, `PyQuery`) are arguments. A failed request is not
  modelled.
- The Rust crate's generic document type `T` is fixed to the JSON value type. This
  assumes every stored value that parses as JSON also deserialises as `T`.
- Regular expressions: user patterns are opaque predicates.
  - Python's `re.match` anchors only at the start, which the predicate must encode.
  - Python's `re.error` on an invalid pattern is not modelled.
  - In Go an invalid pattern is a predicate that never matches, as the source treats
    the error like a mismatch.
  - The three built-in email regexes are written out by hand.
- Go's `%v` formatting and Python's `str()` are parameters. Only documented facts about
  them are assumed where a lemma needs concrete text.
- Numbers: IEEE-754 doubles, NaN, infinities and `i64`/`f64` precision are not modelled.
  Numbers are exact integers and reals.
- String length: Rust's `len()` and Go's `len()` count UTF-8 bytes, Python's counts code
  points. The model counts characters (code points) for all three.
- Rust error messages (including `type_name` in `min`/`max`) are replaced by tags of
  `RustValidation.Failure`. Go and Python error texts are replaced by
  `Schema.Violation`.
- Go typed slices are not modelled. The model's list operand stands for `[]interface{}`
  only. A `[]string` (or any other typed slice) operand fails the source's type
  assertion, so `in` never matches and `not_in` always matches.
- Go integer kinds outside `toFloat64` are not modelled. `uint`, `int8`, `int16`,
  `uint64` and the like are not converted there, so the source compares them by their
  `%v` text. The model treats every integer as numeric, which matches the JSON-decoded
  values the server returns.
- GoQuery.SortDocuments: `sort.Slice` is unstable. The model computes one admissible
  outcome (the stable order), and only permutation and order are claimed.
- GoQuery.SortDocumentsSorted: sortedness is proved only when the sort keys are all
  numeric or all non-numeric. A mix breaks transitivity of `compareValues`.
- RustQuery.ExecSortedAndStable: sortedness is proved only when the present sort keys
  share one family (numbers, strings or booleans). With mixed families the comparator is
  not transitive, and Rust's `sort_by` gives an unspecified order or, from Rust 1.81 on,
  may panic.
- PyQuery.Sortable: all-list sort keys are treated as raising. In Python they may compare
  lexicographically and succeed.
- Server-side skip and limit are left out for Python and Go. The SDKs forward them to the
  server and apply them in no client-side step. The builder methods that record them are
  modelled.
- The Go `Model` write path (`model.go`), migrations, the derive macro, the server and
  the client transport are not part of this model.
- Python's `validate` entry is assumed callable when present. A non-callable validator,
  which the source silently skips, is modelled as absent.
- Python's `documents` is assumed to be a list. A server answer whose `documents` is
  some other JSON value is not modelled.
- Python's `count` and Go's `Count` call `exec` again. They are modelled as the length of
  the same evaluation.

## Findings

| source | as written | input that shows it | evidently intended | confidence | as-written member | corrected member |
|---|---|---|---|---|---|---|
| sdks/python/toonstore_torm/model.py:237-239 | `re.match(r'^[^\s@]+@[^\s@]+\.[^\s@]+$', value)`: Python's `$` also matches just before a final newline | "a@b.co\n" is accepted as a valid email | the whole value has the email shape and contains no whitespace | not executed; high (documented `re` semantics) | PyModel.IsEmailAsWritten, used by PyModel.Dialect and so by PyModel.Validate (shown by PyModel.EmailTrailingNewline and PyModel.TrailingNewlineAddressPasses) | PyModel.IsEmail, used by PyModel.IntendedDialect (proved by PyModel.IntendedDialectNarrows) |

The validator model keeps the rule as written, so `PyModel.Validate` accepts the address
above. `PyModel.IntendedDialect` swaps in the intended shape, and
`PyModel.IntendedDialectNarrows` shows that this changes only the verdict on such
strings.
