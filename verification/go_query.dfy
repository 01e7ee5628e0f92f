/** The Go SDK's query builder and its client-side evaluation: `Filter`/`Where`,
    `matchesFilters`, `matchesFilter`, `compareValues`, `sortDocuments`,
    `contains`/`findSubstring`, `toFloat64`, the filter-then-sort part of `Exec`, and
    `Count`, sdks/go/query.go. `fmt.Sprintf("%v", x)` is the parameter `verb`. */
module GoQuery {
  import opened Wrappers
  import opened Json
  import opened Orders
  import opened Text
  import opened Sequences
  import RustQuery
  import PyModel

  /** One `QueryFilter`; the operator is a free-form `QueryOperator` string. */
  datatype Filter = Filter(field: string, op: string, value: Value)

  datatype QueryBuilder = QueryBuilder(
    collection: string,
    filters: seq<Filter>,
    sortField: Option<(string, string)>,
    limit: Option<int>,
    skip: Option<int>)

  /** `Filter`: appends one condition and changes nothing else. */
  function FilterBy(q: QueryBuilder, field: string, op: string, value: Value): (r: QueryBuilder)
    ensures r.filters == q.filters + [Filter(field, op, value)]
    ensures r == q.(filters := r.filters)
  {
    q.(filters := q.filters + [Filter(field, op, value)])
  }

  /** `Where`: shorthand for an `Eq` filter. */
  function Where(q: QueryBuilder, field: string, value: Value): QueryBuilder {
    FilterBy(q, field, "eq", value)
  }

  /** `Sort`: replaces the sort field and order. */
  function SortBy(q: QueryBuilder, field: string, order: string): (r: QueryBuilder)
    ensures r.sortField == Some((field, order))
    ensures r == q.(sortField := r.sortField)
  {
    q.(sortField := Some((field, order)))
  }

  /** `Limit` and `Skip` only record their argument, which is sent to the server. */
  function Limit(q: QueryBuilder, n: int): (r: QueryBuilder)
    ensures r.limit == Some(n)
    ensures r == q.(limit := r.limit)
  {
    q.(limit := Some(n))
  }

  function Skip(q: QueryBuilder, n: int): (r: QueryBuilder)
    ensures r.skip == Some(n)
    ensures r == q.(skip := r.skip)
  {
    q.(skip := Some(n))
  }

  lemma WhereIsEqFilter(q: QueryBuilder, field: string, value: Value)
    ensures Where(q, field, value) == FilterBy(q, field, "eq", value)
    ensures Where(q, field, value).filters[|q.filters|].op == "eq"
  {
  }

  // ---------------------------------------------------------------------------
  // Helpers
  // ---------------------------------------------------------------------------

  /** `toFloat64`: integers and floats convert, nothing else does (not even bool). */
  function ToFloat64(v: Value): (r: Option<real>)
    ensures r.Some? <==> v.Int? || v.Float?
    ensures v.Int? ==> r == Some(v.i as real)
    ensures v.Float? ==> r == Some(v.f)
  {
    match v
    case Int(i) => Some(i as real)
    case Float(f) => Some(f)
    case _ => None
  }

  /** `toFloat64` reads a JSON value as the Rust crate's `as_f64` fallback does, and as
      Python's number test does except on booleans, which Python counts as 0 and 1. */
  lemma ToFloat64AcrossBindings(v: Value)
    ensures ToFloat64(v) == RustQuery.AsNumber(v)
    ensures ToFloat64(v) != PyModel.AsNumber(v) <==> v.Bool?
  {
  }

  /** The loop of `findSubstring` from index `i` on. */
  function FindFrom(s: string, t: string, i: nat): bool
    decreases |s| - |t| - i + 1
  {
    if i > |s| - |t| then false
    else if s[i..i + |t|] == t then true
    else FindFrom(s, t, i + 1)
  }

  /** `findSubstring`. */
  function FindSubstring(s: string, t: string): bool {
    FindFrom(s, t, 0)
  }

  /** `contains`: the length guard and the shortcuts in front of `findSubstring`. It
      holds exactly when `t` occurs in `s`. */
  function Contains(s: string, t: string): (r: bool)
    ensures r <==> IsSubstring(t, s)
  {
    ContainsIsSubstring(s, t);
    |s| >= |t| && (s == t || |t| == 0 || (|s| > 0 && |t| > 0 && FindSubstring(s, t)))
  }

  lemma {:induction false} FindFromSpec(s: string, t: string, i: nat)
    ensures FindFrom(s, t, i) <==> exists j | i <= j <= |s| - |t| :: OccursAt(t, s, j)
    decreases |s| - |t| - i + 1
  {
    if i <= |s| - |t| {
      FindFromSpec(s, t, i + 1);
      if !OccursAt(t, s, i) {
        assert (exists j | i <= j <= |s| - |t| :: OccursAt(t, s, j))
               <==> (exists j | i + 1 <= j <= |s| - |t| :: OccursAt(t, s, j));
      }
    }
  }

  /** The guard and shortcuts of `contains` in front of the scan decide exactly whether
      `t` occurs in `s`: equal strings and the empty string are found by the scan too. */
  lemma ContainsIsSubstring(s: string, t: string)
    ensures |s| >= |t| && (s == t || |t| == 0 || (|s| > 0 && |t| > 0 && FindSubstring(s, t))) <==> IsSubstring(t, s)
  {
    FindFromSpec(s, t, 0);
    if s == t {
      assert OccursAt(t, s, 0);
    }
    if |t| == 0 {
      EmptyIsSubstring(s);
    }
  }

  function Sign(o: Ordering): int {
    match o
    case Less => -1
    case Equal => 0
    case Greater => 1
  }

  /** `compareValues`: numerically when both sides convert with `toFloat64`, otherwise
      by the byte order of their `%v` texts (code-point order on the characters). */
  function CompareValues(a: Value, b: Value, verb: Value -> string): (r: int)
    ensures r in {-1, 0, 1}
  {
    if ToFloat64(a).Some? && ToFloat64(b).Some? then Sign(CompareReals(ToFloat64(a).value, ToFloat64(b).value))
    else Sign(CompareStrings(verb(a), verb(b)))
  }

  /** Two numbers compare by value; when a side is not numeric, the `%v` texts compare
      in dictionary order: -1 when `a`'s text comes first, 1 when `b`'s does, and 0
      only for equal texts. */
  lemma CompareValuesCases(a: Value, b: Value, verb: Value -> string)
    ensures ToFloat64(a).Some? && ToFloat64(b).Some? ==>
              (CompareValues(a, b, verb) < 0 <==> ToFloat64(a).value < ToFloat64(b).value)
              && (CompareValues(a, b, verb) == 0 <==> ToFloat64(a).value == ToFloat64(b).value)
    ensures (ToFloat64(a).None? || ToFloat64(b).None?) ==>
              && (CompareValues(a, b, verb) == 0 <==> verb(a) == verb(b))
              && (CompareValues(a, b, verb) < 0 <==> TextBefore(verb(a), verb(b)))
              && (CompareValues(a, b, verb) > 0 <==> TextBefore(verb(b), verb(a)))
  {
    if ToFloat64(a).None? || ToFloat64(b).None? {
      StringsEqualIff(verb(a), verb(b));
      StringsLessIff(verb(a), verb(b));
      StringsLessIff(verb(b), verb(a));
      StringsAntisymmetric(verb(a), verb(b));
    }
  }

  /** `compareValues(a, a) == 0` and `compareValues(a, b) == -compareValues(b, a)`. */
  lemma CompareValuesAntisymmetric(a: Value, b: Value, verb: Value -> string)
    ensures CompareValues(a, a, verb) == 0
    ensures CompareValues(a, b, verb) == -CompareValues(b, a, verb)
  {
    StringsEqualIff(verb(a), verb(a));
    StringsAntisymmetric(verb(a), verb(b));
  }

  // ---------------------------------------------------------------------------
  // The matcher
  // ---------------------------------------------------------------------------

  /** The `%v` text of `x` equals that of some element of `items`. */
  predicate SameTextIn(x: Value, items: seq<Value>, verb: Value -> string) {
    exists i | 0 <= i < |items| :: verb(x) == verb(items[i])
  }

  /** `matchesFilter`. A value compared with itself satisfies eq, gte, lte and contains
      and fails ne, gt and lt; an unknown operator never matches. */
  function MatchesFilter(docValue: Value, op: string, filterValue: Value, verb: Value -> string): (r: bool)
    ensures docValue == filterValue && op in {"eq", "gte", "lte", "contains"} ==> r
    ensures docValue == filterValue && op in {"ne", "gt", "lt"} ==> !r
    ensures op !in {"eq", "ne", "gt", "gte", "lt", "lte", "contains", "in", "not_in"} ==> !r
  {
    CompareValuesAntisymmetric(docValue, filterValue, verb);
    if op == "eq" then verb(docValue) == verb(filterValue)
    else if op == "ne" then verb(docValue) != verb(filterValue)
    else if op == "gt" then CompareValues(docValue, filterValue, verb) > 0
    else if op == "gte" then CompareValues(docValue, filterValue, verb) >= 0
    else if op == "lt" then CompareValues(docValue, filterValue, verb) < 0
    else if op == "lte" then CompareValues(docValue, filterValue, verb) <= 0
    else if op == "contains" then Contains(verb(docValue), verb(filterValue))
    else if op == "in" then filterValue.Arr? && SameTextIn(docValue, filterValue.items, verb)
    else if op == "not_in" then !(filterValue.Arr? && SameTextIn(docValue, filterValue.items, verb))
    else false
  }

  /** `doc[field]`: a missing key reads as nil. */
  function Get(doc: Doc, field: string): Value {
    if field in doc then doc[field] else Null
  }

  /** `matchesFilters`: the conjunction of every filter, so no filter matches all. */
  function MatchesFilters(doc: Doc, filters: seq<Filter>, verb: Value -> string): (r: bool)
    ensures r <==> forall i :: 0 <= i < |filters| ==>
                     MatchesFilter(Get(doc, filters[i].field), filters[i].op, filters[i].value, verb)
    decreases |filters|
  {
    if |filters| == 0 then true
    else if !MatchesFilter(Get(doc, filters[0].field), filters[0].op, filters[0].value, verb) then false
    else
      assert forall i :: 0 < i < |filters| ==> filters[i] == filters[1..][i - 1];
      MatchesFilters(doc, filters[1..], verb)
  }

  /** Where a side is not numeric, 'eq' agrees with the ordering operators: it holds
      exactly when both 'gte' and 'lte' do. Between two numbers it may not, since 'eq'
      still compares texts while the ordering operators compare values. 'eq' is
      symmetric and 'ne' is its negation. */
  lemma EqualityOperators(dv: Value, fv: Value, verb: Value -> string)
    ensures (ToFloat64(dv).None? || ToFloat64(fv).None?) ==>
              (MatchesFilter(dv, "eq", fv, verb)
               <==> MatchesFilter(dv, "gte", fv, verb) && MatchesFilter(dv, "lte", fv, verb))
    ensures MatchesFilter(dv, "eq", fv, verb) <==> MatchesFilter(fv, "eq", dv, verb)
    ensures MatchesFilter(dv, "ne", fv, verb) <==> !MatchesFilter(dv, "eq", fv, verb)
  {
    CompareValuesCases(dv, fv, verb);
  }

  /** The ordering operators read `compareValues` against 0: 'gt' is 'lt' read
      backwards, 'gte' is the negation of 'lt', and every value is 'gte' and 'lte'
      itself. */
  lemma OrderingOperators(dv: Value, fv: Value, verb: Value -> string)
    ensures MatchesFilter(dv, "gt", fv, verb) <==> MatchesFilter(fv, "lt", dv, verb)
    ensures MatchesFilter(dv, "gte", fv, verb) <==> !MatchesFilter(dv, "lt", fv, verb)
    ensures MatchesFilter(dv, "lte", fv, verb) <==> !MatchesFilter(dv, "gt", fv, verb)
    ensures MatchesFilter(dv, "gte", dv, verb) && MatchesFilter(dv, "lte", dv, verb)
  {
    CompareValuesAntisymmetric(dv, fv, verb);
  }

  /** 'contains' is a substring test on the two `%v` texts. */
  lemma ContainsOperator(dv: Value, fv: Value, verb: Value -> string)
    ensures MatchesFilter(dv, "contains", fv, verb) <==> IsSubstring(verb(fv), verb(dv))
    ensures verb(fv) == "" ==> MatchesFilter(dv, "contains", fv, verb)
  {
    ContainsIsSubstring(verb(dv), verb(fv));
  }

  /** 'in' needs an array filter value and is then 'eq' against some element; 'not_in'
      is its negation on every input, so it is 'ne' against every element, and holds
      whenever the filter value is not an array. */
  lemma MembershipOperators(dv: Value, fv: Value, verb: Value -> string)
    ensures !fv.Arr? ==> !MatchesFilter(dv, "in", fv, verb) && MatchesFilter(dv, "not_in", fv, verb)
    ensures MatchesFilter(dv, "not_in", fv, verb) <==> !MatchesFilter(dv, "in", fv, verb)
    ensures fv.Arr? ==> (MatchesFilter(dv, "in", fv, verb)
                         <==> exists i :: 0 <= i < |fv.items| && verb(dv) == verb(fv.items[i]))
    ensures fv.Arr? ==> (MatchesFilter(dv, "in", fv, verb)
                         <==> exists i :: 0 <= i < |fv.items| && MatchesFilter(dv, "eq", fv.items[i], verb))
    ensures fv.Arr? ==> (MatchesFilter(dv, "not_in", fv, verb)
                         <==> forall i :: 0 <= i < |fv.items| ==> MatchesFilter(dv, "ne", fv.items[i], verb))
  {
  }

  // ---------------------------------------------------------------------------
  // Sorting, Exec and Count
  // ---------------------------------------------------------------------------

  /** The ordering `sort.Slice`'s less function induces: `compareValues` on the field,
      read backwards unless the order is "asc". */
  function ByField(field: string, order: string, verb: Value -> string): (Doc, Doc) -> Ordering {
    var base := (x: Doc, y: Doc) => CompareReals(CompareValues(Get(x, field), Get(y, field), verb) as real, 0.0);
    if order == "asc" then base else Flip(base)
  }

  /** `sortDocuments`, modelled by one admissible outcome of the unstable `sort.Slice`:
      the stable order. Only permutation and order are claimed of it. */
  function SortDocuments(docs: seq<Doc>, field: string, order: string, verb: Value -> string): (r: seq<Doc>)
    ensures multiset(r) == multiset(docs)
  {
    Sort(docs, ByField(field, order, verb))
  }

  /** The sort keys all convert to numbers, or none does. */
  ghost predicate UniformKeys(docs: seq<Doc>, field: string) {
    || (forall i :: 0 <= i < |docs| ==> ToFloat64(Get(docs[i], field)).Some?)
    || (forall i :: 0 <= i < |docs| ==> ToFloat64(Get(docs[i], field)).None?)
  }

  ghost function Members(docs: seq<Doc>): set<Doc> {
    set d | d in docs
  }

  lemma ByFieldPreorder(docs: seq<Doc>, field: string, order: string, verb: Value -> string)
    requires UniformKeys(docs, field)
    ensures TotalPreorder(ByField(field, order, verb), Members(docs))
    ensures Within(docs, Members(docs))
  {
    var base := (x: Doc, y: Doc) => CompareReals(CompareValues(Get(x, field), Get(y, field), verb) as real, 0.0);
    var dom := Members(docs);
    forall a, b | a in dom && b in dom ensures base(a, b) == base(b, a).Reverse() {
      CompareValuesAntisymmetric(Get(a, field), Get(b, field), verb);
    }
    forall a, b, c | a in dom && b in dom && c in dom && base(a, b) != Greater && base(b, c) != Greater
      ensures base(a, c) != Greater
    {
      var ka, kb, kc := Get(a, field), Get(b, field), Get(c, field);
      var i :| 0 <= i < |docs| && docs[i] == a;
      var j :| 0 <= j < |docs| && docs[j] == b;
      var k :| 0 <= k < |docs| && docs[k] == c;
      if ToFloat64(ka).None? {
        assert ToFloat64(kb).None? && ToFloat64(kc).None?;
        StringsTransitive(verb(ka), verb(kb), verb(kc));
      }
    }
    assert TotalPreorder(base, dom);
    if order != "asc" {
      FlipPreorder(base, dom);
    }
  }

  /** `sortDocuments` returns a permutation of its input ordered by `compareValues` on
      the field, ascending for "asc" and descending otherwise, when the keys are all
      numeric or all non-numeric. */
  lemma SortDocumentsSorted(docs: seq<Doc>, field: string, order: string, verb: Value -> string)
    requires UniformKeys(docs, field)
    ensures SortedBy(SortDocuments(docs, field, order, verb), ByField(field, order, verb))
    ensures var r := SortDocuments(docs, field, order, verb);
            order == "asc" ==> forall i, j :: 0 <= i < j < |r| ==> CompareValues(Get(r[i], field), Get(r[j], field), verb) <= 0
  {
    var r := SortDocuments(docs, field, order, verb);
    ByFieldPreorder(docs, field, order, verb);
    SortSorted(docs, ByField(field, order, verb), Members(docs));
    if order == "asc" {
      forall i, j | 0 <= i < j < |r| ensures CompareValues(Get(r[i], field), Get(r[j], field), verb) <= 0 {
        assert ByField(field, order, verb)(r[i], r[j]) != Greater;
      }
    }
  }

  /** The JSON objects among the decoded documents, in order; anything else is
      dropped by the `doc.(map[string]interface{})` assertion. */
  function Objects(items: seq<Value>): (r: seq<Doc>)
    ensures |r| <= |items|
    ensures forall d :: d in r ==> Obj(d) in items
    ensures forall i :: 0 <= i < |items| && items[i].Obj? ==> items[i].fields in r
    decreases |items|
  {
    if |items| == 0 then []
    else
      assert forall i :: 0 < i < |items| ==> items[i] == items[1..][i - 1];
      (if items[0].Obj? then [items[0].fields] else []) + Objects(items[1..])
  }

  /** The client-side part of `Exec` on the decoded "documents" entry of the response:
      no array gives no documents; otherwise the objects that match every filter, in
      response order, sorted when a sort is set. */
  function Exec(q: QueryBuilder, documents: Value, verb: Value -> string): (r: seq<Doc>)
    ensures !documents.Arr? ==> r == []
    ensures documents.Arr? ==> |r| <= |documents.items|
  {
    if !documents.Arr? then []
    else
      var kept := Keep(Objects(documents.items), d => MatchesFilters(d, q.filters, verb));
      if q.sortField.Some? then
        var sorted := SortDocuments(kept, q.sortField.value.0, q.sortField.value.1, verb);
        assert |multiset(sorted)| == |multiset(kept)|;
        sorted
      else kept
  }

  /** `Count`: the length of `Exec`. */
  function Count(q: QueryBuilder, documents: Value, verb: Value -> string): (r: nat)
    ensures r <= (if documents.Arr? then |documents.items| else 0)
  {
    |Exec(q, documents, verb)|
  }

  /** Every document `Exec` returns is an object of the response that matches every
      filter, and each such object is returned; without a sort the response order is
      kept. */
  lemma ExecSpec(q: QueryBuilder, documents: Value, verb: Value -> string)
    ensures forall d :: d in Exec(q, documents, verb) ==>
              documents.Arr? && Obj(d) in documents.items && MatchesFilters(d, q.filters, verb)
    ensures documents.Arr? ==>
              (forall i :: 0 <= i < |documents.items| && documents.items[i].Obj?
                           && MatchesFilters(documents.items[i].fields, q.filters, verb)
                           ==> documents.items[i].fields in Exec(q, documents, verb))
    ensures documents.Arr? && q.sortField == None ==>
              Exec(q, documents, verb) == Keep(Objects(documents.items), d => MatchesFilters(d, q.filters, verb))
    ensures Count(q, documents, verb) == |Exec(q, documents, verb)|
  {
    if documents.Arr? {
      var keep := d => MatchesFilters(d, q.filters, verb);
      var kept := Keep(Objects(documents.items), keep);
      var r := Exec(q, documents, verb);
      assert multiset(r) == multiset(kept);
      forall d | d in r ensures Obj(d) in documents.items && keep(d) {
        assert d in multiset(r);
        assert d in kept;
      }
      forall i | 0 <= i < |documents.items| && documents.items[i].Obj? && keep(documents.items[i].fields)
        ensures documents.items[i].fields in r
      {
        var objects := Objects(documents.items);
        var d := documents.items[i].fields;
        var k :| 0 <= k < |objects| && objects[k] == d;
        assert d in kept;
        assert d in multiset(kept);
      }
    }
  }

  /** With a sort and uniform keys, `Exec` is ordered by the sort field. */
  lemma ExecSorted(q: QueryBuilder, documents: Value, verb: Value -> string)
    requires documents.Arr? && q.sortField.Some?
    requires UniformKeys(Keep(Objects(documents.items), d => MatchesFilters(d, q.filters, verb)), q.sortField.value.0)
    ensures SortedBy(Exec(q, documents, verb), ByField(q.sortField.value.0, q.sortField.value.1, verb))
  {
    var kept := Keep(Objects(documents.items), d => MatchesFilters(d, q.filters, verb));
    SortDocumentsSorted(kept, q.sortField.value.0, q.sortField.value.1, verb);
  }

  // ---------------------------------------------------------------------------
  // How `%v` makes Go differ from the Rust matcher
  // ---------------------------------------------------------------------------

  /** What Go's `%v` is documented to print for the cases below: strings as
      themselves and integers in decimal. */
  ghost predicate VerbBasics(verb: Value -> string) {
    && (forall s :: verb(Str(s)) == s)
    && (forall i :: verb(Int(i)) == IntText(i))
  }

  /** Go's 'eq' finds the string "30" equal to the number 30, because it compares the
      printed forms; and ordering falls back to text order for a string, so "9" is
      greater than "10". */
  lemma StringlyComparisons(verb: Value -> string)
    requires VerbBasics(verb)
    ensures MatchesFilter(Str("30"), "eq", Int(30), verb)
    ensures MatchesFilter(Str("9"), "gt", Str("10"), verb)
  {
    assert IntText(30) == "30";
    assert verb(Str("30")) == "30" && verb(Int(30)) == "30";
    assert verb(Str("9")) == "9" && verb(Str("10")) == "10";
  }
}
