/** The Python SDK's query builder: the chainable plan, the client-side matcher
    (`_matches_filters`, `_matches_filter`), the filter-then-sort part of `exec`, and
    `count`, sdks/python/toonstore_torm/query.py. Python's `==`, `<` and `in` are
    modelled on JSON values, including the TypeError an unsupported comparison raises;
    `str()` is the parameter `show`. The server's `documents` are JSON values, so an
    item that is not a dict is possible. */
module PyQuery {
  import opened Wrappers
  import opened Json
  import opened Orders
  import opened Text
  import opened Sequences
  import PyModel

  /** The exceptions the client-side evaluation can raise: an unsupported comparison or
      `in`, and `.get` on a returned item that is not a dict. */
  datatype PyError = TypeError | AttributeError

  /** One `{'field', 'operator', 'value'}` entry; the operator is free text. */
  datatype Filter = Filter(field: string, op: string, value: Value)

  datatype QueryBuilder = QueryBuilder(
    collection: string,
    filters: seq<Filter>,
    sortField: Option<string>,
    sortOrder: string,
    limit: Option<int>,
    skip: Option<int>)

  function New(collection: string): (q: QueryBuilder)
    ensures q.collection == collection && q.filters == [] && q.sortField == None
    ensures q.sortOrder == "asc" && q.limit == None && q.skip == None
  {
    QueryBuilder(collection, [], None, "asc", None, None)
  }

  /** `filter`: appends one condition and changes nothing else. */
  function FilterBy(q: QueryBuilder, field: string, op: string, value: Value): (r: QueryBuilder)
    ensures r.filters == q.filters + [Filter(field, op, value)]
    ensures r == q.(filters := r.filters)
  {
    q.(filters := q.filters + [Filter(field, op, value)])
  }

  /** `where`: shorthand for an 'eq' filter. */
  function Where(q: QueryBuilder, field: string, value: Value): QueryBuilder {
    FilterBy(q, field, "eq", value)
  }

  /** `sort`: replaces the sort field and order. */
  function SortBy(q: QueryBuilder, field: string, order: string): (r: QueryBuilder)
    ensures r.sortField == Some(field) && r.sortOrder == order
    ensures r == q.(sortField := r.sortField, sortOrder := r.sortOrder)
  {
    q.(sortField := Some(field), sortOrder := order)
  }

  /** `limit` and `skip` only record their argument; the server applies them. */
  function Limit(q: QueryBuilder, n: int): (r: QueryBuilder)
    ensures r.limit == Some(n)
    ensures r == q.(limit := r.limit)
  {
    q.(limit := Some(n))
  }

  function Skip(q: QueryBuilder, n: int): (r: QueryBuilder)
    ensures r.skip == Some(n)
    ensures r == q.(skip := r.skip)
  {
    q.(skip := Some(n))
  }

  lemma WhereIsEqFilter(q: QueryBuilder, field: string, value: Value)
    ensures Where(q, field, value) == FilterBy(q, field, "eq", value)
    ensures Where(q, field, value).filters[|q.filters|].op == "eq"
  {
  }

  // ---------------------------------------------------------------------------
  // Python's operators on JSON values
  // ---------------------------------------------------------------------------

  /** `a == b`: numbers (booleans included) by value, lists element-wise, dicts by keys
      and values, None only with None. */
  predicate PyEquals(a: Value, b: Value)
    decreases a
  {
    match a
    case Null => b.Null?
    case Str(s) => b.Str? && b.s == s
    case Arr(xs) => b.Arr? && |xs| == |b.items| && forall i | 0 <= i < |xs| :: PyEquals(xs[i], b.items[i])
    case Obj(m) => b.Obj? && m.Keys == b.fields.Keys && forall k | k in m :: PyEquals(m[k], b.fields[k])
    case _ => PyModel.AsNumber(b).Some? && PyModel.AsNumber(a) == PyModel.AsNumber(b)
  }

  lemma {:induction false} PyEqualsReflexive(a: Value)
    ensures PyEquals(a, a)
    decreases a
  {
    match a
    case Arr(xs) =>
      forall i | 0 <= i < |xs| ensures PyEquals(xs[i], xs[i]) {
        PyEqualsReflexive(xs[i]);
      }
    case Obj(m) =>
      forall k | k in m ensures PyEquals(m[k], m[k]) {
        PyEqualsReflexive(m[k]);
      }
    case _ =>
  }

  lemma {:induction false} PyEqualsSymmetric(a: Value, b: Value)
    requires PyEquals(a, b)
    ensures PyEquals(b, a)
    decreases a
  {
    match a
    case Arr(xs) =>
      forall i | 0 <= i < |xs| ensures PyEquals(b.items[i], xs[i]) {
        PyEqualsSymmetric(xs[i], b.items[i]);
      }
    case Obj(m) =>
      forall k | k in b.fields ensures PyEquals(b.fields[k], m[k]) {
        PyEqualsSymmetric(m[k], b.fields[k]);
      }
    case _ =>
  }

  /** The index of the first position where two lists differ under `==`, or the length
      of the shorter one. */
  function FirstDifference(xs: seq<Value>, ys: seq<Value>): (i: nat)
    ensures i <= |xs| && i <= |ys|
    ensures forall j :: 0 <= j < i ==> PyEquals(xs[j], ys[j])
    ensures i < |xs| && i < |ys| ==> !PyEquals(xs[i], ys[i])
    decreases |xs|
  {
    if |xs| == 0 || |ys| == 0 || !PyEquals(xs[0], ys[0]) then 0
    else 1 + FirstDifference(xs[1..], ys[1..])
  }

  /** `<` and friends: numbers by value, strings by code points, lists
      lexicographically (decided at the first unequal element, else by length); any
      other pairing raises TypeError, including None with None. */
  function PyCompare(a: Value, b: Value): (r: Result<Ordering, PyError>)
    ensures r.Err? ==> r == Err(TypeError)
    ensures PyModel.AsNumber(a).Some? && PyModel.AsNumber(b).Some? ==> r.Ok?
    decreases a
  {
    if PyModel.AsNumber(a).Some? && PyModel.AsNumber(b).Some? then
      Ok(CompareReals(PyModel.AsNumber(a).value, PyModel.AsNumber(b).value))
    else match a
      case Str(s) => if b.Str? then Ok(CompareStrings(s, b.s)) else Err(TypeError)
      case Arr(xs) =>
        if !b.Arr? then Err(TypeError)
        else
          var i := FirstDifference(xs, b.items);
          if i < |xs| && i < |b.items| then PyCompare(xs[i], b.items[i])
          else Ok(CompareReals(|xs| as real, |b.items| as real))
      case _ => Err(TypeError)
  }

  lemma {:induction false} FirstDifferenceSymmetric(xs: seq<Value>, ys: seq<Value>)
    ensures FirstDifference(xs, ys) == FirstDifference(ys, xs)
    decreases |xs|
  {
    if |xs| > 0 && |ys| > 0 {
      if PyEquals(xs[0], ys[0]) {
        PyEqualsSymmetric(xs[0], ys[0]);
        FirstDifferenceSymmetric(xs[1..], ys[1..]);
      } else if PyEquals(ys[0], xs[0]) {
        PyEqualsSymmetric(ys[0], xs[0]);
      }
    }
  }

  /** Comparing the other way round raises on the same pairs and otherwise gives the
      reversed ordering. */
  lemma {:induction false} PyCompareAntisymmetric(a: Value, b: Value)
    ensures PyCompare(a, b).Err? <==> PyCompare(b, a).Err?
    ensures PyCompare(a, b).Ok? ==> PyCompare(b, a) == Ok(PyCompare(a, b).value.Reverse())
    decreases a
  {
    if PyModel.AsNumber(a).Some? && PyModel.AsNumber(b).Some? {
      RealsAntisymmetric(PyModel.AsNumber(a).value, PyModel.AsNumber(b).value);
    } else if a.Str? && b.Str? {
      StringsAntisymmetric(a.s, b.s);
    } else if a.Arr? && b.Arr? {
      var xs, ys := a.items, b.items;
      FirstDifferenceSymmetric(xs, ys);
      var i := FirstDifference(xs, ys);
      if i < |xs| && i < |ys| {
        PyCompareAntisymmetric(xs[i], ys[i]);
      } else {
        RealsAntisymmetric(|xs| as real, |ys| as real);
      }
    }
  }

  /** Where a comparison succeeds, it says Equal exactly when `==` holds. */
  lemma {:induction false} PyCompareAgreesWithEquals(a: Value, b: Value)
    requires PyCompare(a, b).Ok?
    ensures PyCompare(a, b).value == Equal <==> PyEquals(a, b)
    decreases a
  {
    if PyModel.AsNumber(a).Some? && PyModel.AsNumber(b).Some? {
    } else if a.Str? {
      StringsEqualIff(a.s, b.s);
    } else if a.Arr? {
      var xs, ys := a.items, b.items;
      var i := FirstDifference(xs, ys);
      if i < |xs| && i < |ys| {
        PyCompareAgreesWithEquals(xs[i], ys[i]);
      }
    }
  }

  /** `doc_value in filter_value`: membership in a list uses `==`; in a string it is a
      substring test and needs a string on the left; in a dict it tests the keys and
      raises for an unhashable list or dict; anything else is not iterable. */
  function PyIn(x: Value, container: Value): (r: Result<bool, PyError>)
    ensures r.Err? ==> r == Err(TypeError)
    ensures container.Arr? ==> r.Ok?
  {
    match container
    case Arr(xs) => Ok(exists i | 0 <= i < |xs| :: PyEquals(x, xs[i]))
    case Str(t) => if x.Str? then Ok(IsSubstring(x.s, t)) else Err(TypeError)
    case Obj(m) => if x.Arr? || x.Obj? then Err(TypeError) else Ok(x.Str? && x.s in m)
    case _ => Err(TypeError)
  }

  function Holds(c: Result<Ordering, PyError>, p: Ordering -> bool): Result<bool, PyError> {
    match c
    case Ok(o) => Ok(p(o))
    case Err(e) => Err(e)
  }

  /** `_matches_filter`. Only a TypeError can escape it; 'eq' and 'ne' never raise, and
      an unknown operator is False. */
  function MatchesFilter(docValue: Value, op: string, filterValue: Value, show: Value -> string): (r: Result<bool, PyError>)
    ensures r.Err? ==> r == Err(TypeError)
    ensures op == "eq" || op == "ne" ==> r.Ok?
    ensures op !in {"eq", "ne", "gt", "gte", "lt", "lte", "contains", "in", "not_in"} ==> r == Ok(false)
  {
    if op == "eq" then Ok(PyEquals(docValue, filterValue))
    else if op == "ne" then Ok(!PyEquals(docValue, filterValue))
    else if op == "gt" then Holds(PyCompare(docValue, filterValue), o => o == Greater)
    else if op == "gte" then Holds(PyCompare(docValue, filterValue), o => o != Less)
    else if op == "lt" then Holds(PyCompare(docValue, filterValue), o => o == Less)
    else if op == "lte" then Holds(PyCompare(docValue, filterValue), o => o != Greater)
    else if op == "contains" then
      (if filterValue.Str? then Ok(IsSubstring(filterValue.s, show(docValue))) else Err(TypeError))
    else if op == "in" then PyIn(docValue, filterValue)
    else if op == "not_in" then
      (match PyIn(docValue, filterValue) case Ok(b) => Ok(!b) case Err(e) => Err(e))
    else Ok(false)
  }

  /** `doc.get(field)`: a missing field reads as None. */
  function Get(doc: Doc, field: string): Value {
    if field in doc then doc[field] else Null
  }

  /** `_matches_filters`: filters run in order; the first False ends the walk, and an
      exception propagates. */
  function MatchesFilters(filters: seq<Filter>, doc: Doc, show: Value -> string): (r: Result<bool, PyError>)
    decreases |filters|
  {
    if |filters| == 0 then Ok(true)
    else match MatchesFilter(Get(doc, filters[0].field), filters[0].op, filters[0].value, show)
      case Err(e) => Err(e)
      case Ok(b) => if !b then Ok(false) else MatchesFilters(filters[1..], doc, show)
  }

  function FilterHolds(f: Filter, doc: Doc, show: Value -> string): Result<bool, PyError> {
    MatchesFilter(Get(doc, f.field), f.op, f.value, show)
  }

  /** A document matches exactly when every filter matches it, so an empty list matches
      everything; a False ends the walk before any later filter can raise. */
  lemma {:induction false} MatchesFiltersIsConjunction(filters: seq<Filter>, doc: Doc, show: Value -> string)
    ensures MatchesFilters(filters, doc, show) == Ok(true)
            <==> forall i :: 0 <= i < |filters| ==> FilterHolds(filters[i], doc, show) == Ok(true)
    ensures MatchesFilters(filters, doc, show) == Ok(false)
            <==> exists i :: 0 <= i < |filters| && FilterHolds(filters[i], doc, show) == Ok(false)
                   && forall j :: 0 <= j < i ==> FilterHolds(filters[j], doc, show) == Ok(true)
    decreases |filters|
  {
    if |filters| > 0 {
      var rest := filters[1..];
      var first := FilterHolds(filters[0], doc, show);
      assert MatchesFilters(filters, doc, show)
             == if first.Err? then Err(first.error) else if !first.value then Ok(false)
                else MatchesFilters(rest, doc, show);
      if first == Ok(true) {
        MatchesFiltersIsConjunction(rest, doc, show);
        assert forall i :: 0 < i < |filters| ==> filters[i] == rest[i - 1];
        if MatchesFilters(rest, doc, show) == Ok(false) {
          var i :| 0 <= i < |rest| && FilterHolds(rest[i], doc, show) == Ok(false)
                   && forall j :: 0 <= j < i ==> FilterHolds(rest[j], doc, show) == Ok(true);
          assert FilterHolds(filters[i + 1], doc, show) == Ok(false);
        }
      }
    }
  }

  /** A missing field and a null field are indistinguishable to the matcher. */
  lemma {:induction false} MissingReadsAsNone(filters: seq<Filter>, doc: Doc, field: string, show: Value -> string)
    ensures MatchesFilters(filters, doc - {field}, show) == MatchesFilters(filters, doc[field := Null], show)
    decreases |filters|
  {
    if |filters| > 0 {
      assert Get(doc - {field}, filters[0].field) == Get(doc[field := Null], filters[0].field);
      MatchesFiltersIsConjunction(filters, doc, show);
      MissingReadsAsNone(filters[1..], doc, field, show);
    }
  }

  /** 'eq' is Python's `==`: reflexive and symmetric, and wherever the ordering
      operators do not raise it holds exactly when both 'gte' and 'lte' do. 'ne' is its
      negation. */
  lemma EqualityOperators(dv: Value, fv: Value, show: Value -> string)
    ensures MatchesFilter(dv, "eq", dv, show) == Ok(true)
    ensures MatchesFilter(dv, "eq", fv, show) == MatchesFilter(fv, "eq", dv, show)
    ensures MatchesFilter(dv, "ne", fv, show) == Ok(!MatchesFilter(dv, "eq", fv, show).value)
    ensures PyCompare(dv, fv).Ok? ==>
              (MatchesFilter(dv, "eq", fv, show).value
               <==> MatchesFilter(dv, "gte", fv, show).value && MatchesFilter(dv, "lte", fv, show).value)
  {
    PyEqualsReflexive(dv);
    if PyEquals(dv, fv) {
      PyEqualsSymmetric(dv, fv);
    }
    if PyEquals(fv, dv) {
      PyEqualsSymmetric(fv, dv);
    }
    if PyCompare(dv, fv).Ok? {
      PyCompareAgreesWithEquals(dv, fv);
    }
  }

  /** The four ordering operators read the comparison and nothing else. */
  lemma OrderingReadsCompare(dv: Value, fv: Value, show: Value -> string)
    ensures MatchesFilter(dv, "gt", fv, show) == Holds(PyCompare(dv, fv), o => o == Greater)
    ensures MatchesFilter(dv, "gte", fv, show) == Holds(PyCompare(dv, fv), o => o != Less)
    ensures MatchesFilter(dv, "lt", fv, show) == Holds(PyCompare(dv, fv), o => o == Less)
    ensures MatchesFilter(dv, "lte", fv, show) == Holds(PyCompare(dv, fv), o => o != Greater)
  {
  }

  /** The ordering operators by meaning: between two numbers (a boolean counts as 0
      or 1) they are `>`, `>=`, `<` and `<=` on the values; between two strings they
      follow dictionary order by code point; against None they raise TypeError. */
  lemma OrderingByValue(dv: Value, fv: Value, show: Value -> string)
    ensures PyModel.AsNumber(dv).Some? && PyModel.AsNumber(fv).Some? ==>
              var x, y := PyModel.AsNumber(dv).value, PyModel.AsNumber(fv).value;
              && MatchesFilter(dv, "gt", fv, show) == Ok(x > y)
              && MatchesFilter(dv, "gte", fv, show) == Ok(x >= y)
              && MatchesFilter(dv, "lt", fv, show) == Ok(x < y)
              && MatchesFilter(dv, "lte", fv, show) == Ok(x <= y)
    ensures dv.Str? && fv.Str? ==>
              && MatchesFilter(dv, "gt", fv, show) == Ok(TextBefore(fv.s, dv.s))
              && MatchesFilter(dv, "gte", fv, show) == Ok(!TextBefore(dv.s, fv.s))
              && MatchesFilter(dv, "lt", fv, show) == Ok(TextBefore(dv.s, fv.s))
              && MatchesFilter(dv, "lte", fv, show) == Ok(!TextBefore(fv.s, dv.s))
    ensures dv.Null? || fv.Null? ==>
              && MatchesFilter(dv, "gt", fv, show) == Err(TypeError)
              && MatchesFilter(dv, "gte", fv, show) == Err(TypeError)
              && MatchesFilter(dv, "lt", fv, show) == Err(TypeError)
              && MatchesFilter(dv, "lte", fv, show) == Err(TypeError)
  {
    if dv.Str? && fv.Str? {
      StringsLessIff(dv.s, fv.s);
      StringsLessIff(fv.s, dv.s);
      StringsAntisymmetric(dv.s, fv.s);
    }
  }

  /** The ordering operators raise exactly when the values cannot be compared, so a
      None document value always raises; 'gte' is 'gt' or '=='. */
  lemma OrderingOperators(dv: Value, fv: Value, show: Value -> string)
    ensures MatchesFilter(dv, "gt", fv, show).Err? <==> PyCompare(dv, fv).Err?
    ensures PyCompare(dv, fv).Ok? ==>
              MatchesFilter(dv, "gte", fv, show).value
              == (MatchesFilter(dv, "gt", fv, show).value || PyEquals(dv, fv))
    ensures dv.Null? ==> MatchesFilter(dv, "lt", fv, show).Err?
  {
    OrderingReadsCompare(dv, fv, show);
    if PyCompare(dv, fv).Ok? {
      PyCompareAgreesWithEquals(dv, fv);
    }
  }

  /** 'gt' reads the same pair backwards as 'lt', and 'gte' as 'lte'. */
  lemma OrderingConverse(dv: Value, fv: Value, show: Value -> string)
    ensures MatchesFilter(dv, "gt", fv, show) == MatchesFilter(fv, "lt", dv, show)
    ensures MatchesFilter(dv, "gte", fv, show) == MatchesFilter(fv, "lte", dv, show)
  {
    OrderingReadsCompare(dv, fv, show);
    OrderingReadsCompare(fv, dv, show);
    PyCompareAntisymmetric(dv, fv);
    if PyCompare(dv, fv).Ok? {
      var o := PyCompare(dv, fv).value;
      assert PyCompare(fv, dv) == Ok(o.Reverse());
      assert MatchesFilter(dv, "gt", fv, show) == Ok(o == Greater);
      assert MatchesFilter(fv, "lt", dv, show) == Ok(o.Reverse() == Less);
      assert (o == Greater) == (o.Reverse() == Less);
    } else {
      assert PyCompare(dv, fv).error.TypeError? && PyCompare(fv, dv).error.TypeError?;
    }
  }

  /** 'contains' is a substring test on the document value's text; a non-string filter
      value raises. */
  lemma ContainsOperator(dv: Value, fv: Value, show: Value -> string)
    ensures fv.Str? ==> MatchesFilter(dv, "contains", fv, show) == Ok(IsSubstring(fv.s, show(dv)))
    ensures !fv.Str? ==> MatchesFilter(dv, "contains", fv, show).Err?
    ensures fv == Str("") ==> MatchesFilter(dv, "contains", fv, show) == Ok(true)
  {
    if fv == Str("") {
      EmptyIsSubstring(show(dv));
    }
  }

  /** 'not_in' raises exactly when 'in' does and otherwise negates it. Against a list,
      'in' is 'eq' against some element and 'not_in' is 'ne' against every element;
      against a string, `x in t` is `t` 'contains' `x` (when `str(t)` is `t`). */
  lemma MembershipOperators(dv: Value, fv: Value, show: Value -> string)
    ensures MatchesFilter(dv, "not_in", fv, show).Err? <==> MatchesFilter(dv, "in", fv, show).Err?
    ensures MatchesFilter(dv, "in", fv, show).Ok? ==>
              MatchesFilter(dv, "not_in", fv, show).value == !MatchesFilter(dv, "in", fv, show).value
    ensures fv.Arr? ==> MatchesFilter(dv, "in", fv, show)
                        == Ok(exists i :: 0 <= i < |fv.items| && PyEquals(dv, fv.items[i]))
    ensures fv.Null? || fv.Int? || fv.Float? || fv.Bool? ==> MatchesFilter(dv, "in", fv, show).Err?
    ensures fv.Arr? ==> MatchesFilter(dv, "in", fv, show)
                        == Ok(exists i :: 0 <= i < |fv.items| && MatchesFilter(dv, "eq", fv.items[i], show) == Ok(true))
    ensures fv.Arr? ==> MatchesFilter(dv, "not_in", fv, show)
                        == Ok(forall i :: 0 <= i < |fv.items| ==> MatchesFilter(dv, "ne", fv.items[i], show) == Ok(true))
    ensures dv.Str? && fv.Str? && show(fv) == fv.s ==>
              MatchesFilter(dv, "in", fv, show) == MatchesFilter(fv, "contains", dv, show)
  {
  }

  // ---------------------------------------------------------------------------
  // exec and count
  // ---------------------------------------------------------------------------

  /** `_matches_filters` on one returned item: a dict is matched field by field; any
      other item raises AttributeError at the first `doc.get`, which is reached only
      when there is a filter. */
  function MatchesItem(filters: seq<Filter>, item: Value, show: Value -> string): Result<bool, PyError> {
    if item.Obj? then MatchesFilters(filters, item.fields, show)
    else if |filters| == 0 then Ok(true)
    else Err(AttributeError)
  }

  /** The list comprehension over `_matches_filters`: the first exception propagates. */
  function KeepMatching(items: seq<Value>, filters: seq<Filter>, show: Value -> string): (r: Result<seq<Value>, PyError>)
    ensures r.Ok? ==> |r.value| <= |items| && forall d :: d in r.value ==> d in items
    decreases |items|
  {
    if |items| == 0 then Ok([])
    else match MatchesItem(filters, items[0], show)
      case Err(e) => Err(e)
      case Ok(b) =>
        match KeepMatching(items[1..], filters, show)
        case Err(e) => Err(e)
        case Ok(rest) => Ok(if b then [items[0]] + rest else rest)
  }

  /** The comprehension raises exactly when the matcher raises on some item, and
      otherwise keeps the matching items in input order. */
  lemma {:induction false} KeepMatchingSpec(items: seq<Value>, filters: seq<Filter>, show: Value -> string)
    ensures KeepMatching(items, filters, show).Ok?
            <==> forall i :: 0 <= i < |items| ==> MatchesItem(filters, items[i], show).Ok?
    ensures KeepMatching(items, filters, show).Ok? ==>
              KeepMatching(items, filters, show).value == Keep(items, d => MatchesItem(filters, d, show) == Ok(true))
    decreases |items|
  {
    if |items| > 0 {
      KeepMatchingSpec(items[1..], filters, show);
      assert forall i :: 0 < i < |items| ==> items[i] == items[1..][i - 1];
    }
  }

  /** The sort key: `x.get(field, '')`, so only a missing field reads as ''. Only dicts
      reach it. */
  function SortKey(d: Value, field: string): Value {
    if d.Obj? && field in d.fields then d.fields[field] else Str("")
  }

  /** `<` on two keys of the same family; other pairs never meet in a sort that
      completes. */
  function KeyCompare(a: Value, b: Value): Ordering {
    if PyModel.AsNumber(a).Some? && PyModel.AsNumber(b).Some? then
      CompareReals(PyModel.AsNumber(a).value, PyModel.AsNumber(b).value)
    else if a.Str? && b.Str? then CompareStrings(a.s, b.s)
    else Equal
  }

  /** The comparator `list.sort` uses, with `reverse=True` reading it backwards. */
  function ByKey(field: string, descending: bool): (Value, Value) -> Ordering {
    var base := (x: Value, y: Value) => KeyCompare(SortKey(x, field), SortKey(y, field));
    if descending then Flip(base) else base
  }

  /** Every item is a dict, so the key function can read it. */
  predicate AllDicts(items: seq<Value>) {
    forall i :: 0 <= i < |items| ==> items[i].Obj?
  }

  /** The keys can be sorted without a TypeError: at most one document, or keys that
      are all numbers or all strings. */
  predicate Sortable(docs: seq<Value>, field: string) {
    || |docs| < 2
    || (forall i :: 0 <= i < |docs| ==> PyModel.AsNumber(SortKey(docs[i], field)).Some?)
    || (forall i :: 0 <= i < |docs| ==> SortKey(docs[i], field).Str?)
  }

  predicate SortRequested(q: QueryBuilder) {
    q.sortField.Some? && q.sortField.value != ""
  }

  /** The client-side part of `exec` on the `documents` the server returned: filter
      when there are filters, then sort when a (non-empty) sort field is set. The sort
      computes every key before it compares any, so an item that is not a dict raises
      AttributeError before a TypeError can. Skip and limit are left to the server. */
  function Exec(q: QueryBuilder, documents: seq<Value>, show: Value -> string): (r: Result<seq<Value>, PyError>)
    ensures r.Ok? ==> |r.value| <= |documents|
    ensures |q.filters| == 0 && !SortRequested(q) ==> r == Ok(documents)
  {
    var filtered := if |q.filters| > 0 then KeepMatching(documents, q.filters, show) else Ok(documents);
    match filtered
    case Err(e) => Err(e)
    case Ok(docs) =>
      if !SortRequested(q) then Ok(docs)
      else if !AllDicts(docs) then Err(AttributeError)
      else if !Sortable(docs, q.sortField.value) then Err(TypeError)
      else
        var sorted := Sort(docs, ByKey(q.sortField.value, q.sortOrder == "desc"));
        assert |multiset(sorted)| == |multiset(docs)|;
        Ok(sorted)
  }

  /** `count`: the length of `exec`. */
  function Count(q: QueryBuilder, documents: seq<Value>, show: Value -> string): (r: Result<nat, PyError>)
    ensures r.Ok? <==> Exec(q, documents, show).Ok?
    ensures r.Ok? ==> r.value == |Exec(q, documents, show).value|
  {
    match Exec(q, documents, show)
    case Ok(docs) => Ok(|docs|)
    case Err(e) => Err(e)
  }

  lemma KeyCompareReflexive(k: Value)
    ensures KeyCompare(k, k) == Equal
  {
    if k.Str? {
      StringsEqualIff(k.s, k.s);
    }
  }

  ghost function Members(docs: seq<Value>): set<Value> {
    set d | d in docs
  }

  /** On sortable keys the sort comparator is a total preorder. */
  lemma ByKeyPreorder(docs: seq<Value>, field: string, descending: bool)
    requires Sortable(docs, field)
    ensures TotalPreorder(ByKey(field, descending), Members(docs))
    ensures Within(docs, Members(docs))
  {
    var base := (x: Value, y: Value) => KeyCompare(SortKey(x, field), SortKey(y, field));
    var dom := Members(docs);
    forall a, b | a in dom && b in dom ensures base(a, b) == base(b, a).Reverse() {
      var ka, kb := SortKey(a, field), SortKey(b, field);
      if PyModel.AsNumber(ka).Some? && PyModel.AsNumber(kb).Some? {
        RealsAntisymmetric(PyModel.AsNumber(ka).value, PyModel.AsNumber(kb).value);
      } else if ka.Str? && kb.Str? {
        StringsAntisymmetric(ka.s, kb.s);
      }
    }
    forall a, b, c | a in dom && b in dom && c in dom && base(a, b) != Greater && base(b, c) != Greater
      ensures base(a, c) != Greater
    {
      var ka, kb, kc := SortKey(a, field), SortKey(b, field), SortKey(c, field);
      var i :| 0 <= i < |docs| && docs[i] == a;
      var j :| 0 <= j < |docs| && docs[j] == b;
      var k :| 0 <= k < |docs| && docs[k] == c;
      if |docs| < 2 {
        KeyCompareReflexive(ka);
      } else if ka.Str? && kb.Str? && kc.Str? {
        StringsTransitive(ka.s, kb.s, kc.s);
      }
    }
    assert TotalPreorder(base, dom);
    if descending {
      FlipPreorder(base, dom);
    }
  }

  /** The items `exec` keeps before sorting. */
  function Kept(q: QueryBuilder, documents: seq<Value>, show: Value -> string): seq<Value> {
    if |q.filters| > 0 then Keep(documents, d => MatchesItem(q.filters, d, show) == Ok(true)) else documents
  }

  /** A successful `exec` returns exactly the items that match every filter: a
      permutation of them that is ordered by the key when a sort is requested (and
      ordered backwards for 'desc'), with documents tying on the key left in their
      input order. Once a filter or a sort had to read them, every returned item is a
      dict. */
  lemma ExecSpec(q: QueryBuilder, documents: seq<Value>, show: Value -> string)
    requires Exec(q, documents, show).Ok?
    ensures var kept := Kept(q, documents, show);
            && multiset(Exec(q, documents, show).value) == multiset(kept)
            && (SortRequested(q) ==>
                  var cmp := ByKey(q.sortField.value, q.sortOrder == "desc");
                  && SortedBy(Exec(q, documents, show).value, cmp)
                  && forall k :: k in kept ==> Ties(Exec(q, documents, show).value, k, cmp) == Ties(kept, k, cmp))
    ensures forall d :: d in Exec(q, documents, show).value ==>
              d in documents && MatchesItem(q.filters, d, show) == Ok(true)
    ensures |q.filters| > 0 || SortRequested(q) ==> AllDicts(Exec(q, documents, show).value)
  {
    var kept := Kept(q, documents, show);
    if |q.filters| > 0 {
      KeepMatchingSpec(documents, q.filters, show);
    } else {
      forall d | d in documents ensures MatchesItem(q.filters, d, show) == Ok(true) { }
    }
    var r := Exec(q, documents, show).value;
    if SortRequested(q) {
      var cmp := ByKey(q.sortField.value, q.sortOrder == "desc");
      ByKeyPreorder(kept, q.sortField.value, q.sortOrder == "desc");
      SortSorted(kept, cmp, Members(kept));
      forall k | k in kept ensures Ties(r, k, cmp) == Ties(kept, k, cmp) {
        SortStable(kept, k, cmp, Members(kept));
      }
    }
    forall d | d in r ensures d in documents && MatchesItem(q.filters, d, show) == Ok(true) && (|q.filters| > 0 || SortRequested(q) ==> d.Obj?) {
      assert d in multiset(r);
      assert d in multiset(kept);
    }
  }

  /** An item that is not a dict makes `exec` raise as soon as a filter or the sort has
      to read a field from it; with neither, the server's items come back untouched. */
  lemma NonDictItems(q: QueryBuilder, documents: seq<Value>, show: Value -> string)
    ensures |q.filters| == 0 && !SortRequested(q) ==> Exec(q, documents, show) == Ok(documents)
    ensures (exists i :: 0 <= i < |documents| && !documents[i].Obj?) && (|q.filters| > 0 || SortRequested(q))
            ==> Exec(q, documents, show).Err?
  {
    if |q.filters| > 0 {
      KeepMatchingSpec(documents, q.filters, show);
    }
  }

  /** `Sortable` is what Python's `<` allows: on sortable keys any two items compare
      without raising, exactly as `KeyCompare` orders them; on unsortable keys that are
      not all lists, some two distinct items raise TypeError when compared. */
  lemma SortableIffComparable(docs: seq<Value>, field: string)
    ensures Sortable(docs, field) ==>
              forall i, j :: 0 <= i < |docs| && 0 <= j < |docs| && i != j ==>
                PyCompare(SortKey(docs[i], field), SortKey(docs[j], field))
                == Ok(KeyCompare(SortKey(docs[i], field), SortKey(docs[j], field)))
    ensures !Sortable(docs, field) && (exists k :: 0 <= k < |docs| && !SortKey(docs[k], field).Arr?) ==>
              exists i, j :: 0 <= i < |docs| && 0 <= j < |docs| && i != j
                && PyCompare(SortKey(docs[i], field), SortKey(docs[j], field)).Err?
  {
    if !Sortable(docs, field) && exists k :: 0 <= k < |docs| && !SortKey(docs[k], field).Arr? {
      var k :| 0 <= k < |docs| && !SortKey(docs[k], field).Arr?;
      var a :| 0 <= a < |docs| && PyModel.AsNumber(SortKey(docs[a], field)).None?;
      var b :| 0 <= b < |docs| && !SortKey(docs[b], field).Str?;
      var ka, kb := SortKey(docs[a], field), SortKey(docs[b], field);
      if ka.Str? {
        assert PyCompare(ka, kb).Err?;
      } else if ka.Arr? && kb.Arr? {
        assert PyCompare(ka, SortKey(docs[k], field)).Err?;
      } else if ka.Arr? {
        assert PyCompare(ka, kb).Err?;
      } else {
        var other := if a == 0 then 1 else 0;
        assert PyCompare(ka, SortKey(docs[other], field)).Err?;
      }
    }
  }

  /** Without filters and with a sort requested, `exec` raises exactly when an item is
      not a dict or the keys are not sortable. A successful sort compared its keys as
      Python's `<` does, and a TypeError stands for two items whose keys `<` cannot
      compare (unless every key is a list). */
  lemma SortRaisesIffUnsortable(q: QueryBuilder, documents: seq<Value>, show: Value -> string)
    requires |q.filters| == 0 && SortRequested(q)
    ensures Exec(q, documents, show).Err? <==> !AllDicts(documents) || !Sortable(documents, q.sortField.value)
    ensures Exec(q, documents, show) == Err(AttributeError) <==> !AllDicts(documents)
    ensures Exec(q, documents, show).Ok? ==>
              forall i, j :: 0 <= i < |documents| && 0 <= j < |documents| && i != j ==>
                PyCompare(SortKey(documents[i], q.sortField.value), SortKey(documents[j], q.sortField.value))
                == Ok(KeyCompare(SortKey(documents[i], q.sortField.value), SortKey(documents[j], q.sortField.value)))
    ensures Exec(q, documents, show) == Err(TypeError)
            && (exists k :: 0 <= k < |documents| && !SortKey(documents[k], q.sortField.value).Arr?) ==>
              exists i, j :: 0 <= i < |documents| && 0 <= j < |documents| && i != j
                && PyCompare(SortKey(documents[i], q.sortField.value), SortKey(documents[j], q.sortField.value)).Err?
  {
    SortableIffComparable(documents, q.sortField.value);
  }

  /** A successful `count` is the number of items matching every filter: never more
      than the server returned, and all of them when there are no filters. */
  lemma CountMatching(q: QueryBuilder, documents: seq<Value>, show: Value -> string)
    requires Count(q, documents, show).Ok?
    ensures Count(q, documents, show).value == |Kept(q, documents, show)|
    ensures Count(q, documents, show).value <= |documents|
    ensures |q.filters| == 0 ==> Count(q, documents, show).value == |documents|
  {
    ExecSpec(q, documents, show);
    var kept := Kept(q, documents, show);
    assert |multiset(Exec(q, documents, show).value)| == |multiset(kept)|;
  }
}
