/** The canonical in-memory query evaluator: `QueryBuilder` of the Rust crate
    (crates/torm/src/query.rs). Documents are serde_json values; the evaluator keeps the
    documents passing every filter, sorts them, skips, then truncates. */
module RustQuery {
  import opened Wrappers
  import opened Json
  import opened Orders
  import opened Text
  import Sequences

  /** The query operators, each carrying its operand. */
  datatype Query =
    | Eq(expected: Value)
    | Ne(expected: Value)
    | Gt(expected: Value)
    | Gte(expected: Value)
    | Lt(expected: Value)
    | Lte(expected: Value)
    | Contains(substr: string)
    | In(values: seq<Value>)
    | NotIn(values: seq<Value>)

  datatype SortOrder = Asc | Desc

  /** A query plan: AND-combined filters, an optional sort, optional skip and limit
      (`usize` in the source, so never negative). */
  datatype QueryBuilder = QueryBuilder(
    collection: string,
    filters: seq<(string, Query)>,
    sort: Option<(string, SortOrder)>,
    limit: Option<nat>,
    skip: Option<nat>)

  function New(collection: string): (q: QueryBuilder)
    ensures q.collection == collection && q.filters == []
    ensures q.sort == None && q.limit == None && q.skip == None
  {
    QueryBuilder(collection, [], None, None, None)
  }

  /** `filter` appends one condition and changes nothing else. */
  function Filter(q: QueryBuilder, field: string, query: Query): (r: QueryBuilder)
    ensures r.filters == q.filters + [(field, query)]
    ensures r.collection == q.collection && r.sort == q.sort && r.limit == q.limit && r.skip == q.skip
  {
    q.(filters := q.filters + [(field, query)])
  }

  /** `sort_by` replaces any earlier sort. */
  function SortBy(q: QueryBuilder, field: string, order: SortOrder): (r: QueryBuilder)
    ensures r.sort == Some((field, order))
    ensures r.collection == q.collection && r.filters == q.filters && r.limit == q.limit && r.skip == q.skip
  {
    q.(sort := Some((field, order)))
  }

  function Limit(q: QueryBuilder, n: nat): (r: QueryBuilder)
    ensures r.limit == Some(n)
    ensures r.collection == q.collection && r.filters == q.filters && r.sort == q.sort && r.skip == q.skip
  {
    q.(limit := Some(n))
  }

  function Skip(q: QueryBuilder, n: nat): (r: QueryBuilder)
    ensures r.skip == Some(n)
    ensures r.collection == q.collection && r.filters == q.filters && r.sort == q.sort && r.limit == q.limit
  {
    q.(skip := Some(n))
  }

  /** serde_json's `Value::get` with a string index: an object's member, None for a
      missing key and for every value that is not an object. */
  function Get(doc: Value, field: string): Option<Value> {
    if doc.Obj? && field in doc.fields then Some(doc.fields[field]) else None
  }

  /** `as_f64().or_else(|| as_i64() as f64)`: every JSON number reads as a number,
      every other value as None. */
  function AsNumber(v: Value): Option<real> {
    match v
    case Int(i) => Some(i as real)
    case Float(f) => Some(f)
    case _ => None
  }

  /** The numeric comparison the four ordering operators share: defined only when the
      field is present and both sides are numbers. */
  function NumericOrder(value: Option<Value>, expected: Value): Option<Ordering> {
    if value.Some? && AsNumber(value.value).Some? && AsNumber(expected).Some?
    then Some(CompareReals(AsNumber(value.value).value, AsNumber(expected).value))
    else None
  }

  /** `matches_filter`: one condition on one document. A missing field (or a document
      that is not an object) satisfies only Ne and NotIn. */
  function MatchesFilter(doc: Value, field: string, query: Query): (r: bool)
    ensures Get(doc, field).None? ==> (r <==> query.Ne? || query.NotIn?)
  {
    var value := Get(doc, field);
    match query
    case Eq(e) => value == Some(e)
    case Ne(e) => value != Some(e)
    case Gt(e) => NumericOrder(value, e) == Some(Greater)
    case Gte(e) => NumericOrder(value, e) == Some(Greater) || NumericOrder(value, e) == Some(Equal)
    case Lt(e) => NumericOrder(value, e) == Some(Less)
    case Lte(e) => NumericOrder(value, e) == Some(Less) || NumericOrder(value, e) == Some(Equal)
    case Contains(sub) => value.Some? && value.value.Str? && IsSubstring(sub, value.value.s)
    case In(vs) => value.Some? && value.value in vs
    case NotIn(vs) => value.None? || value.value !in vs
  }

  /** `matches_filters`: the loop that stops at the first failing condition. Its result
      is the conjunction of every condition, so no filters match everything. */
  function MatchesFilters(filters: seq<(string, Query)>, doc: Value): (r: bool)
    ensures r <==> forall i :: 0 <= i < |filters| ==> MatchesFilter(doc, filters[i].0, filters[i].1)
    decreases |filters|
  {
    if |filters| == 0 then true
    else if !MatchesFilter(doc, filters[0].0, filters[0].1) then false
    else MatchesFilters(filters[1..], doc)
  }

  /** `compare_json_values`: an absent field sorts first; two numbers compare
      numerically, two strings lexicographically, two booleans false-first; every
      other pair is Equal. */
  function CompareJsonValues(a: Option<Value>, b: Option<Value>): (r: Ordering)
    ensures a.None? && b.Some? ==> r == Less
    ensures a == b ==> r == Equal
    ensures a.Some? && b.Some? && a.value.Str? && b.value.Str? ==> (r == Equal <==> a == b)
  {
    match (a, b)
    case (None, None) => Equal
    case (None, Some(_)) => Less
    case (Some(_), None) => Greater
    case (Some(x), Some(y)) =>
      if AsNumber(x).Some? && AsNumber(y).Some? then CompareReals(AsNumber(x).value, AsNumber(y).value)
      else if x.Str? && y.Str? then StringsEqualIff(x.s, y.s); CompareStrings(x.s, y.s)
      else if x.Bool? && y.Bool? then CompareBools(x.b, y.b)
      else Equal
  }

  /** The sort comparator of `exec`: compare the field, reversed for Desc. */
  function SortComparator(field: string, order: SortOrder): (Value, Value) -> Ordering {
    var byField := (a: Value, b: Value) => CompareJsonValues(Get(a, field), Get(b, field));
    if order == Asc then byField else Sequences.Flip(byField)
  }

  /** The values that parse as documents, in key order: a key whose GET returned nothing
      or a value that is not JSON is dropped, and every readable value is kept. */
  function Documents(stored: seq<Option<Value>>): (r: seq<Value>)
    ensures |r| <= |stored|
    ensures |r| == |stored| <==> forall i :: 0 <= i < |stored| ==> stored[i].Some?
    ensures forall d :: d in r <==> Some(d) in stored
    decreases |stored|
  {
    if |stored| == 0 then []
    else
      var rest := Documents(stored[1..]);
      assert forall d :: Some(d) in stored <==> Some(d) == stored[0] || Some(d) in stored[1..];
      (if stored[0].Some? then [stored[0].value] else []) + rest
  }

  /** Reading keeps key order: the documents of two runs of keys are those of the
      first run followed by those of the second. */
  lemma {:induction false} DocumentsAppend(a: seq<Option<Value>>, b: seq<Option<Value>>)
    ensures Documents(a + b) == Documents(a) + Documents(b)
    decreases |a|
  {
    if |a| == 0 {
      assert a + b == b;
    } else {
      assert (a + b)[1..] == a[1..] + b;
      DocumentsAppend(a[1..], b);
    }
  }

  /** The documents passing every filter (`documents.retain`). */
  function Filtered(q: QueryBuilder, stored: seq<Option<Value>>): seq<Value> {
    Sequences.Keep(Documents(stored), (d: Value) => MatchesFilters(q.filters, d))
  }

  /** The filtered documents in result order, before pagination. */
  function Arranged(q: QueryBuilder, stored: seq<Option<Value>>): (r: seq<Value>)
    ensures multiset(r) == multiset(Filtered(q, stored))
  {
    var docs := Filtered(q, stored);
    if q.sort.Some? then Sequences.Sort(docs, SortComparator(q.sort.value.0, q.sort.value.1)) else docs
  }

  /** `into_iter().skip(n)`: drops the first `n` elements, all of them when `n` is
      too large. */
  function SkipFirst<T>(s: seq<T>, n: nat): (r: seq<T>)
    ensures |r| == if n <= |s| then |s| - n else 0
    ensures forall i :: 0 <= i < |r| ==> r[i] == s[n + i]
  {
    if n <= |s| then s[n..] else []
  }

  /** `truncate(n)`: keeps at most the first `n` elements. */
  function Truncate<T>(s: seq<T>, n: nat): (r: seq<T>)
    ensures |r| == if n <= |s| then n else |s|
    ensures r <= s
  {
    if n <= |s| then s[..n] else s
  }

  /** The skip offset actually applied to a list of length `n`. */
  function Start(skip: Option<nat>, n: nat): nat {
    if skip.Some? && skip.value <= n then skip.value else if skip.Some? then n else 0
  }

  /** `exec` without the store round trips: filter, sort, skip, then limit. The result
      is the window of the arranged list that starts at the skip offset and holds
      `min(limit, max(0, n - skip))` documents. */
  function Exec(q: QueryBuilder, stored: seq<Option<Value>>): (r: seq<Value>)
    ensures var arranged := Arranged(q, stored);
            var start := Start(q.skip, |arranged|);
            && |r| == (if q.limit.Some? && q.limit.value < |arranged| - start then q.limit.value else |arranged| - start)
            && r == arranged[start..start + |r|]
  {
    var arranged := Arranged(q, stored);
    var skipped := if q.skip.Some? then SkipFirst(arranged, q.skip.value) else arranged;
    if q.limit.Some? then Truncate(skipped, q.limit.value) else skipped
  }

  /** `count`: with no filters, the number of keys in the collection; otherwise the
      number of stored documents that pass every filter. Skip and limit are ignored. */
  function Count(q: QueryBuilder, stored: seq<Option<Value>>): (r: nat)
    ensures |Filtered(q, stored)| <= r <= |stored|
  {
    if |q.filters| == 0 then |stored| else |Filtered(q, stored)|
  }

  // ---------------------------------------------------------------------------
  // Properties of the matcher
  // ---------------------------------------------------------------------------

  /** Eq holds exactly when the field is present and structurally equal to the
      operand; Ne is its exact negation, so a missing field satisfies every Ne. Eq is
      In with a one-element list, Ne is NotIn with one, and on a numeric operand Eq
      implies both Gte and Lte (the converse fails: see `EqIsStructural`). */
  lemma EqualityOperators(doc: Value, field: string, e: Value)
    ensures MatchesFilter(doc, field, Eq(e)) <==> (doc.Obj? && field in doc.fields && doc.fields[field] == e)
    ensures MatchesFilter(doc, field, Ne(e)) <==> !MatchesFilter(doc, field, Eq(e))
    ensures Get(doc, field).None? ==> MatchesFilter(doc, field, Ne(e))
    ensures MatchesFilter(doc, field, Eq(e)) <==> MatchesFilter(doc, field, In([e]))
    ensures MatchesFilter(doc, field, Ne(e)) <==> MatchesFilter(doc, field, NotIn([e]))
    ensures AsNumber(e).Some? && MatchesFilter(doc, field, Eq(e)) ==>
              MatchesFilter(doc, field, Gte(e)) && MatchesFilter(doc, field, Lte(e))
  {
    if Get(doc, field).Some? && Get(doc, field).value == e {
      assert [e][0] == e;
    }
  }

  /** Eq is structural while the ordering filters are numeric: the integer 1 is not
      Eq to the float 1.0, yet it is both Gte and Lte it. */
  lemma EqIsStructural()
    ensures var doc := Obj(map["n" := Int(1)]);
            && !MatchesFilter(doc, "n", Eq(Float(1.0)))
            && MatchesFilter(doc, "n", Gte(Float(1.0)))
            && MatchesFilter(doc, "n", Lte(Float(1.0)))
  {
  }

  /** The four ordering operators never match a missing field or a non-numeric side;
      on two numbers they are the numeric relations, so Gt and Lte are complementary
      and so are Gte and Lt. */
  lemma OrderingOperators(doc: Value, field: string, e: Value)
    ensures (Get(doc, field).None? || AsNumber(Get(doc, field).value).None? || AsNumber(e).None?) ==>
              && !MatchesFilter(doc, field, Gt(e)) && !MatchesFilter(doc, field, Gte(e))
              && !MatchesFilter(doc, field, Lt(e)) && !MatchesFilter(doc, field, Lte(e))
    ensures Get(doc, field).Some? && AsNumber(Get(doc, field).value).Some? && AsNumber(e).Some? ==>
              var v, x := AsNumber(Get(doc, field).value).value, AsNumber(e).value;
              && (MatchesFilter(doc, field, Gt(e)) <==> v > x)
              && (MatchesFilter(doc, field, Gte(e)) <==> v >= x)
              && (MatchesFilter(doc, field, Lt(e)) <==> v < x)
              && (MatchesFilter(doc, field, Lte(e)) <==> v <= x)
              && (MatchesFilter(doc, field, Gt(e)) <==> !MatchesFilter(doc, field, Lte(e)))
              && (MatchesFilter(doc, field, Gte(e)) <==> !MatchesFilter(doc, field, Lt(e)))
  {
  }

  /** On numbers the ordering filters agree with the sort comparator; on two strings
      the comparator orders them while every ordering filter is false. */
  lemma FiltersAgreeWithComparatorOnNumbers(doc: Value, field: string, e: Value)
    requires Get(doc, field).Some?
    ensures AsNumber(Get(doc, field).value).Some? && AsNumber(e).Some? ==>
              (MatchesFilter(doc, field, Gt(e)) <==> CompareJsonValues(Get(doc, field), Some(e)) == Greater)
              && (MatchesFilter(doc, field, Lt(e)) <==> CompareJsonValues(Get(doc, field), Some(e)) == Less)
    ensures Get(doc, field).value.Str? && e.Str? && Get(doc, field).value != e ==>
              CompareJsonValues(Get(doc, field), Some(e)) != Equal
              && !MatchesFilter(doc, field, Gt(e)) && !MatchesFilter(doc, field, Lt(e))
  {
    if Get(doc, field).value.Str? && e.Str? {
      StringsEqualIff(Get(doc, field).value.s, e.s);
    }
  }

  /** Contains holds iff the field is a string having the operand as a substring; the
      empty operand matches every string field and nothing else. */
  lemma ContainsOperator(doc: Value, field: string, sub: string)
    ensures MatchesFilter(doc, field, Contains(sub)) <==>
              exists s :: Get(doc, field) == Some(Str(s)) && IsSubstring(sub, s)
    ensures MatchesFilter(doc, field, Contains("")) <==> (Get(doc, field).Some? && Get(doc, field).value.Str?)
  {
    if Get(doc, field).Some? && Get(doc, field).value.Str? {
      EmptyIsSubstring(Get(doc, field).value.s);
    }
  }

  /** In is false on a missing field; NotIn is true there and otherwise the exact
      negation of In. In is Eq against some listed value, and NotIn is Ne against
      every one of them. */
  lemma MembershipOperators(doc: Value, field: string, vs: seq<Value>)
    ensures Get(doc, field).None? ==> !MatchesFilter(doc, field, In(vs)) && MatchesFilter(doc, field, NotIn(vs))
    ensures Get(doc, field).Some? ==> (MatchesFilter(doc, field, NotIn(vs)) <==> !MatchesFilter(doc, field, In(vs)))
    ensures MatchesFilter(doc, field, In(vs)) <==> exists i :: 0 <= i < |vs| && Get(doc, field) == Some(vs[i])
    ensures MatchesFilter(doc, field, In(vs)) <==> exists i :: 0 <= i < |vs| && MatchesFilter(doc, field, Eq(vs[i]))
    ensures MatchesFilter(doc, field, NotIn(vs)) <==> forall i :: 0 <= i < |vs| ==> MatchesFilter(doc, field, Ne(vs[i]))
  {
  }

  // ---------------------------------------------------------------------------
  // Properties of the comparator
  // ---------------------------------------------------------------------------

  /** `compare(a, b) == compare(b, a).reverse()` for every pair. */
  lemma {:induction false} CompareAntisymmetric(a: Option<Value>, b: Option<Value>)
    ensures CompareJsonValues(a, b) == CompareJsonValues(b, a).Reverse()
  {
    if a.Some? && b.Some? && a.value.Str? && b.value.Str? {
      StringsAntisymmetric(a.value.s, b.value.s);
    }
  }

  /** The comparison family a present value falls in. */
  function Kind(v: Value): int {
    if AsNumber(v).Some? then 0 else if v.Str? then 1 else if v.Bool? then 2 else 3
  }

  /** Two optional keys that are both present belong to the same family. */
  predicate Comparable(a: Option<Value>, b: Option<Value>) {
    a.Some? && b.Some? ==> Kind(a.value) == Kind(b.value)
  }

  /** When the present keys share a family, the comparator's "not Greater" relation is
      transitive (absent keys sort before all of them). */
  lemma {:induction false} CompareTransitive(a: Option<Value>, b: Option<Value>, c: Option<Value>)
    requires Comparable(a, b) && Comparable(b, c) && Comparable(a, c)
    requires CompareJsonValues(a, b) != Greater && CompareJsonValues(b, c) != Greater
    ensures CompareJsonValues(a, c) != Greater
  {
    if a.Some? && b.Some? && c.Some? && a.value.Str? {
      StringsTransitive(a.value.s, b.value.s, c.value.s);
    }
  }

  /** Every document's sort key is absent or of one family. */
  ghost predicate SameKindKeys(docs: seq<Value>, field: string) {
    forall i, j :: 0 <= i < |docs| && 0 <= j < |docs| ==> Comparable(Get(docs[i], field), Get(docs[j], field))
  }

  ghost function Members(docs: seq<Value>): set<Value> {
    set d | d in docs
  }

  lemma ComparatorPreorder(docs: seq<Value>, field: string, order: SortOrder)
    requires SameKindKeys(docs, field)
    ensures Sequences.TotalPreorder(SortComparator(field, order), Members(docs))
    ensures Sequences.Within(docs, Members(docs))
  {
    var byField := (a: Value, b: Value) => CompareJsonValues(Get(a, field), Get(b, field));
    var dom := Members(docs);
    forall a, b | a in dom && b in dom ensures byField(a, b) == byField(b, a).Reverse() {
      CompareAntisymmetric(Get(a, field), Get(b, field));
    }
    forall a, b, c | a in dom && b in dom && c in dom && byField(a, b) != Greater && byField(b, c) != Greater
      ensures byField(a, c) != Greater
    {
      var i :| 0 <= i < |docs| && docs[i] == a;
      var j :| 0 <= j < |docs| && docs[j] == b;
      var k :| 0 <= k < |docs| && docs[k] == c;
      assert Comparable(Get(docs[i], field), Get(docs[j], field));
      assert Comparable(Get(docs[j], field), Get(docs[k], field));
      assert Comparable(Get(docs[i], field), Get(docs[k], field));
      CompareTransitive(Get(a, field), Get(b, field), Get(c, field));
    }
    assert Sequences.TotalPreorder(byField, dom);
    if order == Desc {
      Sequences.FlipPreorder(byField, dom);
    }
  }

  // ---------------------------------------------------------------------------
  // Properties of exec and count
  // ---------------------------------------------------------------------------

  /** Two lists with the same multiset hold the same members. */
  lemma SameMembers<T>(a: seq<T>, b: seq<T>)
    requires multiset(a) == multiset(b)
    ensures forall x :: x in a <==> x in b
    ensures |a| == |b|
  {
    forall x ensures x in a <==> x in b {
      assert x in a <==> x in multiset(a);
      assert x in b <==> x in multiset(b);
    }
    assert |multiset(a)| == |multiset(b)|;
  }

  /** A window of a list holds only members of the list. */
  lemma WindowMembers<T>(s: seq<T>, i: nat, j: nat)
    requires i <= j <= |s|
    ensures forall x :: x in s[i..j] ==> x in s
  {
    forall x | x in s[i..j] ensures x in s {
      var k :| 0 <= k < j - i && s[i..j][k] == x;
      assert s[i + k] == x;
    }
  }

  /** The arranged list holds exactly the stored documents that pass every filter. */
  lemma ArrangedMembers(q: QueryBuilder, stored: seq<Option<Value>>)
    ensures forall d :: d in Arranged(q, stored) <==> Some(d) in stored && MatchesFilters(q.filters, d)
    ensures |Arranged(q, stored)| <= |stored|
  {
    var docs := Documents(stored);
    var keep := (d: Value) => MatchesFilters(q.filters, d);
    var filtered := Filtered(q, stored);
    assert filtered == Sequences.Keep(docs, keep);
    SameMembers(Arranged(q, stored), filtered);
    forall d | Some(d) in stored && MatchesFilters(q.filters, d) ensures d in filtered {
      var i :| 0 <= i < |docs| && docs[i] == d;
      assert keep(docs[i]);
    }
  }

  /** Every returned document is a stored document that passes every filter, and the
      result never holds more than the limit nor more than the stored documents;
      without skip and limit, every stored document that passes is returned. */
  lemma ExecResultsMatch(q: QueryBuilder, stored: seq<Option<Value>>)
    ensures forall d :: d in Exec(q, stored) ==> Some(d) in stored && MatchesFilters(q.filters, d)
    ensures |Exec(q, stored)| <= |stored|
    ensures q.limit.Some? ==> |Exec(q, stored)| <= q.limit.value
    ensures q.skip == None && q.limit == None ==>
              forall d :: Some(d) in stored && MatchesFilters(q.filters, d) ==> d in Exec(q, stored)
  {
    var arranged := Arranged(q, stored);
    var r := Exec(q, stored);
    var start := Start(q.skip, |arranged|);
    ArrangedMembers(q, stored);
    WindowMembers(arranged, start, start + |r|);
    if q.skip == None && q.limit == None {
      assert r == arranged;
    }
  }

  /** Skip is applied before limit: skipping `k` then limiting to `m` returns the
      documents at positions `k .. k + m` of the arranged list. */
  lemma ExecWindow(q: QueryBuilder, stored: seq<Option<Value>>, k: nat, m: nat)
    requires q.skip == Some(k) && q.limit == Some(m) && k + m <= |Arranged(q, stored)|
    ensures Exec(q, stored) == Arranged(q, stored)[k..k + m]
  {
  }

  /** With a sort whose keys are all of one family, the arranged list is a permutation
      of the filtered documents, ordered by the comparator (descending reverses the
      comparator), and stable: documents tying on the key keep their input order.
      Every page of it is ordered too. */
  lemma ExecSortedAndStable(q: QueryBuilder, stored: seq<Option<Value>>)
    requires q.sort.Some? && SameKindKeys(Filtered(q, stored), q.sort.value.0)
    ensures var cmp := SortComparator(q.sort.value.0, q.sort.value.1);
            && multiset(Arranged(q, stored)) == multiset(Filtered(q, stored))
            && Sequences.SortedBy(Arranged(q, stored), cmp)
            && Sequences.SortedBy(Exec(q, stored), cmp)
            && forall k :: k in Filtered(q, stored) ==>
                 Sequences.Ties(Arranged(q, stored), k, cmp) == Sequences.Ties(Filtered(q, stored), k, cmp)
  {
    var docs := Filtered(q, stored);
    var cmp := SortComparator(q.sort.value.0, q.sort.value.1);
    ComparatorPreorder(docs, q.sort.value.0, q.sort.value.1);
    Sequences.SortSorted(docs, cmp, Members(docs));
    forall k | k in docs
      ensures Sequences.Ties(Arranged(q, stored), k, cmp) == Sequences.Ties(docs, k, cmp)
    {
      Sequences.SortStable(docs, k, cmp, Members(docs));
    }
  }

  /** With filters, `count` is the length of an unpaginated `exec`. Without filters it
      is the number of keys, which exceeds that length exactly when some key holds no
      parseable document. */
  lemma CountAgainstExec(q: QueryBuilder, stored: seq<Option<Value>>)
    requires q.skip == None && q.limit == None
    ensures |q.filters| > 0 ==> Count(q, stored) == |Exec(q, stored)|
    ensures |q.filters| == 0 ==> Count(q, stored) >= |Exec(q, stored)|
    ensures |q.filters| == 0 ==>
              (Count(q, stored) == |Exec(q, stored)| <==> forall i :: 0 <= i < |stored| ==> stored[i].Some?)
  {
    var docs := Documents(stored);
    assert |Arranged(q, stored)| == |Filtered(q, stored)| by {
      assert |multiset(Arranged(q, stored))| == |multiset(Filtered(q, stored))|;
    }
    if |q.filters| == 0 {
      var p := (d: Value) => MatchesFilters(q.filters, d);
      Sequences.KeepAll(docs, p);
    }
  }

  /** A sort over a list already in comparator order leaves it unchanged. */
  lemma ArrangedKeepsOrderedInput(q: QueryBuilder, stored: seq<Option<Value>>)
    requires q.sort.Some? && SameKindKeys(Filtered(q, stored), q.sort.value.0)
    requires Sequences.SortedBy(Filtered(q, stored), SortComparator(q.sort.value.0, q.sort.value.1))
    ensures Arranged(q, stored) == Filtered(q, stored)
  {
    var docs := Filtered(q, stored);
    ComparatorPreorder(docs, q.sort.value.0, q.sort.value.1);
    Sequences.SortKeepsSorted(docs, SortComparator(q.sort.value.0, q.sort.value.1), Members(docs));
  }

  /** Without filters every parsed document is kept. */
  lemma FilteredWithoutFilters(q: QueryBuilder, stored: seq<Option<Value>>)
    requires |q.filters| == 0
    ensures Filtered(q, stored) == Documents(stored)
  {
    Sequences.KeepAll(Documents(stored), (d: Value) => MatchesFilters(q.filters, d));
  }

  /** Keys that are all present and of one family satisfy SameKindKeys. */
  lemma OneKind(docs: seq<Value>, field: string, k: int)
    requires forall i :: 0 <= i < |docs| ==> Get(docs[i], field).Some? && Kind(Get(docs[i], field).value) == k
    ensures SameKindKeys(docs, field)
  {
  }

  // ---------------------------------------------------------------------------
  // Worked examples
  // ---------------------------------------------------------------------------

  lemma AgesOrdered(b: Value, a: Value, c: Value, x: int, y: int)
    requires Get(b, "age") == Some(Int(x)) && Get(a, "age") == Some(Int(x))
    requires Get(c, "age") == Some(Int(y)) && x < y
    ensures Sequences.SortedBy([b, a, c], SortComparator("age", Asc))
  {
    var cmp := SortComparator("age", Asc);
    assert cmp(b, a) == Equal && cmp(b, c) == Less && cmp(a, c) == Less;
  }

  lemma ThreeRead(b: Value, a: Value, c: Value)
    ensures Documents([Some(b), Some(a), Some(c)]) == [b, a, c]
  {
    var stored := [Some(b), Some(a), Some(c)];
    DocumentsAllRead(stored);
    assert forall i :: 0 <= i < 3 ==> Documents(stored)[i] == [b, a, c][i];
  }

  lemma AgesOneKind(b: Value, a: Value, c: Value, x: int, y: int)
    requires Get(b, "age") == Some(Int(x)) && Get(a, "age") == Some(Int(x)) && Get(c, "age") == Some(Int(y))
    ensures SameKindKeys([b, a, c], "age")
  {
    var docs := [b, a, c];
    forall i | 0 <= i < |docs| ensures Get(docs[i], "age").Some? && Kind(Get(docs[i], "age").value) == 0 {
      assert docs[i] == b || docs[i] == a || docs[i] == c;
    }
    OneKind(docs, "age", 0);
  }

  /** Three documents sorted by `age` ascending, the first two with equal ages and the
      third older, come back in input order: the tie keeps its order. */
  lemma StableSortExample(b: Value, a: Value, c: Value, x: int, y: int)
    requires Get(b, "age") == Some(Int(x)) && Get(a, "age") == Some(Int(x))
    requires Get(c, "age") == Some(Int(y)) && x < y
    ensures Exec(SortBy(New("users"), "age", Asc), [Some(b), Some(a), Some(c)]) == [b, a, c]
  {
    var q := SortBy(New("users"), "age", Asc);
    var stored := [Some(b), Some(a), Some(c)];
    var docs := [b, a, c];
    ThreeRead(b, a, c);
    AgesOneKind(b, a, c, x, y);
    AgesOrdered(b, a, c, x, y);
    OrderKept(q, stored, docs);
  }

  /** With no filters, documents already in comparator order are arranged unchanged. */
  lemma OrderKept(q: QueryBuilder, stored: seq<Option<Value>>, docs: seq<Value>)
    requires q.filters == [] && q.sort.Some?
    requires Documents(stored) == docs && SameKindKeys(docs, q.sort.value.0)
    requires Sequences.SortedBy(docs, SortComparator(q.sort.value.0, q.sort.value.1))
    ensures Arranged(q, stored) == docs
  {
    FilteredWithoutFilters(q, stored);
    ArrangedKeepsOrderedInput(q, stored);
  }

  /** When every key was read, the documents are the stored values, position by position. */
  lemma {:induction false} DocumentsAllRead(stored: seq<Option<Value>>)
    requires forall i :: 0 <= i < |stored| ==> stored[i].Some?
    ensures |Documents(stored)| == |stored|
    ensures forall i :: 0 <= i < |stored| ==> Documents(stored)[i] == stored[i].value
    decreases |stored|
  {
    if |stored| > 0 {
      DocumentsAllRead(stored[1..]);
      assert Documents(stored) == [stored[0].value] + Documents(stored[1..]);
    }
  }

  lemma {:induction false} DocumentsOfFour(docs: seq<Value>)
    requires |docs| == 4
    ensures Documents([Some(docs[0]), Some(docs[1]), Some(docs[2]), Some(docs[3])]) == docs
  {
    var stored := [Some(docs[0]), Some(docs[1]), Some(docs[2]), Some(docs[3])];
    DocumentsAllRead(stored);
    assert forall i :: 0 <= i < 4 ==> Documents(stored)[i] == docs[i];
  }

  /** Skip 1 then limit 2 on four documents already sorted by name ascending returns the
      second and the third. */
  lemma {:induction false} PaginationExample(docs: seq<Value>)
    requires |docs| == 4
    requires forall i :: 0 <= i < 4 ==> Get(docs[i], "name").Some? && Get(docs[i], "name").value.Str?
    requires Sequences.SortedBy(docs, SortComparator("name", Asc))
    ensures Exec(Limit(Skip(SortBy(New("users"), "name", Asc), 1), 2),
                 [Some(docs[0]), Some(docs[1]), Some(docs[2]), Some(docs[3])])
            == [docs[1], docs[2]]
  {
    DocumentsOfFour(docs);
    PageOfSorted([Some(docs[0]), Some(docs[1]), Some(docs[2]), Some(docs[3])], docs);
  }

  lemma {:induction false} PageOfSorted(stored: seq<Option<Value>>, docs: seq<Value>)
    requires |docs| == 4 && Documents(stored) == docs
    requires forall i :: 0 <= i < 4 ==> Get(docs[i], "name").Some? && Get(docs[i], "name").value.Str?
    requires Sequences.SortedBy(docs, SortComparator("name", Asc))
    ensures Exec(Limit(Skip(SortBy(New("users"), "name", Asc), 1), 2), stored) == [docs[1], docs[2]]
  {
    var q := Limit(Skip(SortBy(New("users"), "name", Asc), 1), 2);
    OneKind(docs, "name", 1);
    OrderKept(q, stored, docs);
    PageOfArranged(q, stored, docs);
  }

  lemma {:induction false} PageOfArranged(q: QueryBuilder, stored: seq<Option<Value>>, docs: seq<Value>)
    requires |docs| == 4 && Arranged(q, stored) == docs
    requires q.skip == Some(1) && q.limit == Some(2)
    ensures Exec(q, stored) == [docs[1], docs[2]]
  {
    ExecWindow(q, stored, 1, 2);
    MiddleTwo(docs);
  }

  lemma MiddleTwo<T>(s: seq<T>)
    requires |s| == 4
    ensures s[1..3] == [s[1], s[2]]
  {
  }

  /** The crate's builder test: two filters, a descending sort and a limit of 10 are
      all recorded. */
  lemma BuilderTestCase()
    ensures var q := Limit(SortBy(Filter(Filter(New("users"), "age", Gte(Int(18))), "active", Eq(Bool(true))),
                                  "created_at", Desc), 10);
            |q.filters| == 2 && q.sort.Some? && q.limit == Some(10) && q.skip == None
  {
  }
}
