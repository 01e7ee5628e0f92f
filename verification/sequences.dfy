/** Order-preserving filtering and a stable sort over sequences, with the facts every
    binding's query evaluator relies on: the filter keeps exactly the passing elements
    in order, and the sort is a permutation that is ordered and stable. */
module Sequences {
  import opened Orders

  /** The elements of `s` that satisfy `p`, in their original order (Rust's `retain`,
      a Python list comprehension with a condition, Go's append loop). */
  function Keep<T>(s: seq<T>, p: T -> bool): (r: seq<T>)
    ensures |r| <= |s|
    ensures forall x :: x in r ==> x in s && p(x)
    ensures forall i :: 0 <= i < |s| && p(s[i]) ==> s[i] in r
    decreases |s|
  {
    if |s| == 0 then []
    else if p(s[0]) then [s[0]] + Keep(s[1..], p)
    else Keep(s[1..], p)
  }

  /** Keeping distributes over concatenation, so filtering respects input order. */
  lemma {:induction false} KeepAppend<T>(a: seq<T>, b: seq<T>, p: T -> bool)
    ensures Keep(a + b, p) == Keep(a, p) + Keep(b, p)
    decreases |a|
  {
    if |a| == 0 {
      assert a + b == b;
    } else {
      assert (a + b)[0] == a[0];
      assert (a + b)[1..] == a[1..] + b;
      KeepAppend(a[1..], b, p);
    }
  }

  /** A predicate that holds everywhere keeps the whole sequence. */
  lemma {:induction false} KeepAll<T>(s: seq<T>, p: T -> bool)
    requires forall i :: 0 <= i < |s| ==> p(s[i])
    ensures Keep(s, p) == s
    decreases |s|
  {
    if |s| > 0 {
      KeepAll(s[1..], p);
    }
  }

  /** `cmp` is a total preorder on `dom`: it is antisymmetric and its "not Greater"
      relation is transitive. */
  ghost predicate TotalPreorder<T>(cmp: (T, T) -> Ordering, dom: set<T>) {
    && (forall a, b :: a in dom && b in dom ==> cmp(a, b) == cmp(b, a).Reverse())
    && (forall a, b, c :: a in dom && b in dom && c in dom && cmp(a, b) != Greater && cmp(b, c) != Greater
                          ==> cmp(a, c) != Greater)
  }

  ghost predicate Within<T>(s: seq<T>, dom: set<T>) {
    forall i :: 0 <= i < |s| ==> s[i] in dom
  }

  /** Every element is "not Greater" than every later one. */
  ghost predicate SortedBy<T>(s: seq<T>, cmp: (T, T) -> Ordering) {
    forall i, j :: 0 <= i < j < |s| ==> cmp(s[i], s[j]) != Greater
  }

  /** The comparator read backwards, as Rust's `cmp.reverse()` for a descending sort. */
  function Flip<T>(cmp: (T, T) -> Ordering): (T, T) -> Ordering {
    (a: T, b: T) => cmp(a, b).Reverse()
  }

  lemma FlipPreorder<T>(cmp: (T, T) -> Ordering, dom: set<T>)
    requires TotalPreorder(cmp, dom)
    ensures TotalPreorder(Flip(cmp), dom)
  {
    forall a, b, c | a in dom && b in dom && c in dom && Flip(cmp)(a, b) != Greater && Flip(cmp)(b, c) != Greater
      ensures Flip(cmp)(a, c) != Greater
    {
      assert cmp(c, b) != Greater && cmp(b, a) != Greater;
    }
  }

  /** Inserts `x` in front of the first element strictly greater than it, that is after
      every element it ties with. */
  function Insert<T>(x: T, s: seq<T>, cmp: (T, T) -> Ordering): (r: seq<T>)
    ensures multiset(r) == multiset(s) + multiset{x}
    decreases |s|
  {
    if |s| == 0 then [x]
    else if cmp(x, s[0]) == Less then [x] + s
    else
      assert s == [s[0]] + s[1..];
      [s[0]] + Insert(x, s[1..], cmp)
  }

  /** Stable insertion sort: elements are inserted in input order. */
  function Sort<T>(s: seq<T>, cmp: (T, T) -> Ordering): (r: seq<T>)
    ensures multiset(r) == multiset(s)
    decreases |s|
  {
    if |s| == 0 then []
    else
      assert s == s[..|s| - 1] + [s[|s| - 1]];
      Insert(s[|s| - 1], Sort(s[..|s| - 1], cmp), cmp)
  }

  lemma WithinByMultiset<T>(r: seq<T>, s: seq<T>, dom: set<T>)
    requires multiset(r) <= multiset(s) && Within(s, dom)
    ensures Within(r, dom)
  {
    forall i | 0 <= i < |r| ensures r[i] in dom {
      assert r[i] in multiset(r);
    }
  }

  lemma {:induction false} InsertSorted<T>(x: T, s: seq<T>, cmp: (T, T) -> Ordering, dom: set<T>)
    requires TotalPreorder(cmp, dom) && x in dom && Within(s, dom) && SortedBy(s, cmp)
    ensures SortedBy(Insert(x, s, cmp), cmp)
    decreases |s|
  {
    if |s| > 0 {
      if cmp(x, s[0]) == Less {
        InsertFrontSorted(x, s, cmp, dom);
      } else {
        TailSortedWithin(s, cmp, dom);
        InsertSorted(x, s[1..], cmp, dom);
        InsertBehindSorted(x, s, cmp, dom);
      }
    }
  }

  lemma InsertFrontSorted<T>(x: T, s: seq<T>, cmp: (T, T) -> Ordering, dom: set<T>)
    requires TotalPreorder(cmp, dom) && x in dom && Within(s, dom) && SortedBy(s, cmp)
    requires |s| > 0 && cmp(x, s[0]) == Less
    ensures SortedBy(Insert(x, s, cmp), cmp)
  {
    var r := Insert(x, s, cmp);
    assert r == [x] + s;
    forall i, j | 0 <= i < j < |r| ensures cmp(r[i], r[j]) != Greater {
      if i == 0 && j > 1 {
        assert r[j] == s[j - 1];
      }
    }
  }

  lemma InsertBehindSorted<T>(x: T, s: seq<T>, cmp: (T, T) -> Ordering, dom: set<T>)
    requires TotalPreorder(cmp, dom) && x in dom && Within(s, dom) && SortedBy(s, cmp)
    requires |s| > 0 && cmp(x, s[0]) != Less && SortedBy(Insert(x, s[1..], cmp), cmp)
    ensures SortedBy(Insert(x, s, cmp), cmp)
  {
    var t := Insert(x, s[1..], cmp);
    assert cmp(s[0], x) != Greater;
    forall j | 0 <= j < |t| ensures cmp(s[0], t[j]) != Greater {
      assert t[j] in multiset(t);
      if t[j] != x {
        var k :| 0 <= k < |s[1..]| && s[1..][k] == t[j];
      }
    }
    assert Insert(x, s, cmp) == [s[0]] + t;
  }

  lemma {:induction false} SortSorted<T>(s: seq<T>, cmp: (T, T) -> Ordering, dom: set<T>)
    requires TotalPreorder(cmp, dom) && Within(s, dom)
    ensures SortedBy(Sort(s, cmp), cmp)
    decreases |s|
  {
    if |s| > 0 {
      var init := s[..|s| - 1];
      SortSorted(init, cmp, dom);
      WithinByMultiset(Sort(init, cmp), init, dom);
      InsertSorted(s[|s| - 1], Sort(init, cmp), cmp, dom);
    }
  }

  /** The elements of `s` that tie with `k`, in order: one equivalence class of `cmp`. */
  function Ties<T>(s: seq<T>, k: T, cmp: (T, T) -> Ordering): seq<T>
    decreases |s|
  {
    if |s| == 0 then []
    else (if cmp(s[0], k) == Equal then [s[0]] else []) + Ties(s[1..], k, cmp)
  }

  lemma {:induction false} TiesAppend<T>(a: seq<T>, b: seq<T>, k: T, cmp: (T, T) -> Ordering)
    ensures Ties(a + b, k, cmp) == Ties(a, k, cmp) + Ties(b, k, cmp)
    decreases |a|
  {
    if |a| == 0 {
      assert a + b == b;
    } else {
      var head := if cmp(a[0], k) == Equal then [a[0]] else [];
      assert (a + b)[0] == a[0];
      assert (a + b)[1..] == a[1..] + b;
      calc {
        Ties(a + b, k, cmp);
        head + Ties(a[1..] + b, k, cmp);
        { TiesAppend(a[1..], b, k, cmp); }
        head + (Ties(a[1..], k, cmp) + Ties(b, k, cmp));
        (head + Ties(a[1..], k, cmp)) + Ties(b, k, cmp);
      }
    }
  }

  lemma {:induction false} NoTies<T>(s: seq<T>, k: T, cmp: (T, T) -> Ordering)
    requires forall i :: 0 <= i < |s| ==> cmp(s[i], k) != Equal
    ensures Ties(s, k, cmp) == []
    decreases |s|
  {
    if |s| > 0 {
      NoTies(s[1..], k, cmp);
    }
  }

  /** Strictly below then not above gives strictly below. */
  lemma LessThenLe<T>(a: T, b: T, c: T, cmp: (T, T) -> Ordering, dom: set<T>)
    requires TotalPreorder(cmp, dom) && a in dom && b in dom && c in dom
    requires cmp(a, b) == Less && cmp(b, c) != Greater
    ensures cmp(a, c) == Less
  {
  }

  /** An element strictly above a member of `k`'s class is not in that class. */
  lemma AboveTieIsNoTie<T>(a: T, y: T, k: T, cmp: (T, T) -> Ordering, dom: set<T>)
    requires TotalPreorder(cmp, dom) && a in dom && y in dom && k in dom
    requires cmp(a, y) == Less && cmp(a, k) == Equal
    ensures cmp(y, k) != Equal
  {
  }

  /** Inserting in front of the sorted `s`: when `x` ties with `k`, nothing in `s` does. */
  lemma InsertFrontTies<T>(x: T, s: seq<T>, k: T, cmp: (T, T) -> Ordering, dom: set<T>)
    requires TotalPreorder(cmp, dom) && x in dom && k in dom && Within(s, dom) && SortedBy(s, cmp)
    requires |s| > 0 && cmp(x, s[0]) == Less
    ensures Ties(Insert(x, s, cmp), k, cmp) == Ties(s, k, cmp) + (if cmp(x, k) == Equal then [x] else [])
  {
    assert Insert(x, s, cmp) == [x] + s;
    assert ([x] + s)[0] == x && ([x] + s)[1..] == s;
    if cmp(x, k) == Equal {
      forall i | 0 <= i < |s| ensures cmp(s[i], k) != Equal {
        if i > 0 {
          assert cmp(s[0], s[i]) != Greater;
          LessThenLe(x, s[0], s[i], cmp, dom);
        }
        AboveTieIsNoTie(x, s[i], k, cmp, dom);
      }
      NoTies(s, k, cmp);
    }
  }

  lemma TailSortedWithin<T>(s: seq<T>, cmp: (T, T) -> Ordering, dom: set<T>)
    requires |s| > 0 && Within(s, dom) && SortedBy(s, cmp)
    ensures Within(s[1..], dom) && SortedBy(s[1..], cmp)
  {
    assert forall i :: 0 <= i < |s| - 1 ==> s[1..][i] == s[i + 1];
  }

  lemma {:induction false} InsertTies<T>(x: T, s: seq<T>, k: T, cmp: (T, T) -> Ordering, dom: set<T>)
    requires TotalPreorder(cmp, dom) && x in dom && k in dom && Within(s, dom) && SortedBy(s, cmp)
    ensures Ties(Insert(x, s, cmp), k, cmp) == Ties(s, k, cmp) + (if cmp(x, k) == Equal then [x] else [])
    decreases |s|
  {
    if |s| == 0 {
      assert Insert(x, s, cmp) == [x];
      assert [x][1..] == [];
    } else if cmp(x, s[0]) == Less {
      InsertFrontTies(x, s, k, cmp, dom);
    } else {
      TailSortedWithin(s, cmp, dom);
      InsertTies(x, s[1..], k, cmp, dom);
      InsertTiesStep(x, s, k, cmp);
    }
  }

  /** One step of `InsertTies` past a head that stays in front. */
  lemma {:induction false} InsertTiesStep<T>(x: T, s: seq<T>, k: T, cmp: (T, T) -> Ordering)
    requires |s| > 0 && cmp(x, s[0]) != Less
    requires Ties(Insert(x, s[1..], cmp), k, cmp) == Ties(s[1..], k, cmp) + (if cmp(x, k) == Equal then [x] else [])
    ensures Ties(Insert(x, s, cmp), k, cmp) == Ties(s, k, cmp) + (if cmp(x, k) == Equal then [x] else [])
  {
    var rest := Insert(x, s[1..], cmp);
    var head := if cmp(s[0], k) == Equal then [s[0]] else [];
    var older := Ties(s[1..], k, cmp);
    var extra := if cmp(x, k) == Equal then [x] else [];
    var r := [s[0]] + rest;
    assert Insert(x, s, cmp) == r;
    assert r[0] == s[0] && r[1..] == rest;
    assert Ties(r, k, cmp) == head + (older + extra);
    assert Ties(s, k, cmp) == head + older;
    AppendRegroup(head, older, extra);
  }

  lemma AppendRegroup<T>(a: seq<T>, b: seq<T>, c: seq<T>)
    ensures a + (b + c) == (a + b) + c
  {
  }

  /** Stability: for every value `k`, the elements tying with `k` appear in the output
      in the same relative order as in the input. */
  lemma {:induction false} SortStable<T>(s: seq<T>, k: T, cmp: (T, T) -> Ordering, dom: set<T>)
    requires TotalPreorder(cmp, dom) && Within(s, dom) && k in dom
    ensures Ties(Sort(s, cmp), k, cmp) == Ties(s, k, cmp)
    decreases |s|
  {
    if |s| > 0 {
      var init, last := s[..|s| - 1], s[|s| - 1];
      var sortedInit := Sort(init, cmp);
      var lastTie := if cmp(last, k) == Equal then [last] else [];
      assert Within(init, dom) && last in dom;
      SortSorted(init, cmp, dom);
      WithinByMultiset(sortedInit, init, dom);
      calc {
        Ties(Sort(s, cmp), k, cmp);
        Ties(Insert(last, sortedInit, cmp), k, cmp);
        { InsertTies(last, sortedInit, k, cmp, dom); }
        Ties(sortedInit, k, cmp) + lastTie;
        { SortStable(init, k, cmp, dom); }
        Ties(init, k, cmp) + lastTie;
        { assert Ties([last], k, cmp) == lastTie + Ties([], k, cmp); }
        Ties(init, k, cmp) + Ties([last], k, cmp);
        { TiesAppend(init, [last], k, cmp); }
        Ties(init + [last], k, cmp);
        { assert s == init + [last]; }
        Ties(s, k, cmp);
      }
    }
  }

  /** An element no earlier element beats is inserted at the end. */
  lemma {:induction false} InsertAfterAll<T>(x: T, s: seq<T>, cmp: (T, T) -> Ordering)
    requires forall i :: 0 <= i < |s| ==> cmp(x, s[i]) != Less
    ensures Insert(x, s, cmp) == s + [x]
    decreases |s|
  {
    if |s| > 0 {
      InsertAfterAll(x, s[1..], cmp);
      assert [s[0]] + (s[1..] + [x]) == s + [x];
    }
  }

  lemma PrefixSorted<T>(s: seq<T>, cmp: (T, T) -> Ordering, dom: set<T>)
    requires Within(s, dom) && SortedBy(s, cmp) && |s| > 0
    ensures Within(s[..|s| - 1], dom) && SortedBy(s[..|s| - 1], cmp)
  {
  }

  /** In a sorted list no earlier element beats the last one. */
  lemma LastUnbeaten<T>(init: seq<T>, last: T, cmp: (T, T) -> Ordering, dom: set<T>)
    requires TotalPreorder(cmp, dom) && Within(init + [last], dom) && SortedBy(init + [last], cmp)
    ensures forall i :: 0 <= i < |init| ==> cmp(last, init[i]) != Less
  {
    var s := init + [last];
    forall i | 0 <= i < |init| ensures cmp(last, init[i]) != Less {
      assert s[i] == init[i] && s[|init|] == last;
      assert s[i] in dom && s[|init|] in dom;
      assert cmp(s[i], s[|init|]) != Greater;
    }
  }

  /** Sorting a list that is already in order changes nothing; in particular sorting
      is idempotent. */
  lemma {:induction false} SortKeepsSorted<T>(s: seq<T>, cmp: (T, T) -> Ordering, dom: set<T>)
    requires TotalPreorder(cmp, dom) && Within(s, dom) && SortedBy(s, cmp)
    ensures Sort(s, cmp) == s
    decreases |s|
  {
    if |s| > 0 {
      var init := s[..|s| - 1];
      var last := s[|s| - 1];
      PrefixSorted(s, cmp, dom);
      SortKeepsSorted(init, cmp, dom);
      assert init + [last] == s;
      LastUnbeaten(init, last, cmp, dom);
      InsertAfterAll(last, init, cmp);
    }
  }

  lemma SortIdempotent<T>(s: seq<T>, cmp: (T, T) -> Ordering, dom: set<T>)
    requires TotalPreorder(cmp, dom) && Within(s, dom)
    ensures Sort(Sort(s, cmp), cmp) == Sort(s, cmp)
  {
    SortSorted(s, cmp, dom);
    WithinByMultiset(Sort(s, cmp), s, dom);
    SortKeepsSorted(Sort(s, cmp), cmp, dom);
  }
}
