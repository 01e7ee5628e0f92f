/** Three-way comparison results and the primitive orders the comparators are built from. */
module Orders {

  /** Rust's `std::cmp::Ordering`. */
  datatype Ordering = Less | Equal | Greater {

    /** `Ordering::reverse`: swaps Less and Greater, keeps Equal. */
    function Reverse(): Ordering {
      match this
      case Less => Greater
      case Equal => Equal
      case Greater => Less
    }
  }

  /** Numeric three-way comparison. */
  function CompareReals(a: real, b: real): Ordering {
    if a < b then Less else if a > b then Greater else Equal
  }

  /** Boolean three-way comparison, `false < true` as Rust's `bool::cmp`. */
  function CompareBools(a: bool, b: bool): Ordering {
    if a == b then Equal else if !a then Less else Greater
  }

  /** Lexicographic comparison by code point. Rust's `str::cmp`, Go's string `<`
      and Python's `str.__lt__` all order strings this way. */
  function CompareStrings(a: string, b: string): Ordering
    decreases |a|
  {
    if |a| == 0 then (if |b| == 0 then Equal else Less)
    else if |b| == 0 then Greater
    else if a[0] < b[0] then Less
    else if a[0] > b[0] then Greater
    else CompareStrings(a[1..], b[1..])
  }

  lemma RealsAntisymmetric(a: real, b: real)
    ensures CompareReals(a, b) == CompareReals(b, a).Reverse()
  {
  }

  lemma {:induction false} StringsAntisymmetric(a: string, b: string)
    ensures CompareStrings(a, b) == CompareStrings(b, a).Reverse()
    decreases |a|
  {
    if |a| > 0 && |b| > 0 && a[0] == b[0] {
      StringsAntisymmetric(a[1..], b[1..]);
    }
  }

  /** Strings compare Equal exactly when they are the same string. */
  lemma {:induction false} StringsEqualIff(a: string, b: string)
    ensures CompareStrings(a, b) == Equal <==> a == b
    decreases |a|
  {
    if |a| > 0 && |b| > 0 && a[0] == b[0] {
      StringsEqualIff(a[1..], b[1..]);
      assert a == [a[0]] + a[1..] && b == [b[0]] + b[1..];
    }
  }

  lemma {:induction false} StringsTransitive(a: string, b: string, c: string)
    requires CompareStrings(a, b) != Greater && CompareStrings(b, c) != Greater
    ensures CompareStrings(a, c) != Greater
    decreases |a|
  {
    if |a| > 0 && |b| > 0 && |c| > 0 && a[0] == b[0] && b[0] == c[0] {
      StringsTransitive(a[1..], b[1..], c[1..]);
    }
  }

  /** Dictionary order, stated directly: after a common prefix of length `k`, either `a`
      ends while `b` goes on, or both go on and `a`'s next character is the smaller. */
  predicate TextBefore(a: string, b: string) {
    exists k | 0 <= k <= |a| && k <= |b| ::
      && a[..k] == b[..k]
      && ((k == |a| && k < |b|) || (k < |a| && k < |b| && a[k] < b[k]))
  }

  /** Removing a common first character does not change dictionary order. */
  lemma TextBeforeTail(a: string, b: string)
    requires |a| > 0 && |b| > 0 && a[0] == b[0]
    ensures TextBefore(a, b) <==> TextBefore(a[1..], b[1..])
  {
    if TextBefore(a, b) {
      TextBeforeDropsHead(a, b);
    }
    if TextBefore(a[1..], b[1..]) {
      TextBeforeAddsHead(a, b);
    }
  }

  lemma TextBeforeDropsHead(a: string, b: string)
    requires |a| > 0 && |b| > 0 && a[0] == b[0] && TextBefore(a, b)
    ensures TextBefore(a[1..], b[1..])
  {
    var k :| 0 <= k <= |a| && k <= |b| && a[..k] == b[..k]
             && ((k == |a| && k < |b|) || (k < |a| && k < |b| && a[k] < b[k]));
    assert k > 0;
    var a', b' := a[1..], b[1..];
    assert a'[..k - 1] == a[..k][1..] && b'[..k - 1] == b[..k][1..];
    assert k == |a| || a'[k - 1] == a[k];
    assert k == |a| || b'[k - 1] == b[k];
    assert a'[..k - 1] == b'[..k - 1];
  }

  lemma TextBeforeAddsHead(a: string, b: string)
    requires |a| > 0 && |b| > 0 && a[0] == b[0] && TextBefore(a[1..], b[1..])
    ensures TextBefore(a, b)
  {
    var a', b' := a[1..], b[1..];
    var k :| 0 <= k <= |a'| && k <= |b'| && a'[..k] == b'[..k]
             && ((k == |a'| && k < |b'|) || (k < |a'| && k < |b'| && a'[k] < b'[k]));
    assert a[..k + 1] == [a[0]] + a'[..k] && b[..k + 1] == [b[0]] + b'[..k];
    assert k == |a'| || a[k + 1] == a'[k];
    assert k == |b'| || b[k + 1] == b'[k];
    assert a[..k + 1] == b[..k + 1];
  }

  /** `CompareStrings` answers Less exactly on dictionary order. */
  lemma {:induction false} StringsLessIff(a: string, b: string)
    ensures CompareStrings(a, b) == Less <==> TextBefore(a, b)
    decreases |a|
  {
    if |a| == 0 {
      if |b| > 0 {
        assert a[..0] == b[..0];
      }
    } else if |b| == 0 {
    } else if a[0] < b[0] {
      assert a[..0] == b[..0];
    } else if a[0] > b[0] {
    } else {
      StringsLessIff(a[1..], b[1..]);
      TextBeforeTail(a, b);
    }
  }
}
