/** String helpers shared by the matchers and validators. */
module Text {

  /** `t` occurs in `s` starting at index `i`. */
  predicate OccursAt(t: string, s: string, i: int) {
    0 <= i <= |s| - |t| && s[i..i + |t|] == t
  }

  /** `t` occurs in `s` at some index (Rust's `str::contains`, Python's `in` on strings). */
  predicate IsSubstring(t: string, s: string) {
    exists i | 0 <= i <= |s| - |t| :: OccursAt(t, s, i)
  }

  lemma EmptyIsSubstring(s: string)
    ensures IsSubstring("", s)
  {
    assert OccursAt("", s, 0);
  }

  /** A non-empty needle cannot occur in the empty string. */
  lemma NothingInEmpty(t: string)
    requires |t| > 0
    ensures !IsSubstring(t, "")
  {
  }

  /** The decimal digits of a natural number. */
  function NatText(n: nat): (r: string)
    ensures |r| > 0
    decreases n
  {
    var digit := "0123456789"[n % 10];
    if n < 10 then [digit] else NatText(n / 10) + [digit]
  }

  /** The decimal text of an integer, with a leading '-' when negative: how Go's `%v`
      and Python's `str` render integers. */
  function IntText(i: int): string {
    if i < 0 then "-" + NatText(-i) else NatText(i)
  }

  /** `sep.join(parts)`. */
  function Join(parts: seq<string>, sep: string): string
    decreases |parts|
  {
    if |parts| == 0 then ""
    else if |parts| == 1 then parts[0]
    else parts[0] + sep + Join(parts[1..], sep)
  }

  /** An occurrence survives prefixing: `t` at `i` in `s` is at `|p| + i` in `p + s`. */
  lemma OccursAfterPrefix(t: string, s: string, p: string, i: int)
    requires OccursAt(t, s, i)
    ensures OccursAt(t, p + s, |p| + i)
  {
    assert (p + s)[|p| + i..|p| + i + |t|] == s[i..i + |t|];
  }

  /** Every part occurs in the joined text. */
  lemma {:induction false} JoinContainsParts(parts: seq<string>, sep: string)
    ensures forall i :: 0 <= i < |parts| ==> IsSubstring(parts[i], Join(parts, sep))
    decreases |parts|
  {
    if |parts| == 1 {
      assert OccursAt(parts[0], Join(parts, sep), 0);
    } else if |parts| > 1 {
      var rest := Join(parts[1..], sep);
      var head := parts[0] + sep;
      assert Join(parts, sep) == parts[0] + (sep + rest);
      assert (parts[0] + (sep + rest))[0..|parts[0]|] == parts[0];
      assert OccursAt(parts[0], Join(parts, sep), 0);
      JoinContainsParts(parts[1..], sep);
      forall i | 1 <= i < |parts| ensures IsSubstring(parts[i], Join(parts, sep)) {
        assert IsSubstring(parts[1..][i - 1], rest);
        var k :| 0 <= k <= |rest| - |parts[i]| && OccursAt(parts[i], rest, k);
        OccursAfterPrefix(parts[i], rest, head, k);
        assert head + rest == Join(parts, sep);
      }
    }
  }
}
