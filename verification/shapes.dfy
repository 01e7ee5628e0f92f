/** The email shape `^[^\s@]+@[^\s@]+\.[^\s@]+$` that the Go and Python validators use,
    over a whitespace class supplied by each regex engine. */
module Shapes {

  /** RE2's `\s` (Go's regexp): tab, newline, form feed, carriage return, space. */
  predicate GoSpace(c: char) {
    c == '\t' || c == '\n' || c == '\U{000C}' || c == '\r' || c == ' '
  }

  /** Python's `\s` on str patterns: the characters `str.isspace` accepts. */
  predicate PySpace(c: char) {
    || ('\U{0009}' <= c <= '\U{000D}')
    || ('\U{001C}' <= c <= '\U{0020}')
    || c == '\U{0085}' || c == '\U{00A0}' || c == '\U{1680}'
    || ('\U{2000}' <= c <= '\U{200A}')
    || c == '\U{2028}' || c == '\U{2029}' || c == '\U{202F}' || c == '\U{205F}' || c == '\U{3000}'
  }

  /** Every character matches `[^\s@]`. */
  predicate AllPlain(t: string, isSpace: char -> bool) {
    forall i | 0 <= i < |t| :: !isSpace(t[i]) && t[i] != '@'
  }

  /** `[^\s@]+\.[^\s@]+`: plain characters with a '.' that has text on both sides. */
  predicate DomainShape(d: string, isSpace: char -> bool) {
    AllPlain(d, isSpace) && exists dot | 0 < dot < |d| - 1 :: d[dot] == '.'
  }

  /** The whole pattern, anchored at both ends: a non-empty local part, one '@', and a
      domain as above. */
  predicate EmailShape(s: string, isSpace: char -> bool) {
    exists at | 0 < at < |s| :: s[at] == '@' && AllPlain(s[..at], isSpace) && DomainShape(s[at + 1..], isSpace)
  }

  /** The number of '@' characters in a string. */
  function AtCount(s: string): nat
    decreases |s|
  {
    if |s| == 0 then 0 else (if s[0] == '@' then 1 else 0) + AtCount(s[1..])
  }

  lemma {:induction false} AtCountAppend(a: string, b: string)
    ensures AtCount(a + b) == AtCount(a) + AtCount(b)
    decreases |a|
  {
    if |a| == 0 {
      assert a + b == b;
    } else {
      assert (a + b)[0] == a[0];
      assert (a + b)[1..] == a[1..] + b;
      AtCountAppend(a[1..], b);
    }
  }

  lemma {:induction false} NoAtInPlain(t: string, isSpace: char -> bool)
    requires AllPlain(t, isSpace)
    ensures AtCount(t) == 0
    decreases |t|
  {
    if |t| > 0 {
      NoAtInPlain(t[1..], isSpace);
    }
  }

  lemma OneAtBetween(s: string, at: int)
    requires 0 <= at < |s| && s[at] == '@' && AtCount(s[..at]) == 0 && AtCount(s[at + 1..]) == 0
    ensures AtCount(s) == 1
  {
    var mid := [s[at]] + s[at + 1..];
    assert s == s[..at] + mid;
    AtCountAppend(s[..at], mid);
    AtCountAppend([s[at]], s[at + 1..]);
  }

  /** An accepted address holds exactly one '@', no whitespace character of the class
      (which never contains '@'), and a non-empty local part before the '@'. */
  lemma EmailShapeFacts(s: string, isSpace: char -> bool)
    requires EmailShape(s, isSpace) && !isSpace('@')
    ensures AtCount(s) == 1
    ensures forall i :: 0 <= i < |s| ==> !isSpace(s[i])
    ensures s[0] != '@'
  {
    var at :| 0 < at < |s| && s[at] == '@' && AllPlain(s[..at], isSpace) && DomainShape(s[at + 1..], isSpace);
    NoAtInPlain(s[..at], isSpace);
    NoAtInPlain(s[at + 1..], isSpace);
    OneAtBetween(s, at);
    forall i | 0 <= i < |s| ensures !isSpace(s[i]) {
      if i < at {
        assert s[i] == s[..at][i];
      } else if i > at {
        assert s[i] == s[at + 1..][i - at - 1];
      }
    }
    assert s[0] == s[..at][0];
  }
}
