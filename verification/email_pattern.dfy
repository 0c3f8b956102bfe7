/**
 * The signup address check `^[a-zA-Z0-9._-]+@[a-zA-Z0-9.-]+\.[a-zA-Z]{2,4}$`:
 * a declarative reading of the pattern and a direct check that finds the
 * only places the `@` and the final `.` can be.
 */
module EmailPattern {
  import opened Wrappers

  predicate Letter(c: char) {
    'a' <= c <= 'z' || 'A' <= c <= 'Z'
  }

  predicate Digit(c: char) {
    '0' <= c <= '9'
  }

  /** `[a-zA-Z0-9._-]` */
  predicate LocalChar(c: char) {
    Letter(c) || Digit(c) || c == '.' || c == '_' || c == '-'
  }

  /** `[a-zA-Z0-9.-]` */
  predicate DomainChar(c: char) {
    Letter(c) || Digit(c) || c == '.' || c == '-'
  }

  /** `s` matches the pattern with its `@` at `a` and the `.` before the top-level domain at `b`. */
  predicate Shape(s: string, a: int, b: int) {
    && 0 < a && a + 1 < b && b + 3 <= |s| <= b + 5
    && s[a] == '@' && s[b] == '.'
    && (forall i :: 0 <= i < a ==> LocalChar(s[i]))
    && (forall i :: a < i < b ==> DomainChar(s[i]))
    && (forall i :: b < i < |s| ==> Letter(s[i]))
  }

  /** The regular expression, read declaratively: some split of `s` fits it. */
  ghost predicate Matches(s: string) {
    exists a, b :: Shape(s, a, b)
  }

  /** The first position of `c` in `s`. */
  function FirstIndex(s: string, c: char): (r: Option<nat>)
    ensures r.None? <==> c !in s
    ensures r.Some? ==> r.value < |s| && s[r.value] == c && forall i :: 0 <= i < r.value ==> s[i] != c
    decreases |s|
  {
    if |s| == 0 then None
    else if s[0] == c then Some(0)
    else
      match FirstIndex(s[1..], c)
      case None => None
      case Some(k) =>
        assert forall i :: 1 <= i < k + 1 ==> s[i] == s[1..][i - 1];
        Some(k + 1)
  }

  /** The last position of `c` in `s`. */
  function LastIndex(s: string, c: char): (r: Option<nat>)
    ensures r.None? <==> c !in s
    ensures r.Some? ==> r.value < |s| && s[r.value] == c && forall i :: r.value < i < |s| ==> s[i] != c
    decreases |s|
  {
    if |s| == 0 then None
    else if s[|s| - 1] == c then Some(|s| - 1)
    else
      match LastIndex(s[..|s| - 1], c)
      case None => None
      case Some(k) => Some(k)
  }

  /** `emailRegex.test(s)`, decided by checking the first `@` and the last `.`. */
  function ValidEmail(s: string): bool {
    match (FirstIndex(s, '@'), LastIndex(s, '.'))
    case (Some(a), Some(b)) => Shape(s, a, b)
    case _ => false
  }

  /** The check accepts exactly the strings the pattern matches. */
  lemma ValidEmailIffMatches(s: string)
    ensures ValidEmail(s) <==> Matches(s)
  {
    if Matches(s) {
      var a, b :| Shape(s, a, b);
      var fa := FirstIndex(s, '@');
      var lb := LastIndex(s, '.');
      assert s[a] == '@';
      assert fa.Some? && fa.value <= a;
      assert s[b] == '.';
      assert lb.Some? && lb.value >= b;
    }
  }
}
