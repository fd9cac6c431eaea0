/**
 * The few java.lang.String operations the create operation relies on,
 * over Dafny strings (sequences of characters).
 */
module Strings {

  /** String.startsWith */
  predicate StartsWith(s: string, prefix: string) {
    |prefix| <= |s| && s[..|prefix|] == prefix
  }

  /** String.endsWith, compared from the last character backwards. */
  predicate EndsWith(s: string, suffix: string)
    decreases |suffix|
  {
    && |suffix| <= |s|
    && (|suffix| == 0
        || (s[|s| - 1] == suffix[|suffix| - 1] && EndsWith(s[..|s| - 1], suffix[..|suffix| - 1])))
  }

  /** EndsWith holds exactly when the last |suffix| characters of `s` are `suffix`. */
  lemma {:induction false} EndsWithTail(s: string, suffix: string)
    ensures EndsWith(s, suffix) <==> |suffix| <= |s| && s[|s| - |suffix|..] == suffix
    decreases |suffix|
  {
    if 0 < |suffix| <= |s| {
      var s', suffix' := s[..|s| - 1], suffix[..|suffix| - 1];
      EndsWithTail(s', suffix');
      assert s[|s| - |suffix|..] == s'[|s'| - |suffix'|..] + [s[|s| - 1]];
      assert suffix == suffix' + [suffix[|suffix| - 1]];
    }
  }

  /** String.lastIndexOf(char): the last position of `c` in `s`, or -1. */
  function LastIndexOf(s: string, c: char): (r: int)
    ensures -1 <= r < |s|
    ensures r >= 0 ==> s[r] == c
    ensures forall j :: r < j < |s| ==> s[j] != c
    decreases |s|
  {
    if |s| == 0 then -1
    else if s[|s| - 1] == c then |s| - 1
    else LastIndexOf(s[..|s| - 1], c)
  }

  /** String.indexOf(char, fromIndex): the first position at or after `from` holding `c`, or -1. */
  function IndexOf(s: string, c: char, from: nat): (r: int)
    requires from <= |s|
    ensures r == -1 || from <= r < |s|
    ensures r >= 0 ==> s[r] == c
    ensures forall j :: from <= j < |s| && (r < 0 || j < r) ==> s[j] != c
    decreases |s| - from
  {
    if from == |s| then -1
    else if s[from] == c then from
    else IndexOf(s, c, from + 1)
  }

  /** Two suffixes of one string: the shorter is a suffix of the longer. */
  lemma EndsWithBoth(s: string, a: string, b: string)
    requires EndsWith(s, a) && EndsWith(s, b) && |a| <= |b|
    ensures EndsWith(b, a)
  {
    EndsWithTail(s, a);
    EndsWithTail(s, b);
    EndsWithTail(b, a);
    assert b[|b| - |a|..] == s[|s| - |a|..];
  }
}
