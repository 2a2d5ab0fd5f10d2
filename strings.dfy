/** The few string operations of the platform that the file-type and separator decisions
    use: prefix and suffix tests, the last index of a character, and lower-casing. */
module Strings {

  predicate StartsWith(s: string, prefix: string) {
    |prefix| <= |s| && s[..|prefix|] == prefix
  }

  predicate EndsWith(s: string, suffix: string) {
    |suffix| <= |s| && s[|s| - |suffix|..] == suffix
  }

  /** lastIndexOf: the position of the last occurrence of `c`, or -1 when there is none. */
  function LastIndexOf(s: string, c: char): (r: int)
    ensures -1 <= r < |s|
    ensures r >= 0 ==> s[r] == c && c !in s[r + 1..]
    ensures r == -1 <==> c !in s
  {
    if s == [] then -1
    else if s[|s| - 1] == c then |s| - 1
    else
      var r := LastIndexOf(s[..|s| - 1], c);
      assert s == s[..|s| - 1] + [s[|s| - 1]];
      assert r >= 0 ==> s[r + 1..] == s[..|s| - 1][r + 1..] + [s[|s| - 1]];
      r
  }

  /** Lower-casing of one character; only the ASCII capitals change. */
  function LowerChar(c: char): char {
    if 'A' <= c <= 'Z' then (c as int + 32) as char else c
  }

  function ToLowerAscii(s: string): (r: string)
    ensures |r| == |s| && forall i :: 0 <= i < |s| ==> r[i] == LowerChar(s[i])
  {
    seq(|s|, i requires 0 <= i < |s| => LowerChar(s[i]))
  }

  /** Lower-casing twice is lower-casing once. */
  lemma LowerIdempotent(s: string)
    ensures ToLowerAscii(ToLowerAscii(s)) == ToLowerAscii(s)
  {
    assert forall i :: 0 <= i < |s| ==> LowerChar(LowerChar(s[i])) == LowerChar(s[i]);
  }

  /** Lower-casing leaves a text without capitals unchanged. */
  lemma LowerLower(s: string)
    requires forall i :: 0 <= i < |s| ==> !('A' <= s[i] <= 'Z')
    ensures ToLowerAscii(s) == s
  {
  }

  /** Lower-casing commutes with taking a suffix. */
  lemma LowerSuffix(s: string, k: nat)
    requires k <= |s|
    ensures ToLowerAscii(s)[k..] == ToLowerAscii(s[k..])
  {
  }

  /** Lower-casing moves no dot: the last '.' is found at the same position. */
  lemma {:induction false} LowerLastDot(s: string)
    ensures LastIndexOf(ToLowerAscii(s), '.') == LastIndexOf(s, '.')
    decreases |s|
  {
    if s != [] {
      var t := ToLowerAscii(s);
      assert t[|t| - 1] == LowerChar(s[|s| - 1]);
      if s[|s| - 1] != '.' {
        LowerLastDot(s[..|s| - 1]);
        assert t[..|t| - 1] == ToLowerAscii(s[..|s| - 1]);
      }
    }
  }
}
