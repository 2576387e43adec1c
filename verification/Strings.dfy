/** Strings: prefixes, the last component of a slash-separated name, trimming and joining. */
module Strings {

  predicate StartsWith(s: string, prefix: string) {
    prefix <= s
  }

  predicate EndsWith(s: string, suffix: string) {
    |suffix| <= |s| && s[|s| - |suffix|..] == suffix
  }

  /** Where the last component of a path starts. */
  function NameStart(path: string): (n: nat)
    ensures n <= |path|
    ensures n > 0 ==> path[n - 1] == '/'
    ensures forall i :: n <= i < |path| ==> path[i] != '/'
  {
    if path == [] then 0
    else if path[|path| - 1] == '/' then |path|
    else NameStart(path[..|path| - 1])
  }

  function Name(path: string): string {
    path[NameStart(path)..]
  }

  predicate IsSpace(c: char) {
    c in {' ', '\t', '\n', '\r'} || c == (11 as char) || c == (12 as char)
  }

  /** `str.strip()` on ASCII white space. */
  function Strip(s: string): (r: string)
    ensures r != "" ==> !IsSpace(r[0]) && !IsSpace(r[|r| - 1])
    decreases |s|
  {
    if s == "" then ""
    else if IsSpace(s[0]) then Strip(s[1..])
    else if IsSpace(s[|s| - 1]) then Strip(s[..|s| - 1])
    else s
  }

  /** Only white space is stripped, and all of it at both ends. */
  lemma {:induction false} StripExact(s: string) returns (i: nat, j: nat)
    ensures i <= j <= |s| && Strip(s) == s[i..j]
    ensures forall k | 0 <= k < |s| && !(i <= k < j) :: IsSpace(s[k])
    decreases |s|
  {
    i, j := 0, |s|;
    if s != "" && IsSpace(s[0]) {
      i, j := StripExact(s[1..]);
      assert s[1..][i..j] == s[i + 1..j + 1] && forall k | 0 < k < |s| :: s[k] == s[1..][k - 1];
      i, j := i + 1, j + 1;
    } else if s != "" && IsSpace(s[|s| - 1]) {
      i, j := StripExact(s[..|s| - 1]);
      assert s[..|s| - 1][i..j] == s[i..j] && forall k | 0 <= k < |s| - 1 :: s[k] == s[..|s| - 1][k];
    } else {
      assert s[..] == s;
    }
  }

  function Join(parts: seq<string>): string {
    if parts == [] then "" else Join(parts[..|parts| - 1]) + parts[|parts| - 1]
  }
}
