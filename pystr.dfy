/**
 * The handful of Python `str` operations the reader threads apply to a
 * serial line: `strip()`, the `in` substring test, `split(sep)`,
 * `replace(old, new)` and, as their common reference, `sep.join(parts)`.
 * Strings are sequences of code points, as in Python 3.
 */
module PyStr {
  import opened Wrappers

  /** The characters for which Python's `str.isspace()` holds; `strip()` with no argument removes exactly these. */
  predicate IsSpace(c: char) {
    ('\t' <= c <= '\r') || ('\U{1C}' <= c <= '\U{1F}') || c == ' ' || c == '\U{85}' || c == '\U{A0}'
    || c == '\U{1680}' || ('\U{2000}' <= c <= '\U{200A}') || c == '\U{2028}' || c == '\U{2029}'
    || c == '\U{202F}' || c == '\U{205F}' || c == '\U{3000}'
  }

  predicate AllSpace(s: string) {
    forall k :: 0 <= k < |s| ==> IsSpace(s[k])
  }

  /** Number of whitespace characters at the front of `s`. */
  function LeadingSpace(s: string): (n: nat)
    ensures n <= |s|
    ensures forall k :: 0 <= k < n ==> IsSpace(s[k])
    ensures n < |s| ==> !IsSpace(s[n])
  {
    if |s| > 0 && IsSpace(s[0]) then 1 + LeadingSpace(s[1..]) else 0
  }

  /** Number of whitespace characters at the end of `s`. */
  function TrailingSpace(s: string): (n: nat)
    ensures n <= |s|
    ensures forall k :: |s| - n <= k < |s| ==> IsSpace(s[k])
    ensures n < |s| ==> !IsSpace(s[|s| - n - 1])
  {
    if |s| > 0 && IsSpace(s[|s| - 1]) then 1 + TrailingSpace(s[..|s| - 1]) else 0
  }

  /** Python's `s.strip()`: `s` without its leading and trailing whitespace. */
  function Strip(s: string): (r: string)
    ensures |r| <= |s|
    ensures r == [] <==> AllSpace(s)
    ensures r != [] ==> !IsSpace(r[0]) && !IsSpace(r[|r| - 1])
    ensures |s| > 0 && !IsSpace(s[0]) && !IsSpace(s[|s| - 1]) ==> r == s
  {
    var i := LeadingSpace(s);
    if i == |s| then [] else s[i .. |s| - TrailingSpace(s[i..])]
  }

  /**
   * What `strip()` removes is whitespace only: the result is the slice of
   * `s` after its leading whitespace, and everything after it is whitespace.
   */
  lemma {:induction false} StripSlice(s: string)
    ensures LeadingSpace(s) + |Strip(s)| <= |s|
    ensures Strip(s) == s[LeadingSpace(s) .. LeadingSpace(s) + |Strip(s)|]
    ensures forall k :: LeadingSpace(s) + |Strip(s)| <= k < |s| ==> IsSpace(s[k])
  {
    var i := LeadingSpace(s);
    if i < |s| {
      TrailingSlice(s[i..], s, i);
    }
  }

  /** The trailing whitespace of a suffix `rest == s[i..]` lies at the end of `s`. */
  lemma {:induction false} TrailingSlice(rest: string, s: string, i: nat)
    requires i <= |s| && rest == s[i..]
    ensures forall k :: |s| - TrailingSpace(rest) <= k < |s| ==> IsSpace(s[k])
  {
    forall k | |s| - TrailingSpace(rest) <= k < |s| ensures IsSpace(s[k]) {
      assert s[k] == rest[k - i];
    }
  }

  /** `pat` occurs in `s` starting at index `i`. */
  predicate OccursAt(s: string, pat: string, i: nat) {
    i + |pat| <= |s| && s[i .. i + |pat|] == pat
  }

  /** Python's `pat in s`. */
  predicate Contains(s: string, pat: string) {
    exists i | 0 <= i <= |s| :: OccursAt(s, pat, i)
  }

  lemma {:induction false} OccursShift(s: string, pat: string, j: nat)
    requires |s| > 0 && j > 0
    ensures OccursAt(s, pat, j) <==> OccursAt(s[1..], pat, j - 1)
  {
    if j + |pat| <= |s| {
      assert s[1..][j - 1 .. j - 1 + |pat|] == s[j .. j + |pat|];
    }
  }

  /** Python's `s.find(pat)`, with `None` for -1: the first index at which `pat` occurs. */
  function IndexOf(s: string, pat: string): (r: Option<nat>)
    requires pat != []
    ensures r.Some? ==> OccursAt(s, pat, r.value)
    ensures r.Some? ==> forall j: nat :: j < r.value ==> !OccursAt(s, pat, j)
    ensures r.None? <==> !Contains(s, pat)
    decreases |s|
  {
    if |s| < |pat| then None
    else if s[..|pat|] == pat then Some(0)
    else
      var rest := IndexOf(s[1..], pat);
      assert !OccursAt(s, pat, 0);
      assert forall j: nat :: j > 0 ==> (OccursAt(s, pat, j) <==> OccursAt(s[1..], pat, j - 1)) by {
        forall j: nat | j > 0 ensures OccursAt(s, pat, j) <==> OccursAt(s[1..], pat, j - 1) {
          OccursShift(s, pat, j);
        }
      }
      match rest
      case None => None
      case Some(i) => Some(i + 1)
  }

  /** Python's `sep.join(parts)`. */
  function Join(parts: seq<string>, sep: string): string {
    if |parts| == 0 then ""
    else if |parts| == 1 then parts[0]
    else parts[0] + sep + Join(parts[1..], sep)
  }

  /** The text before the first occurrence of `sep` holds no `sep`, and `s` is that text, `sep` and the rest. */
  lemma {:induction false} BeforeFirst(s: string, sep: string, i: nat)
    requires sep != [] && OccursAt(s, sep, i)
    requires forall j: nat :: j < i ==> !OccursAt(s, sep, j)
    ensures !Contains(s[..i], sep)
    ensures s == s[..i] + sep + s[i + |sep|..]
  {
    var prefix := s[..i];
    forall j: nat | j + |sep| <= i ensures !OccursAt(prefix, sep, j) {
      assert !OccursAt(s, sep, j);
      assert prefix[j .. j + |sep|] == s[j .. j + |sep|];
    }
  }

  /**
   * Python's `s.split(sep)` for a non-empty separator: the pieces between the
   * occurrences of `sep`, found left to right. There is always at least one
   * piece, no piece contains `sep`, and joining the pieces with `sep` gives `s` back.
   */
  function Split(s: string, sep: string): (parts: seq<string>)
    requires sep != []
    ensures |parts| >= 1
    ensures !Contains(s, sep) ==> parts == [s]
    ensures Contains(s, sep) ==> |parts| >= 2 && parts[0] == s[..IndexOf(s, sep).value]
    ensures forall k :: 0 <= k < |parts| ==> !Contains(parts[k], sep)
    ensures Join(parts, sep) == s
    decreases |s|
  {
    match IndexOf(s, sep)
    case None => [s]
    case Some(i) =>
      var rest := Split(s[i + |sep|..], sep);
      BeforeFirst(s, sep, i);
      [s[..i]] + rest
  }

  /**
   * Python's `s.replace(target, replacement)` for a non-empty target: every
   * occurrence, found left to right, replaced. It agrees with splitting on
   * the target and joining with the replacement.
   */
  function Replace(s: string, target: string, replacement: string): (r: string)
    requires target != []
    ensures r == Join(Split(s, target), replacement)
    ensures !Contains(s, target) ==> r == s
    decreases |s|
  {
    match IndexOf(s, target)
    case None => s
    case Some(i) => s[..i] + replacement + Replace(s[i + |target|..], target, replacement)
  }
}
