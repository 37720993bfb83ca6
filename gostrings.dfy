/** The parts of Go's `strings` package that the playlist code relies on:
    `strings.Index`, `strings.Split` and, as the inverse of `Split`,
    `strings.Join`.  A Go string is a sequence of bytes; here each `char`
    stands for one byte, so lengths and positions are byte counts as in Go. */
module GoStrings {

  /** `pat` occurs in `s` starting at position `i`. */
  predicate OccursAt(s: string, pat: string, i: int) {
    0 <= i && i + |pat| <= |s| && s[i..i + |pat|] == pat
  }

  predicate Contains(s: string, pat: string) {
    exists i | 0 <= i <= |s| :: OccursAt(s, pat, i)
  }

  /** `p` is the position of the leftmost occurrence of `pat` in `s`. */
  predicate IsFirst(s: string, pat: string, p: int) {
    OccursAt(s, pat, p) && forall j :: 0 <= j < p ==> !OccursAt(s, pat, j)
  }

  /** An occurrence inside a prefix of `s` is an occurrence in `s`. */
  lemma OccursInPrefix(s: string, n: nat, pat: string, j: int)
    requires n <= |s| && OccursAt(s[..n], pat, j)
    ensures OccursAt(s, pat, j) && j + |pat| <= n
  {
  }

  /** The first occurrence of `pat` in `s` at or after position `i`. */
  function IndexFrom(s: string, pat: string, i: nat): (r: int)
    requires i <= |s|
    ensures r == -1 || i <= r <= |s| - |pat|
    ensures r == -1 <==> forall j :: i <= j ==> !OccursAt(s, pat, j)
    ensures r >= 0 ==> OccursAt(s, pat, r) && forall j :: i <= j < r ==> !OccursAt(s, pat, j)
    decreases |s| - i
  {
    if |s| - i < |pat| then
      -1
    else if s[i..i + |pat|] == pat then
      assert OccursAt(s, pat, i);
      i
    else
      IndexFrom(s, pat, i + 1)
  }

  /** `strings.Index(s, pat)`: the position of the first occurrence of `pat`
      in `s`, -1 when there is none, 0 for an empty `pat`. */
  function Index(s: string, pat: string): (r: int)
    ensures r == -1 || 0 <= r <= |s| - |pat|
    ensures r == -1 <==> !Contains(s, pat)
    ensures r >= 0 ==> IsFirst(s, pat, r)
  {
    IndexFrom(s, pat, 0)
  }

  /** The index of the first occurrence is the only position with that property. */
  lemma IndexOfFirst(s: string, pat: string, p: int)
    requires IsFirst(s, pat, p)
    ensures Index(s, pat) == p
  {
  }

  /** `strings.Join(parts, sep)`: the parts with `sep` between neighbours. */
  function Join(parts: seq<string>, sep: string): (r: string)
  {
    if |parts| == 0 then ""
    else if |parts| == 1 then parts[0]
    else parts[0] + sep + Join(parts[1..], sep)
  }

  /** `strings.Split(s, sep)` for a non-empty `sep`: the substrings of `s`
      between the successive leftmost non-overlapping occurrences of `sep`. */
  function Split(s: string, sep: string): (r: seq<string>)
    requires |sep| > 0
    ensures |r| >= 1
    ensures |r| == 1 <==> !Contains(s, sep)
    ensures forall i :: 0 <= i < |r| ==> !Contains(r[i], sep)
    ensures forall j :: 0 <= j < |r[0]| ==> !OccursAt(s, sep, j)
    ensures Join(r, sep) == s
    decreases |s|
  {
    var k := Index(s, sep);
    if k == -1 then
      [s]
    else
      var tail := Split(s[k + |sep|..], sep);
      SplitStep(s, sep, k);
      var r := [s[..k]] + tail;
      assert r[1..] == tail;
      assert forall i :: 1 <= i < |r| ==> r[i] == tail[i - 1];
      r
  }

  /** Cutting `s` at the first occurrence `k` of `sep`: the text before it
      holds no `sep`, and it is rebuilt by putting `sep` back. */
  lemma SplitStep(s: string, sep: string, k: int)
    requires |sep| > 0 && IsFirst(s, sep, k)
    ensures !Contains(s[..k], sep) && Contains(s, sep)
    ensures s == s[..k] + sep + s[k + |sep|..]
  {
    forall j | OccursAt(s[..k], sep, j) ensures false {
      OccursInPrefix(s, k, sep, j);
    }
  }
}
