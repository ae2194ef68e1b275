/** The two string queries of Rust's `str` that the commit-message patcher relies on,
    `starts_with` and `contains`, stated over characters.  Both are pattern searches
    for a literal string; an empty pattern matches every string. */
module RustStr {

  /** `s.starts_with(p)`: `p` is a prefix of `s`, character by character. */
  function StartsWith(s: string, p: string): (b: bool)
    ensures b <==> |p| <= |s| && forall i :: 0 <= i < |p| ==> s[i] == p[i]
  {
    |p| <= |s| && s[..|p|] == p
  }

  /** `p` occurs in `s` starting at offset `i`. */
  predicate OccursAt(s: string, p: string, i: int) {
    0 <= i <= |s| - |p| && s[i..i + |p|] == p
  }

  /** `s.contains(p)`: `p` occurs in `s` at some offset.  As in Rust, every string
      contains the empty pattern, no string contains a longer pattern, and a string
      contains each of its prefixes. */
  function Contains(s: string, p: string): (b: bool)
    ensures b ==> |p| <= |s|
    ensures |p| == 0 ==> b
    ensures StartsWith(s, p) ==> b
  {
    assert |p| == 0 || StartsWith(s, p) ==> OccursAt(s, p, 0);
    exists i :: 0 <= i <= |s| - |p| && OccursAt(s, p, i)
  }

  /** A string contains its own suffix; in particular `prefix + ticket` contains `ticket`. */
  lemma ContainsSuffix(a: string, b: string)
    ensures Contains(a + b, b)
  {
    assert OccursAt(a + b, b, |a|);
  }
}
