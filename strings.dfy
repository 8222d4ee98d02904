/**
 * The C string operations the core relies on, over `string` (a C string is
 * a NUL-free sequence of characters; its `strlen` is the sequence length).
 */
module Strings {
  import opened Wrappers

  /** `pat` occurs in `s` starting at index `i`. */
  predicate OccursAt(s: string, pat: string, i: nat) {
    i + |pat| <= |s| && s[i..i + |pat|] == pat
  }

  /** `*s == '/'` */
  predicate StartsWithSlash(s: string) {
    |s| > 0 && s[0] == '/'
  }

  /**
   * `strstr(s, pat)`, as the offset of the pointer it returns: the first
   * index at which `pat` occurs in `s`, or None (NULL) when it does not occur.
   */
  function Find(s: string, pat: string): (r: Option<nat>)
    ensures r.Some? ==> OccursAt(s, pat, r.value)
    ensures r.Some? ==> forall j :: 0 <= j < r.value ==> !OccursAt(s, pat, j)
    ensures r.None? <==> forall j :: 0 <= j <= |s| ==> !OccursAt(s, pat, j)
  {
    FindFrom(s, pat, 0)
  }

  /** The first occurrence of `pat` in `s` at an index no smaller than `i`. */
  function FindFrom(s: string, pat: string, i: nat): (r: Option<nat>)
    requires i <= |s|
    ensures r.Some? ==> i <= r.value && OccursAt(s, pat, r.value)
    ensures r.Some? ==> forall j :: i <= j < r.value ==> !OccursAt(s, pat, j)
    ensures r.None? <==> forall j :: i <= j <= |s| ==> !OccursAt(s, pat, j)
    decreases |s| - i
  {
    if OccursAt(s, pat, i) then Some(i)
    else if i == |s| then None
    else FindFrom(s, pat, i + 1)
  }

  /** `strstr(s, pat) == s` holds exactly when `pat` is a prefix of `s`. */
  lemma FoundAtStartIffPrefix(s: string, pat: string)
    ensures Find(s, pat) == Some(0) <==> pat <= s
  {
    if pat <= s {
      assert OccursAt(s, pat, 0);
    }
  }
}
