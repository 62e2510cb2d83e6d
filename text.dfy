/**
 * The JavaScript string operations the plugin uses on a size:
 * `String.prototype.includes` and `String.prototype.replace` with a
 * string pattern, which replaces only the first occurrence.
 */
module Text {
  import opened Wrappers

  /** `pat` occurs in `s` starting at index `i`. */
  ghost predicate OccursAt(s: string, pat: string, i: int) {
    0 <= i && i + |pat| <= |s| && s[i..i + |pat|] == pat
  }

  /** `String.prototype.indexOf`: the first index at which `pat` occurs, if any. */
  function IndexOf(s: string, pat: string): (r: Option<nat>)
    ensures r.Some? ==> OccursAt(s, pat, r.value)
    ensures r.Some? ==> forall j :: 0 <= j < r.value ==> !OccursAt(s, pat, j)
    ensures r.None? ==> forall j :: 0 <= j <= |s| ==> !OccursAt(s, pat, j)
    decreases |s|
  {
    if |s| < |pat| then None
    else if s[..|pat|] == pat then Some(0)
    else
      assert s[0..|pat|] == s[..|pat|];
      assert forall j :: 1 <= j <= |s| ==> (OccursAt(s, pat, j) <==> OccursAt(s[1..], pat, j - 1));
      match IndexOf(s[1..], pat)
      case None => None
      case Some(i) => Some(i + 1)
  }

  /** `s.includes(pat)`. */
  predicate Includes(s: string, pat: string) {
    IndexOf(s, pat).Some?
  }

  /** `s.replace(pat, rep)` for a string `pat`: only the first occurrence is replaced. */
  function ReplaceFirst(s: string, pat: string, rep: string): (r: string)
    ensures !Includes(s, pat) ==> r == s
    ensures Includes(s, pat) ==> |r| == |s| - |pat| + |rep|
  {
    match IndexOf(s, pat)
    case None => s
    case Some(i) => s[..i] + rep + s[i + |pat|..]
  }

  /**
   * Where `pat` occurs first, replacing it cuts the string exactly there:
   * the text before the occurrence, `rep`, then the text after it.
   */
  lemma ReplaceFirstAt(head: string, pat: string, tail: string, rep: string)
    requires forall j :: 0 <= j < |head| ==> !OccursAt(head + pat + tail, pat, j)
    ensures IndexOf(head + pat + tail, pat) == Some(|head|)
    ensures ReplaceFirst(head + pat + tail, pat, rep) == head + rep + tail
  {
    var s := head + pat + tail;
    assert OccursAt(s, pat, |head|) by {
      assert s[|head|..|head| + |pat|] == pat;
    }
    assert s[..|head|] == head && s[|head| + |pat|..] == tail;
  }
}
