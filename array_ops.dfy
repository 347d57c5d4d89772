/** The JavaScript array operations the client edits its lists with. */
module ArrayOps {

  /**
   * `copy.splice(i, 1)` on a copy of `s`, for a non-negative index: the element
   * at `i` is taken out, and an index past the end leaves the copy as it was.
   */
  function Splice<T>(s: seq<T>, i: nat): (r: seq<T>)
    ensures i < |s| ==> |r| == |s| - 1
    ensures i < |s| ==> forall k :: 0 <= k < i ==> r[k] == s[k]
    ensures i < |s| ==> forall k :: i <= k < |r| ==> r[k] == s[k + 1]
    ensures i >= |s| ==> r == s
  {
    if i < |s| then s[..i] + s[i + 1..] else s
  }

  /** Taking out the element just appended gives back the list it was appended to. */
  lemma SpliceAppended<T>(s: seq<T>, x: T)
    ensures Splice(s + [x], |s|) == s
  {
    assert (s + [x])[..|s|] == s;
  }
}
