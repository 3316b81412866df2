/**
 * Order-preserving selection from a sequence, and what it means for one
 * sequence to be an order-preserving subsequence of another.
 */
module Subsequence {

  /** `idx` lists, strictly increasing, the positions of `s` that `sub` was taken from. */
  ghost predicate Embeds<T>(idx: seq<int>, sub: seq<T>, s: seq<T>)
  {
    && |idx| == |sub|
    && (forall k :: 0 <= k < |idx| ==> 0 <= idx[k] < |s| && sub[k] == s[idx[k]])
    && (forall k, l :: 0 <= k < l < |idx| ==> idx[k] < idx[l])
  }

  /** `sub` is `s` with some elements dropped: nothing reordered, duplicated or invented. */
  ghost predicate IsSubsequence<T>(sub: seq<T>, s: seq<T>)
  {
    exists idx :: Embeds(idx, sub, s)
  }

  /**
   * The elements `s[i]` with `keep[i]`, in their original order. Defined on
   * the last element, as a loop that appends to an accumulator builds it.
   */
  function Select<T>(s: seq<T>, keep: seq<bool>): (r: seq<T>)
    requires |keep| == |s|
    ensures |r| <= |s|
    ensures forall x :: x in r ==> x in s
  {
    if s == [] then []
    else
      var n := |s| - 1;
      Select(s[..n], keep[..n]) + (if keep[n] then [s[n]] else [])
  }

  /** Selecting from a longer prefix only appends to the selection from the shorter one. */
  lemma SelectStep<T>(s: seq<T>, keep: seq<bool>, i: nat)
    requires |keep| == |s|
    requires i < |s|
    ensures Select(s[..i + 1], keep[..i + 1])
         == Select(s[..i], keep[..i]) + (if keep[i] then [s[i]] else [])
  {
    assert s[..i + 1][..i] == s[..i];
    assert keep[..i + 1][..i] == keep[..i];
  }

  /**
   * `Select` keeps exactly the positions whose flag is set, and keeps them in
   * order: the witness `idx` is the increasing list of kept positions.
   */
  lemma {:induction false} SelectEmbeds<T>(s: seq<T>, keep: seq<bool>) returns (idx: seq<int>)
    requires |keep| == |s|
    ensures Embeds(idx, Select(s, keep), s)
    ensures forall i :: 0 <= i < |s| ==> (keep[i] <==> i in idx)
  {
    if s == [] {
      idx := [];
    } else {
      var n := |s| - 1;
      var front := SelectEmbeds(s[..n], keep[..n]);
      var r := Select(s, keep);
      assert forall k :: 0 <= k < |front| ==> front[k] < n;
      if keep[n] {
        idx := front + [n];
        assert r == Select(s[..n], keep[..n]) + [s[n]];
      } else {
        idx := front;
        assert r == Select(s[..n], keep[..n]);
      }
      forall i | 0 <= i < |s|
        ensures keep[i] <==> i in idx
      {
        if i < n {
          assert keep[..n][i] == keep[i];
        }
      }
    }
  }

  /** A subsequence of a subsequence of `s` is a subsequence of `s`. */
  lemma EmbedsCompose<T>(inner: seq<int>, a: seq<T>, b: seq<T>, outer: seq<int>, c: seq<T>)
    returns (idx: seq<int>)
    requires Embeds(inner, a, b)
    requires Embeds(outer, b, c)
    ensures Embeds(idx, a, c)
  {
    idx := seq(|inner|, k requires 0 <= k < |inner| && 0 <= inner[k] < |outer| => outer[inner[k]]);
  }
}
