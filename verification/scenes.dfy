/**
 * The duration filter of the pipeline: scene boundaries, as (start, end)
 * times in seconds, are kept when they last at least a minimum duration.
 */
module Scenes {
  import opened Subsequence

  /** One scene boundary pair, already converted to seconds. */
  datatype Scene = Scene(start: real, end: real)
  {
    function Duration(): real
    {
      end - start
    }
  }

  /** Default minimum scene duration of the filter and of the pipeline, in seconds. */
  const DefaultMinDuration: real := 10.0

  /** Minimum scene duration the interactive entry point passes, in seconds. */
  const PromptMinDuration: real := 30.0

  /** The filter's test: the threshold is inclusive. */
  predicate LongEnough(s: Scene, minDuration: real)
  {
    s.Duration() >= minDuration
  }

  /**
   * The scenes that last at least `minDuration`, in input order. Defined on
   * the last scene, as the source's loop appends to its result list.
   */
  function FilterScenes(scenes: seq<Scene>, minDuration: real): (kept: seq<Scene>)
    ensures |kept| <= |scenes|
    ensures forall s :: s in kept <==> s in scenes && LongEnough(s, minDuration)
  {
    if scenes == [] then []
    else
      var n := |scenes| - 1;
      FilterScenes(scenes[..n], minDuration)
        + (if LongEnough(scenes[n], minDuration) then [scenes[n]] else [])
  }

  /** The per-position outcome of the filter's test. */
  function KeepMask(scenes: seq<Scene>, minDuration: real): seq<bool>
  {
    seq(|scenes|, i requires 0 <= i < |scenes| => LongEnough(scenes[i], minDuration))
  }

  /** Filtering is selection by the filter's test. */
  lemma {:induction false} FilterIsSelect(scenes: seq<Scene>, minDuration: real)
    ensures FilterScenes(scenes, minDuration) == Select(scenes, KeepMask(scenes, minDuration))
  {
    if scenes != [] {
      var n := |scenes| - 1;
      FilterIsSelect(scenes[..n], minDuration);
      assert KeepMask(scenes, minDuration)[..n] == KeepMask(scenes[..n], minDuration);
    }
  }

  /**
   * The filter returns an order-preserving subsequence of its input whose
   * positions are exactly those of the scenes lasting at least `minDuration`.
   */
  lemma FilterScenesOrder(scenes: seq<Scene>, minDuration: real) returns (idx: seq<int>)
    ensures Embeds(idx, FilterScenes(scenes, minDuration), scenes)
    ensures forall i :: 0 <= i < |scenes| ==> (i in idx <==> scenes[i].Duration() >= minDuration)
  {
    FilterIsSelect(scenes, minDuration);
    idx := SelectEmbeds(scenes, KeepMask(scenes, minDuration));
  }

  /** The filter's output is a subsequence of its input. */
  lemma FilterScenesSubsequence(scenes: seq<Scene>, minDuration: real)
    ensures IsSubsequence(FilterScenes(scenes, minDuration), scenes)
  {
    var idx := FilterScenesOrder(scenes, minDuration);
  }

  /** A scene lasting exactly the minimum duration is kept, at its place. */
  lemma FilterBoundaryInclusive(scenes: seq<Scene>, minDuration: real, i: int)
    requires 0 <= i < |scenes|
    requires scenes[i].Duration() == minDuration
    ensures exists k :: 0 <= k < |FilterScenes(scenes, minDuration)| && FilterScenes(scenes, minDuration)[k] == scenes[i]
  {
    var idx := FilterScenesOrder(scenes, minDuration);
    var k :| 0 <= k < |idx| && idx[k] == i;
    assert FilterScenes(scenes, minDuration)[k] == scenes[i];
  }

  /** With a non-positive minimum and well-formed pairs, every scene is kept. */
  lemma {:induction false} FilterKeepsAll(scenes: seq<Scene>, minDuration: real)
    requires minDuration <= 0.0
    requires forall i :: 0 <= i < |scenes| ==> scenes[i].start <= scenes[i].end
    ensures FilterScenes(scenes, minDuration) == scenes
    ensures |FilterScenes(scenes, minDuration)| == |scenes|
  {
    if scenes != [] {
      var n := |scenes| - 1;
      FilterKeepsAll(scenes[..n], minDuration);
      assert scenes[..n] + [scenes[n]] == scenes;
    }
  }

  /**
   * Filtering an already filtered list with a threshold at least as high is
   * the same as filtering the original with that threshold.
   */
  lemma {:induction false} FilterCompose(scenes: seq<Scene>, lower: real, higher: real)
    requires lower <= higher
    ensures FilterScenes(FilterScenes(scenes, lower), higher) == FilterScenes(scenes, higher)
  {
    if scenes != [] {
      var n := |scenes| - 1;
      FilterCompose(scenes[..n], lower, higher);
      FilterAppend(FilterScenes(scenes[..n], lower),
                   if LongEnough(scenes[n], lower) then [scenes[n]] else [], higher);
    }
  }

  /** Filtering is idempotent. */
  lemma FilterIdempotent(scenes: seq<Scene>, minDuration: real)
    ensures FilterScenes(FilterScenes(scenes, minDuration), minDuration) == FilterScenes(scenes, minDuration)
  {
    FilterCompose(scenes, minDuration, minDuration);
  }

  /** Filtering a concatenation filters each part. */
  lemma {:induction false} FilterAppend(a: seq<Scene>, b: seq<Scene>, minDuration: real)
    ensures FilterScenes(a + b, minDuration) == FilterScenes(a, minDuration) + FilterScenes(b, minDuration)
  {
    if b != [] {
      var n := |b| - 1;
      assert (a + b)[..|a| + n] == a + b[..n];
      FilterAppend(a, b[..n], minDuration);
    } else {
      assert a + b == a;
    }
  }
}
