/**
 * The selection and naming steps of video processing: filtered scenes are
 * checked for dialogue one by one, the ones with dialogue are kept in order,
 * and each kept scene is extracted to a clip named by its 1-based position.
 * Scene detection, audio extraction, recognition and transcoding are
 * external; their outcomes are inputs and their invocations are `Run` events.
 */
module Pipeline {
  import opened Wrappers
  import opened Subsequence
  import opened Scenes
  import opened Dialogue
  import opened Naming

  /** One invocation of the external transcoder: trim the video to `scene`, write `output`. */
  datatype Run = Run(scene: Scene, output: string)

  /** The single working file every scene's audio is extracted to. */
  const WorkingAudio: string := "temp_audio.wav"

  /** The dialogue verdict of each recognition outcome, position by position. */
  function Verdicts(heard: seq<Option<string>>): seq<bool>
  {
    seq(|heard|, i requires 0 <= i < |heard| => DetectDialogue(heard[i]))
  }

  /** The filtered scenes whose recognition outcome is a dialogue verdict, in order. */
  function FinalScenes(filtered: seq<Scene>, heard: seq<Option<string>>): seq<Scene>
    requires |heard| == |filtered|
  {
    Select(filtered, Verdicts(heard))
  }

  /**
   * The final scenes are an order-preserving subsequence of the filtered
   * ones, holding exactly the positions where the verdict is "dialogue".
   */
  lemma FinalScenesOrder(filtered: seq<Scene>, heard: seq<Option<string>>) returns (idx: seq<int>)
    requires |heard| == |filtered|
    ensures Embeds(idx, FinalScenes(filtered, heard), filtered)
    ensures forall i :: 0 <= i < |filtered| ==> (i in idx <==> DetectDialogue(heard[i]))
    ensures |FinalScenes(filtered, heard)| <= |filtered|
  {
    idx := SelectEmbeds(filtered, Verdicts(heard));
  }

  /**
   * The whole run over the detected scenes. `heard[i]` is the recogniser's
   * outcome for the `i`-th filtered scene. Returns the final scenes, the
   * audio extractions in order, and the clip extractions in order.
   */
  method ProcessVideo(detected: seq<Scene>, minDuration: real, heard: seq<Option<string>>)
    returns (final: seq<Scene>, audio: seq<Run>, clips: seq<Run>)
    requires |heard| == |FilterScenes(detected, minDuration)|
    ensures final == FinalScenes(FilterScenes(detected, minDuration), heard)
    ensures IsSubsequence(final, detected)
    ensures forall s :: s in final ==> s in detected && s.Duration() >= minDuration
    ensures |audio| == |FilterScenes(detected, minDuration)|
    ensures forall i :: 0 <= i < |audio| ==>
              audio[i] == Run(FilterScenes(detected, minDuration)[i], WorkingAudio)
    ensures |clips| == |final| <= |audio| <= |detected|
    ensures forall i :: 0 <= i < |clips| ==> clips[i] == Run(final[i], ClipName(i + 1))
    ensures forall i, j :: 0 <= i < j < |clips| ==> clips[i].output != clips[j].output
  {
    var filtered := FilterScenes(detected, minDuration);
    var verdicts := Verdicts(heard);

    final := [];
    audio := [];
    var i := 0;
    while i < |filtered|
      invariant 0 <= i <= |filtered|
      invariant final == Select(filtered[..i], verdicts[..i])
      invariant |audio| == i
      invariant forall k :: 0 <= k < i ==> audio[k] == Run(filtered[k], WorkingAudio)
    {
      audio := audio + [Run(filtered[i], WorkingAudio)];
      SelectStep(filtered, verdicts, i);
      if DetectDialogue(heard[i]) {
        final := final + [filtered[i]];
      }
      i := i + 1;
    }
    assert filtered[..i] == filtered && verdicts[..i] == verdicts;

    clips := [];
    var j := 0;
    while j < |final|
      invariant 0 <= j <= |final|
      invariant |clips| == j
      invariant forall k :: 0 <= k < j ==> clips[k] == Run(final[k], ClipName(k + 1))
    {
      clips := clips + [Run(final[j], ClipName(j + 1))];
      j := j + 1;
    }

    var inner := FinalScenesOrder(filtered, heard);
    var outer := FilterScenesOrder(detected, minDuration);
    var idx := EmbedsCompose(inner, final, filtered, outer, detected);
    forall i, j | 0 <= i < j < |clips|
      ensures clips[i].output != clips[j].output
    {
      ClipNameInjective(i + 1, j + 1);
    }
  }

  /**
   * The worked example: scenes of 5, 35 and 40 seconds at a 30-second
   * minimum, where the 35-second scene transcribes to nothing and the
   * 40-second one to a sentence, leave only the 40-second scene.
   */
  lemma ExampleRun()
    ensures var detected := [Scene(0.0, 5.0), Scene(5.0, 40.0), Scene(40.0, 80.0)];
            var filtered := FilterScenes(detected, PromptMinDuration);
            && filtered == [Scene(5.0, 40.0), Scene(40.0, 80.0)]
            && FinalScenes(filtered, [Some(""), Some("Hello there, welcome to the story")])
               == [Scene(40.0, 80.0)]
  {
    var detected := [Scene(0.0, 5.0), Scene(5.0, 40.0), Scene(40.0, 80.0)];
    assert detected[..2][..1] == [Scene(0.0, 5.0)];
    assert detected[..2] == [Scene(0.0, 5.0), Scene(5.0, 40.0)];
    var filtered := [Scene(5.0, 40.0), Scene(40.0, 80.0)];
    var heard := [Some(""), Some("Hello there, welcome to the story")];
    assert Verdicts(heard) == [false, true];
    assert filtered[..1] == [Scene(5.0, 40.0)];
    assert Verdicts(heard)[..1] == [false];
    assert Select(filtered[..1], [false]) == [];
  }
}
