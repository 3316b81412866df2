# Scene selection for story-segment extraction

A Dafny model of the selection logic of a small video pipeline (`app.py`):
scenes detected in a video are filtered by a minimum duration, each remaining
scene's audio is transcribed and judged to contain dialogue when the
transcript is longer than ten characters, and the scenes with dialogue are
extracted, in order, to clips named `story_segment_1.mp4`,
`story_segment_2.mp4`, and so on.

The three external libraries (scene detection, transcoding, speech
recognition) are abstracted:

- the detected scene list is an input `seq<Scene>` of (start, end) times in
  seconds, as `real`s;
- the recogniser's outcome for the `i`-th filtered scene is an input
  `Option<string>`: `None` when the recognition call raised, `Some(t)` when it
  returned the transcript `t`;
- every transcoder invocation is a `Run(scene, output)` event: one audio
  extraction to the shared working file `temp_audio.wav` per filtered scene,
  then one clip extraction per final scene.

Modules follow the pipeline's stages: `Scenes` (the duration filter),
`Dialogue` (the verdict), `Naming` (clip file names), `Pipeline` (the
per-scene loop and the extraction loop), with `Subsequence` (order-preserving
selection) and `Wrappers` (`Option`) as helpers.

In the code the `try` of `detect_dialogue` (app.py:27-32) holds the
recognition call and the length test, which cannot raise; opening the audio
file and recording it (app.py:25-26) happen outside it, so a failure there propagates instead of
giving "no dialogue". The model follows the code: only a recognition failure
collapses to `false`, and the audio-reading failures belong to the external
steps left out below.

## Model

| member | source | states |
|---|---|---|
| Scenes.FilterScenes | app.py:6-15 | a scene is in the output iff it is in the input and lasts at least the minimum; the output is never longer than the input (so an empty input gives an empty output) |
| Scenes.FilterScenesOrder | app.py:8-14 | the output is the input with some positions dropped, order kept; the kept positions are exactly those with `end - start >= min_duration` (so the dropped ones are exactly the shorter scenes) |
| Scenes.FilterScenesSubsequence | app.py:8-15 | the output is an order-preserving subsequence of the input: nothing reordered, duplicated or invented |
| Scenes.FilterIsSelect | app.py:9-14 | the filter keeps a position exactly when the duration test holds for that position's scene |
| Scenes.FilterBoundaryInclusive | app.py:13 | a scene whose duration equals the minimum is retained |
| Scenes.FilterKeepsAll | app.py:13 | with a minimum of zero or less and every pair having start <= end, the output equals the input and has its length |
| Scenes.FilterIdempotent | app.py:8-15 | filtering twice with the same minimum is filtering once |
| Scenes.FilterCompose | app.py:12-14 | re-filtering a filtered list with a higher or equal minimum equals filtering the original with that minimum |
| Scenes.FilterAppend | app.py:9-14 | filtering a concatenation is the concatenation of the filtered parts (each scene is judged on its own) |
| Dialogue.DetectDialogue | app.py:27-33 | "dialogue" only when recognition succeeded, and then exactly when the transcript has at least eleven characters |
| Dialogue.FailureIsNoDialogue | app.py:31-32 | a recognition failure gives "no dialogue" |
| Dialogue.DialogueBoundary | app.py:29 | a transcript of exactly ten characters is not dialogue; one of eleven is |
| Dialogue.DialogueMonotone | app.py:29 | extending a transcript never turns a "dialogue" verdict into "no dialogue" |
| Naming.Decimal | app.py:70 | the index is written as at least one decimal digit, with no leading zero |
| Naming.DecimalRoundTrip | app.py:70 | reading the written digits back gives the index |
| Naming.ClipName | app.py:70 | a clip name is the prefix `story_segment_` and the suffix `.mp4` around a non-empty run of decimal digits, without a leading zero for a positive index, that reads back as the index |
| Naming.ClipNameInjective | app.py:69-71 | different indices give different clip names |
| Naming.FirstClipName | app.py:70 | the first clip is named `story_segment_1.mp4` |
| Pipeline.FinalScenesOrder | app.py:54-66 | the final scenes are an order-preserving subsequence of the filtered scenes holding exactly the positions whose verdict is "dialogue", so there are at most as many |
| Pipeline.ProcessVideo | app.py:50-71 | the final scenes are the filtered scenes with dialogue, in order, and form a subsequence of the detected scenes lasting at least the minimum; one audio extraction to `temp_audio.wav` per filtered scene, in order; one clip per final scene, the `k`-th named `story_segment_k.mp4` (none when there are no final scenes), all names distinct |
| Pipeline.ExampleRun | app.py:50-66 | scenes of 5, 35 and 40 seconds at a 30-second minimum, with an empty transcript for the 35-second scene and a sentence for the 40-second one, leave only the 40-second scene |

## Left out

- Scene detection (app.py:38-45): an external algorithm over decoded frames; its result is the input list, and `get_seconds()` is taken as already applied.
- Floating point: times and durations are `real`s, so IEEE rounding of `get_seconds()` and of `end - start` is not modelled.
- Audio extraction and clip extraction (app.py:17-20, app.py:71): the transcoder is only recorded as `Run` events; its file I/O and its failures, which the code lets propagate and stop the run, are not modelled.
- Speech recognition and audio reading (app.py:24-28): the recognition outcome is an input per filtered scene; a failure to open or record the audio file, outside the `try`, would propagate and is not modelled.
- Character counting: `len` counts Unicode code points and the model's `string` is a sequence of Unicode scalar values; the two agree on every transcript without lone surrogate code points (U+D800 to U+DFFF), which a Python `str` can hold and the model's `char` cannot.
- Progress messages and the interactive prompt (app.py:47-72, app.py:75-76): console I/O. The prompt's minimum of 30 seconds and the default of 10 seconds (app.py:6, app.py:35, app.py:76) are the constants `PromptMinDuration` and `DefaultMinDuration`.
- The shared `temp_audio.wav` (app.py:17, app.py:59) is reused as the output of every audio extraction, which is safe only because the run is sequential; whether the transcoder overwrites an existing file (for it or for a `story_segment_<k>.mp4` left by an earlier run) is its own behaviour, left out with its failures, and the model records the extractions as events without modelling the file.
