/**
 * The dialogue verdict for one scene. The speech recogniser is external:
 * its outcome for the scene's audio is an input, `None` when the
 * recognition call raised and `Some(transcript)` when it returned.
 */
module Dialogue {
  import opened Wrappers

  /** A transcript must be strictly longer than this, in characters, to count as dialogue. */
  const TranscriptThreshold: nat := 10

  /** The verdict: a failed recognition is silently "no dialogue". */
  function DetectDialogue(heard: Option<string>): (spoken: bool)
    ensures spoken ==> heard.Some?
    ensures heard.Some? ==> (spoken <==> |heard.value| >= TranscriptThreshold + 1)
  {
    match heard
    case None => false
    case Some(transcript) => |transcript| > TranscriptThreshold
  }

  /** A recognition failure gives "no dialogue" and nothing else. */
  lemma FailureIsNoDialogue()
    ensures !DetectDialogue(None)
  {
  }

  /** The exact boundary: ten characters are not dialogue, eleven are. */
  lemma DialogueBoundary(transcript: string)
    ensures |transcript| == 10 ==> !DetectDialogue(Some(transcript))
    ensures |transcript| == 11 ==> DetectDialogue(Some(transcript))
  {
  }

  /** Lengthening a transcript never withdraws a "dialogue" verdict. */
  lemma DialogueMonotone(transcript: string, more: string)
    ensures DetectDialogue(Some(transcript)) ==> DetectDialogue(Some(transcript + more))
  {
  }
}
