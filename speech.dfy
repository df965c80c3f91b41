/**
 * The speech synthesis router (`speak`) and the fallback branches of the two
 * cloud backends. External programs (curl, ffmpeg, afplay, say) are not run:
 * what they left behind, or whether they raised, is the input `Synthesis`,
 * and the result is the list of audible actions taken.
 */
module Speech {
  import opened Wrappers

  /** A downloaded file smaller than this is treated as a failed synthesis. */
  const MinAudioBytes: nat := 1000
  /** A re-encoded file must be larger than this to be played. */
  const MinFastBytes: nat := 500

  /** The configuration read at start-up: which API keys are set, and whether ELEVENLABS_SPEED != 1.0. */
  datatype Voice = Voice(elevenLabsKey: bool, openAiKey: bool, speedChanged: bool)

  datatype Backend = ElevenLabs | OpenAI | MacSay

  /** The result of an external step that may raise instead of finishing. */
  datatype Outcome<T> = Finished(value: T) | Threw

  /**
   * What happened during one synthesis: the size of the downloaded file (None
   * when it does not exist) or an exception from curl; the size of the
   * re-encoded file or an exception from ffmpeg; whether afplay raised.
   */
  datatype Synthesis = Synthesis(download: Outcome<Option<nat>>, reencode: Outcome<Option<nat>>, playerThrew: bool)

  datatype AudioFile = Raw | Fast

  /** An audible action: play a file with afplay, or speak the text with `say`. */
  datatype Action = Play(file: AudioFile) | Say

  /** The one backend `speak` uses, by priority ElevenLabs > OpenAI > say. */
  function ChooseBackend(v: Voice): (b: Backend)
    ensures b == ElevenLabs <==> v.elevenLabsKey
    ensures b == OpenAI <==> !v.elevenLabsKey && v.openAiKey
    ensures b == MacSay <==> !v.elevenLabsKey && !v.openAiKey
  {
    if v.elevenLabsKey then ElevenLabs
    else if v.openAiKey then OpenAI
    else MacSay
  }

  /** The downloaded file exists and is at least MinAudioBytes long. */
  predicate RawUsable(download: Outcome<Option<nat>>)
  {
    download.Finished? && download.value.Some? && download.value.value >= MinAudioBytes
  }

  /** The re-encoded file exists and is larger than MinFastBytes. */
  predicate FastUsable(reencode: Outcome<Option<nat>>)
  {
    reencode.Finished? && reencode.value.Some? && reencode.value.value > MinFastBytes
  }

  /** Playing a file; when the player raises, the handler falls back to `say`. */
  function PlayThen(file: AudioFile, playerThrew: bool): seq<Action>
  {
    if playerThrew then [Play(file), Say] else [Play(file)]
  }

  /** `speak_macos`: a failure of `say` is reported but not raised. */
  function SpeakMacos(): seq<Action>
  {
    [Say]
  }

  /** `speak_openai`: download, then play, with `say` as its fallback. */
  function SpeakOpenAI(s: Synthesis): seq<Action>
  {
    if !RawUsable(s.download) then SpeakMacos()
    else PlayThen(Raw, s.playerThrew)
  }

  /**
   * `speak_elevenlabs`: download, re-encode when the speed differs from 1.0,
   * then play; `say` is its fallback.
   */
  function SpeakElevenLabs(speedChanged: bool, s: Synthesis): seq<Action>
  {
    if !RawUsable(s.download) then SpeakMacos()
    else if speedChanged && s.reencode.Threw? then SpeakMacos()
    else
      var file := if speedChanged && FastUsable(s.reencode) then Fast else Raw;
      PlayThen(file, s.playerThrew)
  }

  /**
   * `speak`: exactly one backend is tried, and a cloud backend falls back to
   * `say` only; every call either plays one file (followed by `say` when the
   * player raised) or speaks with `say` without playing.
   */
  function Speak(v: Voice, s: Synthesis): (acts: seq<Action>)
    ensures acts == [Say] || (|acts| >= 1 && acts[0].Play? && acts[1..] == (if s.playerThrew then [Say] else []))
    ensures acts[0] == Say <==>
      ChooseBackend(v) == MacSay || !RawUsable(s.download) ||
      (ChooseBackend(v) == ElevenLabs && v.speedChanged && s.reencode.Threw?)
    ensures acts[0] == Play(Fast) <==>
      ChooseBackend(v) == ElevenLabs && RawUsable(s.download) && v.speedChanged && FastUsable(s.reencode)
  {
    match ChooseBackend(v)
    case ElevenLabs => SpeakElevenLabs(v.speedChanged, s)
    case OpenAI => SpeakOpenAI(s)
    case MacSay => SpeakMacos()
  }

  /** A cloud backend that gets back an empty file speaks with `say` and plays nothing. */
  lemma EmptyDownloadFallsBack(v: Voice, s: Synthesis)
    requires s.download == Finished(Some(0))
    ensures Speak(v, s) == [Say]
  {
  }
}
