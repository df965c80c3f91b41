# Voice loop turn controller, in Dafny

A model of the turn controller of `voice_loop.py`, a hands-free voice front
end for an OpenClaw agent. No key is pressed: recording of an utterance starts
when a microphone frame is louder than a calibrated threshold, and ends after
a stretch of silence. The controller repeatedly records one spoken
utterance, transcribes it, drops transcripts that the transcriber is known to
hallucinate on near-silence, sends the text to the agent, shapes the reply for
speech and speaks it through one of three speech backends. Two process-wide
counters, `turn_count` and `consecutive_errors`, are shared by the agent
client and the loop; reaching `MAX_TURNS` turns or three consecutive errors
resets both.

The project has six files:

- `wrappers.dfy`: `Option`.
- `text.dfy` (module `Text`): the parts of Python's `str` that the controller
  uses: `strip()`, `lower()`, `rfind()`, `" ".join()` and
  `replace(pattern, "")`. These are written for ASCII. The file also defines
  the subsequence relation ("obtained by deleting characters") and proves its
  basic lemmas.
- `recorder.dfy` (module `Recorder`): `record_utterance`. It is a method with
  a `while` loop over a finite sequence of frames. Each frame is labelled
  speech or silence and carries the clock reading, in integer milliseconds,
  taken when the loop handles it. The method is proved against a declarative
  description of where the recording stops (`StopsAt`) and of what it keeps.
- `agent.dfy` (module `AgentClient`): the reply path of `ask_agent`:
  - joining the payload texts;
  - the empty-reply error;
  - truncation;
  - the markdown-strip loop, as a method proved against `StripMarkdownOf`;
  - the response and counter update for each outcome of the agent call.
- `speech.dfy` (module `Speech`): the choice made by `speak`, and the
  fallback branches of `speak_elevenlabs` and `speak_openai`. The result is
  the list of audible actions (play a file, or `say`).
- `turnloop.dfy` (module `TurnLoop`): the loop of `main`.
  - `EffectOf` gives what one iteration does apart from the counters: the
    turn is ignored, an exception reached the handler, or `ask_agent`
    answered and the answer was spoken.
  - `Step` gives the reset check followed by the counter update for that
    effect.
  - `Replay` applies the steps one iteration after another, and `Run` is
    `Replay` over the effects of the turns.
  - A class `VoiceLoop` owns the two counters. Its methods update them in
    place (`ResetIfNeeded`, `AskAgent`, `RunTurn`, `RunTurns`) and are proved
    to agree with `Reset`, `Respond`, `Account`, `Step` and `Run`.
  - The lemmas about the counters are proved on `Step` and `Replay`.

Where the code and the behaviour one might expect from its description part
ways, the model follows the code:

- The frame whose silence ends the recording is not added to the clip. The
  loop leaves before the append.
- Stripping markdown is not idempotent. `"*- *"` becomes `"**"`, and stripping
  that again gives `""` (`StripIsNotIdempotent`).
- The empty-reply check runs before the markdown strip. A reply made only of
  markdown tokens is spoken as an empty text and counts as a successful turn
  (`MarkdownOnlyReplyCounts`).
- When the speed differs from 1.0 and `ffmpeg` raises (for example on its
  timeout), the exception handler speaks with `say`. The raw file is not
  played.
- An exception in `ask_agent` other than a timeout or a JSON decoding error
  escapes to `main`. It counts as one consecutive error, and nothing is
  spoken for that turn (`AnsweredIff`, `FailedStepCountsOneError`). Examples
  are a failure to launch the agent, or a JSON document of the wrong shape.
  An apology, by contrast, is spoken like any reply.
- Under audio-paced timestamps, the 0.5 s minimum never rejects a stopped
  recording. Audio-paced means the clock advances by at most one frame length
  per frame. The silence run alone must then span more than 15 frames
  (`PacedClipIsNeverRejected`). The minimum only matters when the clock jumps.

## Model

| member | source | states |
|---|---|---|
| Text.TrimStartFacts | voice_loop.py:191 | the whitespace removed from the front is a run of whitespace and the rest starts with a non-space |
| Text.TrimEndFacts | voice_loop.py:191 | the whitespace removed from the end is a run of whitespace and the rest ends with a non-space |
| Text.StripFacts | voice_loop.py:191 | `strip()`: the result is empty exactly when the text is all whitespace, otherwise it starts and ends with a non-space; it is never longer, and a text without outer whitespace is returned as it is |
| Text.StripEmptyIff | voice_loop.py:191-193 | the stripped text is empty exactly when the whole text is whitespace |
| Text.StripKeepsTrimmed | voice_loop.py:386 | stripping a text without outer whitespace leaves it unchanged |
| Text.LowerIdempotent | voice_loop.py:386 | `lower()` applied twice gives the same as once |
| Text.Strip | voice_loop.py:191 | no contract of its own; specified by `StripFacts`, `StripEmptyIff`, `StripKeepsTrimmed` and `StripOuterSpace` |
| Text.StripOuterSpace | voice_loop.py:386 | `strip()` gives the same result when whitespace is added on either side |
| Text.Lower | voice_loop.py:386 | no contract of its own; defined character by character and specified by `LowerFolds`, with `LowerIdempotent`, `LowerAppend` and `LowerKeepsSpace` |
| Text.LowerFolds | voice_loop.py:386 | `lower()` keeps the length, maps each ASCII upper-case letter to its lower-case letter, leaves every other character unchanged, and leaves no upper-case letter |
| Text.LowerAppend | voice_loop.py:386 | `lower()` of a concatenation is the concatenation of the lower-cased parts |
| Text.LowerKeepsSpace | voice_loop.py:386 | `lower()` leaves whitespace unchanged |
| Text.JoinWithSpaces | voice_loop.py:191 | no contract of its own; specified by `AgentClient.JoinAppend`, `AgentClient.JoinAllSpace` and `AgentClient.JoinExample` |
| Text.RemoveAll | voice_loop.py:214 | no contract of its own; specified by `RemoveAllIsSubsequence`, `RemoveAllAbsent` and `RemoveAllChar` |
| Text.LastIndexOf | voice_loop.py:206 | `rfind(c)`: -1 or an index holding `c`, with no `c` after it |
| Text.RemoveAllIsSubsequence | voice_loop.py:214 | `replace(token, "")` only deletes characters |
| Text.RemoveAllAbsent | voice_loop.py:214 | `replace(token, "")` leaves a text that lacks the token's first character unchanged |
| Text.RemoveAllChar | voice_loop.py:214 | `replace(c, "")` for a one-character token leaves no `c` |
| Recorder.FirstSpeech | voice_loop.py:99-103 | the frame at which `speech_started` becomes true: a speech frame with no speech frame before it, or the end |
| Recorder.RunStart | voice_loop.py:103-106 | where the current silence run, whose first frame sets `silence_start`, begins: after the last speech frame |
| Recorder.StepFacts | voice_loop.py:99-111 | how one more frame moves the first-speech flag, the silence run and the stop condition |
| Recorder.SpeechFrame | voice_loop.py:99-103 | a speech frame never stops the recording, sets `speech_started`, clears the silence timer and is buffered |
| Recorder.LeadingSilence | voice_loop.py:104-111 | a silence frame before any speech never stops the recording and is not buffered |
| Recorder.SilenceStarts | voice_loop.py:104-106 | the first silence frame after speech starts the timer at its own clock reading and is buffered |
| Recorder.SilenceContinues | voice_loop.py:107-108 | a later silence frame stops the recording exactly when more than 1500 ms have passed since the timer started |
| Recorder.SilenceBuffered | voice_loop.py:107-111 | a later silence frame that does not stop the recording is buffered and leaves the timer as it was |
| Recorder.StopsAt | voice_loop.py:99-108 | no contract of its own; the stop test of the loop, related to it by `RecordUtterance`, `SilenceContinues` and `TrailingSilenceStops` |
| Recorder.Clip | voice_loop.py:113-119 | no contract of its own; specified by `TooShortIffUnderFiveFrames` and `PacedClipIsNeverRejected` |
| Recorder.NoStopBeforeAll | voice_loop.py:95-108 | the loop's record of "no earlier stop" means that no frame before it satisfies the stop condition |
| Recorder.RecordUtterance | voice_loop.py:85-119 | the loop stops at the first frame satisfying `StopsAt` (never, if none does); the clip is the frames from the first speech frame up to but excluding the stopping frame, or None when too short |
| Recorder.SampleCountIsLinear | voice_loop.py:113-114 | the concatenated audio holds 1600 samples per buffered chunk |
| Recorder.TooShortIffUnderFiveFrames | voice_loop.py:113-118 | a clip is rejected exactly when it holds fewer than 8000 samples, that is fewer than five chunks |
| Recorder.StoppedBuffer | voice_loop.py:99-111 | a stopped buffer starts with a speech frame, ends with a silence frame, holds at least two frames, and holds no frame before the first speech frame |
| Recorder.NoSpeechNeverStops | voice_loop.py:104-108 | without speech the recording never stops |
| Recorder.TrailingSilenceStops | voice_loop.py:104-108 | a silence run after speech that lasts more than 1500 ms stops the recording at that frame at the latest |
| Recorder.PacedClipIsNeverRejected | voice_loop.py:104-118 | with the clock advancing at most 100 ms per frame, a stopped recording holds at least 17 frames and is never rejected |
| AgentClient.KeptTexts | voice_loop.py:190 | a text is kept exactly when some payload has it as a non-empty text; never more texts than payloads |
| AgentClient.JoinReply | voice_loop.py:189-191 | no contract of its own; specified by `EmptyJoinIff`, `JoinExample` and `JoinStars` |
| AgentClient.KeptTextsAppend | voice_loop.py:190 | kept texts are in payload order: keeping commutes with concatenating payload lists |
| AgentClient.JoinAppend | voice_loop.py:191 | the join puts exactly one space between consecutive parts |
| AgentClient.JoinAllSpace | voice_loop.py:191 | the join is all whitespace exactly when every part is |
| AgentClient.EmptyJoinIff | voice_loop.py:189-196 | the empty-reply error is taken exactly when every kept text is whitespace |
| AgentClient.JoinExample | voice_loop.py:189-191 | two payloads "It's sunny" and "and 70 degrees." join to "It's sunny and 70 degrees." |
| AgentClient.Truncate | voice_loop.py:204-210 | up to 500 characters unchanged; otherwise a prefix ending at the last period of the first 500 when that period lies past index 250, else the 500-character prefix plus "..."; never over 503 |
| AgentClient.StripMarkdownOf | voice_loop.py:213-214 | no contract of its own; specified by `StripDeletesOnly`, `StripRemovesBackticks`, `StripKeepsPlainText` and `StripIsNotIdempotent` |
| AgentClient.StripMarkdown | voice_loop.py:213-214 | the strip loop computes `StripMarkdownOf`, only deletes characters and leaves no backtick |
| AgentClient.RemoveTokensIsSubsequence | voice_loop.py:213-214 | successive token removals only delete characters |
| AgentClient.StripDeletesOnly | voice_loop.py:213-214 | the stripped reply is a subsequence of the reply and never longer |
| AgentClient.StripRemovesBackticks | voice_loop.py:213-214 | no backtick survives the strip |
| AgentClient.StripKeepsPlainText | voice_loop.py:213-214 | a reply without `*`, backtick or `-` is unchanged |
| AgentClient.StripIsNotIdempotent | voice_loop.py:213-214 | stripping twice can differ from stripping once: "*- *" gives "**", which gives "" |
| AgentClient.StripDashedStars | voice_loop.py:213-214 | removing "- " from "*- *" joins the two `*` into "**" |
| AgentClient.StripStars | voice_loop.py:213-214 | "**" strips to the empty text |
| AgentClient.Shape | voice_loop.py:203-214 | the spoken reply is at most 503 characters, has no backtick and is a subsequence of the truncated reply |
| AgentClient.Respond | voice_loop.py:149-220 | an exception escapes exactly when the call raised something other than a timeout or decode error; an apology exactly on timeout, non-zero exit, decode error or empty join, each with its own fixed text (timeout, exit, parse and empty-reply apologies); otherwise the shaped joined reply |
| AgentClient.Account | voice_loop.py:174-201 | an apology adds one error and keeps the turn count; a reply adds one turn and clears the errors; an escaping exception changes neither here |
| AgentClient.MarkdownOnlyReplyCounts | voice_loop.py:193-217 | a reply consisting of "**" passes the empty check, is spoken as "" and counts as a successful turn |
| AgentClient.JoinStars | voice_loop.py:189-191 | a single payload "**" joins to "**" |
| AgentClient.ShapeStars | voice_loop.py:203-214 | "**" is shaped to the empty text |
| Speech.ChooseBackend | voice_loop.py:336-341 | exactly one backend, by priority ElevenLabs, then OpenAI, then `say` |
| Speech.SpeakElevenLabs | voice_loop.py:223-273 | no contract of its own; specified through `Speak` |
| Speech.SpeakOpenAI | voice_loop.py:282-311 | no contract of its own; specified through `Speak` |
| Speech.SpeakMacos | voice_loop.py:321-328 | no contract of its own; `say` is the one action, whether or not it raised |
| Speech.Speak | voice_loop.py:331-341 | either `say` alone, or one file played followed by `say` exactly when the player raised; `say` first exactly when no key is set, curl raised, the download is missing or under 1000 bytes, or ffmpeg raised; the fast file exactly for ElevenLabs with a usable download, a changed speed and a re-encoded file over 500 bytes |
| Speech.EmptyDownloadFallsBack | voice_loop.py:250-253 | an empty downloaded file makes any backend speak with `say` only |
| TurnLoop.EffectOf | voice_loop.py:380-396 | no contract of its own; specified by `IgnoredIff`, `AnsweredIff`, `FailsIff` and `SucceedsIff` |
| TurnLoop.Step | voice_loop.py:371-406 | no contract of its own; specified by `IgnoredKeepsCounters`, `FailedStepCountsOneError` and `SucceededStepCounts` |
| TurnLoop.Replay | voice_loop.py:369-406 | no contract of its own; specified by `ReplayExtends` and the counter lemmas |
| TurnLoop.Reset | voice_loop.py:371-378 | both counters become zero when either limit is reached, and afterwards there are fewer than 3 errors and, for a positive limit, fewer than MAX_TURNS turns |
| TurnLoop.IgnoredIff | voice_loop.py:380-392 | a turn is ignored, without calling the agent, exactly when the recording was too short or the transcript is filtered out |
| TurnLoop.AnsweredIff | voice_loop.py:394-396 | a turn is answered exactly when the transcript is kept and `ask_agent` returns instead of raising; what it returned, apology or reply, is then spoken by the configured backend |
| TurnLoop.FailsIff | voice_loop.py:380-406 | a turn counts as an error exactly when the recorder or transcriber raised, or a kept transcript led to an apology or an exception in `ask_agent` |
| TurnLoop.SucceedsIff | voice_loop.py:394-396 | a turn succeeds exactly when a kept transcript gets a real reply, and the shaped joined reply is then spoken |
| TurnLoop.IgnoredTurnsKeepCounters | voice_loop.py:380-392 | after any iteration, a run of one or more ignored turns speaks nothing and leaves the counters at the reset of what they were before the run, however long the run |
| TurnLoop.IgnoredKeepsCounters | voice_loop.py:380-392 | an ignored turn speaks nothing and leaves the counters as the reset left them |
| TurnLoop.FailedStepCountsOneError | voice_loop.py:395-406 | a failing turn adds exactly one error and keeps the turn count; it speaks its apology when `ask_agent` returned one, and nothing when an exception reached the handler |
| TurnLoop.SucceededStepCounts | voice_loop.py:216-217 | a successful turn adds one turn, clears the errors and speaks its reply |
| TurnLoop.EffectsExtend | voice_loop.py:369 | the effects of one more turn are those before it followed by its own |
| TurnLoop.ReplayExtends | voice_loop.py:369-406 | one more iteration extends the final counters and the spoken replies by that iteration's step |
| TurnLoop.CountersStayBounded | voice_loop.py:369-406 | after any iteration there are at most 3 errors and, for a positive limit, at most MAX_TURNS turns |
| TurnLoop.ThreeFailuresForceReset | voice_loop.py:375-378 | from zero errors, three failing turns make the next iteration start from zero counters |
| TurnLoop.SuccessesCountTurns | voice_loop.py:216-217 | below the limit, each successful turn adds exactly one turn and keeps the errors at zero |
| TurnLoop.TurnLimitForcesReset | voice_loop.py:371-374 | from zero, MAX_TURNS successful turns reach the limit and the next iteration starts from zero |
| TurnLoop.SpokenIndependentOfCounters | voice_loop.py:369-406 | what is spoken depends on the turns alone, not on the counters |
| TurnLoop.IsDiscarded | voice_loop.py:386-392 | no contract of its own; specified by `DiscardIgnoresCase`, `DiscardIgnoresOuterSpace` and the three filter examples |
| TurnLoop.FilterDropsCapitalised | voice_loop.py:386-392 | "Thank You." is dropped |
| TurnLoop.FilterStripsSpace | voice_loop.py:386-392 | " BYE " is dropped |
| TurnLoop.FilterKeepsNearMiss | voice_loop.py:386-392 | "thank you" (no period) is kept |
| TurnLoop.DiscardIgnoresCase | voice_loop.py:386 | lower-casing a transcript first does not change the filter's decision |
| TurnLoop.DiscardIgnoresOuterSpace | voice_loop.py:386-392 | adding whitespace on either side of a transcript does not change the filter's decision |
| TurnLoop.VoiceLoop.constructor | voice_loop.py:69-70 | both counters start at zero |
| TurnLoop.VoiceLoop.ResetIfNeeded | voice_loop.py:371-378 | the counters become `Reset` of the old counters |
| TurnLoop.VoiceLoop.AskAgent | voice_loop.py:149-220 | returns `Respond` of the call and updates the counters by `Account` |
| TurnLoop.VoiceLoop.RunTurn | voice_loop.py:370-406 | one iteration leaves the counters and the spoken reply that `Step` gives for the turn's effect |
| TurnLoop.VoiceLoop.RunTurns | voice_loop.py:369-406 | the loop over the turns ends with the counters and the spoken replies that `Run` gives |

## Left out

- Microphone capture, calibration and the RMS threshold: each frame's speech or silence label is an input. The clock is an input too: each frame carries its reading, and the model does not require that readings never decrease.
- The recorder on a stream that never stops: the source blocks forever. On the finite input the model returns `Pending`.
- Whisper loading and transcription, and its temporary WAV file: the transcript, or the fact that the transcriber raised, is an input of the turn.
- The subprocesses (`openclaw`, `curl`, `ffmpeg`, `afplay`, `say`), their timeouts, and `json.loads`: their results are abstract outcomes (`AgentCall`, `Synthesis`).
- The gateway URL and token passed to the agent's environment, the session id, the voice ids and the request bodies: configuration that does not affect the controller's decisions.
- Temporary file creation and their best-effort deletion in `finally` blocks.
- Environment configuration: the `MAX_TURNS` value is a constructor parameter, `ELEVENLABS_SPEED` is the boolean "differs from 1.0", and the API keys are booleans "set".
- `KeyboardInterrupt` handling, which ends the loop.
- All `print` logging, including the shortened display of the reply and the timing output.
- Text.StripFacts and Text.LowerIdempotent: Unicode case mapping and Unicode whitespace are not modelled; only ASCII letters are lower-cased and only ASCII whitespace is stripped.
- Speech.Speak: `Play(file)` means that `afplay` was invoked on the file, not that the file was heard. When `afplay` raises, before playing anything (for example `FileNotFoundError` where it is not installed) or after it has started, the actions are `Play(file)` followed by `Say`. How much of the file was heard is not modelled.
- The message sent to the agent, the voice hint followed by the transcript (voice_loop.py:155), is not modelled, because the outcome of the agent call is an input of the model.
- `say` failing (missing binary or any other exception) is caught and only logged, so `say` appears as an action whether or not it produced sound.
