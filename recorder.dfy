/**
 * The utterance recorder: a loop over 100 ms audio frames, each already
 * classified as speech or silence and stamped with the clock reading (in
 * milliseconds) taken when the loop handles it. Nothing is buffered before the
 * first speech frame; after speech, a silence run that lasts more than
 * SILENCE_DURATION ends the recording, and a clip shorter than
 * MIN_SPEECH_DURATION is rejected.
 */
module Recorder {
  import opened Wrappers

  /** Samples in one frame: SAMPLE_RATE (16000) * 0.1. */
  const ChunkSamples: nat := 1600
  /** SILENCE_DURATION, 1.5 s. */
  const SilenceMs: int := 1500
  /** MIN_SPEECH_DURATION * SAMPLE_RATE: 0.5 s of samples at 16 kHz. */
  const MinSpeechSamples: nat := 8000
  /** Duration of one frame of audio. */
  const FrameMs: int := 100

  /** One frame as the loop sees it: its speech/silence label and the clock reading. */
  datatype Frame = Frame(speech: bool, at: int)

  /** What one call of the recorder yields on a finite stream of frames. */
  datatype Capture =
    | Pending                                      // the stream ended before the recording stopped
    | Done(consumed: nat, clip: Option<seq<Frame>>) // stopped after reading `consumed` frames

  /** Index of the first speech frame, or |frames| when there is none. */
  function FirstSpeech(frames: seq<Frame>): (k: nat)
    ensures k <= |frames|
    ensures k < |frames| ==> frames[k].speech
    ensures forall m :: 0 <= m < k ==> !frames[m].speech
    decreases |frames|
  {
    if frames == [] then 0
    else if frames[0].speech then 0
    else 1 + FirstSpeech(frames[1..])
  }

  /** Start of the silence run that ends just before index i (i itself when frames[i-1] is speech). */
  function RunStart(frames: seq<Frame>, i: nat): (j: nat)
    requires i <= |frames|
    ensures j <= i
    ensures j == 0 || frames[j - 1].speech
    ensures forall m :: j <= m < i ==> !frames[m].speech
    decreases i
  {
    if i == 0 || frames[i - 1].speech then i else RunStart(frames, i - 1)
  }

  /**
   * The recording stops at frame i: a silence frame, after speech, inside a
   * silence run whose first frame is an earlier one, handled more than
   * SilenceMs after that first frame.
   */
  predicate StopsAt(frames: seq<Frame>, i: nat)
  {
    i < |frames| && !frames[i].speech &&
    FirstSpeech(frames) < RunStart(frames, i) < i &&
    frames[i].at - frames[RunStart(frames, i)].at > SilenceMs
  }

  /** No frame before index i stops the recording. */
  predicate NoStopBefore(frames: seq<Frame>, i: nat)
    decreases i
  {
    i == 0 || (NoStopBefore(frames, i - 1) && !StopsAt(frames, i - 1))
  }

  lemma {:induction false} NoStopBeforeAll(frames: seq<Frame>, i: nat)
    ensures NoStopBefore(frames, i) <==> forall m :: 0 <= m < i ==> !StopsAt(frames, m)
    decreases i
  {
    if i > 0 {
      NoStopBeforeAll(frames, i - 1);
    }
  }

  /** Length of the concatenated audio: every chunk read holds ChunkSamples samples. */
  function SampleCount(chunks: seq<Frame>): nat
  {
    if chunks == [] then 0 else ChunkSamples + SampleCount(chunks[1..])
  }

  /** The buffered audio lasts less than MIN_SPEECH_DURATION. */
  predicate TooShort(chunks: seq<Frame>)
  {
    SampleCount(chunks) < MinSpeechSamples
  }

  /** A clip is too short exactly when it holds fewer than five frames (0.5 s). */
  lemma {:induction false} TooShortIffUnderFiveFrames(chunks: seq<Frame>)
    ensures TooShort(chunks) <==> |chunks| < 5
  {
    SampleCountIsLinear(chunks);
  }

  lemma {:induction false} SampleCountIsLinear(chunks: seq<Frame>)
    ensures SampleCount(chunks) == ChunkSamples * |chunks|
  {
    if chunks != [] {
      SampleCountIsLinear(chunks[1..]);
    }
  }

  /** The audio handed on: None when it is too short. */
  function Clip(chunks: seq<Frame>): Option<seq<Frame>>
  {
    if TooShort(chunks) then None else Some(chunks)
  }

  /** How the first-speech index, the silence run and the stop condition move by one frame. */
  lemma StepFacts(frames: seq<Frame>, i: nat)
    requires i < |frames|
    ensures FirstSpeech(frames) < i + 1 <==> FirstSpeech(frames) < i || frames[i].speech
    ensures RunStart(frames, i + 1) == if frames[i].speech then i + 1 else RunStart(frames, i)
    ensures StopsAt(frames, i) <==>
      !frames[i].speech && FirstSpeech(frames) < i && RunStart(frames, i) < i &&
      frames[i].at - frames[RunStart(frames, i)].at > SilenceMs
  {
  }

  /**
   * The state of the recorder after handling the frames before index i:
   * `speechStarted` says whether a speech frame was among them, `chunks`
   * holds every frame from the first speech frame on, and `silenceStart`
   * holds the clock reading of the first frame of the current silence run
   * after speech.
   */
  predicate Recording(frames: seq<Frame>, i: nat, speechStarted: bool, chunks: seq<Frame>, silenceStart: Option<int>)
    requires i <= |frames|
  {
    speechStarted == (FirstSpeech(frames) < i) &&
    chunks == (if speechStarted then frames[FirstSpeech(frames)..i] else []) &&
    silenceStart == if speechStarted && RunStart(frames, i) < i then Some(frames[RunStart(frames, i)].at) else None
  }

  /** A speech frame starts or continues the speech, clears the silence timer and is buffered. */
  lemma SpeechFrame(frames: seq<Frame>, i: nat, speechStarted: bool, chunks: seq<Frame>, silenceStart: Option<int>)
    requires i < |frames| && frames[i].speech
    requires Recording(frames, i, speechStarted, chunks, silenceStart)
    ensures !StopsAt(frames, i)
    ensures Recording(frames, i + 1, true, chunks + [frames[i]], None)
  {
    StepFacts(frames, i);
    var first := FirstSpeech(frames);
    if speechStarted {
      assert frames[first..i + 1] == frames[first..i] + [frames[i]];
    } else {
      assert first == i;
      assert frames[first..i + 1] == [] + [frames[i]];
    }
  }

  /** A silence frame before any speech is dropped. */
  lemma LeadingSilence(frames: seq<Frame>, i: nat, chunks: seq<Frame>, silenceStart: Option<int>)
    requires i < |frames| && !frames[i].speech
    requires Recording(frames, i, false, chunks, silenceStart)
    ensures !StopsAt(frames, i)
    ensures Recording(frames, i + 1, false, chunks, silenceStart)
  {
    StepFacts(frames, i);
  }

  /** The first silence frame after speech starts the timer and is buffered. */
  lemma SilenceStarts(frames: seq<Frame>, i: nat, chunks: seq<Frame>)
    requires i < |frames| && !frames[i].speech
    requires Recording(frames, i, true, chunks, None)
    ensures !StopsAt(frames, i)
    ensures Recording(frames, i + 1, true, chunks + [frames[i]], Some(frames[i].at))
  {
    StepFacts(frames, i);
    assert frames[FirstSpeech(frames)..i + 1] == frames[FirstSpeech(frames)..i] + [frames[i]];
  }

  /** A later silence frame stops the recording exactly when the run has lasted more than SilenceMs. */
  lemma SilenceContinues(frames: seq<Frame>, i: nat, chunks: seq<Frame>, start: int)
    requires i < |frames| && !frames[i].speech
    requires Recording(frames, i, true, chunks, Some(start))
    ensures StopsAt(frames, i) <==> frames[i].at - start > SilenceMs
    ensures chunks == frames[FirstSpeech(frames)..i]
  {
    var j := RunStart(frames, i);
    assert FirstSpeech(frames) < i && j < i && start == frames[j].at;
    StepFacts(frames, i);
  }

  /** Otherwise the frame is buffered and the timer keeps running. */
  lemma SilenceBuffered(frames: seq<Frame>, i: nat, chunks: seq<Frame>, start: int)
    requires i < |frames| && !frames[i].speech
    requires Recording(frames, i, true, chunks, Some(start))
    ensures Recording(frames, i + 1, true, chunks + [frames[i]], Some(start))
  {
    var first := FirstSpeech(frames);
    var j := RunStart(frames, i);
    assert first < i && j < i && start == frames[j].at;
    assert RunStart(frames, i + 1) == j;
    assert frames[first..i + 1] == frames[first..i] + [frames[i]];
  }

  /**
   * `record_utterance`: the loop reads frames until the first frame at which
   * the recording stops; the frames buffered are those from the first speech
   * frame up to, but not including, the stopping frame.
   */
  method RecordUtterance(frames: seq<Frame>) returns (r: Capture)
    ensures r.Pending? <==> forall m :: 0 <= m < |frames| ==> !StopsAt(frames, m)
    ensures r.Done? ==>
      1 <= r.consumed <= |frames| && StopsAt(frames, r.consumed - 1) &&
      forall m :: 0 <= m < r.consumed - 1 ==> !StopsAt(frames, m)
    ensures r.Done? ==> r.clip == Clip(frames[FirstSpeech(frames)..r.consumed - 1])
  {
    var chunks: seq<Frame> := [];
    var speechStarted := false;
    var silenceStart: Option<int> := None;
    var i := 0;
    while i < |frames|
      invariant 0 <= i <= |frames|
      invariant Recording(frames, i, speechStarted, chunks, silenceStart)
      invariant NoStopBefore(frames, i)
    {
      var f := frames[i];
      if f.speech {
        SpeechFrame(frames, i, speechStarted, chunks, silenceStart);
        speechStarted := true;
        silenceStart := None;
      } else if speechStarted {
        if silenceStart == None {
          SilenceStarts(frames, i, chunks);
          silenceStart := Some(f.at);
        } else {
          SilenceContinues(frames, i, chunks, silenceStart.value);
          if f.at - silenceStart.value > SilenceMs {
            NoStopBeforeAll(frames, i);
            return Done(i + 1, Clip(chunks));
          }
          SilenceBuffered(frames, i, chunks, silenceStart.value);
        }
      } else {
        LeadingSilence(frames, i, chunks, silenceStart);
      }
      if speechStarted {
        chunks := chunks + [f];
      }
      i := i + 1;
    }
    NoStopBeforeAll(frames, |frames|);
    return Pending;
  }

  /**
   * What a stopped recording holds: it starts with the first speech frame
   * (nothing before it is kept), it includes the silence run so far, and the
   * stopping frame itself is not kept.
   */
  lemma StoppedBuffer(frames: seq<Frame>, n: nat)
    requires StopsAt(frames, n)
    ensures var buffered := frames[FirstSpeech(frames)..n];
      |buffered| >= 2 && buffered[0].speech && !buffered[|buffered| - 1].speech &&
      buffered == frames[FirstSpeech(frames)..RunStart(frames, n)] + frames[RunStart(frames, n)..n] &&
      forall m :: 0 <= m < FirstSpeech(frames) ==> !frames[m].speech
  {
  }

  /** A stream that never holds a speech frame never stops the recording. */
  lemma NoSpeechNeverStops(frames: seq<Frame>)
    requires forall m :: 0 <= m < |frames| ==> !frames[m].speech
    ensures forall m :: 0 <= m < |frames| ==> !StopsAt(frames, m)
  {
  }

  /**
   * After a speech frame at k, a silence run from k + 1 that reaches a frame
   * handled more than SilenceMs after the run began stops the recording there
   * at the latest.
   */
  lemma {:induction false} TrailingSilenceStops(frames: seq<Frame>, k: nat, i: nat)
    requires k < i < |frames| && frames[k].speech
    requires forall m :: k < m <= i ==> !frames[m].speech
    requires frames[i].at - frames[k + 1].at > SilenceMs
    ensures StopsAt(frames, i)
  {
    RunStartAfterSpeech(frames, k, i);
  }

  lemma {:induction false} RunStartAfterSpeech(frames: seq<Frame>, k: nat, i: nat)
    requires k < i <= |frames| && frames[k].speech
    requires forall m :: k < m < i ==> !frames[m].speech
    ensures RunStart(frames, i) == k + 1
    decreases i
  {
    if i > k + 1 {
      RunStartAfterSpeech(frames, k, i - 1);
    }
  }

  /**
   * When the clock advances by at most one frame duration per frame (the
   * frames arrive no slower than the audio), the trailing silence alone
   * is more than 15 frames long, so a recording that stops holds at least
   * 17 frames (1.7 s) and is never rejected as too short.
   */
  lemma {:induction false} PacedClipIsNeverRejected(frames: seq<Frame>, n: nat)
    requires StopsAt(frames, n)
    requires forall m :: 0 < m < |frames| ==> frames[m].at - frames[m - 1].at <= FrameMs
    ensures n - FirstSpeech(frames) >= 17
    ensures Clip(frames[FirstSpeech(frames)..n]).Some?
  {
    var j := RunStart(frames, n);
    ElapsedBound(frames, j, n);
    TooShortIffUnderFiveFrames(frames[FirstSpeech(frames)..n]);
  }

  lemma {:induction false} ElapsedBound(frames: seq<Frame>, j: nat, n: nat)
    requires j <= n < |frames|
    requires forall m :: 0 < m < |frames| ==> frames[m].at - frames[m - 1].at <= FrameMs
    ensures frames[n].at - frames[j].at <= FrameMs * (n - j)
    decreases n - j
  {
    if j < n {
      ElapsedBound(frames, j, n - 1);
    }
  }
}
