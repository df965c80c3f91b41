/**
 * The turn loop (`main`) and the two process-wide counters it shares with the
 * agent client. Each iteration first resets the counters when the turn limit
 * or the error limit is reached, then records, transcribes, filters, asks the
 * agent and speaks. An exception anywhere in an iteration counts as one more
 * consecutive error. The loop runs over a finite sequence of turns, each
 * describing what the recorder, the transcriber, the agent and the speech
 * backends produced in that iteration.
 */
module TurnLoop {
  import opened Wrappers
  import opened Text
  import opened AgentClient
  import Speech

  /** Consecutive errors that force a reset. */
  const MaxErrors: nat := 3

  /** Transcripts that the transcriber produces on near-silent input, compared after lower() and strip(). */
  const Denylist: seq<string> := [
    "", "you", "thank you.", "thanks for watching!",
    "thanks for watching.", "thank you for watching.",
    "bye.", "bye", "the end.", "hmm."
  ]

  /** What happened in one iteration of the loop, stage by stage. */
  datatype Turn =
    | RecorderRaised                  // an exception escaped the recorder
    | TooShort                        // the recorder returned None
    | TranscriberRaised               // an exception escaped the transcriber
    | Heard(transcript: string, agent: AgentCall, synthesis: Speech.Synthesis)

  /** A reply handed to `speak`, with the audible actions it led to. */
  datatype Spoken = Spoken(reply: string, actions: seq<Speech.Action>)

  datatype TurnResult = TurnResult(counters: Counters, spoken: Option<Spoken>)

  datatype Trace = Trace(counters: Counters, spoken: seq<Spoken>)

  /** The transcript filter: empty, or a denylisted phrase once lower-cased and stripped. */
  predicate IsDiscarded(text: string)
  {
    text == [] || Strip(Lower(text)) in Denylist
  }

  /**
   * The check at the top of every iteration: reaching the turn limit or the
   * error limit sets both counters to zero.
   */
  function Reset(c: Counters, maxTurns: int): (r: Counters)
    ensures r == if c.turns >= maxTurns || c.errors >= MaxErrors then Counters(0, 0) else c
    ensures r.errors < MaxErrors
    ensures maxTurns > 0 ==> r.turns < maxTurns
  {
    var c1 := if c.turns >= maxTurns then Counters(0, 0) else c;
    if c1.errors >= MaxErrors then Counters(0, 0) else c1
  }

  /** What an iteration does once the reset check is behind it, independently of the counters. */
  datatype Effect =
    | Ignored                                   // the turn is dropped: no agent call, counters untouched
    | Aborted                                   // an exception reached the loop's handler
    | Answered(response: Response, said: Spoken) // `ask_agent` returned and its response was spoken

  /** The stages of an iteration after the reset check: record, transcribe, filter, ask, speak. */
  function EffectOf(t: Turn, voice: Speech.Voice): Effect
  {
    match t
    case RecorderRaised => Aborted
    case TooShort => Ignored
    case TranscriberRaised => Aborted
    case Heard(text, call, synthesis) =>
      if IsDiscarded(text) then Ignored
      else
        var r := Respond(call);
        if r.Escaped? then Aborted else Answered(r, Spoken(r.text, Speech.Speak(voice, synthesis)))
  }

  /** The effects of a sequence of turns, in order. */
  function Effects(turns: seq<Turn>, voice: Speech.Voice): seq<Effect>
    decreases |turns|
  {
    if turns == [] then []
    else Effects(turns[..|turns| - 1], voice) + [EffectOf(turns[|turns| - 1], voice)]
  }

  /** One iteration of the loop: the reset check, then the counter update for its effect. */
  function Step(c: Counters, e: Effect, maxTurns: int): TurnResult
  {
    var c0 := Reset(c, maxTurns);
    match e
    case Ignored => TurnResult(c0, None)
    case Aborted => TurnResult(Counters(c0.turns, c0.errors + 1), None)
    case Answered(r, said) => TurnResult(Account(c0, r), Some(said))
  }

  /** The replies one iteration hands to `speak`: none, or one. */
  function Said(r: TurnResult): seq<Spoken>
  {
    if r.spoken.Some? then [r.spoken.value] else []
  }

  /**
   * The loop's counter policy over a sequence of effects, one iteration after
   * another: the final counters and every reply spoken, in order.
   */
  function Replay(c: Counters, effects: seq<Effect>, maxTurns: int): Trace
    decreases |effects|
  {
    if effects == [] then Trace(c, [])
    else
      var prefix := Replay(c, effects[..|effects| - 1], maxTurns);
      var last := Step(prefix.counters, effects[|effects| - 1], maxTurns);
      Trace(last.counters, prefix.spoken + Said(last))
  }

  /** The effects of one more turn are those of the turns before it, then its own. */
  lemma EffectsExtend(turns: seq<Turn>, i: nat, voice: Speech.Voice)
    requires i < |turns|
    ensures Effects(turns[..i + 1], voice) == Effects(turns[..i], voice) + [EffectOf(turns[i], voice)]
  {
    assert turns[..i + 1][..i] == turns[..i];
  }

  /** Replaying one more effect extends the trace by that effect's step. */
  lemma ReplayExtends(c: Counters, effects: seq<Effect>, e: Effect, maxTurns: int)
    ensures Replay(c, effects + [e], maxTurns) ==
      var prefix := Replay(c, effects, maxTurns);
      var last := Step(prefix.counters, e, maxTurns);
      Trace(last.counters, prefix.spoken + Said(last))
  {
    assert (effects + [e])[..|effects|] == effects;
  }

  /** The loop over a sequence of turns. */
  function Run(c: Counters, turns: seq<Turn>, voice: Speech.Voice, maxTurns: int): Trace
  {
    Replay(c, Effects(turns, voice), maxTurns)
  }

  /** The effect reaches the agent and gets a real reply. */
  predicate Succeeds(e: Effect)
  {
    e.Answered? && e.response.Reply?
  }

  /** The effect counts against the error budget: an apology, or an exception anywhere. */
  predicate Fails(e: Effect)
  {
    e.Aborted? || (e.Answered? && e.response.Apology?)
  }

  /**
   * A turn is ignored exactly when the recording was too short or the
   * transcript is filtered out; such a turn never reaches the agent.
   */
  lemma IgnoredIff(t: Turn, voice: Speech.Voice)
    ensures EffectOf(t, voice) == Ignored <==> t.TooShort? || (t.Heard? && IsDiscarded(t.transcript))
  {
  }

  /**
   * A turn fails exactly when the recorder or the transcriber raised, or the
   * transcript is kept and `ask_agent` apologised or raised.
   */
  lemma FailsIff(t: Turn, voice: Speech.Voice)
    ensures Fails(EffectOf(t, voice)) <==>
      t.RecorderRaised? || t.TranscriberRaised? ||
      (t.Heard? && !IsDiscarded(t.transcript) && !Respond(t.agent).Reply?)
  {
  }

  /**
   * A turn succeeds exactly when the transcript is kept and the agent gives a
   * real reply; the shaped joined reply is then spoken.
   */
  lemma SucceedsIff(t: Turn, voice: Speech.Voice)
    ensures Succeeds(EffectOf(t, voice)) <==>
      t.Heard? && !IsDiscarded(t.transcript) && Respond(t.agent).Reply?
    ensures Succeeds(EffectOf(t, voice)) ==>
      EffectOf(t, voice).said == Spoken(Shape(JoinReply(t.agent.payloads)), Speech.Speak(voice, t.synthesis))
  {
  }

  /**
   * A turn is answered exactly when the transcript is kept and `ask_agent`
   * returns rather than raising; whatever it returned, apology or reply, is
   * what is spoken.
   */
  lemma AnsweredIff(t: Turn, voice: Speech.Voice)
    ensures EffectOf(t, voice).Answered? <==>
      t.Heard? && !IsDiscarded(t.transcript) && !Respond(t.agent).Escaped?
    ensures EffectOf(t, voice).Answered? ==>
      EffectOf(t, voice).said == Spoken(Respond(t.agent).text, Speech.Speak(voice, t.synthesis))
  {
  }

  /** An ignored turn speaks nothing and leaves the counters as the reset left them. */
  lemma IgnoredKeepsCounters(c: Counters, maxTurns: int)
    ensures Step(c, Ignored, maxTurns) == TurnResult(Reset(c, maxTurns), None)
  {
  }

  /**
   * Any run of ignored turns after the first leaves the counters where the
   * reset check of the first one put them, and speaks nothing.
   */
  lemma {:induction false} IgnoredTurnsKeepCounters(c: Counters, before: seq<Effect>, ignored: seq<Effect>, maxTurns: int)
    requires ignored != []
    requires forall k :: 0 <= k < |ignored| ==> ignored[k] == Ignored
    ensures Replay(c, before + ignored, maxTurns) ==
      Trace(Reset(Replay(c, before, maxTurns).counters, maxTurns), Replay(c, before, maxTurns).spoken)
    decreases |ignored|
  {
    var n := |ignored| - 1;
    var prefix := Replay(c, before, maxTurns);
    assert before + ignored == (before + ignored[..n]) + [Ignored];
    ReplayExtends(c, before + ignored[..n], Ignored, maxTurns);
    if n == 0 {
      assert before + ignored[..n] == before;
    } else {
      IgnoredTurnsKeepCounters(c, before, ignored[..n], maxTurns);
      var r := Reset(prefix.counters, maxTurns);
      assert Reset(r, maxTurns) == r;
    }
  }

  /** A failing turn adds exactly one error and leaves the turn count as the reset left it. */
  lemma FailedStepCountsOneError(c: Counters, e: Effect, maxTurns: int)
    requires Fails(e)
    ensures Step(c, e, maxTurns).counters == Counters(Reset(c, maxTurns).turns, Reset(c, maxTurns).errors + 1)
    ensures Step(c, e, maxTurns).spoken == if e.Answered? then Some(e.said) else None
  {
  }

  /** A successful turn adds one turn, clears the error count and speaks its reply. */
  lemma SucceededStepCounts(c: Counters, e: Effect, maxTurns: int)
    requires Succeeds(e)
    ensures Step(c, e, maxTurns) == TurnResult(Counters(Reset(c, maxTurns).turns + 1, 0), Some(e.said))
  {
  }

  /**
   * Whatever the counters were, after any iteration there are at most
   * MaxErrors consecutive errors and, when the limit is positive, at most
   * maxTurns turns.
   */
  lemma CountersStayBounded(c: Counters, effects: seq<Effect>, maxTurns: int)
    requires effects != []
    ensures Replay(c, effects, maxTurns).counters.errors <= MaxErrors
    ensures maxTurns > 0 ==> Replay(c, effects, maxTurns).counters.turns <= maxTurns
  {
    var prefix := Replay(c, effects[..|effects| - 1], maxTurns);
    var c0 := Reset(prefix.counters, maxTurns);
    assert Replay(c, effects, maxTurns).counters == Step(prefix.counters, effects[|effects| - 1], maxTurns).counters;
    assert c0.errors < MaxErrors;
  }

  /**
   * Starting with no errors (after a success, or at start-up), three failing
   * turns in a row make the next iteration start from zero counters.
   */
  lemma ThreeFailuresForceReset(c: Counters, effects: seq<Effect>, maxTurns: int)
    requires c.errors == 0 && |effects| == 3
    requires forall k :: 0 <= k < 3 ==> Fails(effects[k])
    ensures Reset(Replay(c, effects, maxTurns).counters, maxTurns) == Counters(0, 0)
  {
    var s1 := Step(c, effects[0], maxTurns).counters;
    var s2 := Step(s1, effects[1], maxTurns).counters;
    var s3 := Step(s2, effects[2], maxTurns).counters;
    FailedStepCountsOneError(c, effects[0], maxTurns);
    FailedStepCountsOneError(s1, effects[1], maxTurns);
    FailedStepCountsOneError(s2, effects[2], maxTurns);
    assert Replay(c, effects, maxTurns).counters == s3 by {
      assert effects[..2][..1][..0] == [];
      assert effects[..2][..1] == effects[..1] && effects[..1][0] == effects[0];
      assert effects[..2][1] == effects[1];
      assert Replay(c, effects[..1], maxTurns).counters == s1;
      assert Replay(c, effects[..2], maxTurns).counters == s2;
    }
    if maxTurns > 0 {
      assert s1 == Counters(Reset(c, maxTurns).turns, 1);
      assert s2 == Counters(s1.turns, 2);
      assert s3 == Counters(s1.turns, 3);
    } else {
      assert s3.turns == 0;
    }
  }

  /**
   * Below the limits, each successful turn adds exactly one to the turn
   * count and keeps the error count at zero.
   */
  lemma {:induction false} SuccessesCountTurns(c: Counters, effects: seq<Effect>, maxTurns: int)
    requires c.errors == 0 && c.turns + |effects| <= maxTurns
    requires forall k :: 0 <= k < |effects| ==> Succeeds(effects[k])
    ensures Replay(c, effects, maxTurns).counters == Counters(c.turns + |effects|, 0)
    decreases |effects|
  {
    if effects != [] {
      var n := |effects| - 1;
      assert forall k :: 0 <= k < n ==> effects[..n][k] == effects[k];
      SuccessesCountTurns(c, effects[..n], maxTurns);
      var prefix := Replay(c, effects[..n], maxTurns).counters;
      assert Reset(prefix, maxTurns) == prefix;
      SucceededStepCounts(prefix, effects[n], maxTurns);
    }
  }

  /** From zero counters, maxTurns successful turns make the next iteration start from zero again. */
  lemma TurnLimitForcesReset(effects: seq<Effect>, maxTurns: int)
    requires |effects| == maxTurns
    requires forall k :: 0 <= k < |effects| ==> Succeeds(effects[k])
    ensures Replay(Counters(0, 0), effects, maxTurns).counters == Counters(maxTurns, 0)
    ensures Reset(Replay(Counters(0, 0), effects, maxTurns).counters, maxTurns) == Counters(0, 0)
  {
    SuccessesCountTurns(Counters(0, 0), effects, maxTurns);
  }

  /** The counters decide nothing about what is said: the replies and their playback depend on the turns alone. */
  lemma {:induction false} SpokenIndependentOfCounters(c1: Counters, c2: Counters, effects: seq<Effect>, maxTurns: int)
    ensures Replay(c1, effects, maxTurns).spoken == Replay(c2, effects, maxTurns).spoken
    decreases |effects|
  {
    if effects != [] {
      var n := |effects| - 1;
      SpokenIndependentOfCounters(c1, c2, effects[..n], maxTurns);
      var p1 := Replay(c1, effects[..n], maxTurns);
      var p2 := Replay(c2, effects[..n], maxTurns);
      assert Step(p1.counters, effects[n], maxTurns).spoken == Step(p2.counters, effects[n], maxTurns).spoken;
    }
  }

  /** The filter decided from the normalised form of a non-empty transcript. */
  lemma DiscardedByNormalForm(text: string, lowered: string, stripped: string)
    requires text != [] && Lower(text) == lowered && Strip(lowered) == stripped
    ensures IsDiscarded(text) <==> stripped in Denylist
  {
  }

  lemma LowerThankYou()
    ensures Lower("Thank You.") == "thank you."
  {
  }

  lemma StripThankYou()
    ensures Strip("thank you.") == "thank you."
  {
    assert "thank you."[0] == 't' && "thank you."[9] == '.';
  }

  lemma LowerBye()
    ensures Lower(" BYE ") == " bye "
  {
  }

  lemma StripBye()
    ensures Strip(" bye ") == "bye"
  {
    assert " bye "[0] == ' ' && " bye "[1..] == "bye ";
    assert "bye "[0] == 'b';
    assert TrimStart(" bye ") == "bye ";
    assert "bye "[3] == ' ' && "bye "[..3] == "bye";
    assert "bye"[2] == 'e';
    assert TrimEnd("bye ") == "bye";
  }

  lemma ListedThankYou()
    ensures "thank you." in Denylist
  {
    assert Denylist[2] == "thank you.";
  }

  lemma ListedBye()
    ensures "bye" in Denylist
  {
    assert Denylist[7] == "bye";
  }

  lemma LowerNearMiss()
    ensures Lower("thank you") == "thank you"
  {
  }

  lemma StripNearMiss()
    ensures Strip("thank you") == "thank you"
  {
    assert "thank you"[0] == 't' && "thank you"[8] == 'u';
  }

  /** The filter ignores case: "Thank You." is dropped. */
  lemma FilterDropsCapitalised()
    ensures IsDiscarded("Thank You.")
  {
    LowerThankYou();
    StripThankYou();
    ListedThankYou();
    DiscardedByNormalForm("Thank You.", "thank you.", "thank you.");
  }

  /** The filter strips surrounding whitespace before comparing. */
  lemma FilterStripsSpace()
    ensures IsDiscarded(" BYE ")
  {
    LowerBye();
    StripBye();
    ListedBye();
    DiscardedByNormalForm(" BYE ", " bye ", "bye");
  }

  /** The comparison is exact: "thank you" without the period is kept. */
  lemma FilterKeepsNearMiss()
    ensures !IsDiscarded("thank you")
  {
    LowerNearMiss();
    StripNearMiss();
    DiscardedByNormalForm("thank you", "thank you", "thank you");
    assert "thank you" !in Denylist;
  }

  /** Lower-casing a transcript first does not change whether it is dropped. */
  lemma DiscardIgnoresCase(text: string)
    ensures IsDiscarded(Lower(text)) == IsDiscarded(text)
  {
    LowerIdempotent(text);
  }

  /** Whitespace around a transcript does not change whether it is dropped. */
  lemma DiscardIgnoresOuterSpace(w: string, text: string, w': string)
    requires AllSpace(w) && AllSpace(w')
    ensures IsDiscarded(w + text + w') == IsDiscarded(text)
  {
    LowerAppend(w + text, w');
    LowerAppend(w, text);
    LowerKeepsSpace(w);
    LowerKeepsSpace(w');
    StripOuterSpace(w, Lower(text), w');
    assert Denylist[0] == "";
    if text == [] {
      assert Lower(text) == [];
    }
  }

  /** The owner of the process-wide counters and of the loop. */
  class VoiceLoop {
    /** MAX_TURNS. */
    const maxTurns: int
    /** Which speech backend keys are configured, and whether the speed differs from 1.0. */
    const voice: Speech.Voice
    var turnCount: nat
    var consecutiveErrors: nat

    function State(): Counters
      reads this
    {
      Counters(turnCount, consecutiveErrors)
    }

    constructor (maxTurns: int, voice: Speech.Voice)
      ensures this.maxTurns == maxTurns && this.voice == voice
      ensures State() == Counters(0, 0)
    {
      this.maxTurns := maxTurns;
      this.voice := voice;
      turnCount := 0;
      consecutiveErrors := 0;
    }

    /** The reset check at the top of an iteration. */
    method ResetIfNeeded()
      modifies this
      ensures State() == Reset(old(State()), maxTurns)
    {
      if turnCount >= maxTurns {
        turnCount := 0;
        consecutiveErrors := 0;
      }
      if consecutiveErrors >= MaxErrors {
        turnCount := 0;
        consecutiveErrors := 0;
      }
    }

    /**
     * `ask_agent`: turns the outcome of the agent call into the response and
     * updates the counters. The transcript only shapes the agent call, whose
     * outcome is given.
     */
    method AskAgent(call: AgentCall) returns (r: Response)
      modifies this
      ensures r == Respond(call)
      ensures State() == Account(old(State()), r)
    {
      match call
      case TimedOut =>
        consecutiveErrors := consecutiveErrors + 1;
        r := Apology(TimeoutApology);
      case ExitedNonZero =>
        consecutiveErrors := consecutiveErrors + 1;
        r := Apology(ExitApology);
      case Unparsable =>
        consecutiveErrors := consecutiveErrors + 1;
        r := Apology(ParseApology);
      case Raised =>
        r := Escaped;
      case Responded(payloads) =>
        var reply := JoinReply(payloads);
        if reply == [] {
          consecutiveErrors := consecutiveErrors + 1;
          r := Apology(EmptyApology);
        } else {
          reply := Truncate(reply);
          reply := StripMarkdown(reply);
          turnCount := turnCount + 1;
          consecutiveErrors := 0;
          r := Reply(reply);
        }
    }

    /**
     * One iteration of `main`'s loop: the reset check, then recording,
     * transcription, the filter, the agent and `speak`; an exception from
     * any stage counts as one more consecutive error.
     */
    method RunTurn(t: Turn) returns (said: Option<Spoken>)
      modifies this
      ensures TurnResult(State(), said) == Step(old(State()), EffectOf(t, voice), maxTurns)
    {
      ResetIfNeeded();
      said := None;
      match t {
        case RecorderRaised =>
          consecutiveErrors := consecutiveErrors + 1;
        case TooShort =>
        case TranscriberRaised =>
          consecutiveErrors := consecutiveErrors + 1;
        case Heard(text, call, synthesis) =>
          if !IsDiscarded(text) {
            var r := AskAgent(call);
            if r.Escaped? {
              assert EffectOf(t, voice) == Aborted;
              consecutiveErrors := consecutiveErrors + 1;
            } else {
              said := Some(Spoken(r.text, Speech.Speak(voice, synthesis)));
              assert EffectOf(t, voice) == Answered(r, said.value);
            }
          } else {
            assert EffectOf(t, voice) == Ignored;
          }
      }
    }

    /**
     * `main`'s loop over the given turns: the counters end as Run says and
     * the replies handed to `speak` are those Run lists.
     */
    method RunTurns(turns: seq<Turn>) returns (spoken: seq<Spoken>)
      modifies this
      ensures Trace(State(), spoken) == Run(old(State()), turns, voice, maxTurns)
    {
      spoken := [];
      var i := 0;
      while i < |turns|
        invariant 0 <= i <= |turns|
        invariant Trace(State(), spoken) == Replay(old(State()), Effects(turns[..i], voice), maxTurns)
      {
        ghost var e := EffectOf(turns[i], voice);
        ghost var step := Step(State(), e, maxTurns);
        EffectsExtend(turns, i, voice);
        ReplayExtends(old(State()), Effects(turns[..i], voice), e, maxTurns);
        ghost var spokenBefore := spoken;
        var said := RunTurn(turns[i]);
        assert State() == step.counters && said == step.spoken;
        if said.Some? {
          spoken := spoken + [said.value];
        }
        assert spoken == spokenBefore + Said(step);
        i := i + 1;
      }
      assert turns[..i] == turns;
    }
  }
}
