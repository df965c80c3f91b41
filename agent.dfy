/**
 * The agent client (`ask_agent`): how the outcome of the agent call becomes
 * the reply that is spoken and how it moves the two session counters. The
 * subprocess and the JSON decoding are not modelled; their outcome is the
 * input `AgentCall`.
 */
module AgentClient {
  import opened Wrappers
  import opened Text

  const MaxReplyChars: nat := 500

  const TimeoutApology := "Sorry, that took too long. Try again."
  const ExitApology := "Sorry, I hit an error. Try again."
  const EmptyApology := "I processed that but had nothing to say."
  const ParseApology := "Sorry, something went wrong parsing the response."

  /** The literal markdown sequences removed from a reply, in the order they are removed. */
  const MarkdownTokens: seq<string> := ["**", "```", "`", "- ", "* "]

  /** The `text` of one payload: None when absent or when it is a false-like non-string value. */
  datatype Payload = Payload(text: Option<string>)

  /** How the agent subprocess and the decoding of its output ended. */
  datatype AgentCall =
    | TimedOut                           // subprocess.TimeoutExpired
    | ExitedNonZero                      // non-zero return code
    | Unparsable                         // json.loads raised a decode error
    | Responded(payloads: seq<Payload>)  // result.payloads (missing keys read as empty)
    | Raised                             // any other exception: the agent could not be launched,
                                         // or the document has the wrong shape

  /** What `ask_agent` gives back to the turn loop. */
  datatype Response =
    | Apology(text: string)  // one of the four fixed error replies
    | Reply(text: string)    // a shaped agent reply
    | Escaped                // the exception propagates out of ask_agent

  /** The process-wide counters `turn_count` and `consecutive_errors`. */
  datatype Counters = Counters(turns: nat, errors: nat)

  /** The texts that take part in the reply: the non-empty ones, in payload order. */
  function KeptTexts(payloads: seq<Payload>): (texts: seq<string>)
    ensures |texts| <= |payloads|
    ensures forall t :: t in texts <==> exists k :: 0 <= k < |payloads| && payloads[k].text == Some(t) && t != []
    decreases |payloads|
  {
    if payloads == [] then []
    else
      var p := payloads[0];
      (if p.text.Some? && p.text.value != [] then [p.text.value] else []) + KeptTexts(payloads[1..])
  }

  /** The joined reply: kept texts joined by single spaces, then stripped. */
  function JoinReply(payloads: seq<Payload>): string
  {
    Strip(JoinWithSpaces(KeptTexts(payloads)))
  }

  /** Keeping texts commutes with splitting the payload list. */
  lemma {:induction false} KeptTextsAppend(a: seq<Payload>, b: seq<Payload>)
    ensures KeptTexts(a + b) == KeptTexts(a) + KeptTexts(b)
    decreases |a|
  {
    if a == [] {
      assert a + b == b;
    } else {
      assert (a + b)[1..] == a[1..] + b;
      KeptTextsAppend(a[1..], b);
    }
  }

  /** Joining two non-empty lists puts exactly one space between their joins. */
  lemma {:induction false} JoinAppend(a: seq<string>, b: seq<string>)
    requires a != [] && b != []
    ensures JoinWithSpaces(a + b) == JoinWithSpaces(a) + " " + JoinWithSpaces(b)
    decreases |a|
  {
    if |a| == 1 {
      assert (a + b)[1..] == b;
    } else {
      assert (a + b)[1..] == a[1..] + b;
      JoinAppend(a[1..], b);
    }
  }

  predicate EveryPartSpace(parts: seq<string>)
  {
    forall k :: 0 <= k < |parts| ==> AllSpace(parts[k])
  }

  /** The join is all whitespace exactly when every part is. */
  lemma {:induction false} JoinAllSpace(parts: seq<string>)
    ensures AllSpace(JoinWithSpaces(parts)) <==> EveryPartSpace(parts)
    decreases |parts|
  {
    if |parts| > 1 {
      JoinAllSpace(parts[1..]);
      var rest := JoinWithSpaces(parts[1..]);
      var whole := parts[0] + " " + rest;
      assert whole == JoinWithSpaces(parts);
      if AllSpace(whole) {
        assert forall i :: 0 <= i < |parts[0]| ==> whole[i] == parts[0][i];
        assert forall i :: 0 <= i < |rest| ==> whole[|parts[0]| + 1 + i] == rest[i];
        assert forall k :: 1 <= k < |parts| ==> parts[k] == parts[1..][k - 1];
      }
      if forall k :: 0 <= k < |parts| ==> AllSpace(parts[k]) {
        assert forall k :: 0 <= k < |parts| - 1 ==> parts[1..][k] == parts[k + 1];
        assert AllSpace(rest);
        forall i | 0 <= i < |whole| ensures IsSpace(whole[i]) {
          if i < |parts[0]| {
            assert whole[i] == parts[0][i];
          } else if i > |parts[0]| {
            assert whole[i] == rest[i - |parts[0]| - 1];
          }
        }
      }
    }
  }

  /**
   * The empty-reply error is taken exactly when every non-empty payload text
   * is whitespace only (including when there is none).
   */
  lemma EmptyJoinIff(payloads: seq<Payload>)
    ensures JoinReply(payloads) == [] <==> EveryPartSpace(KeptTexts(payloads))
  {
    var parts := KeptTexts(payloads);
    JoinAllSpace(parts);
    assert JoinReply(payloads) == Strip(JoinWithSpaces(parts));
    StripFacts(JoinWithSpaces(parts));
  }

  /** The example of a reply given in two payloads. */
  lemma JoinExample()
    ensures JoinReply([Payload(Some("It's sunny")), Payload(Some("and 70 degrees."))]) == "It's sunny and 70 degrees."
  {
    var ps := [Payload(Some("It's sunny")), Payload(Some("and 70 degrees."))];
    assert ps[1..][1..] == [];
    assert KeptTexts(ps[1..]) == ["and 70 degrees."];
    assert KeptTexts(ps) == ["It's sunny", "and 70 degrees."];
  }

  /**
   * Truncation for speech: a reply over MaxReplyChars characters is cut to
   * its first MaxReplyChars; when the last period in that prefix lies past
   * the halfway point the cut is made just after it, otherwise "..." is
   * appended.
   */
  function Truncate(reply: string): (r: string)
    ensures |reply| <= MaxReplyChars ==> r == reply
    ensures |reply| > MaxReplyChars && (exists k :: MaxReplyChars / 2 < k < MaxReplyChars && reply[k] == '.') ==>
      MaxReplyChars / 2 + 1 < |r| <= MaxReplyChars && r == reply[..|r|] && r[|r| - 1] == '.' &&
      forall m :: |r| <= m < MaxReplyChars ==> reply[m] != '.'
    ensures |reply| > MaxReplyChars && (forall k :: MaxReplyChars / 2 < k < MaxReplyChars ==> reply[k] != '.') ==>
      r == reply[..MaxReplyChars] + "..."
    ensures |r| <= MaxReplyChars + 3
  {
    if |reply| > MaxReplyChars then
      var truncated := reply[..MaxReplyChars];
      var lastPeriod := LastIndexOf(truncated, '.');
      if lastPeriod > MaxReplyChars / 2 then truncated[..lastPeriod + 1] else truncated + "..."
    else
      reply
  }

  /** Removes each markdown token in turn, as successive `replace(token, "")` calls. */
  function RemoveTokens(s: string, tokens: seq<string>): string
    requires forall k :: 0 <= k < |tokens| ==> tokens[k] != []
    decreases |tokens|
  {
    if tokens == [] then s else RemoveTokens(RemoveAll(s, tokens[0]), tokens[1..])
  }

  /** The markdown strip of a reply. */
  function StripMarkdownOf(s: string): string
  {
    RemoveTokens(s, MarkdownTokens)
  }

  /**
   * The strip loop of `ask_agent`: one `replace` per token, reassigning the
   * reply each time.
   */
  method StripMarkdown(reply: string) returns (r: string)
    ensures r == StripMarkdownOf(reply)
    ensures IsSubsequence(r, reply) && |r| <= |reply|
    ensures '`' !in r
  {
    r := reply;
    for i := 0 to |MarkdownTokens|
      invariant RemoveTokens(r, MarkdownTokens[i..]) == StripMarkdownOf(reply)
    {
      assert MarkdownTokens[i..][1..] == MarkdownTokens[i + 1..];
      r := RemoveAll(r, MarkdownTokens[i]);
    }
    assert MarkdownTokens[|MarkdownTokens|..] == [];
    StripDeletesOnly(reply);
    StripRemovesBackticks(reply);
  }

  lemma {:induction false} RemoveTokensIsSubsequence(s: string, tokens: seq<string>)
    requires forall k :: 0 <= k < |tokens| ==> tokens[k] != []
    ensures IsSubsequence(RemoveTokens(s, tokens), s)
    decreases |tokens|
  {
    if tokens == [] {
      SubsequenceRefl(s);
    } else {
      var t := RemoveAll(s, tokens[0]);
      RemoveAllIsSubsequence(s, tokens[0]);
      RemoveTokensIsSubsequence(t, tokens[1..]);
      SubsequenceTrans(RemoveTokens(t, tokens[1..]), t, s);
    }
  }

  /** Stripping markdown only deletes characters, so it never lengthens the reply. */
  lemma StripDeletesOnly(s: string)
    ensures IsSubsequence(StripMarkdownOf(s), s)
    ensures |StripMarkdownOf(s)| <= |s|
  {
    RemoveTokensIsSubsequence(s, MarkdownTokens);
    SubsequenceShorter(StripMarkdownOf(s), s);
  }

  /** No backtick survives the strip. */
  lemma StripRemovesBackticks(s: string)
    ensures '`' !in StripMarkdownOf(s)
  {
    var t1 := RemoveAll(s, "**");
    var t2 := RemoveAll(t1, "```");
    var t3 := RemoveAll(t2, "`");
    var t4 := RemoveAll(t3, "- ");
    var t5 := RemoveAll(t4, "* ");
    assert StripMarkdownOf(s) == t5 by {
      assert MarkdownTokens[1..][1..][1..][1..][1..] == [];
    }
    RemoveAllChar(t2, '`');
    RemoveAllIsSubsequence(t3, "- ");
    SubsequenceAvoids(t4, t3, '`');
    RemoveAllIsSubsequence(t4, "* ");
    SubsequenceAvoids(t5, t4, '`');
  }

  /** A reply with no `*`, backtick or `-` is left as it is. */
  lemma StripKeepsPlainText(s: string)
    requires '*' !in s && '`' !in s && '-' !in s
    ensures StripMarkdownOf(s) == s
  {
    assert MarkdownTokens[1..][1..][1..][1..][1..] == [];
    RemoveAllAbsent(s, "**");
    RemoveAllAbsent(s, "```");
    RemoveAllAbsent(s, "`");
    RemoveAllAbsent(s, "- ");
    RemoveAllAbsent(s, "* ");
  }

  /** Stripping is not idempotent: deleting "- " can bring two `*` together. */
  lemma StripIsNotIdempotent()
    ensures StripMarkdownOf("*- *") == "**"
    ensures StripMarkdownOf("**") == ""
  {
    StripDashedStars("*- *");
    StripStars("**");
  }

  lemma StripDashedStars(s: string)
    requires s == "*- *"
    ensures StripMarkdownOf(s) == "**"
  {
    assert MarkdownTokens[1..][1..][1..][1..][1..] == [];
    assert RemoveAll(s, "**") == s by {
      assert s[..2][1] == '-';
      assert s[1..] == "- *";
      assert "- *"[..2][0] == '-';
      assert "- *"[1..] == " *";
      assert " *"[..2][0] == ' ';
      assert " *"[1..] == "*";
    }
    RemoveAllAbsent(s, "```");
    RemoveAllAbsent(s, "`");
    assert RemoveAll(s, "- ") == "**" by {
      assert s[1..][..2] == "- ";
      assert s[1..][2..] == "*";
    }
    assert RemoveAll("**", "* ") == "**" by {
      assert "**"[1..] == "*";
    }
  }

  lemma StripStars(s: string)
    requires s == "**"
    ensures StripMarkdownOf(s) == ""
  {
    assert MarkdownTokens[1..][1..][1..][1..][1..] == [];
    assert RemoveAll(s, "**") == "" by {
      assert s[..2] == "**";
    }
    RemoveAllAbsent("", "```");
    RemoveAllAbsent("", "`");
    RemoveAllAbsent("", "- ");
    RemoveAllAbsent("", "* ");
  }

  /** The reply shaping applied on success: truncate, then strip markdown. */
  function Shape(joined: string): (r: string)
    ensures |r| <= MaxReplyChars + 3
    ensures '`' !in r
    ensures IsSubsequence(r, Truncate(joined))
  {
    StripDeletesOnly(Truncate(joined));
    StripRemovesBackticks(Truncate(joined));
    StripMarkdownOf(Truncate(joined))
  }

  /** What `ask_agent` returns for each outcome of the agent call. */
  function Respond(call: AgentCall): (r: Response)
    ensures r.Escaped? <==> call.Raised?
    ensures r.Apology? <==>
      call.TimedOut? || call.ExitedNonZero? || call.Unparsable? ||
      (call.Responded? && JoinReply(call.payloads) == [])
    ensures call.TimedOut? ==> r == Apology(TimeoutApology)
    ensures call.ExitedNonZero? ==> r == Apology(ExitApology)
    ensures call.Unparsable? ==> r == Apology(ParseApology)
    ensures call.Responded? && JoinReply(call.payloads) == [] ==> r == Apology(EmptyApology)
    ensures r.Reply? ==> call.Responded? && r.text == Shape(JoinReply(call.payloads))
  {
    match call
    case TimedOut => Apology(TimeoutApology)
    case ExitedNonZero => Apology(ExitApology)
    case Unparsable => Apology(ParseApology)
    case Responded(payloads) =>
      var joined := JoinReply(payloads);
      if joined == [] then Apology(EmptyApology) else Reply(Shape(joined))
    case Raised => Escaped
  }

  /**
   * How `ask_agent` moves the counters: an apology adds one to the error
   * count, a reply adds one turn and clears the error count, and an escaping
   * exception leaves both as they were (the loop counts it).
   */
  function Account(c: Counters, r: Response): (c': Counters)
    ensures r.Apology? ==> c'.turns == c.turns && c'.errors == c.errors + 1
    ensures r.Reply? ==> c'.turns == c.turns + 1 && c'.errors == 0
    ensures r.Escaped? ==> c' == c
  {
    match r
    case Apology(_) => Counters(c.turns, c.errors + 1)
    case Reply(_) => Counters(c.turns + 1, 0)
    case Escaped => c
  }

  /**
   * The empty-reply check comes before the markdown strip: a reply made only
   * of markdown tokens passes it, is spoken as an empty text and counts as a
   * successful turn.
   */
  lemma MarkdownOnlyReplyCounts(c: Counters, payloads: seq<Payload>)
    requires payloads == [Payload(Some("**"))]
    ensures Respond(Responded(payloads)) == Reply("")
    ensures Account(c, Respond(Responded(payloads))) == Counters(c.turns + 1, 0)
  {
    JoinStars();
    ShapeStars();
    assert JoinReply(payloads) == "**";
  }

  lemma JoinStars()
    ensures JoinReply([Payload(Some("**"))]) == "**"
  {
    var payloads := [Payload(Some("**"))];
    assert KeptTexts(payloads) == ["**"] by {
      assert payloads[1..] == [];
    }
    assert "**"[0] == '*' && "**"[1] == '*';
  }

  lemma ShapeStars()
    ensures Shape("**") == ""
  {
    assert Truncate("**") == "**";
    StripIsNotIdempotent();
  }
}
