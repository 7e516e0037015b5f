/**
 * The streaming path, `GroqClient.generate_response_stream`.  The remote
 * stream is an input: a finite list of events, each chunk stamped with the
 * event-loop time at which it was handled, and `start` the time read just
 * before the loop.  The generator's output is the list of fragments it yields.
 */
module StreamRelay {
  import opened Wrappers
  import opened AsciiText
  import opened Messages
  import opened Greetings
  import opened Slices

  /** `chunk.choices[0]`: the delta's content (absent when the attribute is missing) and the finish reason. */
  datatype Choice = Choice(content: Option<string>, finishReason: Option<string>)

  /**
   * One step of iterating the remote stream: a chunk (`choice` is `None`
   * when `chunk.choices` is empty), a chunk whose handling raises (caught
   * inside the loop), or the stream itself raising (caught outside it).
   */
  datatype StreamEvent =
    | Chunk(choice: Option<Choice>, time: int)
    | Malformed
    | StreamFailure(message: string)

  /** Seconds without new content after which the relay gives up. */
  const TimeoutSeconds: int := 45

  /** What a chunk contributes: its delta content when that is a non-empty string. */
  function Delta(choice: Option<Choice>): (yielded: seq<string>)
    ensures |yielded| <= 1
    ensures forall s :: s in yielded ==> s != ""
    ensures yielded != [] <==> choice.Some? && choice.value.content.Some? && choice.value.content.value != ""
  {
    match choice
    case Some(Choice(Some(text), _)) => if text != "" then [text] else []
    case _ => []
  }

  /** `chunk.choices[0].finish_reason` is truthy. */
  predicate Finishes(choice: Option<Choice>) {
    choice.Some? && choice.value.finishReason.Some? && choice.value.finishReason.value != ""
  }

  /** `last_chunk_time` after handling `e`: moved to the chunk's time only when the chunk carried content. */
  function NextLast(e: StreamEvent, last: int): int {
    if e.Chunk? && Delta(e.choice) != [] then e.time else last
  }

  /** How the loop over the stream ended. */
  datatype LoopExit = Exhausted | Finished | TimedOut | Raised(message: string)

  /** The fragments the loop yielded, how many events it took, and why it stopped. */
  datatype RelayOutcome = RelayOutcome(yielded: seq<string>, consumed: nat, exit: LoopExit)

  /** An outcome continued from a state that had already yielded `prefix` after `skipped` events. */
  function Resume(prefix: seq<string>, skipped: nat, o: RelayOutcome): RelayOutcome {
    RelayOutcome(prefix + o.yielded, skipped + o.consumed, o.exit)
  }

  /** The loop over the stream, from a state whose `last_chunk_time` is `last`. */
  function Relay(events: seq<StreamEvent>, last: int): (o: RelayOutcome)
    ensures o.consumed <= |events|
    ensures o.exit == Exhausted ==> o.consumed == |events|
    ensures o.exit != Exhausted ==> o.consumed >= 1
    decreases |events|
  {
    if events == [] then RelayOutcome([], 0, Exhausted)
    else
      match events[0]
      case StreamFailure(m) => RelayOutcome([], 1, Raised(m))
      case Malformed => Resume([], 1, Relay(events[1..], last))
      case Chunk(choice, t) =>
        var y := Delta(choice);
        var last' := NextLast(events[0], last);
        if Finishes(choice) then RelayOutcome(y, 1, Finished)
        else if t - last' > TimeoutSeconds then RelayOutcome(y, 1, TimedOut)
        else Resume(y, 1, Relay(events[1..], last'))
  }

  // A reference description of the loop, stated over the whole event list.

  /** What handling `e` alone yields. */
  function Contribution(e: StreamEvent): seq<string>
  {
    if e.Chunk? then Delta(e.choice) else []
  }

  /** The non-empty delta contents among `events`, in order. */
  function Deltas(events: seq<StreamEvent>): seq<string>
  {
    if events == [] then [] else Contribution(events[0]) + Deltas(events[1..])
  }

  /** The time of the latest chunk in `events` that carried content, or `start` if there is none. */
  function LastContentTime(events: seq<StreamEvent>, start: int): int
  {
    if events == [] then start
    else
      var e := events[|events| - 1];
      if e.Chunk? && Delta(e.choice) != [] then e.time
      else LastContentTime(events[..|events| - 1], start)
  }

  /**
   * The loop leaves right after `events[j]`: a stream failure, a finishing
   * chunk, or a chunk that comes more than 45 seconds after the latest content.
   */
  predicate StopsAt(events: seq<StreamEvent>, start: int, j: nat)
    requires j < |events|
  {
    match events[j]
    case StreamFailure(_) => true
    case Malformed => false
    case Chunk(choice, t) => Finishes(choice) || t - LastContentTime(events[..j + 1], start) > TimeoutSeconds
  }

  /** The reason the loop gives when it stops at `events[j]`. */
  function ExitAt(events: seq<StreamEvent>, j: nat): LoopExit
    requires j < |events|
  {
    match events[j]
    case StreamFailure(m) => Raised(m)
    case Chunk(choice, _) => if Finishes(choice) then Finished else TimedOut
    case Malformed => Exhausted
  }

  /** The first event either stops the loop or hands the rest over with the updated `last_chunk_time`. */
  lemma {:induction false} FirstStep(events: seq<StreamEvent>, start: int)
    requires events != []
    ensures StopsAt(events, start, 0) ==>
              Relay(events, start) == RelayOutcome(Contribution(events[0]), 1, ExitAt(events, 0))
    ensures !StopsAt(events, start, 0) ==>
              Relay(events, start) == Resume(Contribution(events[0]), 1, Relay(events[1..], NextLast(events[0], start)))
  {
    var e := events[0];
    assert events[..1] == [e];
    assert [e][..0] == [];
    assert LastContentTime([e], start) == NextLast(e, start);
  }

  lemma {:induction false} DeltasAppend(a: seq<StreamEvent>, b: seq<StreamEvent>)
    ensures Deltas(a + b) == Deltas(a) + Deltas(b)
  {
    if a == [] {
      assert a + b == b;
    } else {
      assert (a + b)[1..] == a[1..] + b;
      DeltasAppend(a[1..], b);
    }
  }

  /** Dropping the first event moves its effect on `last_chunk_time` into the start value. */
  lemma {:induction false} LastContentTimeShift(events: seq<StreamEvent>, last: int, n: nat)
    requires 1 <= n <= |events|
    ensures LastContentTime(events[..n], last) == LastContentTime(events[1..n], NextLast(events[0], last))
  {
    var e := events[n - 1];
    assert events[..n][|events[..n]| - 1] == e;
    assert events[..n][..n - 1] == events[..n - 1];
    if n == 1 {
      assert events[..n - 1] == [];
      assert events[1..n] == [];
    } else {
      assert events[1..n][|events[1..n]| - 1] == e;
      assert events[1..n][..n - 2] == events[1..n - 1];
      if !(e.Chunk? && Delta(e.choice) != []) {
        LastContentTimeShift(events, last, n - 1);
      }
    }
  }

  lemma {:induction false} StopsAtShift(events: seq<StreamEvent>, last: int, j: nat)
    requires 1 <= j < |events|
    ensures StopsAt(events, last, j) == StopsAt(events[1..], NextLast(events[0], last), j - 1)
    ensures ExitAt(events, j) == ExitAt(events[1..], j - 1)
  {
    assert events[1..][..j] == events[1..j + 1];
    LastContentTimeShift(events, last, j + 1);
  }

  /**
   * The loop takes the events up to and including the first one at which it
   * stops (all of them if there is none), yields exactly the non-empty delta
   * contents among those, and reports that event's reason.
   */
  lemma {:induction false} RelayStopsAtFirstStop(events: seq<StreamEvent>, start: int)
    ensures var o := Relay(events, start);
            && o.yielded == Deltas(events[..o.consumed])
            && (forall j :: 0 <= j < o.consumed - 1 ==> !StopsAt(events, start, j))
            && (o.exit == Exhausted ==> forall j :: 0 <= j < |events| ==> !StopsAt(events, start, j))
            && (o.exit != Exhausted ==> StopsAt(events, start, o.consumed - 1) && o.exit == ExitAt(events, o.consumed - 1))
    decreases |events|
  {
    if events != [] {
      var e := events[0];
      FirstStep(events, start);
      assert Deltas([e]) == Contribution(e) by {
        assert [e][1..] == [];
      }
      if StopsAt(events, start, 0) {
        assert events[..1] == [e];
      } else {
        var rest := events[1..];
        var last' := NextLast(e, start);
        var r := Relay(rest, last');
        RelayStopsAtFirstStop(rest, last');
        assert events[..1 + r.consumed] == [e] + rest[..r.consumed];
        DeltasAppend([e], rest[..r.consumed]);
        forall j | 1 <= j < |events|
          ensures StopsAt(events, start, j) == StopsAt(rest, last', j - 1)
          ensures ExitAt(events, j) == ExitAt(rest, j - 1)
        {
          StopsAtShift(events, start, j);
        }
      }
    }
  }

  /** Yielded when the accumulated text is blank. */
  const Apology: string := "I apologize, but I didn't receive a complete response. Please try asking your question again, perhaps in a different way."

  /** Yielded when the accumulated text is shorter than ten characters. */
  const Disclaimer: string := "\n\n*If this response seems incomplete, please let me know and I'll provide more details.*"

  /** The fragment yielded when the stream raises. */
  function StreamError(message: string): string
  {
    "I encountered an error while processing your request: " + message + ". Please try again."
  }

  /** The error fragment names the exception's message verbatim: different messages give different fragments. */
  lemma {:induction false} StreamErrorInjective(m: string, n: string)
    requires StreamError(m) == StreamError(n)
    ensures m == n
  {
    CancelAround("I encountered an error while processing your request: ", m, n, ". Please try again.");
  }

  /** What follows the loop's fragments: an error, an apology, a disclaimer, or nothing. */
  function Closing(o: RelayOutcome): seq<string>
  {
    match o.exit
    case Raised(m) => [StreamError(m)]
    case _ =>
      var accumulated := Concat(o.yielded);
      if Strip(accumulated) == "" then [Apology]
      else if |accumulated| < 10 then [Disclaimer]
      else []
  }

  /**
   * At most one fragment follows the loop's: the error after a failure;
   * otherwise the apology exactly when the text is all whitespace, the
   * disclaimer exactly when it is non-blank but shorter than 10, else none.
   */
  lemma {:induction false} ClosingCases(o: RelayOutcome)
    ensures |Closing(o)| <= 1
    ensures o.exit.Raised? ==> Closing(o) == [StreamError(o.exit.message)]
    ensures !o.exit.Raised? ==>
              var text := Concat(o.yielded);
              Closing(o) == if forall i :: 0 <= i < |text| ==> IsSpace(text[i]) then [Apology]
                            else if |text| < 10 then [Disclaimer]
                            else []
  {
    if !o.exit.Raised? {
      var text := Concat(o.yielded);
      StripEmptyIffBlank(text);
      if Strip(text) == "" {
        assert Closing(o) == [Apology];
      } else if |text| < 10 {
        assert Closing(o) == [Disclaimer];
      } else {
        assert Closing(o) == [];
      }
    }
  }

  /** The fragments yielded, and the request sent to the remote service if one was sent. */
  datatype StreamReply = StreamReply(fragments: seq<string>, request: Option<Request>)

  /** What the generator yields for `messages`, given the remote stream it would get. */
  function StreamSpec(messages: seq<Turn>, start: int, events: seq<StreamEvent>): StreamReply
  {
    var converted := Converted(messages);
    match CannedAnswer(converted)
    case Some(answer) => StreamReply(WordFragments(Split(answer)), None)
    case None =>
      var o := Relay(events, start);
      StreamReply(o.yielded + Closing(o), Some(Request(Model, converted, true, ChatMaxTokens)))
  }

  /**
   * When a canned answer exists, the service is not contacted and the answer
   * is "typed" one word per fragment, each followed by a space; splitting the
   * typed text gives the answer's words back, and nothing from the remote
   * stream matters.
   */
  lemma {:induction false} StreamCanned(messages: seq<Turn>, start: int, events: seq<StreamEvent>, start': int, events': seq<StreamEvent>)
    requires CannedAnswer(Converted(messages)).Some?
    ensures var r := StreamSpec(messages, start, events);
            var words := Split(CannedAnswer(Converted(messages)).value);
            && r.request == None
            && |r.fragments| == |words|
            && (forall i :: 0 <= i < |words| ==> r.fragments[i] == words[i] + " ")
            && Split(Concat(r.fragments)) == words
            && (words != [] ==> Concat(r.fragments) == Join(words, " ") + " ")
            && StreamSpec(messages, start', events') == r
  {
    var words := Split(CannedAnswer(Converted(messages)).value);
    SplitWordFragments(words);
    if words != [] {
      ConcatWordFragments(words);
    }
  }

  /** Without a canned answer, the reply is the relayed deltas and the closing fragments, sent under one streaming request. */
  lemma {:induction false} StreamRemote(messages: seq<Turn>, start: int, events: seq<StreamEvent>)
    requires CannedAnswer(Converted(messages)) == None
    ensures var o := Relay(events, start);
            StreamSpec(messages, start, events) == StreamReply(o.yielded + Closing(o), Some(Request(Model, Converted(messages), true, ChatMaxTokens)))
  {
  }

  /**
   * Otherwise one streaming request is sent with the converted history, and
   * the fragments are the non-empty deltas up to the first stopping event,
   * followed by at most one closing fragment.
   */
  lemma {:induction false} StreamRelayed(messages: seq<Turn>, start: int, events: seq<StreamEvent>)
    requires CannedAnswer(Converted(messages)) == None
    ensures var r := StreamSpec(messages, start, events);
            var o := Relay(events, start);
            && r.request == Some(Request(Model, Converted(messages), true, ChatMaxTokens))
            && r.fragments == Deltas(events[..o.consumed]) + Closing(o)
            && |Closing(o)| <= 1
            && (o.exit == Exhausted <==> forall j :: 0 <= j < |events| ==> !StopsAt(events, start, j))
            && (o.exit != Exhausted ==>
                  && StopsAt(events, start, o.consumed - 1)
                  && o.exit == ExitAt(events, o.consumed - 1)
                  && forall j :: 0 <= j < o.consumed - 1 ==> !StopsAt(events, start, j))
  {
    RelayStopsAtFirstStop(events, start);
    ClosingCases(Relay(events, start));
  }

  lemma {:induction false} ResumeStep(prefix: seq<string>, skipped: nat, y: seq<string>, o: RelayOutcome)
    ensures Resume(prefix, skipped, Resume(y, 1, o)) == Resume(prefix + y, skipped + 1, o)
  {
    assert prefix + (y + o.yielded) == (prefix + y) + o.yielded;
  }

  lemma {:induction false} ConcatThree(a: string, b: string, c: string)
    ensures Concat([a, b, c]) == a + b + c
  {
    assert [a, b, c][1..] == [b, c] && [b, c][1..] == [c] && [c][1..] == [];
    assert Concat([c]) == c + "" == c;
    assert a + (b + c) == a + b + c;
  }

  // Worked examples, each on a single user turn, which never has a canned answer.

  lemma {:induction false} SingleTurnIsRelayed(messages: seq<Turn>)
    requires |messages| < 2
    ensures CannedAnswer(Converted(messages)) == None
  {
  }

  /** Deltas are relayed until the chunk with a finish reason; later chunks are not read. */
  lemma {:induction false} FinishExample(messages: seq<Turn>, question: string, events: seq<StreamEvent>)
    requires messages == [HumanMessage(question)]
    requires events == [Chunk(Some(Choice(Some("Paris"), None)), 1),
                        Chunk(Some(Choice(Some(" is"), None)), 2),
                        Chunk(Some(Choice(Some(" the capital"), Some("stop"))), 3),
                        Chunk(Some(Choice(Some(" ignored"), None)), 4)]
    ensures StreamSpec(messages, 0, events).fragments == ["Paris", " is", " the capital"]
  {
    SingleTurnIsRelayed(messages);
    DropOne(events, 1);
    DropOne(events, 2);
    var e2 := events[2..];
    var e1 := events[1..];
    assert Relay(e2, 2) == RelayOutcome([" the capital"], 1, Finished);
    assert Relay(e1, 1) == Resume([" is"], 1, Relay(e2, 2));
    assert Relay(events, 0) == Resume(["Paris"], 1, Relay(e1, 1));
    var o := Relay(events, 0);
    StreamRemote(messages, 0, events);
    ClosingCases(o);
    ConcatThree("Paris", " is", " the capital");
    assert |Concat(o.yielded)| == 20 && !IsSpace(Concat(o.yielded)[0]);
  }

  /** An empty stream ends in the apology. */
  lemma {:induction false} EmptyStreamExample(messages: seq<Turn>, question: string)
    requires messages == [HumanMessage(question)]
    ensures StreamSpec(messages, 0, []).fragments == [Apology]
  {
    SingleTurnIsRelayed(messages);
    StreamRemote(messages, 0, []);
    var o := Relay([], 0);
    assert o == RelayOutcome([], 0, Exhausted);
    ClosingCases(o);
  }

  /** A chunk 50 seconds after the last content ends the loop; the short text gets the disclaimer. */
  lemma {:induction false} TimeoutExample(messages: seq<Turn>, question: string, events: seq<StreamEvent>)
    requires messages == [HumanMessage(question)]
    requires events == [Chunk(Some(Choice(Some("Once"), None)), 0),
                        Chunk(Some(Choice(None, None)), 50),
                        Chunk(Some(Choice(Some(" upon"), None)), 51)]
    ensures StreamSpec(messages, 0, events).fragments == ["Once", Disclaimer]
  {
    SingleTurnIsRelayed(messages);
    DropOne(events, 1);
    var e1 := events[1..];
    assert Relay(e1, 0) == RelayOutcome([], 1, TimedOut);
    assert Relay(events, 0) == Resume(["Once"], 1, Relay(e1, 0));
    var o := Relay(events, 0);
    StreamRemote(messages, 0, events);
    ClosingCases(o);
    assert Concat(o.yielded) == "Once" + "";
    assert |Concat(o.yielded)| == 4 && !IsSpace(Concat(o.yielded)[0]);
  }

  /** A failure of the stream is reported after what was already relayed. */
  lemma {:induction false} FailureExample(messages: seq<Turn>, question: string, events: seq<StreamEvent>)
    requires messages == [HumanMessage(question)]
    requires events == [Chunk(Some(Choice(Some("Once upon a time"), None)), 1), StreamFailure("connection reset")]
    ensures StreamSpec(messages, 0, events).fragments == ["Once upon a time", StreamError("connection reset")]
  {
    SingleTurnIsRelayed(messages);
    DropOne(events, 1);
    var e1 := events[1..];
    assert Relay(e1, 1) == RelayOutcome([], 1, Raised("connection reset"));
    assert Relay(events, 0) == Resume(["Once upon a time"], 1, Relay(e1, 1));
    StreamRemote(messages, 0, events);
  }

  /** The canned answer "typed" out: `for word in words: yield word + " "`. */
  method TypeOut(words: seq<string>) returns (fragments: seq<string>)
    ensures fragments == WordFragments(words)
  {
    fragments := [];
    for i := 0 to |words|
      invariant |fragments| == i
      invariant forall k :: 0 <= k < i ==> fragments[k] == words[k] + " "
    {
      fragments := fragments + [words[i] + " "];
    }
  }

  /**
   * The `async for chunk in stream` loop: relays each non-empty delta,
   * accumulating `complete_response`, and stops at a finish reason, at the
   * 45-second silence limit, or when the stream raises.
   */
  method RelayStream(start: int, events: seq<StreamEvent>) returns (fragments: seq<string>, completeResponse: string, exit: LoopExit, ghost consumed: nat)
    ensures Relay(events, start) == RelayOutcome(fragments, consumed, exit)
    ensures completeResponse == Concat(fragments)
  {
    completeResponse := "";
    fragments := [];
    exit := Exhausted;
    var lastChunkTime := start;
    var i := 0;
    while i < |events|
      invariant 0 <= i <= |events|
      invariant exit == Exhausted
      invariant completeResponse == Concat(fragments)
      invariant Relay(events, start) == Resume(fragments, i, Relay(events[i..], lastChunkTime))
    {
      var event := events[i];
      ghost var before := fragments;
      ghost var rest := Relay(events[i + 1..], NextLast(event, lastChunkTime));
      DropOne(events, i);
      i := i + 1;
      match event {
        case StreamFailure(m) =>
          exit := Raised(m);
          break;
        case Malformed =>
          ResumeStep(before, i - 1, [], rest);
          assert before + [] == before;
          continue;
        case Chunk(choice, currentTime) =>
          if choice.Some? && choice.value.content.Some? && choice.value.content.value != "" {
            var content := choice.value.content.value;
            ConcatAppend(fragments, [content]);
            completeResponse := completeResponse + content;
            fragments := fragments + [content];
            lastChunkTime := currentTime;
          }
          assert fragments == before + Delta(choice);
          if choice.Some? && choice.value.finishReason.Some? && choice.value.finishReason.value != "" {
            exit := Finished;
            break;
          }
          if currentTime - lastChunkTime > TimeoutSeconds {
            exit := TimedOut;
            break;
          }
          ResumeStep(before, i - 1, Delta(choice), rest);
      }
    }
    consumed := i;
    assert Relay(events, start) == RelayOutcome(fragments, i, exit) by {
      if exit == Exhausted {
        assert events[i..] == [];
        assert fragments + [] == fragments;
      }
    }

  }

  /** `generate_response_stream` */
  method GenerateResponseStream(messages: seq<Turn>, start: int, events: seq<StreamEvent>) returns (reply: StreamReply)
    ensures reply == StreamSpec(messages, start, events)
  {
    var converted := ConvertMessages(messages);
    var canned := DetectCanned(converted);
    if canned.Some? {
      var fragments := TypeOut(Split(canned.value));
      return StreamReply(fragments, None);
    }

    var request := Request(Model, converted, true, ChatMaxTokens);
    var fragments, completeResponse, exit, consumed := RelayStream(start, events);
    ghost var o := Relay(events, start);
    assert o.yielded == fragments && o.exit == exit && Concat(o.yielded) == completeResponse;
    var tail: seq<string> := [];
    if exit.Raised? {
      tail := [StreamError(exit.message)];
    } else if Strip(completeResponse) == "" {
      tail := [Apology];
    } else if |completeResponse| < 10 {
      tail := [Disclaimer];
    }
    assert tail == Closing(o);
    reply := StreamReply(fragments + tail, Some(request));
  }
}
