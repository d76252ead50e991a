/**
 * The console chat (console.py, `interactive_chat`): reads a question per
 * turn, stops at an exit word, skips an empty line, retrieves the context,
 * answers with the non-streaming generator and keeps the exchange in the
 * conversation history, whose recent part is passed to the next answer.
 *
 * Input is a sequence of lines; printing is left out, the outcome of each
 * turn standing for what is printed.
 */
module Console {
  import opened Wrappers
  import opened Text
  import opened Chat
  import opened ConsoleHistory
  import opened ConsoleTurn
  import opened Retrieval
  import opened Retry
  import opened Response

  /** The state of `interactive_chat`: its conversation history. */
  class ConsoleSession {
    var history: seq<Message>

    constructor ()
      ensures history == [] && Exchanges(history)
    {
      history := [];
    }

    /** One turn of the loop, with the context unpacked as the pair it is (as the
        single-question mode does). An exit word quits and an empty line asks again, both
        changing nothing; any other question is answered as `Answer` says. */
    method Turn(input: string, cache: QueryCache, store: Store, settings: Settings,
                llm: (nat, string, nat) -> Outcome, template: Template, selfConsistency: bool)
      returns (outcome: TurnOutcome, historyText: string, context: Option<string>, cached: bool)
      requires cache.Valid()
      modifies this, cache
      ensures cache.Valid()
      ensures IsExit(Strip(input)) ==>
                outcome == Quit && history == old(history) && cache.entries == old(cache.entries)
      ensures !IsExit(Strip(input)) && Strip(input) == [] ==>
                outcome == EmptyTopic && history == old(history) && cache.entries == old(cache.entries)
      ensures !IsExit(Strip(input)) && Strip(input) != [] ==>
                TurnAnswered(Strip(input), old(history), history, old(cache.entries), cache.entries, outcome,
                         historyText, context, cached, store, settings, llm, template, selfConsistency)
      ensures Exchanges(old(history)) ==> Exchanges(history)
      ensures outcome == Quit <==> IsExit(Strip(input))
      ensures outcome == EmptyTopic <==> !IsExit(Strip(input)) && Strip(input) == []
    {
      historyText, context, cached := [], None, false;
      var topic := Strip(input);
      if IsExit(topic) {
        return Quit, historyText, context, cached;
      }
      if topic == [] {
        return EmptyTopic, historyText, context, cached;
      }
      outcome, historyText, context, cached := Answer(topic, cache, store, settings, llm, template, selfConsistency);
    }

    /** The body of the `try`: the context is looked up or retrieved; when that raises, the
        turn fails and nothing is added to the history; otherwise the answer is generated
        from the context and the history text, and the question and its answer are
        appended. */
    method Answer(topic: string, cache: QueryCache, store: Store, settings: Settings,
                  llm: (nat, string, nat) -> Outcome, template: Template, selfConsistency: bool)
      returns (outcome: TurnOutcome, historyText: string, context: Option<string>, cached: bool)
      requires cache.Valid()
      modifies this, cache
      ensures cache.Valid()
      ensures TurnAnswered(topic, old(history), history, old(cache.entries), cache.entries, outcome,
                       historyText, context, cached, store, settings, llm, template, selfConsistency)
      ensures Exchanges(old(history)) ==> Exchanges(history)
      ensures outcome.Answered? || outcome == Failed
    {
      historyText := [];
      context, cached := cache.GetMessageContent(store, settings, topic, RetrievalK);
      if context.None? {
        return Failed, historyText, context, cached;
      }
      historyText := BuildHistoryText(history);
      var response := GetModelResponse(llm, template, topic, context.value, historyText, selfConsistency);
      ghost var before := history;
      history := history + [Message(User, topic), Message(Assistant, response.answer)];
      outcome := Answered(response.answer);
      ExchangesExtend(before, topic, response.answer);
    }

    /** A turn as the loop sees it: whether it quits or asks again, and what it adds to the
        history. */
    method Step(input: string, cache: QueryCache, store: Store, settings: Settings,
                llm: (nat, string, nat) -> Outcome, template: Template, selfConsistency: bool)
      returns (outcome: TurnOutcome)
      requires cache.Valid()
      modifies this, cache
      ensures cache.Valid()
      ensures Exchanges(old(history)) ==> Exchanges(history)
      ensures outcome == Quit <==> ExitLine(input)
      ensures outcome == EmptyTopic <==> !ExitLine(input) && BlankLine(input)
      ensures history == old(history) + Exchange(Strip(input), outcome)
    {
      var historyText, context, cached;
      outcome, historyText, context, cached := Turn(input, cache, store, settings, llm, template, selfConsistency);
    }

    /** The `while True` loop over the input lines: stops after an exit word or when the
        lines run out. Every line that is neither an exit word nor blank is answered or
        fails, and the history grows by the exchanges of the answered lines. */
    method Chat(inputs: seq<string>, cache: QueryCache, store: Store, settings: Settings,
                llm: (nat, string, nat) -> Outcome, template: Template, selfConsistency: bool)
      returns (outcomes: seq<TurnOutcome>)
      requires cache.Valid() && Exchanges(history)
      modifies this, cache
      ensures cache.Valid() && Exchanges(history)
      ensures StopsAtExit(inputs, outcomes, ExitLine)
      ensures Handled(inputs, outcomes, ExitLine, BlankLine)
      ensures history == old(history) + Transcript(inputs, outcomes, Strip)
    {
      outcomes := [];
      var i := 0;
      while i < |inputs|
        invariant i <= |inputs| && |outcomes| == i
        invariant cache.Valid() && Exchanges(history)
        invariant Quit !in outcomes && NoExit(inputs[..i], ExitLine)
        invariant Handled(inputs, outcomes, ExitLine, BlankLine)
        invariant history == old(history) + Transcript(inputs, outcomes, Strip)
      {
        ghost var before := history;
        var outcome := Step(inputs[i], cache, store, settings, llm, template, selfConsistency);
        TranscriptAppend(old(history), before, history, inputs, outcomes, outcome, Strip);
        HandledStep(inputs, outcomes, outcome, ExitLine, BlankLine);
        if outcome == Quit {
          QuitEnds(inputs, outcomes, ExitLine);
          outcomes := outcomes + [outcome];
          return;
        }
        NoExitStep(inputs, i, ExitLine);
        outcomes := outcomes + [outcome];
        i := i + 1;
      }
      InputsEnd(inputs, outcomes, ExitLine);
    }
  }

  /** What a turn for the question `topic` does when the line was neither an exit word nor
      blank: the context is looked up as `get_message_content` does, taking the cache
      from `e0` to `e`; when the retrieval raised the turn fails and the history `h0` is
      kept; otherwise the answer is the generator's for the context and the history text
      of `h0`, and the question and answer are appended. */
  ghost predicate TurnAnswered(topic: string, h0: seq<Message>, h: seq<Message>, e0: map<string, string>,
                           e: map<string, string>, outcome: TurnOutcome, historyText: string,
                           context: Option<string>, cached: bool, store: Store, settings: Settings,
                           llm: (nat, string, nat) -> Outcome, template: Template, selfConsistency: bool)
  {
    && Lookup(e0, e, topic, RetrievalK, context, cached, store, settings)
    && (context.None? ==> outcome == Failed && h == h0)
    && (context.Some? ==>
          && historyText == HistoryText(h0)
          && outcome == Answered(ModelResponse(llm, template, topic, context.value, historyText, selfConsistency).answer)
          && h == h0 + [Message(User, topic), Message(Assistant, outcome.answer)])
  }

  /** The line is blank once stripped. */
  predicate BlankLine(line: string) {
    Strip(line) == []
  }

  /** What a turn on the question `question` adds to the history: the question and its
      answer when it was answered, nothing otherwise. */
  function Exchange(question: string, outcome: TurnOutcome): seq<Message> {
    if outcome.Answered? then [Message(User, question), Message(Assistant, outcome.answer)] else []
  }

  /** The exchanges the turns on `inputs` with `outcomes` add to the history, in order,
      `topicOf` giving the question asked on a line. */
  function Transcript(inputs: seq<string>, outcomes: seq<TurnOutcome>, topicOf: string -> string): seq<Message>
    requires |outcomes| <= |inputs|
  {
    if outcomes == [] then []
    else
      var n := |outcomes| - 1;
      Transcript(inputs, outcomes[..n], topicOf) + Exchange(topicOf(inputs[n]), outcomes[n])
  }

  /** A turn that adds its exchange to a history holding the transcript so far leaves the
      transcript with that turn added. */
  lemma TranscriptAppend(h0: seq<Message>, before: seq<Message>, after: seq<Message>, inputs: seq<string>,
                         outcomes: seq<TurnOutcome>, o: TurnOutcome, topicOf: string -> string)
    requires |outcomes| < |inputs|
    requires before == h0 + Transcript(inputs, outcomes, topicOf)
    requires after == before + Exchange(topicOf(inputs[|outcomes|]), o)
    ensures after == h0 + Transcript(inputs, outcomes + [o], topicOf)
  {
    TranscriptSnoc(inputs, outcomes, o, topicOf);
    AppendAssoc(h0, Transcript(inputs, outcomes, topicOf), Exchange(topicOf(inputs[|outcomes|]), o));
  }

  lemma AppendAssoc(a: seq<Message>, b: seq<Message>, c: seq<Message>)
    ensures (a + b) + c == a + (b + c)
  {
  }

  lemma TranscriptSnoc(inputs: seq<string>, outcomes: seq<TurnOutcome>, o: TurnOutcome, topicOf: string -> string)
    requires |outcomes| < |inputs|
    ensures Transcript(inputs, outcomes + [o], topicOf)
            == Transcript(inputs, outcomes, topicOf) + Exchange(topicOf(inputs[|outcomes|]), o)
  {
    assert (outcomes + [o])[..|outcomes|] == outcomes;
  }

  /** The transcript holds one question and one answer per answered turn. */
  lemma {:induction false} TranscriptLength(inputs: seq<string>, outcomes: seq<TurnOutcome>, topicOf: string -> string)
    requires |outcomes| <= |inputs|
    ensures |Transcript(inputs, outcomes, topicOf)| == 2 * AnsweredCount(outcomes)
  {
    if outcomes != [] {
      TranscriptLength(inputs, outcomes[..|outcomes| - 1], topicOf);
    }
  }

  /** Each line read that does not stop the chat is skipped exactly when it is blank, and
      answered or failed exactly when it is not. */
  ghost predicate Handled(inputs: seq<string>, outcomes: seq<TurnOutcome>, stop: string -> bool, blank: string -> bool) {
    && |outcomes| <= |inputs|
    && (forall i :: 0 <= i < |outcomes| ==> (outcomes[i] == EmptyTopic <==> !stop(inputs[i]) && blank(inputs[i])))
    && (forall i :: 0 <= i < |outcomes| ==>
          (outcomes[i].Answered? || outcomes[i] == Failed <==> !stop(inputs[i]) && !blank(inputs[i])))
  }

  lemma HandledStep(inputs: seq<string>, outcomes: seq<TurnOutcome>, o: TurnOutcome,
                    stop: string -> bool, blank: string -> bool)
    requires |outcomes| < |inputs| && Handled(inputs, outcomes, stop, blank)
    requires o == Quit <==> stop(inputs[|outcomes|])
    requires o == EmptyTopic <==> !stop(inputs[|outcomes|]) && blank(inputs[|outcomes|])
    ensures Handled(inputs, outcomes + [o], stop, blank)
  {
  }

  /** The line is an exit word once stripped. */
  predicate ExitLine(line: string) {
    IsExit(Strip(line))
  }

  /** None of `lines` stops the chat. */
  ghost predicate NoExit(lines: seq<string>, stop: string -> bool) {
    forall line :: line in lines ==> !stop(line)
  }

  /** What the loop promises about the lines it reads, `stop` telling which lines end the
      chat: one outcome per line read, a quit exactly on a stopping line and only as the
      last outcome, and fewer outcomes than lines only when the chat was quit. */
  ghost predicate StopsAtExit(inputs: seq<string>, outcomes: seq<TurnOutcome>, stop: string -> bool) {
    && |outcomes| <= |inputs|
    && (forall i :: 0 <= i < |outcomes| ==> (outcomes[i] == Quit <==> stop(inputs[i])))
    && (forall i :: 0 <= i < |outcomes| - 1 ==> outcomes[i] != Quit)
    && (|outcomes| < |inputs| ==> outcomes != [] && outcomes[|outcomes| - 1] == Quit)
  }

  lemma NoExitStep(inputs: seq<string>, i: nat, stop: string -> bool)
    requires i < |inputs| && NoExit(inputs[..i], stop) && !stop(inputs[i])
    ensures NoExit(inputs[..i + 1], stop)
  {
    assert inputs[..i + 1] == inputs[..i] + [inputs[i]];
  }

  /** The chat quits on the first exit word. */
  lemma QuitEnds(inputs: seq<string>, outcomes: seq<TurnOutcome>, stop: string -> bool)
    requires |outcomes| < |inputs| && Quit !in outcomes && NoExit(inputs[..|outcomes|], stop)
    requires stop(inputs[|outcomes|])
    ensures StopsAtExit(inputs, outcomes + [Quit], stop)
  {
    var n := |outcomes|;
    forall i | 0 <= i < n
      ensures (outcomes + [Quit])[i] != Quit && !stop(inputs[i])
    {
      assert outcomes[i] in outcomes;
      assert inputs[i] in inputs[..n];
    }
  }

  /** The chat runs out of lines without an exit word. */
  lemma InputsEnd(inputs: seq<string>, outcomes: seq<TurnOutcome>, stop: string -> bool)
    requires |outcomes| == |inputs| && Quit !in outcomes && NoExit(inputs[..|outcomes|], stop)
    ensures StopsAtExit(inputs, outcomes, stop)
  {
    assert inputs[..|outcomes|] == inputs;
    forall i | 0 <= i < |outcomes|
      ensures outcomes[i] != Quit && !stop(inputs[i])
    {
      assert outcomes[i] in outcomes;
      assert inputs[i] in inputs;
    }
  }

  /** How many turns were answered. */
  function AnsweredCount(outcomes: seq<TurnOutcome>): nat {
    if outcomes == [] then 0
    else AnsweredCount(outcomes[..|outcomes| - 1]) + (if outcomes[|outcomes| - 1].Answered? then 1 else 0)
  }

  /** Appending a question and its answer keeps the history a series of exchanges. */
  lemma ExchangesExtend(history: seq<Message>, question: string, answer: string)
    ensures Exchanges(history) ==> Exchanges(history + [Message(User, question), Message(Assistant, answer)])
  {
  }
}
