/**
 * The decisions of one console turn that do not depend on the answer
 * (console.py, `interactive_chat`): exit words, empty lines, and the
 * unpacking of the retrieval result as the loop is written.
 */
module ConsoleTurn {
  import opened Text

  /** The words that end the chat, compared with the lower-cased question. */
  const ExitWords: seq<string> := ["выход", "exit", "quit", "q"]

  /** What a turn does: end the chat, ask again after an empty line, print an answer, or
      print the error message. */
  datatype TurnOutcome = Quit | EmptyTopic | Answered(answer: string) | Failed

  /** `topic.lower() in ['выход', 'exit', 'quit', 'q']`. */
  predicate IsExit(topic: string) {
    LowerStr(topic) in ExitWords
  }

  /** The exit words are one to five characters long. */
  lemma ExitWordLengths(w: string)
    requires w in ExitWords
    ensures 0 < |w| <= 5
  {
    assert w == ExitWords[0] || w == ExitWords[1] || w == ExitWords[2] || w == ExitWords[3];
  }

  /** An exit word is never empty and never longer than five characters, so an empty line
      and any longer question go on. */
  lemma ExitNeedsShortTopic(topic: string)
    ensures IsExit(topic) ==> 0 < |topic| <= 5
  {
    if IsExit(topic) {
      ExitWordLengths(LowerStr(topic));
    }
  }

  /** How `get_message_content` answers: a pair, the context and whether it was cached. */
  const ContentResultArity: nat := 2

  /** Python's `a, b, c = result`: the assignment binds only when the result has exactly as
      many items as there are names, and raises `ValueError` otherwise. */
  predicate Unpacks(items: nat, names: nat) {
    items == names
  }

  /** One turn of the loop as written: `message_content, is_cached, confidence_score =
      get_message_content(...)` names three values for a pair. The call itself still runs
      first, and on a cache miss it may already have inserted the new context into the
      cache; only then does the assignment raise and the handler print the error message.
      `answer` stands for the rest of the turn, which is never reached. The cache effect
      of the call is the one `QueryCache.GetMessageContent` states. */
  function TurnAsWritten(input: string, answer: string -> string): TurnOutcome {
    var topic := Strip(input);
    if IsExit(topic) then Quit
    else if topic == [] then EmptyTopic
    else if !Unpacks(ContentResultArity, 3) then Failed
    else Answered(answer(topic))
  }

  /** As written, no question is ever answered: every turn that is neither an exit word nor
      empty fails, so nothing is ever added to the conversation history. */
  lemma AsWrittenNeverAnswers(input: string, answer: string -> string)
    ensures !TurnAsWritten(input, answer).Answered?
    ensures !IsExit(Strip(input)) && Strip(input) != [] ==> TurnAsWritten(input, answer) == Failed
  {
  }

  /** Any question of more than five characters once stripped, such as "What is article
      5?", fails as written. */
  lemma AsWrittenFailsOnQuestion(input: string, answer: string -> string)
    requires |Strip(input)| > 5
    ensures TurnAsWritten(input, answer) == Failed
  {
    ExitNeedsShortTopic(Strip(input));
  }

}
