/**
 * The web chat handler (interface.py, `process_question`): validates the
 * question, builds the conversation context from the recent history, shows a
 * placeholder status while the context is retrieved, then streams the answer
 * into the last history entry.
 *
 * The placeholder texts are drawn at random and rotated on a timer: the model
 * takes the picks (`picks(i)` for the `i`-th one) and the number of polling
 * rounds spent waiting for the retrieval as parameters. The streamed model
 * call is a script chosen by the question, the context and the conversation
 * context.
 */
module WebChat {
  import opened Wrappers
  import opened Text
  import opened Chat
  import opened Truncation
  import opened Streaming
  import opened Retrieval

  const EmptyQuestionMessage: string := "❌ Please enter a question"
  const ErrorMessage: string := "❌ An error occurred while processing your request. Please try rephrasing your question."

  /** How many characters of an earlier message the conversation context keeps. */
  const EarlierMessageLength: nat := 200

  /** How many extra placeholder rotations precede a stream whose context was not cached. */
  const StartupRotations: nat := 4

  /** `"User"` for the user's entries, `"Assistant"` for every other entry. */
  function Label(role: Role): string {
    if role == User then "User" else "Assistant"
  }

  /** The lines of earlier messages, each truncated at a sentence. */
  function EarlierLines(ms: seq<Message>): string {
    if ms == [] then []
    else
      var m := ms[|ms| - 1];
      EarlierLines(ms[..|ms| - 1]) + Line(Label(m.role), TruncateAtSentence(m.content, EarlierMessageLength))
  }

  /** The conversation context of `process_question` for a history whose last entry is the
      current question: nothing for up to three entries; otherwise the entries
      `history[-5:-2]` truncated, then `history[-2]` in full. */
  function ConvHistory(history: seq<Message>): string {
    var n := |history|;
    if n <= 3 then []
    else EarlierLines(history[RecentStart(n, 5)..n - 2]) + Line(Label(history[n - 2].role), history[n - 2].content)
  }

  /** The loops that build the conversation context. */
  method BuildConvHistory(history: seq<Message>) returns (conv: string)
    ensures conv == ConvHistory(history)
  {
    conv := [];
    var n := |history|;
    if n > 3 {
      conv := WriteEarlier(history[RecentStart(n, 5)..n - 2]);
      ghost var earlier := conv;
      for i := n - 2 to n - 1
        invariant conv == earlier + (if i == n - 1 then Line(Label(history[n - 2].role), history[n - 2].content) else [])
      {
        var msg := history[i];
        conv := conv + Line(Label(msg.role), msg.content);
      }
    }
  }

  /** The first loop: the messages, each truncated at a sentence. */
  method WriteEarlier(ms: seq<Message>) returns (conv: string)
    ensures conv == EarlierLines(ms)
  {
    conv := [];
    for i := 0 to |ms|
      invariant conv == EarlierLines(ms[..i])
    {
      assert ms[..i + 1][..i] == ms[..i];
      var truncated := Truncate(ms[i].content, EarlierMessageLength);
      conv := conv + Line(Label(ms[i].role), truncated);
    }
    assert ms[..|ms|] == ms;
  }

  /** The conversation context is empty for a history of up to three entries (the current
      question included); otherwise it is not, and it ends with the entry before the
      question, in full. */
  lemma ConvHistoryShape(history: seq<Message>)
    ensures ConvHistory(history) == [] <==> |history| <= 3
    ensures |history| > 3 ==>
              var m := history[|history| - 2];
              EndsWith(ConvHistory(history), Line(Label(m.role), m.content))
  {
    var n := |history|;
    if n > 3 {
      var m := history[n - 2];
      var earlier := EarlierLines(history[RecentStart(n, 5)..n - 2]);
      var last := Line(Label(m.role), m.content);
      assert ConvHistory(history) == earlier + last;
      assert (earlier + last)[|earlier + last| - |last|..] == last;
    }
  }

  /** The current question itself is never part of the conversation context. */
  lemma QuestionExcluded(history: seq<Message>, q1: Message, q2: Message)
    ensures ConvHistory(history + [q1]) == ConvHistory(history + [q2])
  {
    var h1, h2 := history + [q1], history + [q2];
    var n := |h1|;
    if n > 3 {
      assert h1[..n - 1] == h2[..n - 1] == history;
      assert h1[RecentStart(n, 5)..n - 2] == h2[RecentStart(n, 5)..n - 2];
      assert h1[n - 2] == h2[n - 2];
    }
  }

  /** Only the last five entries of the history (the question and the four before it)
      reach the conversation context: the three before the last two, each truncated at a
      sentence, and the one before the question in full. */
  lemma RecentEntries(history: seq<Message>)
    requires |history| >= 5
    ensures var n := |history|;
      var a, b, c, d := history[n - 5], history[n - 4], history[n - 3], history[n - 2];
      ConvHistory(history) ==
        Line(Label(a.role), TruncateAtSentence(a.content, EarlierMessageLength))
        + Line(Label(b.role), TruncateAtSentence(b.content, EarlierMessageLength))
        + Line(Label(c.role), TruncateAtSentence(c.content, EarlierMessageLength))
        + Line(Label(d.role), d.content)
  {
    var n := |history|;
    var a, b, c := history[n - 5], history[n - 4], history[n - 3];
    assert history[RecentStart(n, 5)..n - 2] == [a, b, c];
    EarlierTriple(a, b, c);
  }

  lemma EarlierTriple(a: Message, b: Message, c: Message)
    ensures EarlierLines([a, b, c]) ==
              Line(Label(a.role), TruncateAtSentence(a.content, EarlierMessageLength))
              + Line(Label(b.role), TruncateAtSentence(b.content, EarlierMessageLength))
              + Line(Label(c.role), TruncateAtSentence(c.content, EarlierMessageLength))
  {
    assert [a, b, c][..2] == [a, b];
    assert [a, b][..1] == [a];
    assert [a][..0] == [];
    var la := Line(Label(a.role), TruncateAtSentence(a.content, EarlierMessageLength));
    assert EarlierLines([a]) == [] + la == la;
  }

  /** A truncated line is at most 215 characters: "Assistant", ": ", at most 203
      characters of text, and the newline. */
  lemma {:induction false} EarlierLinesBound(ms: seq<Message>)
    ensures |EarlierLines(ms)| <= |ms| * 215
  {
    if ms != [] {
      var m := ms[|ms| - 1];
      EarlierLinesBound(ms[..|ms| - 1]);
      TruncateBounds(m.content, EarlierMessageLength);
    }
  }

  /** The conversation context stays bounded except for the one entry kept in full: the
      three earlier ones contribute at most 645 characters. */
  lemma ConvHistoryBound(history: seq<Message>)
    requires |history| > 3
    ensures |ConvHistory(history)| <= 3 * 215 + |Line(Label(history[|history| - 2].role), history[|history| - 2].content)|
  {
    var n := |history|;
    EarlierLinesBound(history[RecentStart(n, 5)..n - 2]);
  }

  /** What the chat window shows after each fragment: the text streamed so far. */
  function Snapshots(fragments: seq<string>): (r: seq<string>)
    ensures |r| == |fragments|
  {
    if fragments == [] then []
    else Snapshots(fragments[..|fragments| - 1]) + [Concat(fragments)]
  }

  /** Each snapshot is the concatenation of the fragments so far, so each extends the one
      before it, and the last one is the whole answer. */
  lemma {:induction false} SnapshotsSpec(fragments: seq<string>)
    ensures forall i :: 0 <= i < |fragments| ==> Snapshots(fragments)[i] == Concat(fragments[..i + 1])
    ensures forall i :: 0 < i < |fragments| ==> StartsWith(Snapshots(fragments)[i], Snapshots(fragments)[i - 1])
    ensures fragments != [] ==> Snapshots(fragments)[|fragments| - 1] == Concat(fragments)
  {
    if fragments != [] {
      var n := |fragments|;
      var init := fragments[..n - 1];
      SnapshotsSpec(init);
      forall i | 0 <= i < n
        ensures Snapshots(fragments)[i] == Concat(fragments[..i + 1])
      {
        if i < n - 1 {
          assert init[..i + 1] == fragments[..i + 1];
        } else {
          assert fragments[..i + 1] == fragments;
        }
      }
      forall i | 0 < i < n
        ensures StartsWith(Snapshots(fragments)[i], Snapshots(fragments)[i - 1])
      {
        assert fragments[..i + 1] == fragments[..i] + [fragments[i]];
        ConcatAppend(fragments[..i], [fragments[i]]);
        assert Concat([fragments[i]]) == fragments[i];
      }
    }
  }

  /** The placeholder texts `picks(from)`, ..., `picks(from + count - 1)`. */
  function Picks(picks: nat -> string, from: nat, count: nat): (r: seq<string>)
    ensures |r| == count
  {
    seq(count, i requires 0 <= i < count => picks(from + i))
  }

  /** The history holds the entries `asked` followed by the assistant's entry being
      written. */
  predicate Pending(history: seq<Message>, asked: seq<Message>) {
    |history| == |asked| + 1 && history[..|asked|] == asked && history[|asked|].role == Assistant
  }

  /** What handling the question `question` does to the history `h0` and the cache
      entries `e0`, leaving `h` and `e`: the conversation context is that of the history
      ending with the question. If the database fails, the placeholder is shown and then
      replaced by the error message. Otherwise the context is looked up in the cache or
      retrieved (`None` when the retrieval raised) and the cache updated as
      `get_message_content` does; the placeholders are shown while waiting, then either
      the error message, or the startup placeholders (only when the context was not
      cached) and the answer as it streams in, the history ending with the question and
      the error message or the whole streamed answer. */
  ghost predicate Asked(h0: seq<Message>, question: string, e0: map<string, string>,
                        h: seq<Message>, e: map<string, string>, shown: seq<string>,
                        convHistory: string, context: Option<string>, cached: bool,
                        store: Store, settings: Settings, dbFails: bool, picks: nat -> string, waitTicks: nat,
                        stream: (string, string, string) -> (nat -> StreamAttempt))
  {
    && convHistory == ConvHistory(h0 + [Message(User, question)])
    && (dbFails ==>
          h == h0 + [Message(User, question), Message(Assistant, ErrorMessage)]
          && shown == [picks(0), ErrorMessage] && e == e0)
    && (!dbFails ==>
          && Lookup(e0, e, question, RetrievalK, context, cached, store, settings)
          && (context.None? ==>
                h == h0 + [Message(User, question), Message(Assistant, ErrorMessage)]
                && shown == [picks(0)] + Picks(picks, 1, waitTicks) + [ErrorMessage])
          && (context.Some? ==>
                var fragments := Streamed(stream(question, context.value, convHistory));
                && h == h0 + [Message(User, question), Message(Assistant, Concat(fragments))]
                && shown == [picks(0)] + (Picks(picks, 1, waitTicks)
                                          + (if cached then [] else Picks(picks, 1 + waitTicks, StartupRotations))
                                          + Snapshots(fragments))))
  }

  lemma SplitLast(h: seq<Message>, a: Message, b: Message)
    ensures h + [a, b] == (h + [a]) + [b]
  {
  }

  /** The Gradio chat history, mutated in place by the handler. */
  class ChatSession {
    var history: seq<Message>

    /** The placeholder rotations: each pick replaces the text of the last entry and is
        shown. */
    method ShowPicks(ghost asked: seq<Message>, picks: nat -> string, from: nat, count: nat) returns (more: seq<string>)
      requires Pending(history, asked)
      modifies this
      ensures Pending(history, asked)
      ensures more == Picks(picks, from, count)
      ensures count == 0 ==> history == old(history)
      ensures count > 0 ==> history == asked + [Message(Assistant, picks(from + count - 1))]
    {
      more := [];
      for i := 0 to count
        invariant Pending(history, asked)
        invariant more == Picks(picks, from, i)
        invariant i == 0 ==> history == old(history)
        invariant i > 0 ==> history == asked + [Message(Assistant, picks(from + i - 1))]
      {
        assert Picks(picks, from, i + 1) == Picks(picks, from, i) + [picks(from + i)];
        history := history[..|history| - 1] + [history[|history| - 1].(content := picks(from + i))];
        more := more + [picks(from + i)];
      }
    }

    /** The streaming loop: each fragment is appended to the answer, which replaces the text
        of the last entry and is shown. */
    method ShowStream(ghost asked: seq<Message>, fragments: seq<string>) returns (more: seq<string>)
      requires Pending(history, asked) && fragments != []
      modifies this
      ensures more == Snapshots(fragments)
      ensures history == asked + [Message(Assistant, Concat(fragments))]
    {
      more := [];
      var answer := "";
      for i := 0 to |fragments|
        invariant Pending(history, asked)
        invariant answer == Concat(fragments[..i])
        invariant i > 0 ==> history == asked + [Message(Assistant, answer)]
        invariant more == Snapshots(fragments[..i])
      {
        ConcatAppend(fragments[..i], [fragments[i]]);
        assert fragments[..i + 1] == fragments[..i] + [fragments[i]];
        assert fragments[..i + 1][..i] == fragments[..i];
        answer := answer + fragments[i];
        history := history[..|history| - 1] + [history[|history| - 1].(content := answer)];
        more := more + [answer];
      }
      assert fragments[..|fragments|] == fragments;
    }

    /** Everything after the first placeholder: the rotations while the context is
        retrieved, then either the error message when the retrieval raised, or the extra
        rotations of the generation startup when it was not cached and the streamed
        answer. */
    method Respond(ghost asked: seq<Message>, question: string, convHistory: string, cache: QueryCache, store: Store,
                   settings: Settings, picks: nat -> string, waitTicks: nat,
                   stream: (string, string, string) -> (nat -> StreamAttempt))
      returns (more: seq<string>, context: Option<string>, cached: bool)
      requires Pending(history, asked) && cache.Valid()
      modifies this, cache
      ensures cache.Valid()
      ensures Lookup(old(cache.entries), cache.entries, question, RetrievalK, context, cached, store, settings)
      ensures context.None? ==>
                history == asked + [Message(Assistant, ErrorMessage)]
                && more == Picks(picks, 1, waitTicks) + [ErrorMessage]
      ensures context.Some? ==>
                var fragments := Streamed(stream(question, context.value, convHistory));
                && history == asked + [Message(Assistant, Concat(fragments))]
                && more == Picks(picks, 1, waitTicks)
                           + (if cached then [] else Picks(picks, 1 + waitTicks, StartupRotations))
                           + Snapshots(fragments)
    {
      more, context, cached := AwaitContext(asked, question, cache, store, settings, picks, waitTicks);
      ghost var entries := cache.entries;
      if context.None? {
        history := history[..|history| - 1] + [history[|history| - 1].(content := ErrorMessage)];
        more := more + [ErrorMessage];
        return;
      }
      if !cached {
        var startup := ShowPicks(asked, picks, 1 + waitTicks, StartupRotations);
        more := more + startup;
      }
      var fragments := StreamResponse(stream(question, context.value, convHistory));
      StreamedNonEmpty(stream(question, context.value, convHistory));
      var snapshots := ShowStream(asked, fragments);
      more := more + snapshots;
      assert cache.entries == entries;
    }

    /** The retrieval phase: the placeholder rotates while the context is looked up or
        retrieved. */
    method AwaitContext(ghost asked: seq<Message>, question: string, cache: QueryCache, store: Store,
                        settings: Settings, picks: nat -> string, waitTicks: nat)
      returns (more: seq<string>, context: Option<string>, cached: bool)
      requires Pending(history, asked) && cache.Valid()
      modifies this, cache
      ensures Pending(history, asked) && cache.Valid()
      ensures more == Picks(picks, 1, waitTicks)
      ensures Lookup(old(cache.entries), cache.entries, question, RetrievalK, context, cached, store, settings)
    {
      more := ShowPicks(asked, picks, 1, waitTicks);
      assert cache.entries == old(cache.entries);
      context, cached := cache.GetMessageContent(store, settings, question, RetrievalK);
    }

    constructor ()
      ensures history == []
    {
      history := [];
    }

    /** `process_question(question, history)`. `shown` lists the text of the last entry at
        each `yield`; `dbFails` stands for `initialize_db` raising, which the handler
        reports in place of the answer. A blank question only appends the prompt to enter
        one, and yields nothing. */
    method ProcessQuestion(question: string, cache: QueryCache, store: Store, settings: Settings, dbFails: bool,
                           picks: nat -> string, waitTicks: nat, stream: (string, string, string) -> (nat -> StreamAttempt))
      returns (shown: seq<string>, convHistory: string, context: Option<string>, cached: bool)
      requires cache.Valid()
      modifies this, cache
      ensures cache.Valid()
      ensures Strip(question) == [] ==>
                history == old(history) + [Message(Assistant, EmptyQuestionMessage)]
                && shown == [] && cache.entries == old(cache.entries)
      ensures Strip(question) != [] ==>
                Asked(old(history), question, old(cache.entries), history, cache.entries, shown, convHistory, context, cached,
                      store, settings, dbFails, picks, waitTicks, stream)
    {
      var blank := Strip(question) == [];
      if blank {
        history := history + [Message(Assistant, EmptyQuestionMessage)];
        shown, convHistory, context, cached := [], [], None, false;
      } else {
        shown, convHistory, context, cached := Ask(question, cache, store, settings, dbFails, picks, waitTicks, stream);
      }
    }

    /** A question that is not blank: it is appended, the conversation context is built
        from the history before it, a placeholder entry is shown, and either the error
        message or the streamed answer ends up in it. */
    method Ask(question: string, cache: QueryCache, store: Store, settings: Settings, dbFails: bool,
               picks: nat -> string, waitTicks: nat, stream: (string, string, string) -> (nat -> StreamAttempt))
      returns (shown: seq<string>, convHistory: string, context: Option<string>, cached: bool)
      requires cache.Valid()
      modifies this, cache
      ensures cache.Valid()
      ensures Asked(old(history), question, old(cache.entries), history, cache.entries, shown, convHistory, context, cached,
                    store, settings, dbFails, picks, waitTicks, stream)
    {
      context, cached := None, false;
      history := history + [Message(User, question)];
      convHistory := BuildConvHistory(history);
      var asked := history;
      history := history + [Message(Assistant, picks(0))];
      shown := [picks(0)];
      if dbFails {
        history := history[..|history| - 1] + [history[|history| - 1].(content := ErrorMessage)];
        shown := shown + [ErrorMessage];
        assert history == asked + [Message(Assistant, ErrorMessage)];
        SplitLast(old(history), Message(User, question), Message(Assistant, ErrorMessage));
        return;
      }
      var more;
      more, context, cached := Respond(asked, question, convHistory, cache, store, settings, picks, waitTicks, stream);
      shown := shown + more;
      if context.None? {
        SplitLast(old(history), Message(User, question), Message(Assistant, ErrorMessage));
      } else {
        ghost var fragments := Streamed(stream(question, context.value, convHistory));
        SplitLast(old(history), Message(User, question), Message(Assistant, Concat(fragments)));
      }
    }
  }
}
