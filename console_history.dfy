/**
 * The history text of the console chat (console.py, `interactive_chat`): the
 * recent part of the conversation history, written out for the next answer.
 */
module ConsoleHistory {
  import opened Chat
  import opened Truncation

  /** How many characters of an earlier entry the history text keeps. */
  const EarlierEntryLength: nat := 200

  /** The stored role names, `"user"` and `"assistant"`, which the history text prints as
      they are. */
  function RoleName(role: Role): string {
    if role == User then "user" else "assistant"
  }

  /** The lines of the entries, each `role: content` on a line of its own, with the
      content as `shorten` gives it. */
  function EntryLines(ms: seq<Message>, shorten: string -> string): string {
    if ms == [] then []
    else
      var m := ms[|ms| - 1];
      EntryLines(ms[..|ms| - 1], shorten) + Line(RoleName(m.role), shorten(m.content))
  }

  /** An earlier entry is truncated at a sentence. */
  function Earlier(content: string): string {
    TruncateAtSentence(content, EarlierEntryLength)
  }

  /** A recent entry is kept in full. */
  function Whole(content: string): string {
    content
  }

  /** The history text with `shorten` applied to the earlier entries: nothing for up to
      two entries; otherwise the entries `history[-4:-2]` shortened, then the last two in
      full. */
  function HistoryTextWith(history: seq<Message>, shorten: string -> string): string {
    var n := |history|;
    if n <= 2 then []
    else EntryLines(history[RecentStart(n, 4)..n - 2], shorten) + EntryLines(history[n - 2..n], Whole)
  }

  /** The history text passed to the answer, the earlier entries truncated at a sentence. */
  function HistoryText(history: seq<Message>): string {
    HistoryTextWith(history, Earlier)
  }

  /** The loops that build the history text. */
  method BuildHistoryText(history: seq<Message>) returns (text: string)
    ensures text == HistoryText(history)
  {
    var n := |history|;
    if n <= 2 {
      return [];
    }
    var earlier := WriteEarlier(history[RecentStart(n, 4)..n - 2]);
    var recent := WriteFull(history[n - 2..n]);
    text := earlier + recent;
  }

  /** The first loop: the entries, each truncated at a sentence. */
  method WriteEarlier(ms: seq<Message>) returns (text: string)
    ensures text == EntryLines(ms, Earlier)
  {
    text := [];
    for i := 0 to |ms|
      invariant text == EntryLines(ms[..i], Earlier)
    {
      EntryLinesStep(ms, i, Earlier);
      var truncated := Truncate(ms[i].content, EarlierEntryLength);
      text := text + Line(RoleName(ms[i].role), truncated);
    }
    assert ms[..|ms|] == ms;
  }

  /** The second loop: the entries in full. */
  method WriteFull(ms: seq<Message>) returns (text: string)
    ensures text == EntryLines(ms, Whole)
  {
    text := [];
    for i := 0 to |ms|
      invariant text == EntryLines(ms[..i], Whole)
    {
      EntryLinesStep(ms, i, Whole);
      text := text + Line(RoleName(ms[i].role), ms[i].content);
    }
    assert ms[..|ms|] == ms;
  }

  lemma EntryLinesStep(ms: seq<Message>, i: nat, shorten: string -> string)
    requires i < |ms|
    ensures EntryLines(ms[..i + 1], shorten) == EntryLines(ms[..i], shorten) + Line(RoleName(ms[i].role), shorten(ms[i].content))
  {
    assert ms[..i + 1][..i] == ms[..i];
  }

  /** A history of completed exchanges: a question by the user, then the assistant's
      answer, in turn. */
  predicate Exchanges(history: seq<Message>) {
    |history| % 2 == 0
    && forall i :: 0 <= i < |history| ==> history[i].role == (if i % 2 == 0 then User else Assistant)
  }

  /** The history text is empty until two exchanges are recorded (the source tests for
      more than two entries); then it holds the exchange before the last one, shortened,
      and the last exchange in full. For the history text itself, `shorten` is `Earlier`,
      the truncation at a sentence. */
  lemma HistoryTextOfExchanges(history: seq<Message>, shorten: string -> string)
    requires Exchanges(history)
    ensures |history| <= 2 ==> HistoryTextWith(history, shorten) == []
    ensures |history| >= 4 ==>
              var n := |history|;
              HistoryTextWith(history, shorten) ==
                Line("user", shorten(history[n - 4].content))
                + Line("assistant", shorten(history[n - 3].content))
                + Line("user", history[n - 2].content)
                + Line("assistant", history[n - 1].content)
  {
    if |history| >= 4 {
      LastRoles(history);
      RecentEntries(history, shorten);
    }
  }

  /** The last four entries of a history of exchanges are two questions, each followed by
      its answer. */
  lemma LastRoles(history: seq<Message>)
    requires Exchanges(history) && |history| >= 4
    ensures var n := |history|;
      && history[n - 4].role == User && history[n - 3].role == Assistant
      && history[n - 2].role == User && history[n - 1].role == Assistant
  {
    var n := |history|;
    assert (n - 4) % 2 == 0 && (n - 2) % 2 == 0;
  }

  /** Only the last four entries reach the history text: the two before the last two,
      shortened, then the last two in full, each on a line of its own under its stored
      role name. For the history text itself, `shorten` is `Earlier`. */
  lemma RecentEntries(history: seq<Message>, shorten: string -> string)
    requires |history| >= 4
    ensures var n := |history|;
      var a, b, c, d := history[n - 4], history[n - 3], history[n - 2], history[n - 1];
      HistoryTextWith(history, shorten) ==
        Line(RoleName(a.role), shorten(a.content))
        + Line(RoleName(b.role), shorten(b.content))
        + Line(RoleName(c.role), c.content)
        + Line(RoleName(d.role), d.content)
  {
    var n := |history|;
    var a, b, c, d := history[n - 4], history[n - 3], history[n - 2], history[n - 1];
    assert history[RecentStart(n, 4)..n - 2] == [a, b];
    assert history[n - 2..n] == [c, d];
    PairLines(a, b, shorten);
    PairLines(c, d, Whole);
    var la, lb := Line(RoleName(a.role), shorten(a.content)), Line(RoleName(b.role), shorten(b.content));
    var lc, ld := Line(RoleName(c.role), c.content), Line(RoleName(d.role), d.content);
    assert (la + lb) + (lc + ld) == la + lb + lc + ld;
  }

  /** The lines of two entries. */
  lemma PairLines(a: Message, b: Message, shorten: string -> string)
    ensures EntryLines([a, b], shorten) ==
              Line(RoleName(a.role), shorten(a.content)) + Line(RoleName(b.role), shorten(b.content))
  {
    assert [a, b][..1] == [a];
    assert [a][..0] == [];
    var la := Line(RoleName(a.role), shorten(a.content));
    assert EntryLines([a], shorten) == [] + la == la;
  }
}
