/**
 * The streaming answer (generation.py, `get_model_response_stream`): up to
 * two streamed model calls; the non-empty chunks of each are passed on as
 * they arrive, and a fixed message closes the stream when the last attempt
 * produced nothing or failed.
 *
 * The model is a script: `attempts(i)` is what attempt `i` streams, its
 * chunks in order and whether an exception cut the stream after them.
 */
module Streaming {
  import opened Text

  /** One streamed call: the chunks delivered, then either the end of the stream or an
      exception (`raised`). An exception thrown by the call itself has no chunks. */
  datatype StreamAttempt = StreamAttempt(chunks: seq<string>, raised: bool)

  const MaxStreamAttempts: nat := 2

  const NoResponseMessage: string := "I couldn't generate a response. Please try rephrasing your question."
  const StreamErrorMessage: string := "Sorry, an error occurred while processing your request. Please try again."

  /** The chunks with text, in order: those `if chunk.text:` passes on. */
  function NonEmpty(chunks: seq<string>): (r: seq<string>)
    ensures |r| <= |chunks|
    ensures forall k :: 0 <= k < |r| ==> r[k] != []
  {
    if chunks == [] then []
    else
      var last := chunks[|chunks| - 1];
      NonEmpty(chunks[..|chunks| - 1]) + (if last != [] then [last] else [])
  }

  /** The fragments yielded from attempt `attempt` on. */
  function StreamFrom(attempts: nat -> StreamAttempt, attempt: nat): seq<string>
    decreases MaxStreamAttempts - attempt
  {
    if attempt >= MaxStreamAttempts then []
    else
      var a := attempts(attempt);
      var out := NonEmpty(a.chunks);
      var last := attempt == MaxStreamAttempts - 1;
      if a.raised then
        out + (if last then [StreamErrorMessage] else StreamFrom(attempts, attempt + 1))
      else if out != [] then out
      else if last then [NoResponseMessage]
      else StreamFrom(attempts, attempt + 1)
  }

  /** Everything `get_model_response_stream` yields. */
  function Streamed(attempts: nat -> StreamAttempt): seq<string> {
    StreamFrom(attempts, 0)
  }

  /** The generator, each `yield` appending to `fragments`. */
  method StreamResponse(attempts: nat -> StreamAttempt) returns (fragments: seq<string>)
    ensures fragments == Streamed(attempts)
  {
    fragments := [];
    var attempt := 0;
    while attempt < MaxStreamAttempts
      invariant attempt <= MaxStreamAttempts
      invariant Streamed(attempts) == fragments + StreamFrom(attempts, attempt)
      decreases MaxStreamAttempts - attempt
    {
      var a := attempts(attempt);
      var hasContent;
      fragments, hasContent := YieldChunks(a.chunks, fragments);
      if a.raised {
        if attempt < MaxStreamAttempts - 1 {
          attempt := attempt + 1;
          continue;
        }
        fragments := fragments + [StreamErrorMessage];
        return;
      }
      if hasContent {
        return;
      }
      if attempt < MaxStreamAttempts - 1 {
        attempt := attempt + 1;
        continue;
      }
      fragments := fragments + [NoResponseMessage];
      return;
    }
  }

  /** The `for chunk in response` loop of one attempt: every chunk with text is yielded,
      and `hasContent` records whether there was one. */
  method YieldChunks(chunks: seq<string>, before: seq<string>) returns (fragments: seq<string>, hasContent: bool)
    ensures fragments == before + NonEmpty(chunks)
    ensures hasContent <==> NonEmpty(chunks) != []
  {
    fragments := before;
    hasContent := false;
    for i := 0 to |chunks|
      invariant fragments == before + NonEmpty(chunks[..i])
      invariant hasContent <==> NonEmpty(chunks[..i]) != []
    {
      assert chunks[..i + 1][..i] == chunks[..i];
      if chunks[i] != [] {
        hasContent := true;
        fragments := fragments + [chunks[i]];
      }
    }
    assert chunks[..|chunks|] == chunks;
  }

  /** Dropping the empty chunks loses no text. */
  lemma {:induction false} NonEmptyKeepsText(chunks: seq<string>)
    ensures Concat(NonEmpty(chunks)) == Concat(chunks)
    decreases |chunks|
  {
    if chunks != [] {
      var init := chunks[..|chunks| - 1];
      var last := chunks[|chunks| - 1];
      NonEmptyKeepsText(init);
      ConcatAppend(NonEmpty(init), if last != [] then [last] else []);
      ConcatAppend(init, [last]);
      assert chunks == init + [last];
      assert Concat([last]) == last + Concat([]);
    }
  }

  /** What the stream yields, case by case: something is always yielded, and every
      fragment has text; the chunks with text
      of the first attempt come first and are never taken back; a first attempt that
      ends normally with text is the whole answer; otherwise the second attempt's chunks
      follow, closed by the error message if it failed, or by the no-response message if
      it ended with no text. */
  lemma StreamSpec(attempts: nat -> StreamAttempt)
    ensures var r := Streamed(attempts);
      var first, second := attempts(0), attempts(1);
      && r != []
      && (forall k :: 0 <= k < |r| ==> r[k] != [])
      && r[..|NonEmpty(first.chunks)|] == NonEmpty(first.chunks)
      && (!first.raised && NonEmpty(first.chunks) != [] ==> r == NonEmpty(first.chunks))
      && (first.raised || NonEmpty(first.chunks) == [] ==>
            r == NonEmpty(first.chunks) + NonEmpty(second.chunks)
                   + (if second.raised then [StreamErrorMessage]
                      else if NonEmpty(second.chunks) == [] then [NoResponseMessage]
                      else []))
  {
    var first, second := attempts(0), attempts(1);
    var r := Streamed(attempts);
    var tail := StreamFrom(attempts, 1);
    assert StreamFrom(attempts, 2) == [];
    if first.raised || NonEmpty(first.chunks) == [] {
      assert r == NonEmpty(first.chunks) + tail;
    }
  }

  /** The stream always yields something. */
  lemma StreamedNonEmpty(attempts: nat -> StreamAttempt)
    ensures Streamed(attempts) != []
  {
    StreamSpec(attempts);
  }

  /** Only the first two calls are made: scripts that agree on them stream the same. */
  lemma AtMostTwoAttempts(attempts: nat -> StreamAttempt, other: nat -> StreamAttempt)
    requires attempts(0) == other(0) && attempts(1) == other(1)
    ensures Streamed(attempts) == Streamed(other)
  {
    assert StreamFrom(attempts, 2) == StreamFrom(other, 2) == [];
    assert StreamFrom(attempts, 1) == StreamFrom(other, 1);
  }

  /** The text the user ends up with: when the first attempt ends normally with text, it
      is exactly that attempt's text, with nothing added. */
  lemma StreamedText(attempts: nat -> StreamAttempt)
    requires !attempts(0).raised && NonEmpty(attempts(0).chunks) != []
    ensures Concat(Streamed(attempts)) == Concat(attempts(0).chunks)
  {
    StreamSpec(attempts);
    NonEmptyKeepsText(attempts(0).chunks);
  }

  /** A stream that failed on both attempts without any text yields only the error
      message. */
  lemma SilentFailures(attempts: nat -> StreamAttempt)
    requires attempts(0).raised && attempts(1).raised
    requires NonEmpty(attempts(0).chunks) == [] && NonEmpty(attempts(1).chunks) == []
    ensures Streamed(attempts) == [StreamErrorMessage]
  {
    StreamSpec(attempts);
  }
}
