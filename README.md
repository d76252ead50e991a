# Kyrgyz-law legal assistant: a Dafny model of its retrieval and answering core

This project models the question-answering core of a retrieval-augmented
legal assistant for the laws of the Kyrgyz Republic. The statute texts are
loaded from `.txt` files and tagged with their law name and first article
number. A question goes through five steps:

1. it is expanded into at most three query variants;
2. candidates come from a dense search per variant plus a BM25 keyword channel;
3. candidates are deduplicated by content prefix and reranked by a cross-encoder;
4. they are grouped by law into a context string, which a process-wide cache keeps;
5. a Gemini model answers from a prompt in the question's language.

The non-streaming answer is retried with exponential backoff, post-processed and
validated. It can also be voted on across temperatures (self-consistency). The
streaming answer gets two attempts. Two front ends carry the recent conversation
into the prompt: the Gradio web handler and the console loop.

Modules and files:

| module | file | models |
|---|---|---|
| `Text` | text.dfy | the Python string operations used (`strip`, `split`, `lower`, `replace`, `rfind`, `\s+`, `\n+`) |
| `Ranking` | ranking.dfy | the stable descending sort of indices by score used by BM25 and reranking |
| `Documents` | documents.dfy | document metadata written when the knowledge base is built, and the BM25 corpus |
| `QueryExpansion` | expansion.dfy | `expand_query` |
| `Dedup` | dedup.dfy | deduplication by content prefix |
| `ContextAssembly` | context.dfy | grouping by source file and rendering of the context |
| `Retrieval` | retrieval.dfy | `get_message_content` and its cache, as the class `QueryCache` |
| `Language` | language.dfy | `detect_language` |
| `PostProcess` | postprocess.dfy | `post_process_answer` |
| `Validation` | validation.dfy | `validate_answer` |
| `Retry` | retry.dfy | `_generate_with_retry` |
| `Voting` | vote.dfy | the `Counter.most_common` vote |
| `Response` | response.dfy | `get_model_response` |
| `Streaming` | stream.dfy | `get_model_response_stream` |
| `Truncation` | truncation.dfy | `truncate_at_sentence` (identical in interface.py and console.py) |
| `Chat` | chat.dfy | history entries and context lines shared by both front ends |
| `WebChat` | webchat.dfy | `process_question`, as the class `ChatSession` over the Gradio history |
| `ConsoleTurn` | console_turn.dfy | the exit test, and the console turn as written |
| `ConsoleHistory` | console_history.dfy | the console's history text |
| `Console` | console.dfy | `interactive_chat`, as the class `ConsoleSession` |

External services are given as the answers they produce:

- **Vector store, BM25 index and cross-encoder.** These are function-valued
  fields of `Retrieval.Store`. `None` stands for a call that raised. A raising
  MMR search falls back to similarity search; a raising similarity search
  makes `get_message_content` raise, and the cache is then left as it was.
- **Gemini model.** It is a script `llm(temperature, prompt, attempt)` of
  replies and exceptions. The streaming model is a script of chunk lists.
- **Prompt template.** `RAG_PROMPT.format` is the parameter `template`.
- **Sleeps.** They are returned as lists of delays.
- **Random placeholder picks.** They are the parameter `picks`.
- **Polling rounds.** The number of polling rounds spent waiting is the
  parameter `waitTicks`.
- **Switches.** `USE_BM25`, `USE_RERANKING` and `USE_SELF_CONSISTENCY` are
  parameters, so both branches of each are modelled.

The console loop, as written, cannot answer any question (see Findings). The
console model (`Console.ConsoleSession`) uses the corrected unpacking. The
behaviour as written is kept in `ConsoleTurn.TurnAsWritten`.

## Model

| member | source | states |
|---|---|---|
| QueryExpansion.ExpandQuery | retrieval.py:21-43 | at most three variants, the query itself first; a query containing "what"/"что" has its interrogative variant second; the result is the first three of all expansions |
| QueryExpansion.AppendSynonymVariants | retrieval.py:38-41 | the term loop appends, in table order, the variants of every legal term the lowered query contains |
| QueryExpansion.AppendTermVariants | retrieval.py:40-41 | the synonym loop appends one variant per synonym |
| QueryExpansion.TermVariants | retrieval.py:40-41 | one variant per synonym: the lowered query with the term replaced by that synonym |
| QueryExpansion.SynonymVariantsAreLowered | retrieval.py:38-41 | every synonym variant is the lowered query with a term it contains replaced by one of that term's synonyms |
| QueryExpansion.SynonymVariantsCount | retrieval.py:38-41 | the number of synonym variants is the number of synonyms of the matched terms |
| QueryExpansion.LegalTermsNonEmpty | retrieval.py:30-36 | no term of the synonym table is empty |
| Retrieval.CacheKeyInjective | retrieval.py:51 | two requests share a cache key only when they have the same topic and the same `k` |
| Retrieval.QueryCache.constructor | retrieval.py:7 | the cache starts empty |
| Retrieval.QueryCache.GetMessageContent | retrieval.py:46-146 | cached iff the key was stored; a hit returns the stored context and changes nothing; a miss returns the fresh retrieval (`None` when the similarity search raised) and the new entries are exactly the old ones plus this context, stored only when it was computed and fewer than 100 entries are held; a cache whose entries all equal fresh retrieval stays so |
| Retrieval.QueryCache.Admit | retrieval.py:142-143 | the entry is added only when the cache holds fewer than `MAX_CACHE_SIZE` entries; the size bound is kept |
| Retrieval.AdmitKeepsFaithful | retrieval.py:142-143 | storing a successfully computed context under its key keeps every entry equal to what a miss would compute |
| Retrieval.CachedRetrieval | retrieval.py:46-146 | with a faithful cache, the outcome is that of a fresh retrieval, hit or miss, including its failure, and the cache stays faithful |
| Retrieval.AskTwice | retrieval.py:50-54 | asking the same request twice gives the same outcome; the second is cached iff the key was present, or the first retrieval succeeded and the cache had room |
| Retrieval.RetrieveContext | retrieval.py:56-139 | a miss computes the context of the selected documents, and raises exactly when the dense search does |
| Retrieval.DenseCandidates | retrieval.py:58-67 | the dense results of each query variant, concatenated in query order, MMR falling back to similarity search; the loop fails as soon as both searches raise for a variant |
| Retrieval.DenseDocsStep | retrieval.py:61-67 | one more query variant appends its dense results, or fails when its search fails |
| Retrieval.DenseDocsFails | retrieval.py:61-67 | the dense search fails iff for some query variant both MMR and the similarity fallback raise |
| Retrieval.Bm25DocsSpec | retrieval.py:70-81 | nothing when the BM25 scorer raised; otherwise, when every one of the `k // 3` best indices names a corpus document (always so for scores aligned with the corpus), exactly those documents, best first with ties in corpus order, and no index left out ranks ahead of one taken; nothing when an index is out of range |
| Retrieval.PickTopSpec | retrieval.py:76-77 | indexing the corpus by the `m` best indices yields exactly those documents in rank order, or nothing on an out-of-range index |
| Retrieval.CandidatesSpec | retrieval.py:58-81 | the candidates fail exactly when the dense search does; otherwise they are all dense results in query order, followed by the BM25 results when that channel is on |
| Retrieval.Pick | retrieval.py:78 | picking by index succeeds iff every index is in range, and then yields the indexed documents in order |
| Retrieval.Pairs | retrieval.py:97 | one (topic, content) pair per pooled document, in order |
| Retrieval.SelectSpec | retrieval.py:93-108 | whatever the reranker answers, at most `k` documents are selected, each a unique candidate, with pairwise distinct fingerprints |
| Retrieval.RerankedSelection | retrieval.py:93-100 | with one score per pair, the selection is the `k` best of the first 15 unique candidates in score order |
| Retrieval.UnrankedSelection | retrieval.py:107-108 | without reranking, or with at most `k` unique candidates, the first `k` unique candidates are selected |
| Retrieval.SelectedSpec | retrieval.py:56-108 | retrieval fails iff the dense search fails; otherwise the selected documents are at most `k` candidates with distinct fingerprints |
| Dedup.Fingerprint | retrieval.py:87 | the fingerprint is the first 100 characters of the content (all of it when shorter) |
| Dedup.DeduplicateDocs | retrieval.py:84-90 | the kept documents have pairwise distinct fingerprints and are a subsequence of the candidates |
| Dedup.DeduplicateSpec | retrieval.py:84-90 | distinct fingerprints; every candidate fingerprint is kept; each kept document is the first candidate with its fingerprint; candidate order is preserved |
| Ranking.TopIndicesSpec | retrieval.py:77 | `min(m, n)` distinct in-range indices in descending score order, ties by position, and every index left out ranks behind every index taken |
| Ranking.RankedSpec | retrieval.py:99 | the full ranking is a permutation of the indices in descending score order, ties by position |
| Ranking.SortIndicesRanked | retrieval.py:99 | sorting distinct in-range indices yields them ranked |
| Ranking.InsertRanked | retrieval.py:99 | inserting an index into a ranked list keeps it ranked |
| ContextAssembly.ChunkText | retrieval.py:123-125 | a chunk with an article number is prefixed with `[Статья n] `; otherwise it is the content |
| ContextAssembly.IndexOfSource | retrieval.py:117 | finds the entry of a source file, or shows that none exists |
| ContextAssembly.GroupBySource | retrieval.py:111-127 | the grouping loop builds the grouped entries |
| ContextAssembly.GroupedSpec | retrieval.py:111-127 | one entry per source file, in order of first appearance, with exactly that file's chunks in order and the law name of its first document |
| ContextAssembly.SourcesOfSpec | retrieval.py:117 | the source files are distinct, cover every document and are ordered by first appearance |
| ContextAssembly.CleanChunkShape | retrieval.py:134-135 | a cleaned chunk has no newline, no whitespace run and no leading or trailing whitespace |
| ContextAssembly.CleanChunkKeepsText | retrieval.py:134-135 | cleaning a chunk keeps all its non-space characters in order |
| ContextAssembly.RenderSources | retrieval.py:130-137 | the rendering loop writes each law's block in entry order |
| ContextAssembly.AppendSection | retrieval.py:132-137 | one block: header line, at most three cleaned chunks, a blank line |
| ContextAssembly.BuildContext | retrieval.py:110-139 | the context is stripped, and empty exactly when no document was selected |
| ContextAssembly.ContextEmpty | retrieval.py:130-139 | the context is empty iff there are no documents, and it is always stripped |
| Documents.LawName | database.py:55 | the law name is the file name with `.txt` removed and, position by position, every `_` turned into a space; so it holds no `_`, and a name without `_` is just the name without `.txt` |
| Documents.ArticleAtStart | database.py:57-59 | a match yields a non-empty string of digits |
| Documents.ArticleAtStartSpec | database.py:57-59 | `Статья\s+(\d+)` matches at the start exactly when `Статья` is followed by at least one whitespace character and then a digit |
| Documents.ArticleAtMatch | database.py:57-59 | when it matches, the captured value is the whole run of digits after the whitespace |
| Documents.DigitRun | database.py:57 | the run of digits from a position: each character is the text's digit at that offset, and the run stops at a non-digit or the end |
| Documents.FindArticleFirstMatch | database.py:57-59 | the article is the digits of the first `Статья` followed by whitespace and digits |
| Documents.FindArticleNoMatch | database.py:57-59 | without such a match no article is recorded |
| Documents.LoadDocuments | database.py:44-64 | one document per `.txt` file whose load succeeded, in walk order, each with its source file, a law name without `_` and its article; other files, and files whose load raised, are skipped |
| Documents.LoadedDocsSpec | database.py:44-64 | every loaded document comes from a `.txt` file that loaded, with that file's metadata, and every `.txt` file that loaded is loaded; a file whose load raised contributes nothing |
| Documents.TokenizeSpec | database.py:90 | tokens are maximal non-space runs of the lowered text, and together hold all its non-space characters in order |
| Documents.Bm25Corpus | database.py:89-92 | one token list per document, in document order |
| Retry.GenerateWithRetry | generation.py:55-71 | the retry loop produces the run described by `RetryRunOf` |
| Retry.RetrySpec | generation.py:55-71 | at most `max_retries` calls; every call before the last was empty or raised; text returned is the last reply; the last exception is re-raised iff the last call raised; the generic failure iff the last reply was empty; the waits are those of the failed calls |
| Retry.RetryFromSpec | generation.py:59-71 | the same facts for the loop entered at any attempt |
| Retry.BackoffIsPower | generation.py:67 | the delay after attempt `n` is `base_delay * 2^n` |
| Retry.WaitsBound | generation.py:67-69 | the waits of attempts `from..upto-1` together stay below the delay of attempt `upto` |
| Retry.DefaultRetryBounds | generation.py:55 | with the defaults: one to three calls, at most two waits, at most three seconds in total |
| Retry.AllEmptyNoWait | generation.py:62-71 | when every reply is empty, all attempts are used without waiting and the generic failure is raised |
| Retry.WaitsNone | generation.py:64-69 | without exceptions there is no wait |
| Language.DetectLanguageSpec | generation.py:74-91 | Kyrgyz iff a Kyrgyz-only letter occurs; Russian iff there is none and Cyrillic letters outnumber Latin ones and exceed five; English otherwise |
| Language.CountsArePositions | generation.py:77-78 | the counts are the number of positions holding a Cyrillic or Latin letter |
| Language.NoCyrillicIsEnglish | generation.py:84-91 | a text without Cyrillic letters is English |
| Language.KyrgyzIsSticky | generation.py:81-86 | adding text on either side of a Kyrgyz text keeps it Kyrgyz |
| PostProcess.PostProcessAnswer | generation.py:94-121 | the rewrites in order; an empty answer gives ""; the result is stripped, has no newline and only plain spaces |
| PostProcess.PostProcessedShape | generation.py:94-121 | the same shape facts for the specification function |
| PostProcess.RemoveEach | generation.py:118-119 | the phrase loop removes the phrases in order |
| PostProcess.CleanAnswerUnchanged | generation.py:94-121 | a stripped, single-spaced answer with no header, bold, run-on sentence or stock phrase comes back unchanged |
| PostProcess.DoubleSpaceSurvives | generation.py:103-107 | `a ** b**` becomes `a  b`: bold removal after whitespace collapsing leaves two spaces |
| PostProcess.RemoveHeader | generation.py:106 | a leading `#` run and the whitespace after it are removed; other text is unchanged |
| PostProcess.UnboldSpan | generation.py:107 | `**w**` with a non-empty star-free `w` becomes `w` |
| PostProcess.UnboldPlain | generation.py:107 | text without `**` is unchanged |
| PostProcess.SentenceSpacingSeparates | generation.py:110 | after the rewrite no full stop runs into a capital letter |
| PostProcess.SpacingPlain | generation.py:110 | text where no full stop runs into a capital is unchanged |
| PostProcess.PhraseMatch | generation.py:113-119 | a phrase matches iff its stem starts the text, ignoring case |
| PostProcess.RemovePhrasesAbsent | generation.py:113-119 | text containing no stock phrase is unchanged |
| Voting.BestAmong | generation.py:191-193 | the chosen answer is one of the most frequent, and every earlier answer is strictly less frequent |
| Voting.VoteSpec | generation.py:190-194 | the vote returns a given answer occurring at least as often as any other, the first such one; the fallback `answers[0]` agrees with this |
| Voting.VoteRepeated | generation.py:192-193 | `["A", "B", "A"]` gives "A" |
| Voting.VoteAllDistinct | generation.py:194 | `["A", "B", "C"]` gives "A" |
| Response.GetModelResponse | generation.py:166-222 | returns the response of the mode selected |
| Response.CollectAnswers | generation.py:178-188 | the quality-mode loop collects the post-processed text of each temperature's run that produced text |
| Response.RespondOnce | generation.py:196-222 | the speed-mode body on a formatted prompt |
| Response.SingleShotSpec | generation.py:196-222 | one or two runs; the second, with the enhanced prompt, exactly when the first answer fails validation; a failed run gives the apology; a one-run answer is validated |
| Response.SingleShotOnSpec | generation.py:203-222 | the same facts for any formatted prompt |
| Response.SingleShotBounds | generation.py:196-218 | a non-apology answer is stripped and plainly spaced; every run makes at most three calls |
| Response.SelfConsistentSpec | generation.py:176-194 | three runs; the apology iff no run produced text; otherwise the most frequent answer, which occurs at least as often as any other |
| Response.TextsSpec | generation.py:179-188 | the collected texts are those of the runs that produced text |
| Response.AnswersFromRuns | generation.py:179-188 | each collected answer is the post-processed text of a run |
| Response.MapAllSpec | generation.py:185 | each answer is post-processed in place |
| Response.Enhanced | generation.py:214 | the enhanced prompt extends the prompt |
| Streaming.StreamResponse | generation.py:225-271 | the generator yields the fragments described by `Streamed` |
| Streaming.YieldChunks | generation.py:243-250 | the chunk loop yields the non-empty chunks and reports whether there was any |
| Streaming.StreamSpec | generation.py:238-271 | never empty and no empty fragment; the first attempt's chunks come first; a first attempt with content ends the stream; otherwise the second attempt's chunks follow, then the error or no-response message if it raised or was empty |
| Streaming.StreamedNonEmpty | generation.py:238-271 | the stream always yields something |
| Streaming.AtMostTwoAttempts | generation.py:238-239 | only the first two attempts matter |
| Streaming.StreamedText | generation.py:246-257 | a successful first attempt streams exactly its text |
| Streaming.NonEmptyKeepsText | generation.py:247-250 | skipping empty chunks loses no text |
| Streaming.SilentFailures | generation.py:265-271 | two attempts that raise before any chunk give only the error message |
| Validation.ValidateAnswerInOrder | generation.py:274-332 | the verdict of the first failing check, in source order, or `(True, "OK")` |
| Validation.FirstVerdictSpec | generation.py:274-332 | accepted iff no rule fires; otherwise the reason of the first rule that fires |
| Validation.AcceptedAnswer | generation.py:274-332 | an accepted answer has 20 to 1500 characters, does not mention both "sorry" and "error", has no evasive phrase, a shared non-stop word of three or more letters with the question, a sentence of more than three words, and a citation or legal term when the context exceeds 200 characters |
| Validation.RejectedAnswer | generation.py:274-332 | a rejected answer reports the reason of the first rule that fires |
| Validation.ShortAnswerRejected | generation.py:277-278 | an answer under 20 characters once stripped is "Answer too short" |
| Truncation.Truncate | interface.py:39-58 | the truncation method computes `TruncateAtSentence` |
| Truncation.FindSentenceCut | interface.py:48-51 | the delimiter loop finds the cut `SentenceCut` describes |
| Truncation.SentenceCutSpec | interface.py:48-51 | no cut iff no delimiter ends a sentence past half the window; a cut is the last occurrence of the first delimiter that occurs past half |
| Truncation.RepeatedDelimitersRedundant | interface.py:48 | the repeated second half of the delimiter list never changes the cut |
| Truncation.ShortTextUnchanged | interface.py:41-42 | a text within the limit is returned unchanged |
| Truncation.CutAtSentenceEnd | interface.py:44-51 | when a sentence ends past half the window, the result is the text up to that full stop, within the limit |
| Truncation.CutAtWord | interface.py:53-58 | otherwise the cut is at the last space of the window (or none), marked with `...` |
| Truncation.TruncateBounds | interface.py:39-58 | the result is at most `max_length + 3` long and a prefix of the text, possibly followed by `...` |
| Truncation.DelimiterShape | interface.py:48 | every delimiter is a sentence mark followed by a space |
| WebChat.BuildConvHistory | interface.py:71-83 | the loop builds the conversation context |
| WebChat.WriteEarlier | interface.py:74-77 | the earlier entries, each truncated to 200 characters at a sentence |
| WebChat.ConvHistoryShape | interface.py:71-83 | empty iff at most three entries; otherwise it ends with the entry before the question, in full |
| WebChat.QuestionExcluded | interface.py:74-83 | the current question never enters its own conversation context |
| WebChat.RecentEntries | interface.py:74-83 | with five or more entries: the three entries before the last two, truncated, then the entry before the question in full |
| WebChat.ConvHistoryBound | interface.py:74-77 | the truncated part is at most three lines of 215 characters |
| WebChat.SnapshotsSpec | interface.py:109-113 | each shown state is the answer so far, each extends the previous, and the last is the whole answer |
| WebChat.ChatSession.ShowPicks | interface.py:95-106 | each rotation replaces the placeholder and is shown; with at least one rotation the last entry ends up holding the last pick, otherwise the history is unchanged |
| WebChat.ChatSession.ShowStream | interface.py:109-113 | the last entry ends up holding the whole streamed answer; each state is shown |
| WebChat.ChatSession.AwaitContext | interface.py:89-98 | the rotations while waiting are shown; the cache lookup is that of `get_message_content`: cached iff the key was stored, the stored or freshly retrieved context, the new entries exactly those `GetMessageContent` leaves, and faithfulness kept |
| WebChat.ChatSession.Respond | interface.py:88-119 | waiting rotations, then either the error message in the last entry when the retrieval raised, or the four startup rotations only when not cached and the streamed answer, which ends up in the last entry; the cache changes as the lookup states |
| WebChat.ChatSession.Ask | interface.py:67-119 | the question is appended; the conversation context excludes it; on a database failure the placeholder becomes the error message and the cache is unchanged; otherwise the cache changes as the lookup states, a raising retrieval leaves the error message after the rotations, and a retrieved context leaves the question and the whole streamed answer |
| WebChat.ChatSession.ProcessQuestion | interface.py:61-119 | a blank question only appends the prompt to enter one and shows nothing; any other is handled as `Ask` describes |
| ConsoleTurn.ExitNeedsShortTopic | console.py:60 | an exit word has one to five characters, so an empty line or a longer question is not one |
| ConsoleTurn.AsWrittenNeverAnswers | console.py:68-100 | as written, no turn is answered: every non-exit, non-empty line fails |
| ConsoleTurn.AsWrittenFailsOnQuestion | console.py:71 | as written, any question longer than five characters fails |
| ConsoleHistory.BuildHistoryText | console.py:76-85 | the loop builds the history text |
| ConsoleHistory.WriteEarlier | console.py:79-81 | the two entries before the last exchange, each truncated to 200 characters |
| ConsoleHistory.WriteFull | console.py:84-85 | the last exchange in full |
| ConsoleHistory.HistoryTextOfExchanges | console.py:76-85 | for a history of exchanges: empty with one exchange or none; otherwise the previous exchange shortened, then the last exchange in full, as user/assistant lines |
| ConsoleHistory.RecentEntries | console.py:76-85 | with four or more entries, the text is the two earlier entries shortened, then the last two in full |
| ConsoleHistory.LastRoles | console.py:95-96 | a history built of exchanges ends user, assistant, user, assistant |
| Console.ConsoleSession.constructor | console.py:55 | the conversation history starts empty |
| Console.ConsoleSession.Turn | console.py:57-100 | an exit word quits and changes nothing; an empty line changes nothing; otherwise the cache changes as the lookup states, a raising retrieval fails and keeps the history, and a retrieved context gives the answer generated from it and from the history text of the earlier history, and the exchange is appended |
| Console.ConsoleSession.Answer | console.py:68-100 | a non-blank question either fails when the retrieval raised, keeping the history, or is answered from the retrieved context with the exchange appended |
| Console.ConsoleSession.Step | console.py:57-100 | a turn quits iff the line is an exit word, skips iff it is blank, and otherwise answers or fails; the history grows by exactly the exchange of an answered line |
| Console.ConsoleSession.Chat | console.py:49-100 | the loop stops at the first exit word and nowhere else; every line before it is skipped iff blank and otherwise answered or failed; the history is the old one plus the question and answer of every answered line, in order |
| Console.TranscriptLength | console.py:95-96 | the transcript holds two entries per answered line |
| Console.QuitEnds | console.py:60-62 | the first exit word ends the chat |
| Console.ExchangesExtend | console.py:95-96 | appending a question and its answer keeps the history a list of exchanges |

## Left out

- Similarity search, MMR, BM25 scoring and the cross-encoder are left out. They are external libraries, so the model takes their results as given (`Retrieval.Store`). Their scores are integers because only their order is used.
- The Gemini client and `get_llm`'s cached model instance are not modelled. The model is a script of outcomes, and temperatures are written in thousandths.
- `RAG_PROMPT` is a template parameter. Its text is not modelled.
- Sleeping, logging and printing are left out. Sleeps are returned as delays; the console turn's printed output is its outcome.
- Gradio polling is modelled as a number of waiting rounds, and `random.choice` picks as a parameter. Threads are not modelled.
- `initialize_db` and `get_index_db` are outside the model. Building or loading the FAISS index, the directory walk and the text splitter are I/O or library code. The loading loop's metadata is modelled on a list of files.
- Documents.LoadDocuments: metadata is computed on the whole file before splitting. Every chunk of a file therefore carries the file's first article number; splitting itself is not modelled.
- The streamed answer's validation only writes a log line, so it is not modelled.
- `single_question` mode, `main.py` and the server settings are not part of this model.
- Interrupts and end of input at the console prompt are not modelled. Neither is the "Using cached results" message.
- Dedup.Fingerprint: Python hashes the 100-character prefix. Hash collisions are not modelled, so two documents are duplicates exactly when their prefixes are equal.
- Text.IsSpace and Text.Lower: whitespace and case folding cover ASCII, basic Cyrillic and the Kyrgyz letters only. Wider Unicode tables are not modelled.
- PostProcess.PostProcessAnswer: promises only that every whitespace character is a plain space, not single spacing. Bold removal after whitespace collapsing can leave two spaces in a row (`PostProcess.DoubleSpaceSurvives`).
- Validation and Documents.ArticleAtStart: the evasive-answer patterns are written out as the eight literal strings they match. The `\w` class is letters, digits and `_` of the modelled alphabets; `\d` is the ASCII digits only, not every Unicode decimal digit; `\s` is the whitespace set of `Text.IsSpace`.
- WebChat.ChatSession.ProcessQuestion: the exceptions modelled are a failure of `initialize_db` and a similarity search that raises inside `get_message_content`. The retry and streaming code catch their own errors, so no other call raises in the model.

## Findings

| source | as written | input that shows it | evidently intended | confidence | as-written member | corrected member |
|---|---|---|---|---|---|---|
| console.py:71 | `message_content, is_cached, confidence_score = get_message_content(...)` unpacks three names from the pair that `get_message_content` returns. The `ValueError` is caught at console.py:98-100, so every question prints the error message and no exchange is ever stored. | any question, e.g. "What is article 5?" | unpack the pair `(message_content, is_cached)` and answer | high; not executed | ConsoleTurn.AsWrittenFailsOnQuestion | Console.ConsoleSession.Turn |
