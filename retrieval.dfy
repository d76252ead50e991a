/**
 * The retrieval pipeline of retrieval.py, `get_message_content`: query
 * expansion, dense search per query variant, a BM25 keyword channel,
 * deduplication, cross-encoder reranking, context assembly, and the
 * process-wide result cache.
 *
 * The vector store, the BM25 index and the cross-encoder are outside the
 * model: they appear as the answers they give (`Store`), `None` standing for a
 * call that raised. A raising similarity search is the one failure that
 * escapes `get_message_content`; the cache is then left as it was.
 */
module Retrieval {
  import opened Wrappers
  import opened Text
  import opened Ranking
  import opened Documents
  import opened QueryExpansion
  import opened Dedup
  import opened ContextAssembly

  /** `RETRIEVAL_K`: how many documents the callers ask for. */
  const RetrievalK: nat := 8
  /** `RERANK_TOP_N`: how many candidates the cross-encoder scores. */
  const RerankTopN: nat := 15
  /** `MAX_CACHE_SIZE`: the cache stops admitting entries at this size. */
  const MaxCacheSize: nat := 100

  /** What the retriever's collaborators answer.
      `mmr(query, k, fetchK)`: `max_marginal_relevance_search`, `None` when it raised;
      `similarity(query, k)`: `similarity_search`, the fallback, `None` when it raised too;
      `corpus`: the documents of the BM25 index, aligned with its scores;
      `bm25Scores(tokens)`: `bm25.get_scores`, `None` when building or querying the index raised;
      `rerankScores(pairs)`: `reranker.predict`, `None` when loading or predicting raised. */
  datatype Store = Store(
    mmr: (string, nat, nat) -> Option<seq<Doc>>,
    similarity: (string, nat) -> Option<seq<Doc>>,
    corpus: seq<Doc>,
    bm25Scores: seq<string> -> Option<seq<int>>,
    rerankScores: seq<(string, string)> -> Option<seq<int>>)

  /** The `USE_BM25` and `USE_RERANKING` switches. */
  datatype Settings = Settings(useBm25: bool, useReranking: bool)

  /** `f"{topic}_{k}"` */
  function CacheKey(topic: string, k: nat): string {
    topic + "_" + NatToString(k)
  }

  /** Two requests share a cache entry only when they have the same topic and the same
      `k`: the digits of `k` hold no `_`, so the last `_` of the key separates the two. */
  lemma CacheKeyInjective(t1: string, k1: nat, t2: string, k2: nat)
    requires CacheKey(t1, k1) == CacheKey(t2, k2)
    ensures t1 == t2 && k1 == k2
  {
    var d1 := NatToString(k1);
    var d2 := NatToString(k2);
    var key := CacheKey(t1, k1);
    KeyShape(t1, k1);
    KeyShape(t2, k2);
    assert |t1| == |t2| by {
      if |t2| < |t1| {
        assert key[|t1|] == '_';
      }
    }
    assert t1 == key[..|t1|] == t2;
    assert d1 == key[|t1| + 1..] == d2;
    NatToStringInjective(k1, k2);
  }

  /** The `_` after the topic is the last one of the key. */
  lemma KeyShape(topic: string, k: nat)
    ensures |CacheKey(topic, k)| > |topic| && CacheKey(topic, k)[|topic|] == '_'
    ensures forall i :: |topic| < i < |CacheKey(topic, k)| ==> CacheKey(topic, k)[i] != '_'
  {
    var d := NatToString(k);
    var key := CacheKey(topic, k);
    forall i | |topic| < i < |key| ensures key[i] != '_' {
      assert key[i] == d[i - |topic| - 1];
    }
  }

  /** The documents a dense search for one query returns: MMR, or plain similarity
      search when MMR raised; `None` when the fallback raised as well. */
  function DenseSearch(store: Store, query: string, k: nat): Option<seq<Doc>> {
    match store.mmr(query, k, k * 2)
    case Some(docs) => Some(docs)
    case None => store.similarity(query, k)
  }

  /** The dense results of every query variant, concatenated in query order; `None` when
      the search for any variant raised. */
  function DenseDocs(store: Store, queries: seq<string>, k: nat): Option<seq<Doc>> {
    if queries == [] then Some([])
    else
      match DenseDocs(store, queries[..|queries| - 1], k)
      case None => None
      case Some(init) =>
        match DenseSearch(store, queries[|queries| - 1], k)
        case None => None
        case Some(docs) => Some(init + docs)
  }

  /** The dense channel fails exactly when, for some query variant, both MMR and the
      similarity search raise. */
  lemma {:induction false} DenseDocsFails(store: Store, queries: seq<string>, k: nat)
    ensures DenseDocs(store, queries, k).None? <==>
              exists i :: 0 <= i < |queries| && store.mmr(queries[i], k, k * 2).None? && store.similarity(queries[i], k).None?
  {
    if queries != [] {
      var n := |queries| - 1;
      var init := queries[..n];
      DenseDocsFails(store, init, k);
      if DenseDocs(store, queries, k).None? {
        if DenseDocs(store, init, k).None? {
          var i :| 0 <= i < |init| && store.mmr(init[i], k, k * 2).None? && store.similarity(init[i], k).None?;
          assert queries[i] == init[i];
        } else {
          assert store.mmr(queries[n], k, k * 2).None? && store.similarity(queries[n], k).None?;
        }
      } else {
        forall i | 0 <= i < |queries|
          ensures store.mmr(queries[i], k, k * 2).Some? || store.similarity(queries[i], k).Some?
        {
          if i < n {
            assert queries[i] == init[i];
          }
        }
      }
    }
  }

  /** `[docs[i] for i in indices]`, or `None` when an index is out of range (an
      `IndexError` in the source). */
  function Pick(docs: seq<Doc>, indices: seq<int>): (r: Option<seq<Doc>>)
    ensures r.Some? <==> forall j :: 0 <= j < |indices| ==> 0 <= indices[j] < |docs|
    ensures r.Some? ==> |r.value| == |indices|
    ensures r.Some? ==> forall j :: 0 <= j < |indices| ==> r.value[j] == docs[indices[j]]
  {
    if forall j :: 0 <= j < |indices| ==> 0 <= indices[j] < |docs| then
      Some(seq(|indices|, j requires 0 <= j < |indices| => docs[indices[j]]))
    else None
  }

  /** The BM25 channel: the `k // 3` best-scoring corpus documents for the lowered,
      whitespace-split topic, or nothing when any step of it raised. */
  function Bm25Docs(store: Store, topic: string, k: nat): seq<Doc> {
    match store.bm25Scores(Tokenize(topic))
    case None => []
    case Some(scores) =>
      match Pick(store.corpus, TopIndices(scores, k / 3))
      case None => []
      case Some(docs) => docs
  }

  /** The BM25 channel's promise: nothing when the scorer raised; otherwise what
      `TopPicked` says of the corpus and the scores. */
  lemma Bm25DocsSpec(store: Store, topic: string, k: nat)
    ensures store.bm25Scores(Tokenize(topic)).None? ==> Bm25Docs(store, topic, k) == []
    ensures store.bm25Scores(Tokenize(topic)).Some? ==>
              TopPicked(store.corpus, store.bm25Scores(Tokenize(topic)).value, k / 3, Bm25Docs(store, topic, k))
  {
    match store.bm25Scores(Tokenize(topic))
    case None =>
    case Some(scores) =>
      PickTopSpec(store.corpus, scores, k / 3);
  }

  /** `docs` is what `[corpus[i] for i in top]` gives for the `m` best indices `top` by
      `scores`, the `IndexError` caught: when every index names a corpus document (always
      so when the scores are aligned with the corpus, as `Documents.Bm25Corpus` builds
      it), exactly those documents, best first, ties in corpus order, with no index left
      out ranking ahead of one taken; nothing when an index is out of range. */
  ghost predicate TopPicked(corpus: seq<Doc>, scores: seq<int>, m: nat, docs: seq<Doc>) {
    var top := TopIndices(scores, m);
    && (|scores| <= |corpus| ==> forall a :: 0 <= a < |top| ==> 0 <= top[a] < |corpus|)
    && ((forall a :: 0 <= a < |top| ==> 0 <= top[a] < |corpus|) ==>
          && |docs| == |top| == Min(m, |scores|)
          && (forall j :: 0 <= j < |top| ==> docs[j] == corpus[top[j]])
          && RankedBy(scores, top)
          && (forall i, a :: 0 <= i < |scores| && i !in top && 0 <= a < |top| ==> Ahead(scores, top[a], i)))
    && (!(forall a :: 0 <= a < |top| ==> 0 <= top[a] < |corpus|) ==> docs == [])
  }

  lemma PickTopSpec(corpus: seq<Doc>, scores: seq<int>, m: nat)
    ensures TopPicked(corpus, scores, m,
                      match Pick(corpus, TopIndices(scores, m)) case None => [] case Some(docs) => docs)
  {
    TopIndicesSpec(scores, m);
  }

  /** The candidates: `None` exactly when the dense search raised; otherwise every dense
      result in query order, followed by the BM25 results when that channel is switched on. */
  lemma CandidatesSpec(store: Store, settings: Settings, topic: string, k: nat)
    ensures Candidates(store, settings, topic, k).None? <==> DenseDocs(store, Queries(topic), k).None?
    ensures DenseDocs(store, Queries(topic), k).Some? ==>
              Candidates(store, settings, topic, k).value
              == DenseDocs(store, Queries(topic), k).value + (if settings.useBm25 then Bm25Docs(store, topic, k) else [])
  {
  }

  /** The query variants searched: at most three, the topic first. */
  function Queries(topic: string): seq<string> {
    var all := AllExpansions(topic);
    all[..Min(MaxExpansions, |all|)]
  }

  /** Every candidate, before deduplication: the dense results for each query variant,
      then the BM25 results; `None` when the dense search raised. */
  function Candidates(store: Store, settings: Settings, topic: string, k: nat): Option<seq<Doc>> {
    match DenseDocs(store, Queries(topic), k)
    case None => None
    case Some(dense) => Some(dense + (if settings.useBm25 then Bm25Docs(store, topic, k) else []))
  }

  /** `[[topic, doc.page_content] for doc in docs]` */
  function Pairs(topic: string, docs: seq<Doc>): (r: seq<(string, string)>)
    ensures |r| == |docs|
    ensures forall j :: 0 <= j < |docs| ==> r[j] == (topic, docs[j].content)
  {
    seq(|docs|, j requires 0 <= j < |docs| => (topic, docs[j].content))
  }

  /** The candidates the cross-encoder scores: the first `RERANK_TOP_N` unique ones. */
  function Pool(unique: seq<Doc>): seq<Doc> {
    unique[..Min(RerankTopN, |unique|)]
  }

  /** The reranking step: when enabled and there are more than `k` unique candidates, the
      `k` best of the pool by cross-encoder score; the first `k` unique candidates when the
      reranker raised or named a candidate that does not exist; otherwise the first `k`. */
  function Select(store: Store, settings: Settings, topic: string, unique: seq<Doc>, k: nat): seq<Doc> {
    if settings.useReranking && |unique| > k then
      match store.rerankScores(Pairs(topic, Pool(unique)))
      case None => unique[..k]
      case Some(scores) =>
        match Pick(unique, TopIndices(scores, k))
        case None => unique[..k]
        case Some(docs) => docs
    else unique[..Min(k, |unique|)]
  }

  /** The documents the context is built from. */
  function Selected(store: Store, settings: Settings, topic: string, k: nat): Option<seq<Doc>> {
    match Candidates(store, settings, topic, k)
    case None => None
    case Some(all) => Some(Select(store, settings, topic, Deduplicate(all), k))
  }

  /** The context a cache miss computes, or `None` when the retrieval raised. */
  function Retrieved(store: Store, settings: Settings, topic: string, k: nat): Option<string> {
    match Selected(store, settings, topic, k)
    case None => None
    case Some(docs) => Some(Context(docs))
  }

  /** Whatever the reranker answers, at most `k` documents are selected, each one of the
      unique candidates, and no two share a fingerprint. */
  lemma SelectSpec(store: Store, settings: Settings, topic: string, unique: seq<Doc>, k: nat)
    requires forall i, j :: 0 <= i < j < |unique| ==> Fingerprint(unique[i]) != Fingerprint(unique[j])
    ensures |Select(store, settings, topic, unique, k)| <= k
    ensures forall d :: d in Select(store, settings, topic, unique, k) ==> d in unique
    ensures forall a, b :: 0 <= a < b < |Select(store, settings, topic, unique, k)| ==>
              Fingerprint(Select(store, settings, topic, unique, k)[a])
              != Fingerprint(Select(store, settings, topic, unique, k)[b])
  {
    if settings.useReranking && |unique| > k {
      match store.rerankScores(Pairs(topic, Pool(unique)))
      case None =>
      case Some(scores) =>
        var top := TopIndices(scores, k);
        TopIndicesSpec(scores, k);
        match Pick(unique, top)
        case None =>
        case Some(docs) =>
          forall a, b | 0 <= a < b < |docs| ensures Fingerprint(docs[a]) != Fingerprint(docs[b]) {
            assert top[a] != top[b];
            if top[a] < top[b] {
              assert Fingerprint(unique[top[a]]) != Fingerprint(unique[top[b]]);
            } else {
              assert Fingerprint(unique[top[b]]) != Fingerprint(unique[top[a]]);
            }
          }
    }
  }

  /** When the cross-encoder gives one score per pair, the selection is the `k` best pool
      documents by that score, best first, equal scores in candidate order. */
  lemma RerankedSelection(store: Store, settings: Settings, topic: string, unique: seq<Doc>, k: nat,
                          scores: seq<int>)
    requires settings.useReranking && |unique| > k
    requires store.rerankScores(Pairs(topic, Pool(unique))) == Some(scores)
    requires |scores| == |Pool(unique)|
    ensures |Select(store, settings, topic, unique, k)| == |TopIndices(scores, k)| == Min(k, |Pool(unique)|)
    ensures forall j :: 0 <= j < |TopIndices(scores, k)| ==>
              0 <= TopIndices(scores, k)[j] < |Pool(unique)|
              && Select(store, settings, topic, unique, k)[j] == Pool(unique)[TopIndices(scores, k)[j]]
  {
    var pool := Pool(unique);
    assert |pool| <= |unique|;
    assert forall i :: 0 <= i < |pool| ==> pool[i] == unique[i];
    var top := TopIndices(scores, k);
    TopIndicesSpec(scores, k);
    assert forall j :: 0 <= j < |top| ==> 0 <= top[j] < |pool|;
    SelectReranked(store, settings, topic, unique, k, scores);
    var picked := Pick(unique, top).value;
    forall j | 0 <= j < |top| ensures picked[j] == pool[top[j]] {
      assert picked[j] == unique[top[j]];
    }
  }

  lemma SelectReranked(store: Store, settings: Settings, topic: string, unique: seq<Doc>, k: nat,
                       scores: seq<int>)
    requires settings.useReranking && |unique| > k
    requires store.rerankScores(Pairs(topic, Pool(unique))) == Some(scores)
    requires Pick(unique, TopIndices(scores, k)).Some?
    ensures Select(store, settings, topic, unique, k) == Pick(unique, TopIndices(scores, k)).value
  {
  }

  /** Without reranking, or with no more than `k` unique candidates, the selection is the
      first `k` of them in arrival order. */
  lemma UnrankedSelection(store: Store, settings: Settings, topic: string, unique: seq<Doc>, k: nat)
    requires !settings.useReranking || |unique| <= k
    ensures Select(store, settings, topic, unique, k) == unique[..Min(k, |unique|)]
  {
  }

  /** The retrieval fails exactly when the dense search does; otherwise the selected
      documents are at most `k` distinct-fingerprint candidates, each the first candidate
      with its fingerprint. */
  lemma SelectedSpec(store: Store, settings: Settings, topic: string, k: nat)
    ensures Retrieved(store, settings, topic, k).None? <==> DenseDocs(store, Queries(topic), k).None?
    ensures Selected(store, settings, topic, k).Some? ==>
              var docs := Selected(store, settings, topic, k).value;
              && |docs| <= k
              && (forall d :: d in docs ==> d in Candidates(store, settings, topic, k).value)
              && (forall a, b :: 0 <= a < b < |docs| ==> Fingerprint(docs[a]) != Fingerprint(docs[b]))
  {
    if Candidates(store, settings, topic, k).None? {
      return;
    }
    var all := Candidates(store, settings, topic, k).value;
    var unique := Deduplicate(all);
    DeduplicateSpec(all);
    SelectSpec(store, settings, topic, unique, k);
    forall d | d in Selected(store, settings, topic, k).value ensures d in all {
      var i :| 0 <= i < |unique| && unique[i] == d;
      assert d == all[FirstWith(all, Fingerprint(d))];
    }
  }

  /** Every entry holds the context a miss would compute for its request. */
  ghost predicate Faithful(entries: map<string, string>, store: Store, settings: Settings) {
    forall topic: string, k: nat :: CacheKey(topic, k) in entries ==>
      Retrieved(store, settings, topic, k) == Some(entries[CacheKey(topic, k)])
  }

  /** The entries after a request for `key` answered `context`: a hit or a retrieval that
      raised leaves them as they were; a fresh context is stored unless the cache is full. */
  function CacheAfter(entries: map<string, string>, key: string, context: Option<string>, cached: bool): map<string, string> {
    if !cached && context.Some? && |entries| < MaxCacheSize then entries[key := context.value] else entries
  }

  /** A request for `topic` and `k` took the cache from `e0` to `e` and answered
      `context`, as `get_message_content` does: a hit exactly when the key was present,
      the stored context on a hit, a fresh retrieval on a miss, the entries updated as
      `CacheAfter` says, and a faithful cache stays faithful. */
  ghost predicate Lookup(e0: map<string, string>, e: map<string, string>, topic: string, k: nat,
                         context: Option<string>, cached: bool, store: Store, settings: Settings)
  {
    var key := CacheKey(topic, k);
    && (cached <==> key in e0)
    && (cached ==> context == Some(e0[key]))
    && (!cached ==> context == Retrieved(store, settings, topic, k))
    && e == CacheAfter(e0, key, context, cached)
    && (Faithful(e0, store, settings) ==> Faithful(e, store, settings))
  }

  /** Storing the freshly computed context under its own key keeps every entry faithful,
      because no other request has that key. */
  lemma AdmitKeepsFaithful(entries: map<string, string>, store: Store, settings: Settings,
                           topic: string, k: nat, context: string)
    requires Faithful(entries, store, settings)
    requires Retrieved(store, settings, topic, k) == Some(context)
    ensures Faithful(entries[CacheKey(topic, k) := context], store, settings)
  {
    var e := entries[CacheKey(topic, k) := context];
    forall t: string, k': nat | CacheKey(t, k') in e
      ensures Retrieved(store, settings, t, k') == Some(e[CacheKey(t, k')])
    {
      if CacheKey(t, k') == CacheKey(topic, k) {
        CacheKeyInjective(t, k', topic, k);
      } else {
        assert CacheKey(t, k') in entries && e[CacheKey(t, k')] == entries[CacheKey(t, k')];
      }
    }
  }

  /** The query cache: a dictionary from request key to context, shared by every
      request of the process. It only grows, and stops admitting entries once it holds
      `MAX_CACHE_SIZE` of them. */
  class QueryCache {
    var entries: map<string, string>

    ghost predicate Valid()
      reads this
    {
      |entries| <= MaxCacheSize
    }

    constructor ()
      ensures entries == map[] && Valid()
    {
      entries := map[];
    }

    /** `get_message_content(topic, db, k)`: the context and whether it came from the
        cache, `None` for the context when the retrieval raised. A hit returns the stored
        context and changes nothing; a miss computes the context and stores it if the
        cache is not full; a miss that raised stores nothing. No entry is ever replaced
        or removed. */
    method GetMessageContent(store: Store, settings: Settings, topic: string, k: nat)
      returns (context: Option<string>, cached: bool)
      requires Valid()
      modifies this
      ensures Valid()
      ensures cached <==> CacheKey(topic, k) in old(entries)
      ensures cached ==> context == Some(old(entries)[CacheKey(topic, k)])
      ensures !cached ==> context == Retrieved(store, settings, topic, k)
      ensures entries == CacheAfter(old(entries), CacheKey(topic, k), context, cached)
      ensures Faithful(old(entries), store, settings) ==> Faithful(entries, store, settings)
      ensures Lookup(old(entries), entries, topic, k, context, cached, store, settings)
    {
      var cacheKey := topic + "_" + NatToString(k);
      if cacheKey in entries {
        context, cached := Some(entries[cacheKey]), true;
      } else {
        context := RetrieveContext(store, settings, topic, k);
        cached := false;
        if context.Some? {
          ghost var before := entries;
          Admit(cacheKey, context.value);
          if Faithful(before, store, settings) {
            AdmitKeepsFaithful(before, store, settings, topic, k, context.value);
          }
        }
      }
    }

    /** Stores `context` under `key` unless the cache is full. */
    method Admit(key: string, context: string)
      requires Valid()
      modifies this
      ensures Valid()
      ensures entries == if |old(entries)| < MaxCacheSize then old(entries)[key := context] else old(entries)
    {
      if |entries| < MaxCacheSize {
        entries := entries[key := context];
      }
    }
  }

  /** The cache-miss path of `get_message_content`: expand, search, deduplicate,
      rerank, assemble. */
  method RetrieveContext(store: Store, settings: Settings, topic: string, k: nat) returns (context: Option<string>)
    ensures context == Retrieved(store, settings, topic, k)
  {
    var queries := ExpandQuery(topic);
    var dense := DenseCandidates(store, queries, k);
    if dense.None? {
      return None;
    }
    assert queries == Queries(topic);
    var allDocs := dense.value;
    ghost var extra := if settings.useBm25 then Bm25Docs(store, topic, k) else [];
    assert Candidates(store, settings, topic, k) == Some(allDocs + extra);
    if settings.useBm25 {
      allDocs := allDocs + Bm25Docs(store, topic, k);
    } else {
      assert allDocs + extra == allDocs;
    }
    var uniqueDocs := DeduplicateDocs(allDocs);
    var docs := Select(store, settings, topic, uniqueDocs, k);
    var text := BuildContext(docs);
    context := Some(text);
  }

  /** The dense-search loop over the query variants; the first search whose fallback
      raises ends it with `None`. */
  method DenseCandidates(store: Store, queries: seq<string>, k: nat) returns (allDocs: Option<seq<Doc>>)
    ensures allDocs == DenseDocs(store, queries, k)
  {
    var docs: seq<Doc> := [];
    for i := 0 to |queries|
      invariant DenseDocs(store, queries[..i], k) == Some(docs)
    {
      var query := queries[i];
      var vectorDocs: seq<Doc>;
      var mmr := store.mmr(query, k, k * 2);
      if mmr.Some? {
        vectorDocs := mmr.value;
      } else {
        var similar := store.similarity(query, k);
        if similar.None? {
          DenseDocsFails(store, queries, k);
          return None;
        }
        vectorDocs := similar.value;
      }
      DenseDocsStep(store, queries, k, i);
      docs := docs + vectorDocs;
    }
    assert queries[..|queries|] == queries;
    allDocs := Some(docs);
  }

  lemma DenseDocsStep(store: Store, queries: seq<string>, k: nat, i: nat)
    requires i < |queries|
    ensures DenseDocs(store, queries[..i + 1], k) ==
              match DenseDocs(store, queries[..i], k)
              case None => None
              case Some(init) =>
                match DenseSearch(store, queries[i], k)
                case None => None
                case Some(docs) => Some(init + docs)
  {
    assert queries[..i + 1][..i] == queries[..i];
  }

  /** A faithful cache is transparent: every request answers exactly the context a fresh
      retrieval computes, whether it hit or missed, and the cache stays faithful. */
  method CachedRetrieval(cache: QueryCache, store: Store, settings: Settings, topic: string, k: nat)
    returns (context: Option<string>, cached: bool)
    requires cache.Valid() && Faithful(cache.entries, store, settings)
    modifies cache
    ensures cache.Valid() && Faithful(cache.entries, store, settings)
    ensures context == Retrieved(store, settings, topic, k)
  {
    context, cached := cache.GetMessageContent(store, settings, topic, k);
  }

  /** Asking the same question twice in a row: unless the cache was full or the first
      retrieval raised, the second request is answered from the cache with the same
      context; a retrieval that raised raises again. */
  method AskTwice(cache: QueryCache, store: Store, settings: Settings, topic: string, k: nat)
    returns (first: Option<string>, second: Option<string>, secondCached: bool)
    requires cache.Valid()
    modifies cache
    ensures first == second
    ensures secondCached <==> (CacheKey(topic, k) in old(cache.entries) || (first.Some? && |old(cache.entries)| < MaxCacheSize))
  {
    var c1;
    first, c1 := cache.GetMessageContent(store, settings, topic, k);
    second, secondCached := cache.GetMessageContent(store, settings, topic, k);

  }
}
