/**
 * Query expansion (retrieval.py, `expand_query`): the query as typed, an
 * interrogative variant, and one variant per synonym of every legal term the
 * query mentions; at most three strings are kept.
 */
module QueryExpansion {
  import opened Text

  /** The legal-term synonym table, in the order the source's dictionary iterates it. */
  const LegalTerms: seq<(string, seq<string>)> := [
    ("права", ["право", "правомочия"]),
    ("обязанности", ["обязанность", "долг"]),
    ("ответственность", ["наказание", "санкция"]),
    ("rights", ["right", "entitlement"]),
    ("duties", ["duty", "obligation"])
  ]

  /** At most this many query strings are searched. */
  const MaxExpansions: nat := 3

  /** No term of the table is empty, so `str.replace` on it is well defined. */
  ghost predicate TermsNonEmpty(terms: seq<(string, seq<string>)>) {
    forall t :: 0 <= t < |terms| ==> terms[t].0 != []
  }

  lemma LegalTermsNonEmpty()
    ensures TermsNonEmpty(LegalTerms)
  {
  }

  /** Adding the next term of the table adds that term's variants, if it matches, after
      those already collected behind `init`. */
  lemma SynonymVariantsStep(query: string, terms: seq<(string, seq<string>)>, t: nat, init: seq<string>)
    requires TermsNonEmpty(terms) && t < |terms|
    ensures TermsNonEmpty(terms[..t]) && TermsNonEmpty(terms[..t + 1])
    ensures init + SynonymVariants(query, terms[..t + 1])
            == init + SynonymVariants(query, terms[..t])
               + (if Contains(LowerStr(query), terms[t].0)
                  then TermVariants(LowerStr(query), terms[t].0, terms[t].1) else [])
  {
    assert terms[..t + 1][..t] == terms[..t];
  }

  /** The lowered query mentions "что" or "what". */
  predicate AsksWhat(query: string) {
    Contains(LowerStr(query), "что") || Contains(LowerStr(query), "what")
  }

  /** `query.replace("что", "какие").replace("what", "which")`: on the query as typed,
      not lowered, so a capitalised "What" is left as it is. */
  function QuestionVariant(query: string): string {
    Replace(Replace(query, "что", "какие"), "what", "which")
  }

  /** One variant per synonym: the lowered query with the term replaced by the synonym. */
  function TermVariants(lowered: string, term: string, synonyms: seq<string>): (r: seq<string>)
    requires term != []
    ensures |r| == |synonyms|
    ensures forall j :: 0 <= j < |r| ==> r[j] == Replace(lowered, term, synonyms[j])
  {
    if synonyms == [] then []
    else TermVariants(lowered, term, synonyms[..|synonyms| - 1])
         + [Replace(lowered, term, synonyms[|synonyms| - 1])]
  }

  /** The synonym variants for every term of `terms` the lowered query contains, in
      table order. */
  function SynonymVariants(query: string, terms: seq<(string, seq<string>)>): seq<string>
    requires TermsNonEmpty(terms)
  {
    if terms == [] then []
    else
      var (term, synonyms) := terms[|terms| - 1];
      SynonymVariants(query, terms[..|terms| - 1])
      + (if Contains(LowerStr(query), term) then TermVariants(LowerStr(query), term, synonyms) else [])
  }

  /** Every variant the source would build, before the cut to three. */
  function AllExpansions(query: string): seq<string> {
    [query] + (if AsksWhat(query) then [QuestionVariant(query)] else [])
    + SynonymVariants(query, LegalTerms)
  }

  /** `expand_query`: builds the list step by step as the source does and keeps its first
      three entries. The first is the query exactly as given; the second, when the query
      asks "what", is the interrogative variant of the query as typed. */
  method ExpandQuery(query: string) returns (expansions: seq<string>)
    ensures expansions == AllExpansions(query)[..Min(MaxExpansions, |AllExpansions(query)|)]
    ensures 1 <= |expansions| <= MaxExpansions && expansions[0] == query
    ensures AsksWhat(query) ==> |expansions| >= 2 && expansions[1] == QuestionVariant(query)
  {
    var lowered := LowerStr(query);
    expansions := [query];
    if Contains(lowered, "что") || Contains(lowered, "what") {
      expansions := expansions + [QuestionVariant(query)];
    }
    LegalTermsNonEmpty();
    expansions := AppendSynonymVariants(query, lowered, LegalTerms, expansions);
    expansions := expansions[..Min(MaxExpansions, |expansions|)];
  }

  /** The legal-term loop of `expand_query`: for each term of the table the lowered query
      contains, append one variant per synonym. */
  method AppendSynonymVariants(query: string, lowered: string, terms: seq<(string, seq<string>)>,
                               init: seq<string>) returns (expansions: seq<string>)
    requires lowered == LowerStr(query) && TermsNonEmpty(terms)
    ensures expansions == init + SynonymVariants(query, terms)
  {
    expansions := init;
    for t := 0 to |terms|
      invariant TermsNonEmpty(terms[..t])
      invariant expansions == init + SynonymVariants(query, terms[..t])
    {
      SynonymVariantsStep(query, terms, t, init);
      var term := terms[t].0;
      var synonyms := terms[t].1;
      if Contains(lowered, term) {
        expansions := AppendTermVariants(lowered, term, synonyms, expansions);
      }
    }
    assert terms[..|terms|] == terms;
  }

  /** The synonym loop for one matched term. */
  method AppendTermVariants(lowered: string, term: string, synonyms: seq<string>, init: seq<string>)
    returns (expansions: seq<string>)
    requires term != []
    ensures expansions == init + TermVariants(lowered, term, synonyms)
  {
    expansions := init;
    for j := 0 to |synonyms|
      invariant expansions == init + TermVariants(lowered, term, synonyms[..j])
    {
      assert synonyms[..j + 1][..j] == synonyms[..j];
      expansions := expansions + [Replace(lowered, term, synonyms[j])];
    }
    assert synonyms[..|synonyms|] == synonyms;
  }

  /** Each synonym variant is the LOWERED query with one matched term replaced by one of
      its synonyms (whereas the interrogative variant keeps the query's case). */
  lemma {:induction false} SynonymVariantsAreLowered(query: string, terms: seq<(string, seq<string>)>, v: string)
    requires TermsNonEmpty(terms)
    requires v in SynonymVariants(query, terms)
    ensures exists t, j :: 0 <= t < |terms| && 0 <= j < |terms[t].1|
              && Contains(LowerStr(query), terms[t].0)
              && v == Replace(LowerStr(query), terms[t].0, terms[t].1[j])
  {
    var n := |terms|;
    var init := terms[..n - 1];
    var (term, synonyms) := terms[n - 1];
    if v in SynonymVariants(query, init) {
      SynonymVariantsAreLowered(query, init, v);
      var t, j :| 0 <= t < |init| && 0 <= j < |init[t].1|
                  && Contains(LowerStr(query), init[t].0)
                  && v == Replace(LowerStr(query), init[t].0, init[t].1[j]);
      assert terms[t] == init[t];
    } else {
      var tv := TermVariants(LowerStr(query), term, synonyms);
      assert Contains(LowerStr(query), term) && v in tv;
      var j :| 0 <= j < |tv| && tv[j] == v;
      assert terms[n - 1].1[j] == synonyms[j];
    }
  }

  /** A matched term contributes one variant per synonym, not one per term: the number of
      synonym variants is the total synonym count of the matched terms. */
  lemma {:induction false} SynonymVariantsCount(query: string, terms: seq<(string, seq<string>)>)
    requires TermsNonEmpty(terms)
    ensures |SynonymVariants(query, terms)| == MatchedSynonyms(query, terms)
  {
    if terms != [] {
      SynonymVariantsCount(query, terms[..|terms| - 1]);
    }
  }

  /** The total number of synonyms of the terms the lowered query contains. */
  function MatchedSynonyms(query: string, terms: seq<(string, seq<string>)>): nat {
    if terms == [] then 0
    else
      MatchedSynonyms(query, terms[..|terms| - 1])
      + (if Contains(LowerStr(query), terms[|terms| - 1].0) then |terms[|terms| - 1].1| else 0)
  }
}
