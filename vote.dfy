/**
 * The self-consistency vote (generation.py, `get_model_response`): among the
 * answers gathered at the different temperatures, `Counter.most_common(1)`
 * picks the most frequent one, the first met among equally frequent ones; it
 * is returned when it occurs more than once, and the first answer otherwise.
 */
module Voting {

  /** How often `x` occurs in `xs`. */
  function Count(xs: seq<string>, x: string): nat {
    multiset(xs)[x]
  }

  /** The index, among the first `n`, of the first answer with the highest count: the
      element `max` over `Counter` items (in first-seen order) lands on. */
  function BestAmong(xs: seq<string>, n: nat): (b: nat)
    requires 0 < n <= |xs|
    ensures b < n
    ensures forall j :: 0 <= j < n ==> Count(xs, xs[j]) <= Count(xs, xs[b])
    ensures forall j :: 0 <= j < b ==> Count(xs, xs[j]) < Count(xs, xs[b])
  {
    if n == 1 then 0
    else
      var b := BestAmong(xs, n - 1);
      if Count(xs, xs[n - 1]) > Count(xs, xs[b]) then n - 1 else b
  }

  /** `Counter(xs).most_common(1)[0][0]`. */
  function MostCommon(xs: seq<string>): string
    requires xs != []
  {
    xs[BestAmong(xs, |xs|)]
  }

  /** The answer the vote returns. */
  function Vote(answers: seq<string>): (r: string)
    requires answers != []
  {
    var top := MostCommon(answers);
    if Count(answers, top) > 1 then top else answers[0]
  }

  lemma CountPositive(xs: seq<string>, i: nat)
    requires i < |xs|
    ensures Count(xs, xs[i]) >= 1
  {
    assert xs[i] in multiset(xs);
  }

  /** The vote returns an answer that was given, occurring at least as often as any
      other, and every answer met before its first occurrence occurs strictly less
      often; the `answers[0]` fallback for all-distinct answers agrees with this. */
  lemma VoteSpec(answers: seq<string>)
    requires answers != []
    ensures exists i :: 0 <= i < |answers| && answers[i] == Vote(answers)
                && (forall j :: 0 <= j < i ==> Count(answers, answers[j]) < Count(answers, Vote(answers)))
                && (forall j :: 0 <= j < i ==> answers[j] != Vote(answers))
    ensures forall j :: 0 <= j < |answers| ==> Count(answers, answers[j]) <= Count(answers, Vote(answers))
    ensures Vote(answers) == MostCommon(answers)
  {
    var b := BestAmong(answers, |answers|);
    var top := answers[b];
    if Count(answers, top) <= 1 {
      if b > 0 {
        CountPositive(answers, 0);
      }
    }
  }

  /** Two matching answers outvote a third: `["A", "B", "A"]` gives "A". */
  lemma VoteRepeated(answers: seq<string>)
    requires answers == ["A", "B", "A"]
    ensures Vote(answers) == "A"
  {
    assert multiset(answers)["A"] == 2;
    assert multiset(answers)["B"] == 1;
  }

  /** With no repeated answer the first one is returned: `["A", "B", "C"]` gives "A". */
  lemma VoteAllDistinct(answers: seq<string>)
    requires answers == ["A", "B", "C"]
    ensures Vote(answers) == "A"
  {
    VoteSpec(answers);
    assert multiset(answers)["A"] == 1;
    assert multiset(answers)["B"] == 1;
    assert multiset(answers)["C"] == 1;
  }
}
