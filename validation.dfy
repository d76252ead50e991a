/**
 * Answer validation (generation.py, `validate_answer`): an ordered list of
 * rules, each with a fixed reason; the first rule that fires decides the
 * verdict, and an answer no rule rejects is `(True, "OK")`.
 */
module Validation {
  import opened Text

  /** The rules, named after what they reject. */
  datatype Rule = TooShort | TooLong | ErrorResponse | Evasive | Unrelated | NoLegalReference | NoSentence

  /** The order the rules are checked in. */
  const RuleOrder: seq<Rule> := [TooShort, TooLong, ErrorResponse, Evasive, Unrelated, NoLegalReference, NoSentence]

  /** The reason string each rule reports. */
  function Reason(rule: Rule): string {
    match rule
    case TooShort => "Answer too short"
    case TooLong => "Answer too long (possible context dump)"
    case ErrorResponse => "Error response"
    case Evasive => "Evasive or insufficient answer"
    case Unrelated => "Answer doesn't seem related to question"
    case NoLegalReference => "Answer lacks legal references or terminology"
    case NoSentence => "Answer lacks proper sentence structure"
  }

  /** The hard-coded length bounds of the first two rules. */
  const MinAnswerLength: nat := 20
  const MaxAnswerLength: nat := 1500
  /** The context length above which a reference or legal term is required. */
  const SubstantialContext: nat := 200

  /** The strings the evasive patterns match: `i (do not|don't) have (enough )?information`,
      `the context (does not|doesn't) provide` and two Russian phrases, spelled out. */
  const EvasivePhrases: seq<string> := [
    "i do not have information", "i do not have enough information",
    "i don't have information", "i don't have enough information",
    "the context does not provide", "the context doesn't provide",
    "без дополнительной информации", "я не могу ответить"
  ]

  const StopWords: set<string> := {
    "the", "a", "an", "is", "are", "was", "were", "what", "how", "can", "could", "should", "would",
    "i", "you", "in", "on", "at", "for", "with", "from", "about", "this", "that", "these", "those",
    "и", "в", "на", "что", "как", "или", "для", "это", "был", "была", "были", "быть", "можно",
    "который", "которая", "которое", "может", "также", "если", "при", "где", "когда"
  }

  /** The citation keywords of `(article|статья|статьи|law|закон|кодекс|codex)`. */
  const CitationWords: seq<string> := ["article", "статья", "статьи", "law", "закон", "кодекс", "codex"]

  /** The stems of the legal-terms pattern. */
  const LegalStems: seq<string> := [
    "права", "обязанност", "ответственност", "наказан", "штраф", "санкц",
    "right", "duty", "obligation", "penalty", "fine", "liable"
  ]

  /** One of the strings occurs in `s`. */
  predicate ContainsAny(s: string, pats: seq<string>) {
    exists j :: 0 <= j < |pats| && Contains(s, pats[j])
  }

  /** `set(re.findall(r'\w{3,}', s.lower()))`: the maximal word runs of three or more
      characters. */
  function LongWords(s: string): set<string> {
    set w | w in Runs(LowerStr(s), Word) && |w| >= 3
  }

  /** A citation starts at the beginning of `s`: a keyword, optional whitespace, then
      `№`, `#` or a digit. */
  predicate CitationAtStart(s: string) {
    exists j :: 0 <= j < |CitationWords| && StartsWith(s, CitationWords[j])
      && var rest := TrimLeft(s[|CitationWords[j]|..]);
         rest != [] && (rest[0] == '№' || rest[0] == '#' || '0' <= rest[0] <= '9')
  }

  /** `re.search(r'(article|...)\s*(№|#|\d+)', s)` finds a match. */
  predicate HasCitation(s: string)
    decreases |s|
  {
    CitationAtStart(s) || (s != [] && HasCitation(s[1..]))
  }

  /** The pieces of `re.split(r'[.!?]+', s)` that hold more than three words. */
  predicate HasSentence(s: string) {
    exists p :: p in Runs(s, Clause) && |SplitWs(p)| > 3
  }

  /** Whether `rule` rejects `answer` for `question` and `context`. */
  predicate Fires(rule: Rule, answer: string, question: string, context: string) {
    match rule
    case TooShort => |Strip(answer)| < MinAnswerLength
    case TooLong => |answer| > MaxAnswerLength
    case ErrorResponse => Contains(LowerStr(answer), "sorry") && Contains(LowerStr(answer), "error")
    case Evasive => ContainsAny(LowerStr(answer), EvasivePhrases)
    case Unrelated => |(LongWords(question) * LongWords(answer)) - StopWords| < 1
    case NoLegalReference =>
      !HasCitation(LowerStr(answer)) && |context| > SubstantialContext
      && !ContainsAny(LowerStr(answer), LegalStems)
    case NoSentence => !HasSentence(answer)
  }

  /** The rules that reject `answer` for `question` and `context`. */
  function Firing(answer: string, question: string, context: string): (fired: set<Rule>)
    ensures forall r :: r in fired <==> r in RuleOrder && Fires(r, answer, question, context)
  {
    set r | r in RuleOrder && Fires(r, answer, question, context)
  }

  /** The verdict of the first rule of `rules[from..]` in `fired`, or `(True, "OK")`. */
  function FirstVerdict(rules: seq<Rule>, from: nat, fired: set<Rule>): (bool, string)
    decreases |rules| - from
  {
    if from >= |rules| then (true, "OK")
    else if rules[from] in fired then (false, Reason(rules[from]))
    else FirstVerdict(rules, from + 1, fired)
  }

  /** `validate_answer(answer, question, context)`: the verdict of the first rule, in
      rule order, that rejects the answer. */
  function ValidateAnswer(answer: string, question: string, context: string): (bool, string) {
    FirstVerdict(RuleOrder, 0, Firing(answer, question, context))
  }

  /** The checks as the source runs them, one after the other: the first that fails
      returns its reason, and an answer passing all of them is accepted with "OK". */
  lemma ValidateAnswerInOrder(answer: string, question: string, context: string)
    ensures ValidateAnswer(answer, question, context) ==
      if |Strip(answer)| < MinAnswerLength then (false, "Answer too short")
      else if |answer| > MaxAnswerLength then (false, "Answer too long (possible context dump)")
      else if Fires(ErrorResponse, answer, question, context) then (false, "Error response")
      else if Fires(Evasive, answer, question, context) then (false, "Evasive or insufficient answer")
      else if Fires(Unrelated, answer, question, context) then (false, "Answer doesn't seem related to question")
      else if Fires(NoLegalReference, answer, question, context) then (false, "Answer lacks legal references or terminology")
      else if Fires(NoSentence, answer, question, context) then (false, "Answer lacks proper sentence structure")
      else (true, "OK")
  {
    var fired := Firing(answer, question, context);
    assert TooShort in fired <==> Fires(TooShort, answer, question, context);
    assert TooLong in fired <==> Fires(TooLong, answer, question, context);
    assert ErrorResponse in fired <==> Fires(ErrorResponse, answer, question, context);
    assert Evasive in fired <==> Fires(Evasive, answer, question, context);
    assert Unrelated in fired <==> Fires(Unrelated, answer, question, context);
    assert NoLegalReference in fired <==> Fires(NoLegalReference, answer, question, context);
    assert NoSentence in fired <==> Fires(NoSentence, answer, question, context);
    FirstVerdictOfOrder(fired);
  }

  /** The first-firing verdict over the fixed rule order, written out rule by rule. */
  lemma FirstVerdictOfOrder(fired: set<Rule>)
    ensures FirstVerdict(RuleOrder, 0, fired) ==
      if TooShort in fired then (false, Reason(TooShort))
      else if TooLong in fired then (false, Reason(TooLong))
      else if ErrorResponse in fired then (false, Reason(ErrorResponse))
      else if Evasive in fired then (false, Reason(Evasive))
      else if Unrelated in fired then (false, Reason(Unrelated))
      else if NoLegalReference in fired then (false, Reason(NoLegalReference))
      else if NoSentence in fired then (false, Reason(NoSentence))
      else (true, "OK")
  {
    var rules := RuleOrder;
    assert FirstVerdict(rules, 7, fired) == (true, "OK");
    assert FirstVerdict(rules, 6, fired) == if NoSentence in fired then (false, Reason(NoSentence)) else (true, "OK");
    assert FirstVerdict(rules, 5, fired) == if NoLegalReference in fired then (false, Reason(NoLegalReference)) else FirstVerdict(rules, 6, fired);
    assert FirstVerdict(rules, 4, fired) == if Unrelated in fired then (false, Reason(Unrelated)) else FirstVerdict(rules, 5, fired);
    assert FirstVerdict(rules, 3, fired) == if Evasive in fired then (false, Reason(Evasive)) else FirstVerdict(rules, 4, fired);
    assert FirstVerdict(rules, 2, fired) == if ErrorResponse in fired then (false, Reason(ErrorResponse)) else FirstVerdict(rules, 3, fired);
    assert FirstVerdict(rules, 1, fired) == if TooLong in fired then (false, Reason(TooLong)) else FirstVerdict(rules, 2, fired);
  }

  /** What the first-firing verdict means: accepted, with reason "OK", exactly when no
      rule of `rules[from..]` is in `fired`; otherwise the reason of the earliest one. */
  lemma {:induction false} FirstVerdictSpec(rules: seq<Rule>, from: nat, fired: set<Rule>)
    ensures FirstVerdict(rules, from, fired).0 <==> forall j :: from <= j < |rules| ==> rules[j] !in fired
    ensures FirstVerdict(rules, from, fired).0 ==> FirstVerdict(rules, from, fired).1 == "OK"
    ensures !FirstVerdict(rules, from, fired).0 ==>
              exists j :: from <= j < |rules| && rules[j] in fired
                && FirstVerdict(rules, from, fired).1 == Reason(rules[j])
                && forall i :: from <= i < j ==> rules[i] !in fired
    decreases |rules| - from
  {
    var v := FirstVerdict(rules, from, fired);
    if from >= |rules| {
      assert v == (true, "OK");
    } else if rules[from] in fired {
      assert v == (false, Reason(rules[from]));
    } else {
      FirstVerdictSpec(rules, from + 1, fired);
      assert v == FirstVerdict(rules, from + 1, fired);
      if !v.0 {
        var j :| from + 1 <= j < |rules| && rules[j] in fired && v.1 == Reason(rules[j])
                 && forall i :: from + 1 <= i < j ==> rules[i] !in fired;
        assert forall i :: from <= i < j ==> rules[i] !in fired;
      }
    }
  }

  /** An answer of fewer than twenty non-blank-edged characters is rejected as too short,
      whatever else it contains. */
  lemma ShortAnswerRejected(answer: string, question: string, context: string)
    requires |Strip(answer)| < MinAnswerLength
    ensures ValidateAnswer(answer, question, context) == (false, "Answer too short")
  {
    ValidateAnswerInOrder(answer, question, context);
  }

  /** An accepted answer is between 20 (once stripped) and 1500 characters long, does not
      mention both "sorry" and "error", contains no evasive phrase, shares a meaningful word with the question and has a sentence of
      more than three words. */
  lemma AcceptedAnswer(answer: string, question: string, context: string)
    requires ValidateAnswer(answer, question, context).0
    ensures MinAnswerLength <= |Strip(answer)| && |answer| <= MaxAnswerLength
    ensures !(Contains(LowerStr(answer), "sorry") && Contains(LowerStr(answer), "error"))
    ensures !ContainsAny(LowerStr(answer), EvasivePhrases)
    ensures |(LongWords(question) * LongWords(answer)) - StopWords| >= 1
    ensures HasSentence(answer)
    ensures |context| > SubstantialContext ==> HasCitation(LowerStr(answer)) || ContainsAny(LowerStr(answer), LegalStems)
  {
    ValidateAnswerInOrder(answer, question, context);
    assert !Fires(TooShort, answer, question, context);
    assert !Fires(TooLong, answer, question, context);
    assert !Fires(ErrorResponse, answer, question, context);
    assert !Fires(Evasive, answer, question, context);
    assert !Fires(Unrelated, answer, question, context);
    assert !Fires(NoLegalReference, answer, question, context);
    assert !Fires(NoSentence, answer, question, context);
  }

  /** A rejection names the first rule, in the fixed order, that rejects the answer. */
  lemma RejectedAnswer(answer: string, question: string, context: string)
    requires !ValidateAnswer(answer, question, context).0
    ensures exists j :: 0 <= j < |RuleOrder| && RuleOrder[j] in Firing(answer, question, context)
              && ValidateAnswer(answer, question, context).1 == Reason(RuleOrder[j])
              && forall i :: 0 <= i < j ==> RuleOrder[i] !in Firing(answer, question, context)
  {
    FirstVerdictSpec(RuleOrder, 0, Firing(answer, question, context));
  }
}
