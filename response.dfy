/**
 * The non-streaming answer (generation.py, `get_model_response`).
 *
 * The prompt template is a parameter (`RAG_PROMPT.format`), and the model is
 * a script `llm(temperature, prompt, attempt)`: the outcome of attempt
 * `attempt` of a retry run at that temperature (in thousandths) on that
 * prompt.
 */
module Response {
  import opened Retry
  import opened Language
  import opened PostProcess
  import opened Validation
  import opened Voting
  import opened Text

  /** `TEMPERATURES` in thousandths; the first one is the single-shot temperature. */
  const Temperatures: seq<nat> := [100, 200, 150]
  const BaseTemperature: nat := 100

  const Apology: string := "Sorry, an error occurred while processing your request."

  /** `RAG_PROMPT.format(context=..., question=..., history=..., language=...)`. */
  type Template = (string, string, string, string) -> string

  /** The script of one retry run. */
  function Script(llm: (nat, string, nat) -> Outcome, temperature: nat, prompt: string): nat -> Outcome {
    (attempt: nat) => llm(temperature, prompt, attempt)
  }

  /** The prompt with the note asking for detail and article references appended. */
  function Enhanced(prompt: string, language: string): (p: string)
    ensures |p| > |prompt| && p[..|prompt|] == prompt
  {
    prompt + "\n\nNote: Please provide a detailed response in " + language
      + " with specific article references from the context."
  }

  /** The retry run at temperature `t` on `prompt`, with the default retry settings. */
  function RunAt(llm: (nat, string, nat) -> Outcome, t: nat, prompt: string): RetryRun {
    RetryRunOf(Script(llm, t, prompt), DefaultMaxRetries, DefaultBaseDelay)
  }

  /** The returned answer, and the prompts of the retry runs made, in order. */
  datatype Response = Response(answer: string, prompts: seq<string>)

  /** Speed mode on a formatted prompt: one run, and a second with the enhanced prompt
      only when the first answer fails validation; the second answer is not validated; a
      run that ends in an exception gives the apology. */
  function SingleShotOn(llm: (nat, string, nat) -> Outcome, topic: string, context: string, language: string, prompt: string): Response {
    var first := RetryRunOf(Script(llm, BaseTemperature, prompt), DefaultMaxRetries, DefaultBaseDelay);
    if !first.end.Generated? then Response(Apology, [prompt])
    else
      var answer := PostProcessed(first.end.text);
      if ValidateAnswer(answer, topic, context).0 then Response(answer, [prompt])
      else
        var enhanced := Enhanced(prompt, language);
        var second := RetryRunOf(Script(llm, BaseTemperature, enhanced), DefaultMaxRetries, DefaultBaseDelay);
        if second.end.Generated? then Response(PostProcessed(second.end.text), [prompt, enhanced])
        else Response(Apology, [prompt, enhanced])
  }

  /** Speed mode: the prompt formatted in the question's language. */
  function SingleShot(llm: (nat, string, nat) -> Outcome, template: Template, topic: string, context: string, history: string): Response {
    var language := Name(DetectLanguage(topic));
    SingleShotOn(llm, topic, context, language, template(context, topic, history, language))
  }

  /** The texts of the runs at `temperatures` that produced text, in order. */
  function Texts(llm: (nat, string, nat) -> Outcome, prompt: string, temperatures: seq<nat>): seq<string> {
    if temperatures == [] then []
    else
      var init := Texts(llm, prompt, temperatures[..|temperatures| - 1]);
      var run := RunAt(llm, temperatures[|temperatures| - 1], prompt);
      if run.end.Generated? then init + [run.end.text] else init
  }

  /** `f` applied to each element, built from the back as the loop appends. */
  function MapAll(f: string -> string, texts: seq<string>): (r: seq<string>)
    ensures |r| == |texts|
  {
    if texts == [] then [] else MapAll(f, texts[..|texts| - 1]) + [f(texts[|texts| - 1])]
  }

  /** The answers list of quality mode: the cleaned text of every successful run. */
  function Answers(llm: (nat, string, nat) -> Outcome, prompt: string, temperatures: seq<nat>): seq<string> {
    MapAll(PostProcessed, Texts(llm, prompt, temperatures))
  }

  /** Quality mode: one run per temperature, then the vote; the apology when no run
      produced text. */
  function SelfConsistent(llm: (nat, string, nat) -> Outcome, template: Template, topic: string, context: string, history: string): Response {
    var language := Name(DetectLanguage(topic));
    var prompt := template(context, topic, history, language);
    var answers := Answers(llm, prompt, Temperatures);
    Response(if answers == [] then Apology else Vote(answers), seq(|Temperatures|, _ => prompt))
  }

  /** `get_model_response(topic, message_content, history)`, with `USE_SELF_CONSISTENCY`
      as `selfConsistency`. */
  function ModelResponse(llm: (nat, string, nat) -> Outcome, template: Template, topic: string, context: string,
                         history: string, selfConsistency: bool): Response {
    if selfConsistency then SelfConsistent(llm, template, topic, context, history)
    else SingleShot(llm, template, topic, context, history)
  }

  /** The answer as the source computes it. */
  method GetModelResponse(llm: (nat, string, nat) -> Outcome, template: Template, topic: string, context: string,
                          history: string, selfConsistency: bool) returns (r: Response)
    ensures r == ModelResponse(llm, template, topic, context, history, selfConsistency)
  {
    var language := Name(DetectLanguage(topic));
    var prompt := template(context, topic, history, language);
    if selfConsistency {
      var answers := CollectAnswers(llm, prompt);
      if answers != [] {
        return Response(Vote(answers), seq(|Temperatures|, _ => prompt));
      }
      return Response(Apology, seq(|Temperatures|, _ => prompt));
    }
    r := RespondOnce(llm, topic, context, language, prompt);
  }

  /** The quality-mode loop: one run per temperature, each successful run's cleaned answer
      appended to the list. */
  method CollectAnswers(llm: (nat, string, nat) -> Outcome, prompt: string) returns (answers: seq<string>)
    ensures answers == Answers(llm, prompt, Temperatures)
  {
    answers := [];
    ghost var texts: seq<string> := [];
    for k := 0 to |Temperatures|
      invariant texts == Texts(llm, prompt, Temperatures[..k])
      invariant answers == MapAll(PostProcessed, texts)
    {
      assert Temperatures[..k + 1][..k] == Temperatures[..k];
      var run := GenerateWithRetry(Script(llm, Temperatures[k], prompt), DefaultMaxRetries, DefaultBaseDelay);
      if run.end.Generated? {
        var answer := PostProcessAnswer(run.end.text);
        assert (texts + [run.end.text])[..|texts|] == texts;
        texts := texts + [run.end.text];
        answers := answers + [answer];
      }
    }
    assert Temperatures[..|Temperatures|] == Temperatures;
  }

  /** The speed-mode path: generate, clean, validate, and on rejection generate once more
      with the enhanced prompt. */
  method RespondOnce(llm: (nat, string, nat) -> Outcome, topic: string, context: string, language: string, prompt: string)
    returns (r: Response)
    ensures r == SingleShotOn(llm, topic, context, language, prompt)
  {
    var first := GenerateWithRetry(Script(llm, BaseTemperature, prompt), DefaultMaxRetries, DefaultBaseDelay);
    if !first.end.Generated? {
      return Response(Apology, [prompt]);
    }
    var answer := PostProcessAnswer(first.end.text);
    var (isValid, _) := ValidateAnswer(answer, topic, context);
    if isValid {
      return Response(answer, [prompt]);
    }
    var enhanced := Enhanced(prompt, language);
    var second := GenerateWithRetry(Script(llm, BaseTemperature, enhanced), DefaultMaxRetries, DefaultBaseDelay);
    if !second.end.Generated? {
      return Response(Apology, [prompt, enhanced]);
    }
    answer := PostProcessAnswer(second.end.text);
    return Response(answer, [prompt, enhanced]);
  }

  /** Speed mode makes one or two runs: the first on the formatted prompt; a second, on
      that prompt with the note appended, exactly when the first produced text whose
      cleaned form validation rejects. A validated first answer is returned as it is, the
      second answer is returned unvalidated, and a run that fails gives the apology. */
  lemma SingleShotSpec(llm: (nat, string, nat) -> Outcome, template: Template, topic: string, context: string, history: string)
    ensures var r := SingleShot(llm, template, topic, context, history);
      var language := Name(DetectLanguage(topic));
      var prompt := template(context, topic, history, language);
      var first := RetryRunOf(Script(llm, BaseTemperature, prompt), DefaultMaxRetries, DefaultBaseDelay);
      && 1 <= |r.prompts| <= 2
      && r.prompts[0] == prompt
      && (|r.prompts| == 2 <==> first.end.Generated? && !ValidateAnswer(PostProcessed(first.end.text), topic, context).0)
      && (|r.prompts| == 2 ==> r.prompts[1] == Enhanced(prompt, language))
      && (!first.end.Generated? ==> r.answer == Apology)
      && (|r.prompts| == 1 && first.end.Generated? ==>
            r.answer == PostProcessed(first.end.text) && ValidateAnswer(r.answer, topic, context).0)
      && (|r.prompts| == 2 ==>
            var second := RetryRunOf(Script(llm, BaseTemperature, r.prompts[1]), DefaultMaxRetries, DefaultBaseDelay);
            r.answer == if second.end.Generated? then PostProcessed(second.end.text) else Apology)
  {
    var language := Name(DetectLanguage(topic));
    SingleShotOnSpec(llm, topic, context, language, template(context, topic, history, language));
  }

  /** `SingleShotSpec` for a formatted prompt, case by case. */
  lemma SingleShotOnSpec(llm: (nat, string, nat) -> Outcome, topic: string, context: string, language: string, prompt: string)
    ensures var r := SingleShotOn(llm, topic, context, language, prompt);
      var first := RetryRunOf(Script(llm, BaseTemperature, prompt), DefaultMaxRetries, DefaultBaseDelay);
      && 1 <= |r.prompts| <= 2
      && r.prompts[0] == prompt
      && (|r.prompts| == 2 <==> first.end.Generated? && !ValidateAnswer(PostProcessed(first.end.text), topic, context).0)
      && (|r.prompts| == 2 ==> r.prompts[1] == Enhanced(prompt, language))
      && (!first.end.Generated? ==> r.answer == Apology)
      && (|r.prompts| == 1 && first.end.Generated? ==>
            r.answer == PostProcessed(first.end.text) && ValidateAnswer(r.answer, topic, context).0)
      && (|r.prompts| == 2 ==>
            var second := RetryRunOf(Script(llm, BaseTemperature, r.prompts[1]), DefaultMaxRetries, DefaultBaseDelay);
            r.answer == if second.end.Generated? then PostProcessed(second.end.text) else Apology)
  {
    var r := SingleShotOn(llm, topic, context, language, prompt);
    var first := RetryRunOf(Script(llm, BaseTemperature, prompt), DefaultMaxRetries, DefaultBaseDelay);
    if !first.end.Generated? {
      assert r == Response(Apology, [prompt]);
    } else {
      var answer := PostProcessed(first.end.text);
      if ValidateAnswer(answer, topic, context).0 {
        assert r == Response(answer, [prompt]);
      } else {
        var enhanced := Enhanced(prompt, language);
        var second := RetryRunOf(Script(llm, BaseTemperature, enhanced), DefaultMaxRetries, DefaultBaseDelay);
        assert r == Response(if second.end.Generated? then PostProcessed(second.end.text) else Apology, [prompt, enhanced]);
      }
    }
  }

  /** Every speed-mode run makes at most three model calls, so a speed-mode answer costs
      at most six calls; the returned answer, unless it is the apology, is cleaned: trimmed
      and with no whitespace but plain spaces. */
  lemma SingleShotBounds(llm: (nat, string, nat) -> Outcome, template: Template, topic: string, context: string, history: string)
    ensures var r := SingleShot(llm, template, topic, context, history);
      r.answer != Apology ==> Trimmed(r.answer) && PlainSpaced(r.answer)
    ensures forall p :: p in SingleShot(llm, template, topic, context, history).prompts ==>
              RetryRunOf(Script(llm, BaseTemperature, p), DefaultMaxRetries, DefaultBaseDelay).calls <= DefaultMaxRetries
  {
    var r := SingleShot(llm, template, topic, context, history);
    var language := Name(DetectLanguage(topic));
    var prompt := template(context, topic, history, language);
    var first := RetryRunOf(Script(llm, BaseTemperature, prompt), DefaultMaxRetries, DefaultBaseDelay);
    if first.end.Generated? {
      PostProcessedShape(first.end.text);
      var enhanced := Enhanced(prompt, language);
      var second := RetryRunOf(Script(llm, BaseTemperature, enhanced), DefaultMaxRetries, DefaultBaseDelay);
      if second.end.Generated? {
        PostProcessedShape(second.end.text);
      }
    }
    forall p | p in r.prompts
      ensures RetryRunOf(Script(llm, BaseTemperature, p), DefaultMaxRetries, DefaultBaseDelay).calls <= DefaultMaxRetries
    {
      RetrySpec(Script(llm, BaseTemperature, p), DefaultMaxRetries, DefaultBaseDelay);
    }
  }

  /** At most one text per temperature; none exactly when every run failed; each one
      the text of a successful run. */
  lemma {:induction false} TextsSpec(llm: (nat, string, nat) -> Outcome, prompt: string, temperatures: seq<nat>)
    ensures |Texts(llm, prompt, temperatures)| <= |temperatures|
    ensures Texts(llm, prompt, temperatures) == [] <==>
              forall k :: 0 <= k < |temperatures| ==> !RunAt(llm, temperatures[k], prompt).end.Generated?
    ensures forall t :: t in Texts(llm, prompt, temperatures) ==>
              exists k :: 0 <= k < |temperatures| && RunAt(llm, temperatures[k], prompt).end == Generated(t)
  {
    if temperatures != [] {
      var n := |temperatures| - 1;
      var init := temperatures[..n];
      TextsSpec(llm, prompt, init);
      assert forall k :: 0 <= k < n ==> init[k] == temperatures[k];
    }
  }

  /** Element `i` of the result is `f` of element `i`. */
  lemma {:induction false} MapAllSpec(f: string -> string, texts: seq<string>)
    ensures forall i :: 0 <= i < |texts| ==> MapAll(f, texts)[i] == f(texts[i])
  {
    if texts != [] {
      var n := |texts| - 1;
      MapAllSpec(f, texts[..n]);
    }
  }

  /** Quality mode makes one run per temperature and returns the vote over the cleaned
      texts of the successful runs, an answer at least as frequent as any other; when
      every run failed it returns the apology. */
  lemma SelfConsistentSpec(llm: (nat, string, nat) -> Outcome, template: Template, topic: string, context: string, history: string)
    ensures var r := SelfConsistent(llm, template, topic, context, history);
      var prompt := template(context, topic, history, Name(DetectLanguage(topic)));
      var answers := Answers(llm, prompt, Temperatures);
      && |r.prompts| == |Temperatures| == 3
      && (answers == [] <==> forall k :: 0 <= k < |Temperatures| ==> !RunAt(llm, Temperatures[k], prompt).end.Generated?)
      && (answers == [] ==> r.answer == Apology)
      && (answers != [] ==>
            r.answer in answers && r.answer == MostCommon(answers)
            && forall a :: a in answers ==> Count(answers, a) <= Count(answers, r.answer))
  {
    var prompt := template(context, topic, history, Name(DetectLanguage(topic)));
    var answers := Answers(llm, prompt, Temperatures);
    TextsSpec(llm, prompt, Temperatures);
    if answers != [] {
      VoteSpec(answers);
    }
  }

  /** Each answer of quality mode is the cleaned text of one of its successful runs. */
  lemma AnswersFromRuns(llm: (nat, string, nat) -> Outcome, prompt: string, temperatures: seq<nat>)
    ensures forall i :: 0 <= i < |Answers(llm, prompt, temperatures)| ==>
              exists k :: 0 <= k < |temperatures| && RunAt(llm, temperatures[k], prompt).end.Generated?
                && Answers(llm, prompt, temperatures)[i] == PostProcessed(RunAt(llm, temperatures[k], prompt).end.text)
  {
    var texts := Texts(llm, prompt, temperatures);
    TextsSpec(llm, prompt, temperatures);
    MapAllSpec(PostProcessed, texts);
    forall i | 0 <= i < |texts|
      ensures exists k :: 0 <= k < |temperatures| && RunAt(llm, temperatures[k], prompt).end.Generated?
                && Answers(llm, prompt, temperatures)[i] == PostProcessed(RunAt(llm, temperatures[k], prompt).end.text)
    {
      assert texts[i] in texts;
      var k :| 0 <= k < |temperatures| && RunAt(llm, temperatures[k], prompt).end == Generated(texts[i]);
    }
  }
}
