/**
 * Answer clean-up (generation.py, `post_process_answer`): the generated text
 * is stripped, its whitespace runs collapsed, a leading markdown header mark
 * and bold markers removed, a space put after a full stop that runs into a
 * capital letter, three stock opening phrases deleted, and the result
 * stripped again. Each regular-expression substitution is a function here
 * that scans left to right and resumes after each match, as `re.sub` does.
 */
module PostProcess {
  import opened Text

  /** Every whitespace character of `s` is a plain space: no newline, tab or other blank. */
  predicate PlainSpaced(s: string) {
    forall i :: 0 <= i < |s| && IsSpace(s[i]) ==> s[i] == ' '
  }


  /** The leading run of `c` removed. */
  function DropLeading(s: string, c: char): (r: string)
    ensures |r| <= |s| && r == s[|s| - |r|..]
    ensures forall i :: 0 <= i < |s| - |r| ==> s[i] == c
    ensures r == [] || r[0] != c
    decreases |s|
  {
    if s != [] && s[0] == c then
      var r := DropLeading(s[1..], c);
      assert forall i :: 1 <= i < |s| - |r| ==> s[i] == s[1..][i - 1];
      r
    else s
  }

  /** `re.sub(r'^#+\s*', '', s)`: a leading run of `#` and the whitespace after it removed. */
  function RemoveHeader(s: string): (r: string)
    ensures |r| <= |s| && r == s[|s| - |r|..]
    ensures s != [] && s[0] == '#' ==> |r| < |s| && (r == [] || !IsSpace(r[0]))
    ensures (s == [] || s[0] != '#') ==> r == s
  {
    if s != [] && s[0] == '#' then TrimLeft(DropLeading(s, '#')) else s
  }

  /** The length of the leading run of characters other than `*`. */
  function NonStarRun(s: string): (n: nat)
    ensures n <= |s|
    ensures forall i :: 0 <= i < n ==> s[i] != '*'
    ensures n < |s| ==> s[n] == '*'
    decreases |s|
  {
    if s == [] || s[0] == '*' then 0 else 1 + NonStarRun(s[1..])
  }

  /** `\*\*([^*]+)\*\*` matches at the start of `s`, with an inner text of `n` characters. */
  predicate BoldAt(s: string, n: nat) {
    |s| >= 4 + n && s[0] == '*' && s[1] == '*' && n >= 1 && NonStarRun(s[2..]) == n
    && s[2 + n] == '*' && s[3 + n] == '*'
  }

  /** `re.sub(r'\*\*([^*]+)\*\*', r'\1', s)`: every bold span replaced by its text. */
  function Unbold(s: string): (r: string)
    ensures |r| <= |s|
    ensures PlainSpaced(s) ==> PlainSpaced(r)
    decreases |s|
  {
    if s == [] then []
    else if |s| >= 2 && BoldAt(s, NonStarRun(s[2..])) then
      var n := NonStarRun(s[2..]);
      s[2..2 + n] + Unbold(s[4 + n..])
    else
      [s[0]] + Unbold(s[1..])
  }

  /** `[А-ЯA-Z]`: an upper-case basic Cyrillic or ASCII letter. */
  predicate IsCapital(c: char) {
    ('А' <= c <= 'Я') || ('A' <= c <= 'Z')
  }

  /** A full stop at `i` runs straight into a capital letter. */
  predicate StopIntoCapitalAt(s: string, i: nat)
    requires i + 1 < |s|
  {
    s[i] == '.' && IsCapital(s[i + 1])
  }

  /** Two `*` start at `i`. */
  predicate DoubleStarAt(s: string, i: nat)
    requires i + 1 < |s|
  {
    s[i] == '*' && s[i + 1] == '*'
  }

  /** `re.sub(r'\.([А-ЯA-Z])', r'. \1', s)`: a space put between a full stop and a capital
      that follows it directly. */
  function SentenceSpacing(s: string): (r: string)
    ensures |s| <= |r|
    ensures s != [] ==> r != [] && r[0] == s[0]
    ensures PlainSpaced(s) ==> PlainSpaced(r)
    decreases |s|
  {
    if s == [] then []
    else if |s| >= 2 && s[0] == '.' && IsCapital(s[1]) then
      ['.', ' ', s[1]] + SentenceSpacing(s[2..])
    else
      [s[0]] + SentenceSpacing(s[1..])
  }

  /** After the spacing no full stop runs straight into a capital letter. */
  lemma {:induction false} SentenceSpacingSeparates(s: string)
    ensures forall i :: 0 <= i < |SentenceSpacing(s)| - 1 ==> !StopIntoCapitalAt(SentenceSpacing(s), i)
    decreases |s|
  {
    if s != [] {
      var r := SentenceSpacing(s);
      if |s| >= 2 && s[0] == '.' && IsCapital(s[1]) {
        var rest := SentenceSpacing(s[2..]);
        SentenceSpacingSeparates(s[2..]);
        assert r == ['.', ' ', s[1]] + rest;
        forall i | 0 <= i < |r| - 1
          ensures !StopIntoCapitalAt(r, i)
        {
          if i >= 3 {
            assert !StopIntoCapitalAt(rest, i - 3);
          } else if i == 2 && rest != [] {
            assert r[2] == s[1] && s[1] != '.';
          }
        }
      } else {
        var rest := SentenceSpacing(s[1..]);
        SentenceSpacingSeparates(s[1..]);
        assert r == [s[0]] + rest;
        forall i | 0 <= i < |r| - 1
          ensures !StopIntoCapitalAt(r, i)
        {
          if i >= 1 {
            assert !StopIntoCapitalAt(rest, i - 1);
          } else if s[0] == '.' {
            assert |s| >= 2 && rest[0] == s[1];
          }
        }
      }
    }
  }

  /** A redundant opening phrase: a lower-case stem matched without regard to case, an
      optional trailing `s` when `plural` is set, an optional `,` or `:`, then any
      whitespace. */
  datatype Phrase = Phrase(stem: string, plural: bool)

  /** `Based on the provided context[,:]?\s*`, `According to the context[,:]?\s*` and
      `From the legal texts?[,:]?\s*`, in the order they are removed. */
  const RedundantPhrases: seq<Phrase> := [
    Phrase("based on the provided context", false),
    Phrase("according to the context", false),
    Phrase("from the legal text", true)
  ]

  /** `s` starts with `stem`, compared case-insensitively. */
  predicate StemAt(s: string, stem: string) {
    |stem| <= |s| && LowerStr(s[..|stem|]) == stem
  }

  /** The length of the phrase match at the start of `s`, or 0 when the phrase does not
      match there. */
  function PhraseMatch(s: string, p: Phrase): (n: nat)
    ensures n <= |s|
    ensures n > 0 <==> p.stem != [] && StemAt(s, p.stem)
    ensures n > 0 ==> |p.stem| <= n
  {
    if p.stem == [] || !StemAt(s, p.stem) then 0
    else
      var a := |p.stem|;
      var b := if p.plural && a < |s| && Lower(s[a]) == 's' then a + 1 else a;
      var c := if b < |s| && (s[b] == ',' || s[b] == ':') then b + 1 else b;
      c + (|s[c..]| - |TrimLeft(s[c..])|)
  }

  /** `re.sub(phrase, '', s, flags=re.IGNORECASE)`: every match, scanning left to right,
      deleted. */
  function RemovePhrase(s: string, p: Phrase): (r: string)
    ensures |r| <= |s|
    ensures PlainSpaced(s) ==> PlainSpaced(r)
    decreases |s|
  {
    if s == [] then []
    else
      var n := PhraseMatch(s, p);
      if n > 0 then RemovePhrase(s[n..], p)
      else [s[0]] + RemovePhrase(s[1..], p)
  }

  /** The phrases of `ps` removed one after the other. */
  function RemovePhrases(s: string, ps: seq<Phrase>): (r: string)
    ensures |r| <= |s|
    ensures PlainSpaced(s) ==> PlainSpaced(r)
  {
    if ps == [] then s
    else RemovePhrase(RemovePhrases(s, ps[..|ps| - 1]), ps[|ps| - 1])
  }

  /** What `post_process_answer(answer)` returns. */
  function PostProcessed(answer: string): string {
    if answer == [] then []
    else
      var collapsed := CollapseSpaces(Strip(answer));
      var unheaded := RemoveHeader(collapsed);
      var unbolded := Unbold(unheaded);
      var spaced := SentenceSpacing(unbolded);
      Strip(RemovePhrases(spaced, RedundantPhrases))
  }

  /** `post_process_answer(answer)`: the rewrites applied to `answer` one after the other. */
  method PostProcessAnswer(answer: string) returns (r: string)
    ensures r == PostProcessed(answer)
    ensures answer == [] ==> r == []
    ensures Trimmed(r) && PlainSpaced(r) && '\n' !in r
  {
    if answer == [] {
      return [];
    }
    var s := Strip(answer);
    s := CollapseSpaces(s);
    s := RemoveHeader(s);
    s := Unbold(s);
    s := SentenceSpacing(s);
    s := RemoveEach(s, RedundantPhrases);
    r := Strip(s);
    PostProcessedShape(answer);
  }

  /** The loop over the redundant phrases: each one removed from the text in turn. */
  method RemoveEach(text: string, phrases: seq<Phrase>) returns (r: string)
    ensures r == RemovePhrases(text, phrases)
  {
    r := text;
    for k := 0 to |phrases|
      invariant r == RemovePhrases(text, phrases[..k])
    {
      assert phrases[..k + 1][..k] == phrases[..k];
      r := RemovePhrase(r, phrases[k]);
    }
    assert phrases[..|phrases|] == phrases;
  }

  /** A slice of a text whose whitespace is all plain spaces has the same property. */
  lemma PlainSpacedSlice(s: string, lo: nat, hi: nat)
    requires lo <= hi <= |s| && PlainSpaced(s)
    ensures PlainSpaced(s[lo..hi])
  {
    assert forall i :: 0 <= i < hi - lo ==> s[lo..hi][i] == s[lo + i];
  }

  /** The rewrites after the whitespace collapse bring in no whitespace other than a
      plain space. */
  lemma RewritesKeepPlainSpaced(s: string)
    requires PlainSpaced(s)
    ensures PlainSpaced(Strip(RemovePhrases(SentenceSpacing(Unbold(RemoveHeader(s))), RedundantPhrases)))
  {
    var unheaded := RemoveHeader(s);
    PlainSpacedSlice(s, |s| - |unheaded|, |s|);
    var removed := RemovePhrases(SentenceSpacing(Unbold(unheaded)), RedundantPhrases);
    var t := TrimLeft(removed);
    PlainSpacedSlice(removed, |removed| - |t|, |removed|);
    PlainSpacedSlice(t, 0, |TrimRight(t)|);
  }

  /** The cleaned answer is empty for an empty answer, has no whitespace at either end, and
      every whitespace character in it is a plain space, so it holds no newline. */
  lemma PostProcessedShape(answer: string)
    ensures answer == [] ==> PostProcessed(answer) == []
    ensures Trimmed(PostProcessed(answer))
    ensures PlainSpaced(PostProcessed(answer))
    ensures '\n' !in PostProcessed(answer)
  {
    if answer != [] {
      var collapsed := CollapseSpaces(Strip(answer));
      CollapseSpacesSingleSpaced(Strip(answer));
      RewritesKeepPlainSpaced(collapsed);
      StripFacts(RemovePhrases(SentenceSpacing(Unbold(RemoveHeader(collapsed))), RedundantPhrases));
    }
  }

  /** Text with no bold span is left as it is by `Unbold`. */
  lemma {:induction false} UnboldPlain(s: string)
    requires forall i :: 0 <= i < |s| - 1 ==> !DoubleStarAt(s, i)
    ensures Unbold(s) == s
    decreases |s|
  {
    if s != [] {
      var t := s[1..];
      forall i | 0 <= i < |t| - 1
        ensures !DoubleStarAt(t, i)
      {
        assert !DoubleStarAt(s, i + 1);
      }
      UnboldPlain(t);
      if |s| >= 2 {
        assert !DoubleStarAt(s, 0);
      }
    }
  }

  /** A bold span at the front gives up its markers and keeps its text. */
  lemma UnboldSpan(w: string, rest: string)
    requires w != [] && '*' !in w
    ensures Unbold("**" + w + "**" + rest) == w + Unbold(rest)
  {
    var s := "**" + w + "**" + rest;
    var n := |w|;
    assert s[2..] == w + "**" + rest;
    assert s[2..][..n] == w;
    NonStarRunOf(s[2..], w);
    assert s[0] == '*' && s[1] == '*' && s[2 + n] == '*' && s[3 + n] == '*';
    assert BoldAt(s, n);
    assert s[2..2 + n] == w;
    assert s[4 + n..] == rest;
  }

  lemma {:induction false} NonStarRunOf(s: string, w: string)
    requires '*' !in w && |w| < |s| && s[..|w|] == w && s[|w|] == '*'
    ensures NonStarRun(s) == |w|
    decreases |w|
  {
    if w != [] {
      assert s[1..][..|w| - 1] == w[1..];
      NonStarRunOf(s[1..], w[1..]);
    }
  }

  /** Text where no full stop runs into a capital is left as it is by `SentenceSpacing`. */
  lemma {:induction false} SpacingPlain(s: string)
    requires forall i :: 0 <= i < |s| - 1 ==> !StopIntoCapitalAt(s, i)
    ensures SentenceSpacing(s) == s
    decreases |s|
  {
    if s != [] {
      var t := s[1..];
      forall i | 0 <= i < |t| - 1
        ensures !StopIntoCapitalAt(t, i)
      {
        assert !StopIntoCapitalAt(s, i + 1);
      }
      SpacingPlain(t);
      if |s| >= 2 {
        assert !StopIntoCapitalAt(s, 0);
      }
    }
  }

  /** Text where the phrase starts nowhere is left as it is by `RemovePhrase`. */
  lemma {:induction false} RemovePhraseAbsent(s: string, p: Phrase)
    requires forall i :: 0 <= i <= |s| ==> !StemAt(s[i..], p.stem)
    ensures RemovePhrase(s, p) == s
    decreases |s|
  {
    if s != [] {
      assert !StemAt(s[0..], p.stem);
      assert s[0..] == s;
      forall i | 0 <= i <= |s| - 1
        ensures !StemAt(s[1..][i..], p.stem)
      {
        assert s[1..][i..] == s[i + 1..];
      }
      RemovePhraseAbsent(s[1..], p);
    }
  }

  lemma {:induction false} RemovePhrasesAbsent(s: string, ps: seq<Phrase>)
    requires forall k, i :: 0 <= k < |ps| && 0 <= i <= |s| ==> !StemAt(s[i..], ps[k].stem)
    ensures RemovePhrases(s, ps) == s
    decreases |ps|
  {
    if ps != [] {
      RemovePhrasesAbsent(s, ps[..|ps| - 1]);
      RemovePhraseAbsent(s, ps[|ps| - 1]);
    }
  }

  /** An answer that is already clean passes through unchanged: trimmed, single-spaced, not
      opening with `#`, with no `**`, no full stop running into a capital and none of the
      redundant phrases. */
  lemma CleanAnswerUnchanged(s: string)
    requires Trimmed(s) && SingleSpaced(s)
    requires s == [] || s[0] != '#'
    requires forall i :: 0 <= i < |s| - 1 ==> !DoubleStarAt(s, i)
    requires forall i :: 0 <= i < |s| - 1 ==> !StopIntoCapitalAt(s, i)
    requires forall k, i :: 0 <= k < |RedundantPhrases| && 0 <= i <= |s| ==> !StemAt(s[i..], RedundantPhrases[k].stem)
    ensures PostProcessed(s) == s
  {
    if s != [] {
      StripTrimmed(s);
      CollapseSingleSpaced(s);
      UnboldPlain(s);
      SpacingPlain(s);
      RemovePhrasesAbsent(s, RedundantPhrases);
    }
  }

  /** Text shorter than every redundant phrase holds none of them. */
  lemma ShortTextNoPhrase(s: string)
    requires |s| < 19
    ensures forall k, i :: 0 <= k < |RedundantPhrases| && 0 <= i <= |s| ==> !StemAt(s[i..], RedundantPhrases[k].stem)
  {
    assert |RedundantPhrases[0].stem| == 29;
    assert |RedundantPhrases[1].stem| == 24;
    assert |RedundantPhrases[2].stem| == 19;
  }

  /** The whitespace collapse runs before the bold markers are removed, so a space just
      inside a marker ends up beside the space outside it: for any two characters `a` and
      `b` that are neither blank nor markup, `"a ** b**"` is cleaned to `"a  b"`, which is
      not single-spaced. */
  lemma DoubleSpaceSurvives(a: char, b: char)
    requires !IsSpace(a) && a != '*' && a != '.' && a != '#'
    requires !IsSpace(b) && b != '*' && b != '.'
    ensures PostProcessed([a, ' ', '*', '*', ' ', b, '*', '*']) == [a, ' ', ' ', b]
    ensures !SingleSpaced(PostProcessed([a, ' ', '*', '*', ' ', b, '*', '*']))
  {
    var s := [a, ' ', '*', '*', ' ', b, '*', '*'];
    var u := [a, ' ', ' ', b];
    MarkedExampleSingleSpaced(a, b);
    FrontStepsKeepClean(s);
    UnboldExample(a, b);
    BackStepsKeepShort(u);
    assert !NoDoubleSpaceAt(u, 1);
  }

  /** Stripping, collapsing and header removal leave a trimmed, single-spaced text that
      does not open with `#` as it is. */
  lemma FrontStepsKeepClean(s: string)
    requires Trimmed(s) && SingleSpaced(s) && (s == [] || s[0] != '#')
    ensures RemoveHeader(CollapseSpaces(Strip(s))) == s
  {
    StripTrimmed(s);
    CollapseSingleSpaced(s);
  }

  /** The steps after the bold removal leave a short trimmed text with no full stop as it
      is. */
  lemma BackStepsKeepShort(u: string)
    requires Trimmed(u) && |u| < 19 && forall i :: 0 <= i < |u| ==> u[i] != '.'
    ensures Strip(RemovePhrases(SentenceSpacing(u), RedundantPhrases)) == u
  {
    SpacingPlain(u);
    ShortTextNoPhrase(u);
    RemovePhrasesAbsent(u, RedundantPhrases);
    StripTrimmed(u);
  }

  lemma MarkedExampleSingleSpaced(a: char, b: char)
    requires !IsSpace(a) && !IsSpace(b)
    ensures Trimmed([a, ' ', '*', '*', ' ', b, '*', '*'])
    ensures SingleSpaced([a, ' ', '*', '*', ' ', b, '*', '*'])
  {
    var s := [a, ' ', '*', '*', ' ', b, '*', '*'];
    forall i | 0 <= i < |s| - 1
      ensures NoDoubleSpaceAt(s, i)
    {
      assert i == 0 || i == 1 || i == 2 || i == 3 || i == 4 || i == 5 || i == 6;
    }
  }

  lemma UnboldExample(a: char, b: char)
    requires a != '*' && b != '*'
    ensures Unbold([a, ' ', '*', '*', ' ', b, '*', '*']) == [a, ' ', ' ', b]
  {
    var s := [a, ' ', '*', '*', ' ', b, '*', '*'];
    var t := s[2..];
    assert t == ['*', '*', ' ', b, '*', '*'];
    NonStarRunOf(t[2..], [' ', b]);
    assert BoldAt(t, 2);
    assert t[6..] == [];
    assert Unbold(t) == [' ', b];
    assert !BoldAt(s, NonStarRun(s[2..]));
    assert s[1..] == [' '] + t;
    assert !BoldAt(s[1..], NonStarRun(s[1..][2..]));
    assert s[1..][1..] == t;
  }
}
