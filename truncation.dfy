/**
 * `truncate_at_sentence`, defined identically in interface.py and console.py:
 * shortens a message of the conversation history to at most `max_length`
 * characters, preferably at a sentence end in the second half of the window,
 * otherwise at the last space (marked with "..."), otherwise hard (marked with
 * "...").
 */
module Truncation {
  import opened Wrappers
  import opened Text

  /** The sentence ends `. `, `! ` and `? `. */
  const SentenceEnds: seq<string> := [". ", "! ", "? "]

  /** The delimiters in the order they are tried; the source lists the three twice. */
  const Delimiters: seq<string> := SentenceEnds + SentenceEnds

  const DefaultMaxLength: nat := 200
  const Ellipsis: string := "..."

  /** Each delimiter is a sentence-ending mark followed by a space. */
  predicate SentenceMarks(delimiters: seq<string>) {
    forall j :: 0 <= j < |delimiters| ==>
      |delimiters[j]| == 2 && delimiters[j][0] in ".!?" && delimiters[j][1] == ' '
  }

  lemma DelimiterShape()
    ensures SentenceMarks(Delimiters)
  {
  }

  /** `pos` is past the middle of the window: `pos > max_length * 0.5`. */
  predicate PastHalf(pos: int, maxLength: nat) {
    2 * pos > maxLength
  }

  /** The cut of the first delimiter whose last occurrence in `t` lies past the middle of
      the window, if any. */
  function SentenceCut(t: string, delimiters: seq<string>, maxLength: nat): (r: Option<nat>)
    ensures r.Some? ==> PastHalf(r.value, maxLength) && r.value <= |t|
  {
    if delimiters == [] then None
    else
      var pos := RFind(t, delimiters[0]);
      if PastHalf(pos, maxLength) then Some(pos as nat)
      else SentenceCut(t, delimiters[1..], maxLength)
  }

  /** `truncate_at_sentence(text, max_length)`. */
  function TruncateAtSentence(text: string, maxLength: nat): string {
    TruncateWith(text, maxLength, Delimiters)
  }

  /** The truncation with the delimiter list as a parameter. The cut keeps the mark of the
      delimiter found; like a Python slice, it stops at the end of the window. */
  function TruncateWith(text: string, maxLength: nat, delimiters: seq<string>): string {
    if |text| <= maxLength then text
    else
      var truncated := text[..maxLength];
      var cut := SentenceCut(truncated, delimiters, maxLength);
      if cut.Some? then
        truncated[..Min(cut.value + 1, maxLength)]
      else
        var lastSpace := RFind(truncated, " ");
        if lastSpace > 0 then truncated[..lastSpace] + Ellipsis
        else truncated + Ellipsis
  }

  /** The delimiter loop: returns at the first delimiter whose last occurrence lies past
      the middle of the window. */
  method FindSentenceCut(t: string, delimiters: seq<string>, maxLength: nat) returns (cut: Option<nat>)
    ensures cut == SentenceCut(t, delimiters, maxLength)
  {
    for i := 0 to |delimiters|
      invariant SentenceCut(t, delimiters, maxLength) == SentenceCut(t, delimiters[i..], maxLength)
    {
      assert delimiters[i..][1..] == delimiters[i + 1..];
      var lastPos := RFind(t, delimiters[i]);
      if PastHalf(lastPos, maxLength) {
        return Some(lastPos as nat);
      }
    }
    return None;
  }

  /** The function as the source runs it. */
  method Truncate(text: string, maxLength: nat) returns (r: string)
    ensures r == TruncateAtSentence(text, maxLength)
  {
    if |text| <= maxLength {
      return text;
    }
    var truncated := text[..maxLength];
    var cut := FindSentenceCut(truncated, Delimiters, maxLength);
    if cut.Some? {
      return truncated[..Min(cut.value + 1, maxLength)];
    }
    var lastSpace := RFind(truncated, " ");
    if lastSpace > 0 {
      return truncated[..lastSpace] + Ellipsis;
    }
    return truncated + Ellipsis;
  }

  /** `t` has a sentence end (one of the delimiters) at `pos`. */
  predicate SentenceEndAt(t: string, delimiters: seq<string>, pos: int) {
    exists j :: 0 <= j < |delimiters| && OccursAt(t, delimiters[j], pos)
  }

  /** A cut is found exactly when some delimiter occurs past the middle, and it is the last
      occurrence of the first delimiter, in list order, that occurs past the middle. */
  lemma SentenceCutSpec(t: string, delimiters: seq<string>, maxLength: nat)
    ensures SentenceCut(t, delimiters, maxLength).None? <==>
              forall p :: PastHalf(p, maxLength) ==> !SentenceEndAt(t, delimiters, p)
    ensures SentenceCut(t, delimiters, maxLength).Some? ==>
              SentenceEndAt(t, delimiters, SentenceCut(t, delimiters, maxLength).value)
    ensures SentenceCut(t, delimiters, maxLength).Some? ==>
              exists j :: 0 <= j < |delimiters|
                && SentenceCut(t, delimiters, maxLength).value == RFind(t, delimiters[j])
                && forall i :: 0 <= i < j ==> !PastHalf(RFind(t, delimiters[i]), maxLength)
  {
    SentenceCutNone(t, delimiters, maxLength);
    SentenceCutEnd(t, delimiters, maxLength);
    SentenceCutFirst(t, delimiters, maxLength);
  }

  lemma {:induction false} SentenceCutNone(t: string, delimiters: seq<string>, maxLength: nat)
    ensures SentenceCut(t, delimiters, maxLength).None? ==>
              forall p :: PastHalf(p, maxLength) ==> !SentenceEndAt(t, delimiters, p)
    decreases |delimiters|
  {
    if delimiters != [] {
      var pos := RFind(t, delimiters[0]);
      if !PastHalf(pos, maxLength) {
        SentenceCutNone(t, delimiters[1..], maxLength);
        if SentenceCut(t, delimiters[1..], maxLength).None? {
          RFindLast(t, delimiters[0]);
          forall p, j | PastHalf(p, maxLength) && 0 <= j < |delimiters|
            ensures !OccursAt(t, delimiters[j], p)
          {
            if j == 0 {
              assert pos < p;
            } else {
              assert !SentenceEndAt(t, delimiters[1..], p);
              assert delimiters[j] == delimiters[1..][j - 1];
            }
          }
        }
      }
    }
  }

  lemma {:induction false} SentenceCutEnd(t: string, delimiters: seq<string>, maxLength: nat)
    ensures SentenceCut(t, delimiters, maxLength).Some? ==>
              SentenceEndAt(t, delimiters, SentenceCut(t, delimiters, maxLength).value)
    decreases |delimiters|
  {
    if delimiters != [] {
      var pos := RFind(t, delimiters[0]);
      if PastHalf(pos, maxLength) {
        RFindFound(t, delimiters[0]);
        assert OccursAt(t, delimiters[0], pos);
      } else {
        SentenceCutEnd(t, delimiters[1..], maxLength);
        var rest := SentenceCut(t, delimiters[1..], maxLength);
        if rest.Some? {
          var j :| 0 <= j < |delimiters[1..]| && OccursAt(t, delimiters[1..][j], rest.value);
          assert delimiters[1..][j] == delimiters[j + 1];
        }
      }
    }
  }

  lemma {:induction false} SentenceCutFirst(t: string, delimiters: seq<string>, maxLength: nat)
    ensures SentenceCut(t, delimiters, maxLength).Some? ==>
              exists j :: 0 <= j < |delimiters|
                && SentenceCut(t, delimiters, maxLength).value == RFind(t, delimiters[j])
                && forall i :: 0 <= i < j ==> !PastHalf(RFind(t, delimiters[i]), maxLength)
    decreases |delimiters|
  {
    if delimiters == [] {
    } else if PastHalf(RFind(t, delimiters[0]), maxLength) {
      assert SentenceCut(t, delimiters, maxLength).value == RFind(t, delimiters[0]);
    } else {
      var rest := SentenceCut(t, delimiters[1..], maxLength);
      assert SentenceCut(t, delimiters, maxLength) == rest;
      SentenceCutFirst(t, delimiters[1..], maxLength);
      if rest.Some? {
        var j :| 0 <= j < |delimiters[1..]| && rest.value == RFind(t, delimiters[1..][j])
                 && forall i :: 0 <= i < j ==> !PastHalf(RFind(t, delimiters[1..][i]), maxLength);
        assert rest.value == RFind(t, delimiters[j + 1]);
        forall i | 0 <= i < j + 1
          ensures !PastHalf(RFind(t, delimiters[i]), maxLength)
        {
          if i > 0 {
            assert delimiters[i] == delimiters[1..][i - 1];
          }
        }
      }
    }
  }

  /** Trying a list of delimiters after another: the second list counts only when the
      first finds nothing. */
  lemma {:induction false} SentenceCutAppend(t: string, a: seq<string>, b: seq<string>, maxLength: nat)
    ensures SentenceCut(t, a + b, maxLength) ==
              if SentenceCut(t, a, maxLength).Some? then SentenceCut(t, a, maxLength) else SentenceCut(t, b, maxLength)
    decreases |a|
  {
    if a == [] {
      assert a + b == b;
    } else {
      assert (a + b)[0] == a[0];
      assert (a + b)[1..] == a[1..] + b;
      SentenceCutAppend(t, a[1..], b, maxLength);
    }
  }

  /** The repeated second half of the delimiter list never changes the result. */
  lemma RepeatedDelimitersRedundant(t: string, maxLength: nat)
    ensures SentenceCut(t, Delimiters, maxLength) == SentenceCut(t, [". ", "! ", "? "], maxLength)
  {
    var once: seq<string> := [". ", "! ", "? "];
    assert Delimiters == once + once;
    SentenceCutAppend(t, once, once, maxLength);
  }

  /** Text that fits the window is returned unchanged. */
  lemma ShortTextUnchanged(text: string, maxLength: nat)
    requires |text| <= maxLength
    ensures TruncateAtSentence(text, maxLength) == text
  {
  }

  /** When a sentence ends past the middle of the window, the text is cut just after such a
      sentence end, its mark kept and the space dropped. */
  lemma CutAtSentenceEnd(text: string, maxLength: nat)
    requires |text| > maxLength
    requires exists p :: PastHalf(p, maxLength) && SentenceEndAt(text[..maxLength], Delimiters, p)
    ensures exists p :: PastHalf(p, maxLength) && p + 2 <= maxLength
              && TruncateAtSentence(text, maxLength) == text[..p + 1]
              && text[p] in ".!?" && text[p + 1] == ' '
  {
    DelimiterShape();
    CutAtSentenceEndWith(text, maxLength, Delimiters);
  }

  /** With no sentence end past the middle, the text is cut at the last space of the window
      that is not its first character, and "..." marks the cut; with no such space the
      whole window is kept and marked. */
  lemma CutAtWord(text: string, maxLength: nat)
    requires |text| > maxLength
    requires forall p :: PastHalf(p, maxLength) ==> !SentenceEndAt(text[..maxLength], Delimiters, p)
    ensures var r := TruncateAtSentence(text, maxLength);
      || (exists k :: 0 < k < maxLength && text[k] == ' ' && r == text[..k] + Ellipsis
            && forall i :: k < i < maxLength ==> text[i] != ' ')
      || ((forall i :: 0 < i < maxLength ==> text[i] != ' ') && r == text[..maxLength] + Ellipsis)
  {
    DelimiterShape();
    CutAtWordWith(text, maxLength, Delimiters);
  }

  lemma CutAtSentenceEndWith(text: string, maxLength: nat, delimiters: seq<string>)
    requires SentenceMarks(delimiters)
    requires |text| > maxLength
    requires exists p :: PastHalf(p, maxLength) && SentenceEndAt(text[..maxLength], delimiters, p)
    ensures exists p :: PastHalf(p, maxLength) && p + 2 <= maxLength
              && TruncateWith(text, maxLength, delimiters) == text[..p + 1]
              && text[p] in ".!?" && text[p + 1] == ' '
  {
    var t := text[..maxLength];
    CutFound(t, delimiters, maxLength);
    var p := SentenceCut(t, delimiters, maxLength).value;
    var j :| 0 <= j < |delimiters| && OccursAt(t, delimiters[j], p);
    assert t[p..p + 2] == delimiters[j];
    assert text[p] == delimiters[j][0] && text[p + 1] == ' ';
    assert TruncateWith(text, maxLength, delimiters) == t[..p + 1] == text[..p + 1];
  }

  lemma CutFound(t: string, delimiters: seq<string>, maxLength: nat)
    requires exists p :: PastHalf(p, maxLength) && SentenceEndAt(t, delimiters, p)
    ensures SentenceCut(t, delimiters, maxLength).Some?
    ensures SentenceEndAt(t, delimiters, SentenceCut(t, delimiters, maxLength).value)
  {
    SentenceCutSpec(t, delimiters, maxLength);
  }

  lemma CutAtWordWith(text: string, maxLength: nat, delimiters: seq<string>)
    requires SentenceMarks(delimiters)
    requires |text| > maxLength
    requires forall p :: PastHalf(p, maxLength) ==> !SentenceEndAt(text[..maxLength], delimiters, p)
    ensures var r := TruncateWith(text, maxLength, delimiters);
      || (exists k :: 0 < k < maxLength && text[k] == ' ' && r == text[..k] + Ellipsis
            && forall i :: k < i < maxLength ==> text[i] != ' ')
      || ((forall i :: 0 < i < maxLength ==> text[i] != ' ') && r == text[..maxLength] + Ellipsis)
  {
    var t := text[..maxLength];
    SentenceCutSpec(t, delimiters, maxLength);
    assert SentenceCut(t, delimiters, maxLength).None?;
    var lastSpace := RFind(t, " ");
    RFindSpec(t, " ");
    forall i | lastSpace < i < maxLength
      ensures text[i] != ' '
    {
      assert !OccursAt(t, " ", i);
      assert t[i..i + 1] == [t[i]];
    }
    var r := TruncateWith(text, maxLength, delimiters);
    if lastSpace > 0 {
      assert t[lastSpace..lastSpace + 1] == " ";
      assert text[lastSpace] == t[lastSpace] == ' ';
      assert r == text[..lastSpace] + Ellipsis by {
        assert t[..lastSpace] == text[..lastSpace];
      }
      assert 0 < lastSpace < maxLength && text[lastSpace] == ' ' && r == text[..lastSpace] + Ellipsis
        && forall i :: lastSpace < i < maxLength ==> text[i] != ' ';
    } else {
      assert r == text[..maxLength] + Ellipsis;
    }
  }

  /** The result is never longer than the window plus the three-character marker, and
      without the marker it is a prefix of the text. */
  lemma TruncateBounds(text: string, maxLength: nat)
    ensures var r := TruncateAtSentence(text, maxLength);
      && |r| <= maxLength + |Ellipsis|
      && (StartsWith(text, r) || (EndsWith(r, Ellipsis) && StartsWith(text, r[..|r| - |Ellipsis|])))
  {
  }
}
