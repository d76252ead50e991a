/**
 * Question-language detection (generation.py, `detect_language`): Kyrgyz when
 * one of the Kyrgyz-only letters occurs, Russian when Cyrillic letters
 * outnumber Latin ones and there are more than five of them, English
 * otherwise.
 */
module Language {

  datatype Lang = Kyrgyz | Russian | English

  /** The name the prompt is given. */
  function Name(l: Lang): string {
    match l
    case Kyrgyz => "Kyrgyz"
    case Russian => "Russian"
    case English => "English"
  }

  /** `[а-яА-ЯёЁ]` */
  predicate IsCyrillic(c: char) {
    ('а' <= c <= 'я') || ('А' <= c <= 'Я') || c == 'ё' || c == 'Ё'
  }

  /** `[a-zA-Z]` */
  predicate IsLatin(c: char) {
    ('a' <= c <= 'z') || ('A' <= c <= 'Z')
  }

  /** One of ң ү ө Ң Ү Ө. */
  predicate IsKyrgyzLetter(c: char) {
    c in "ңүөҢҮӨ"
  }

  /** `len(re.findall(r'[а-яА-ЯёЁ]', text))` */
  function CountCyrillic(text: string): nat {
    if text == [] then 0
    else CountCyrillic(text[..|text| - 1]) + (if IsCyrillic(text[|text| - 1]) then 1 else 0)
  }

  /** `len(re.findall(r'[a-zA-Z]', text))` */
  function CountLatin(text: string): nat {
    if text == [] then 0
    else CountLatin(text[..|text| - 1]) + (if IsLatin(text[|text| - 1]) then 1 else 0)
  }

  /** `any(char in text for char in kyrgyz_patterns)` */
  predicate HasKyrgyz(text: string) {
    exists i :: 0 <= i < |text| && IsKyrgyzLetter(text[i])
  }

  /** `detect_language(text)` */
  function DetectLanguage(text: string): (l: Lang) {
    var cyrillic := CountCyrillic(text);
    var latin := CountLatin(text);
    var hasKyrgyz := HasKyrgyz(text);
    if hasKyrgyz || (cyrillic > latin && cyrillic > 5) then
      if hasKyrgyz then Kyrgyz else Russian
    else if latin > cyrillic && latin > 5 then English
    else English
  }

  /** The positions of Cyrillic letters, and of Latin letters. */
  ghost function CyrillicPositions(text: string): set<nat> {
    set i: nat | i < |text| && IsCyrillic(text[i])
  }

  ghost function LatinPositions(text: string): set<nat> {
    set i: nat | i < |text| && IsLatin(text[i])
  }

  /** The counts are the numbers of positions holding a letter of each alphabet. */
  lemma CountsArePositions(text: string)
    ensures CountCyrillic(text) == |CyrillicPositions(text)|
    ensures CountLatin(text) == |LatinPositions(text)|
  {
    CyrillicCount(text);
    LatinCount(text);
  }

  lemma {:induction false} CyrillicCount(text: string)
    ensures CountCyrillic(text) == |CyrillicPositions(text)|
  {
    if text != [] {
      var n := |text| - 1;
      var init := text[..n];
      CyrillicCount(init);
      assert n !in CyrillicPositions(init);
      assert CyrillicPositions(text)
          == CyrillicPositions(init) + (if IsCyrillic(text[n]) then {n} else {});
    }
  }

  lemma {:induction false} LatinCount(text: string)
    ensures CountLatin(text) == |LatinPositions(text)|
  {
    if text != [] {
      var n := |text| - 1;
      var init := text[..n];
      LatinCount(init);
      assert n !in LatinPositions(init);
      assert LatinPositions(text)
          == LatinPositions(init) + (if IsLatin(text[n]) then {n} else {});
    }
  }

  /** The three outcomes, each with the condition under which it is chosen: a Kyrgyz
      letter decides alone; otherwise Russian exactly when Cyrillic letters outnumber
      Latin ones and there are more than five of them; English in every other case,
      short and mixed texts included. */
  lemma DetectLanguageSpec(text: string)
    ensures DetectLanguage(text) == Kyrgyz <==>
              exists i :: 0 <= i < |text| && IsKyrgyzLetter(text[i])
    ensures DetectLanguage(text) == Russian <==>
              !HasKyrgyz(text)
              && |CyrillicPositions(text)| > |LatinPositions(text)| && |CyrillicPositions(text)| > 5
    ensures DetectLanguage(text) == English <==>
              !HasKyrgyz(text)
              && (|CyrillicPositions(text)| <= |LatinPositions(text)| || |CyrillicPositions(text)| <= 5)
  {
    CountsArePositions(text);
  }

  /** A text with no Cyrillic or Kyrgyz letter is always English, however short. */
  lemma {:induction false} NoCyrillicIsEnglish(text: string)
    requires forall i :: 0 <= i < |text| ==> !IsCyrillic(text[i]) && !IsKyrgyzLetter(text[i])
    ensures DetectLanguage(text) == English
  {
    NoCyrillicCount(text);
  }

  lemma {:induction false} NoCyrillicCount(text: string)
    requires forall i :: 0 <= i < |text| ==> !IsCyrillic(text[i])
    ensures CountCyrillic(text) == 0
  {
    if text != [] {
      NoCyrillicCount(text[..|text| - 1]);
    }
  }

  /** Appending text never removes a Kyrgyz verdict. */
  lemma KyrgyzIsSticky(text: string, more: string)
    requires DetectLanguage(text) == Kyrgyz
    ensures DetectLanguage(text + more) == Kyrgyz && DetectLanguage(more + text) == Kyrgyz
  {
    var i :| 0 <= i < |text| && IsKyrgyzLetter(text[i]);
    assert (text + more)[i] == text[i];
    assert (more + text)[|more| + i] == text[i];
  }
}
