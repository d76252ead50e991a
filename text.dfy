/**
 * The Python string operations the core relies on (`str.strip`, `str.split`,
 * `str.lower`, `str.replace`, `str.rfind`, `in`, and the regular expressions
 * `\s+` and `\n+`), written over `seq<char>`.
 *
 * Whitespace and case folding cover ASCII, basic Cyrillic and the three
 * Kyrgyz letters; wider Unicode tables are not modelled.
 */
module Text {

  /** A character Python's `\s`, `str.strip()` and `str.split()` treat as whitespace. */
  predicate IsSpace(c: char) {
    c == ' ' || c == '\t' || c == '\n' || c == '\r' || c == '\U{000B}' || c == '\U{000C}'
    || ('\U{001C}' <= c <= '\U{001F}') || c == '\U{0085}' || c == '\U{00A0}'
  }

  /** `str.lower()` on one character. */
  function Lower(c: char): (r: char)
    ensures 'A' <= c <= 'Z' ==> r == (c as int + 32) as char
    ensures !('A' <= c <= 'Z') && !('А' <= c <= 'Я') && c !in "ЁҢҮӨ" ==> r == c
  {
    if 'A' <= c <= 'Z' then (c as int + 32) as char
    else if 'А' <= c <= 'Я' then (c as int + 32) as char
    else if c == 'Ё' then 'ё'
    else if c == 'Ң' then 'ң'
    else if c == 'Ү' then 'ү'
    else if c == 'Ө' then 'ө'
    else c
  }

  /** `s.lower()`: same length, every character folded. */
  function LowerStr(s: string): (r: string)
    ensures |r| == |s|
  {
    if s == [] then [] else [Lower(s[0])] + LowerStr(s[1..])
  }

  /** Every character of `s.lower()` is the folded character at the same place. */
  lemma {:induction false} LowerStrSpec(s: string)
    ensures forall i :: 0 <= i < |s| ==> LowerStr(s)[i] == Lower(s[i])
  {
    if s != [] {
      LowerStrSpec(s[1..]);
      assert forall i :: 1 <= i < |s| ==> LowerStr(s)[i] == LowerStr(s[1..])[i - 1];
    }
  }

  function Min(a: int, b: int): int { if a <= b then a else b }

  function Max(a: int, b: int): int { if a <= b then b else a }

  predicate StartsWith(s: string, prefix: string) {
    |prefix| <= |s| && s[..|prefix|] == prefix
  }

  predicate EndsWith(s: string, suffix: string) {
    |suffix| <= |s| && s[|s| - |suffix|..] == suffix
  }

  /** `pat in s` */
  predicate Contains(s: string, pat: string)
    decreases |s|
  {
    StartsWith(s, pat) || (s != [] && Contains(s[1..], pat))
  }

  /** `s.replace(pat, repl)`: non-overlapping occurrences, scanned left to right. */
  function Replace(s: string, pat: string, repl: string): string
    requires pat != []
    decreases |s|
  {
    if |s| < |pat| then s
    else if s[..|pat|] == pat then repl + Replace(s[|pat|..], pat, repl)
    else [s[0]] + Replace(s[1..], pat, repl)
  }

  /** Replacing one character by another maps every character on its own: each `a`
      becomes `b` and every other character stays. */
  lemma {:induction false} ReplaceCharPointwise(s: string, a: char, b: char)
    ensures |Replace(s, [a], [b])| == |s|
    ensures forall i :: 0 <= i < |s| ==> Replace(s, [a], [b])[i] == if s[i] == a then b else s[i]
    decreases |s|
  {
    if |s| >= 1 {
      ReplaceCharPointwise(s[1..], a, b);
      var c := if s[0] == a then b else s[0];
      assert s[..1] == [a] <==> s[0] == a;
      assert Replace(s, [a], [b]) == [c] + Replace(s[1..], [a], [b]);
    }
  }

  /** Replacing a string by a replacement that does not contain `c` never introduces `c`. */
  lemma {:induction false} ReplaceKeepsOut(s: string, pat: string, repl: string, c: char)
    requires pat != [] && c !in s && c !in repl
    ensures c !in Replace(s, pat, repl)
    decreases |s|
  {
    if |s| < |pat| {
    } else if s[..|pat|] == pat {
      ReplaceKeepsOut(s[|pat|..], pat, repl, c);
    } else {
      ReplaceKeepsOut(s[1..], pat, repl, c);
    }
  }

  /** `s.lstrip()` */
  function TrimLeft(s: string): (r: string)
    ensures |r| <= |s| && r == s[|s| - |r|..]
    ensures forall i :: 0 <= i < |s| - |r| ==> IsSpace(s[i])
    ensures r == [] || !IsSpace(r[0])
    ensures r == [] ==> forall i :: 0 <= i < |s| ==> IsSpace(s[i])
    decreases |s|
  {
    if s != [] && IsSpace(s[0]) then
      var r := TrimLeft(s[1..]);
      assert forall i :: 1 <= i < |s| - |r| ==> s[i] == s[1..][i - 1];
      r
    else s
  }

  /** `s.rstrip()` */
  function TrimRight(s: string): (r: string)
    ensures |r| <= |s| && r == s[..|r|]
    ensures forall i :: |r| <= i < |s| ==> IsSpace(s[i])
    ensures r == [] || !IsSpace(r[|r| - 1])
    ensures r == [] ==> forall i :: 0 <= i < |s| ==> IsSpace(s[i])
    decreases |s|
  {
    if s != [] && IsSpace(s[|s| - 1]) then TrimRight(s[..|s| - 1]) else s
  }

  /** `s.strip()` */
  function Strip(s: string): string {
    TrimRight(TrimLeft(s))
  }

  /** Neither end of `s` is whitespace. */
  predicate Trimmed(s: string) {
    s == [] || (!IsSpace(s[0]) && !IsSpace(s[|s| - 1]))
  }

  /** Every whitespace character is a plain space and no two whitespace characters are adjacent. */
  ghost predicate SingleSpaced(s: string) {
    && (forall i :: 0 <= i < |s| && IsSpace(s[i]) ==> s[i] == ' ')
    && (forall i :: 0 <= i < |s| - 1 ==> NoDoubleSpaceAt(s, i))
  }

  /** The characters at `i` and `i + 1` are not both whitespace. */
  ghost predicate NoDoubleSpaceAt(s: string, i: nat)
    requires i + 1 < |s|
  {
    !IsSpace(s[i]) || !IsSpace(s[i + 1])
  }

  /** `s.strip()` is no longer than `s`, has no whitespace at either end, and is empty
      exactly when `s` is all whitespace. */
  lemma StripFacts(s: string)
    ensures Trimmed(Strip(s))
    ensures |Strip(s)| <= |s|
    ensures Strip(s) == [] <==> forall i :: 0 <= i < |s| ==> IsSpace(s[i])
  {
    var t := TrimLeft(s);
    var r := TrimRight(t);
    if r != [] {
      assert r[0] == t[0];
    }
  }

  /** `Strip` applied to an already trimmed string changes nothing. */
  lemma StripTrimmed(s: string)
    requires Trimmed(s)
    ensures Strip(s) == s
  {
  }

  /** `re.sub(r'\s+', ' ', s)`: every maximal run of whitespace becomes one space. */
  function CollapseSpaces(s: string): (r: string)
    ensures (r == []) == (s == [])
    ensures r != [] ==> (IsSpace(r[0]) <==> IsSpace(s[0]))
    ensures r != [] && !IsSpace(s[0]) ==> r[0] == s[0]
    ensures s != [] && !IsSpace(s[|s| - 1]) ==> r[|r| - 1] == s[|s| - 1]
    decreases |s|
  {
    if s == [] then []
    else if IsSpace(s[0]) then
      var rest := TrimLeft(s[1..]);
      [' '] + CollapseSpaces(rest)
    else [s[0]] + CollapseSpaces(s[1..])
  }

  /** After collapsing, every whitespace character is a plain space and no two of them
      are adjacent. */
  lemma {:induction false} CollapseSpacesSingleSpaced(s: string)
    ensures SingleSpaced(CollapseSpaces(s))
    decreases |s|
  {
    if s != [] && IsSpace(s[0]) {
      var t := TrimLeft(s[1..]);
      CollapseSpacesSingleSpaced(t);
      SingleSpacedCons(' ', CollapseSpaces(t));
    } else if s != [] {
      CollapseSpacesSingleSpaced(s[1..]);
      SingleSpacedCons(s[0], CollapseSpaces(s[1..]));
    }
  }

  /** A character put in front of a single-spaced text keeps it single spaced when it is
      not whitespace, or is a plain space followed by a character that is not. */
  lemma SingleSpacedCons(x: char, c: string)
    requires SingleSpaced(c)
    requires IsSpace(x) ==> x == ' ' && (c == [] || !IsSpace(c[0]))
    ensures SingleSpaced([x] + c)
  {
    var r := [x] + c;
    forall i | 0 < i < |r|
      ensures r[i] == c[i - 1]
    {
    }
    forall i | 0 <= i < |r| - 1
      ensures NoDoubleSpaceAt(r, i)
    {
      if i > 0 {
        assert NoDoubleSpaceAt(c, i - 1);
      }
    }
  }

  /** Collapsing the whitespace of a single-spaced text changes nothing. */
  lemma {:induction false} CollapseSingleSpaced(s: string)
    requires SingleSpaced(s)
    ensures CollapseSpaces(s) == s
    decreases |s|
  {
    if s != [] {
      var rest := s[1..];
      SingleSpacedHead(s);
      CollapseSingleSpaced(rest);
      if IsSpace(s[0]) {
        TrimLeftNoSpace(rest);
        assert CollapseSpaces(s) == [' '] + CollapseSpaces(rest);
      } else {
        assert CollapseSpaces(s) == [s[0]] + CollapseSpaces(rest);
      }
      assert s == [s[0]] + rest;
    }
  }

  /** The tail of a single-spaced text is single spaced; a leading whitespace character is
      a plain space and is not followed by another. */
  lemma SingleSpacedHead(s: string)
    requires s != [] && SingleSpaced(s)
    ensures SingleSpaced(s[1..])
    ensures IsSpace(s[0]) ==> s[0] == ' ' && (|s| == 1 || !IsSpace(s[1]))
  {
    var rest := s[1..];
    if |s| > 1 {
      assert NoDoubleSpaceAt(s, 0);
    }
    forall i | 0 <= i < |rest| && IsSpace(rest[i])
      ensures rest[i] == ' '
    {
      assert rest[i] == s[i + 1];
    }
    forall i | 0 <= i < |rest| - 1
      ensures NoDoubleSpaceAt(rest, i)
    {
      assert NoDoubleSpaceAt(s, i + 1);
      assert rest[i] == s[i + 1] && rest[i + 1] == s[i + 2];
    }
  }

  /** A string that does not start with whitespace is its own `lstrip()`. */
  lemma TrimLeftNoSpace(s: string)
    requires s == [] || !IsSpace(s[0])
    ensures TrimLeft(s) == s
  {
  }

  /** The leading run of newlines of `s` removed. */
  function DropNewlines(s: string): (r: string)
    ensures |r| <= |s| && r == s[|s| - |r|..]
    ensures forall i :: 0 <= i < |s| - |r| ==> s[i] == '\n'
    ensures r == [] || r[0] != '\n'
    ensures r == [] ==> forall i :: 0 <= i < |s| ==> s[i] == '\n'
    decreases |s|
  {
    if s != [] && s[0] == '\n' then
      var r := DropNewlines(s[1..]);
      assert forall i :: 1 <= i < |s| - |r| ==> s[i] == s[1..][i - 1];
      r
    else s
  }

  /** `re.sub(r'\n+', ' ', s)`: every maximal run of newlines becomes one space. */
  function NewlinesToSpace(s: string): (r: string)
    ensures (r == []) == (s == [])
    ensures s != [] && s[0] != '\n' ==> r[0] == s[0]
    ensures s != [] && s[|s| - 1] != '\n' ==> r[|r| - 1] == s[|s| - 1]
    decreases |s|
  {
    if s == [] then []
    else if s[0] == '\n' then [' '] + NewlinesToSpace(DropNewlines(s[1..]))
    else [s[0]] + NewlinesToSpace(s[1..])
  }

  /** A character Python's `\w` matches: ASCII letters and digits, `_`, the basic
      Cyrillic letters with Ё/ё, and the Kyrgyz letters Ң Ү Ө. */
  predicate IsWordChar(c: char) {
    ('a' <= c <= 'z') || ('A' <= c <= 'Z') || ('0' <= c <= '9') || c == '_'
    || ('А' <= c <= 'я') || c in "ЁёҢңҮүӨө"
  }

  /** The kinds of runs the core splits text into: `str.split()` keeps runs of
      non-whitespace, `re.findall(r'\w...')` looks at runs of word characters, and
      `re.split(r'[.!?]+', s)` keeps the runs between sentence punctuation. */
  datatype RunKind = NonSpace | Word | Clause

  predicate InRun(c: char, kind: RunKind) {
    match kind
    case NonSpace => !IsSpace(c)
    case Word => IsWordChar(c)
    case Clause => c != '.' && c != '!' && c != '?'
  }

  /** The longest prefix of `s` made of `kind` characters. */
  function TakeRun(s: string, kind: RunKind): (r: string)
    ensures |r| <= |s| && r == s[..|r|]
    ensures forall i :: 0 <= i < |r| ==> InRun(r[i], kind)
    ensures |r| < |s| ==> !InRun(s[|r|], kind)
    decreases |s|
  {
    if s != [] && InRun(s[0], kind) then [s[0]] + TakeRun(s[1..], kind) else []
  }

  /** `s` without its leading characters that are not of `kind`. */
  function SkipOthers(s: string, kind: RunKind): (r: string)
    ensures |r| <= |s| && r == s[|s| - |r|..]
    ensures r == [] || InRun(r[0], kind)
    decreases |s|
  {
    if s != [] && !InRun(s[0], kind) then SkipOthers(s[1..], kind) else s
  }

  /** `w` is a non-empty string of `kind` characters. */
  predicate IsRun(w: string, kind: RunKind) {
    w != [] && forall i :: 0 <= i < |w| ==> InRun(w[i], kind)
  }

  /** The maximal runs of `kind` characters, in order. */
  function Runs(s: string, kind: RunKind): seq<string>
    decreases |s|
  {
    var t := SkipOthers(s, kind);
    if t == [] then []
    else
      var w := TakeRun(t, kind);
      assert w != [] by { assert InRun(t[0], kind); }
      [w] + Runs(t[|w|..], kind)
  }

  /** Every run is a non-empty string of `kind` characters. */
  lemma {:induction false} RunsAreRuns(s: string, kind: RunKind)
    ensures forall k :: 0 <= k < |Runs(s, kind)| ==> IsRun(Runs(s, kind)[k], kind)
    decreases |s|
  {
    var t := SkipOthers(s, kind);
    if t != [] {
      var w := TakeRun(t, kind);
      assert InRun(t[0], kind);
      var rs := Runs(t[|w|..], kind);
      RunsAreRuns(t[|w|..], kind);
      assert Runs(s, kind) == [w] + rs;
      assert IsRun(w, kind);
      ConsRuns(w, rs, kind);
    }
  }

  lemma ConsRuns(w: string, rs: seq<string>, kind: RunKind)
    requires IsRun(w, kind)
    requires forall k :: 0 <= k < |rs| ==> IsRun(rs[k], kind)
    ensures forall k :: 0 <= k < |[w] + rs| ==> IsRun(([w] + rs)[k], kind)
  {
    forall k | 0 < k < |[w] + rs|
      ensures IsRun(([w] + rs)[k], kind)
    {
      assert ([w] + rs)[k] == rs[k - 1];
    }
  }

  /** The characters of `s` that are of `kind`. */
  function Keep(s: string, kind: RunKind): string {
    if s == [] then [] else (if InRun(s[0], kind) then [s[0]] else []) + Keep(s[1..], kind)
  }

  function Concat(ss: seq<string>): string {
    if ss == [] then [] else ss[0] + Concat(ss[1..])
  }

  lemma {:induction false} ConcatAppend(a: seq<string>, b: seq<string>)
    ensures Concat(a + b) == Concat(a) + Concat(b)
  {
    if a == [] {
      assert a + b == b;
    } else {
      assert (a + b)[0] == a[0];
      assert (a + b)[1..] == a[1..] + b;
      ConcatAppend(a[1..], b);
    }
  }

  lemma {:induction false} KeepAppend(a: string, b: string, kind: RunKind)
    ensures Keep(a + b, kind) == Keep(a, kind) + Keep(b, kind)
  {
    if a == [] {
      assert a + b == b;
    } else {
      var h := if InRun(a[0], kind) then [a[0]] else [];
      assert (a + b)[0] == a[0];
      assert (a + b)[1..] == a[1..] + b;
      KeepAppend(a[1..], b, kind);
      assert Keep(a + b, kind) == h + (Keep(a[1..], kind) + Keep(b, kind));
      assert h + (Keep(a[1..], kind) + Keep(b, kind)) == (h + Keep(a[1..], kind)) + Keep(b, kind);
    }
  }

  lemma {:induction false} KeepNone(s: string, kind: RunKind)
    requires forall i :: 0 <= i < |s| ==> !InRun(s[i], kind)
    ensures Keep(s, kind) == []
  {
    if s != [] {
      KeepNone(s[1..], kind);
    }
  }

  lemma {:induction false} KeepAll(s: string, kind: RunKind)
    requires forall i :: 0 <= i < |s| ==> InRun(s[i], kind)
    ensures Keep(s, kind) == s
  {
    if s != [] {
      KeepAll(s[1..], kind);
    }
  }

  lemma {:induction false} KeepSkipped(s: string, kind: RunKind)
    ensures Keep(s, kind) == Keep(SkipOthers(s, kind), kind)
    decreases |s|
  {
    if s != [] && !InRun(s[0], kind) {
      KeepSkipped(s[1..], kind);
    }
  }

  lemma KeepRun(t: string, kind: RunKind)
    ensures Keep(t, kind) == TakeRun(t, kind) + Keep(t[|TakeRun(t, kind)|..], kind)
  {
    var w := TakeRun(t, kind);
    assert t == w + t[|w|..];
    KeepAppend(w, t[|w|..], kind);
    KeepAll(w, kind);
  }

  /** The runs, put back together, are exactly the `kind` characters of `s`:
      nothing is lost, nothing is invented and the order is kept. */
  lemma {:induction false} RunsConcat(s: string, kind: RunKind)
    ensures Concat(Runs(s, kind)) == Keep(s, kind)
    decreases |s|
  {
    KeepSkipped(s, kind);
    var t := SkipOthers(s, kind);
    if t != [] {
      var w := TakeRun(t, kind);
      var rest := t[|w|..];
      KeepRun(t, kind);
      RunsConcat(rest, kind);
      var rs := Runs(rest, kind);
      assert Runs(s, kind) == [w] + rs;
      assert ([w] + rs)[1..] == rs;
    }
  }

  /** Stripping whitespace at either end keeps every non-whitespace character. */
  lemma KeepStrip(s: string)
    ensures Keep(Strip(s), NonSpace) == Keep(s, NonSpace)
  {
    KeepTrimLeft(s);
    KeepTrimRight(TrimLeft(s));
  }

  lemma KeepTrimLeft(s: string)
    ensures Keep(TrimLeft(s), NonSpace) == Keep(s, NonSpace)
  {
    var t := TrimLeft(s);
    var lead := s[..|s| - |t|];
    assert s == lead + t;
    KeepAppend(lead, t, NonSpace);
    KeepNone(lead, NonSpace);
  }

  lemma KeepTrimRight(t: string)
    ensures Keep(TrimRight(t), NonSpace) == Keep(t, NonSpace)
  {
    var r := TrimRight(t);
    var trail := t[|r|..];
    assert t == r + trail;
    KeepAppend(r, trail, NonSpace);
    KeepNone(trail, NonSpace);
  }

  /** Turning newline runs into spaces keeps every non-whitespace character. */
  lemma {:induction false} KeepNewlinesToSpace(s: string)
    ensures Keep(NewlinesToSpace(s), NonSpace) == Keep(s, NonSpace)
    decreases |s|
  {
    if s != [] {
      var r := NewlinesToSpace(s);
      if s[0] == '\n' {
        var t := DropNewlines(s[1..]);
        KeepDropNewlines(s[1..]);
        KeepNewlinesToSpace(t);
        assert r[1..] == NewlinesToSpace(t);
      } else {
        KeepNewlinesToSpace(s[1..]);
        assert r[1..] == NewlinesToSpace(s[1..]);
      }
    }
  }

  lemma KeepDropNewlines(s: string)
    ensures Keep(DropNewlines(s), NonSpace) == Keep(s, NonSpace)
  {
    var t := DropNewlines(s);
    var lead := s[..|s| - |t|];
    assert s == lead + t;
    KeepAppend(lead, t, NonSpace);
    KeepNone(lead, NonSpace);
  }

  /** Collapsing whitespace runs keeps every non-whitespace character. */
  lemma {:induction false} KeepCollapseSpaces(s: string)
    ensures Keep(CollapseSpaces(s), NonSpace) == Keep(s, NonSpace)
    decreases |s|
  {
    if s != [] {
      var r := CollapseSpaces(s);
      if IsSpace(s[0]) {
        var t := TrimLeft(s[1..]);
        var lead := s[1..][..|s| - 1 - |t|];
        assert s[1..] == lead + t;
        KeepAppend(lead, t, NonSpace);
        KeepNone(lead, NonSpace);
        KeepCollapseSpaces(t);
        assert r[1..] == CollapseSpaces(t);
      } else {
        KeepCollapseSpaces(s[1..]);
        assert r[1..] == CollapseSpaces(s[1..]);
      }
    }
  }

  /** `s.split()` with no argument: the maximal runs of non-whitespace characters. */
  function SplitWs(s: string): seq<string> {
    Runs(s, NonSpace)
  }

  /** `pat` occurs in `s` starting at index `i`. */
  predicate OccursAt(s: string, pat: string, i: int) {
    0 <= i <= |s| - |pat| && s[i..i + |pat|] == pat
  }

  /** `str.rfind(pat)`: the last index where `pat` occurs, or -1. */
  function RFind(s: string, pat: string): (r: int)
    ensures r == -1 || 0 <= r <= |s| - |pat|
    decreases |s|
  {
    if |s| < |pat| then -1
    else if s[|s| - |pat|..] == pat then |s| - |pat|
    else RFind(s[..|s| - 1], pat)
  }

  /** `rfind` finds an occurrence, and no occurrence lies after it. */
  lemma RFindSpec(s: string, pat: string)
    ensures RFind(s, pat) == -1 || OccursAt(s, pat, RFind(s, pat))
    ensures forall j :: RFind(s, pat) < j ==> !OccursAt(s, pat, j)
  {
    RFindFound(s, pat);
    RFindLast(s, pat);
  }

  lemma {:induction false} RFindFound(s: string, pat: string)
    ensures RFind(s, pat) == -1 || OccursAt(s, pat, RFind(s, pat))
    decreases |s|
  {
    if |s| < |pat| {
    } else if s[|s| - |pat|..] == pat {
      assert s[|s| - |pat|..|s|] == s[|s| - |pat|..];
    } else {
      var s' := s[..|s| - 1];
      var r := RFind(s', pat);
      RFindFound(s', pat);
      if r != -1 {
        assert s'[r..r + |pat|] == s[r..r + |pat|];
      }
    }
  }

  lemma {:induction false} RFindLast(s: string, pat: string)
    ensures forall j :: RFind(s, pat) < j ==> !OccursAt(s, pat, j)
    decreases |s|
  {
    if |s| >= |pat| && s[|s| - |pat|..] != pat {
      var s' := s[..|s| - 1];
      RFindLast(s', pat);
      forall j | RFind(s, pat) < j
        ensures !OccursAt(s, pat, j)
      {
        if j < |s| - |pat| {
          assert !OccursAt(s', pat, j);
          assert s'[j..j + |pat|] == s[j..j + |pat|];
        }
      }
    }
  }

  function DigitChar(d: nat): (c: char)
    requires d < 10
  {
    "0123456789"[d]
  }

  /** `str(n)` for a non-negative integer. */
  function NatToString(n: nat): (r: string)
    ensures r != []
    ensures forall i :: 0 <= i < |r| ==> '0' <= r[i] <= '9'
    decreases n
  {
    if n < 10 then [DigitChar(n)] else NatToString(n / 10) + [DigitChar(n % 10)]
  }

  /** The value of a string of decimal digits, `int(s)`. */
  function ParseNat(s: string): nat
    requires forall i :: 0 <= i < |s| ==> '0' <= s[i] <= '9'
  {
    if s == [] then 0 else 10 * ParseNat(s[..|s| - 1]) + (s[|s| - 1] as int - '0' as int)
  }

  /** `int(str(n)) == n`: the decimal rendering loses nothing. */
  lemma {:induction false} ParseNatToString(n: nat)
    ensures ParseNat(NatToString(n)) == n
    decreases n
  {
    var r := NatToString(n);
    if n >= 10 {
      ParseNatToString(n / 10);
      assert r[..|r| - 1] == NatToString(n / 10);
    }
  }

  /** Different numbers have different decimal renderings. */
  lemma NatToStringInjective(m: nat, n: nat)
    requires NatToString(m) == NatToString(n)
    ensures m == n
  {
    ParseNatToString(m);
    ParseNatToString(n);
  }
}
