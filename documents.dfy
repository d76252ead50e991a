/**
 * Chunks of statute text and the metadata the knowledge base attaches to them
 * when it is first built from the `.txt` files of the laws directory
 * (database.py), and the tokenised corpus the BM25 keyword index is built from.
 */
module Documents {
  import opened Wrappers
  import opened Text

  /** A retrievable piece of a law: its text (`page_content`) and the metadata keys
      `source_file`, `law_name` and, when found, `article`. */
  datatype Doc = Doc(content: string, sourceFile: string, lawName: string, article: Option<string>)

  /** A file met while walking the laws directory: its bare name and its text, `None`
      when loading it raised. */
  datatype LawFile = LawFile(name: string, text: Option<string>)

  /** `file.replace('.txt', '').replace('_', ' ')`: the display name of a law, the file
      name with every `.txt` removed and every `_` turned into a space. */
  function LawName(file: string): (r: string)
    ensures var base := Replace(file, ".txt", "");
            && |r| == |base|
            && forall i :: 0 <= i < |r| ==> r[i] == if base[i] == '_' then ' ' else base[i]
    ensures '_' !in r
    ensures !Contains(file, "_") ==> r == Replace(file, ".txt", "")
  {
    var base := Replace(file, ".txt", "");
    ReplaceCharPointwise(base, '_', ' ');
    if !Contains(file, "_") then
      NoUnderscoreKept(file);
      NoCharReplaceIdentity(base, '_', " ");
      Replace(base, "_", " ")
    else
      Replace(base, "_", " ")
  }

  /** A string without `_` has no `_` left after `.txt` is removed. */
  lemma NoUnderscoreKept(file: string)
    requires !Contains(file, "_")
    ensures '_' !in Replace(file, ".txt", "")
  {
    NoCharFromContains(file, '_');
    ReplaceKeepsOut(file, ".txt", "", '_');
  }

  lemma {:induction false} NoCharFromContains(s: string, c: char)
    requires !Contains(s, [c])
    ensures c !in s
  {
    if s != [] {
      NoCharFromContains(s[1..], c);
    }
  }

  /** Replacing a character that does not occur changes nothing. */
  lemma {:induction false} NoCharReplaceIdentity(s: string, c: char, repl: string)
    requires c !in s
    ensures Replace(s, [c], repl) == s
  {
    if |s| >= 1 {
      assert s[0] != c;
      assert s[..1] != [c];
      NoCharReplaceIdentity(s[1..], c, repl);
      assert s == [s[0]] + s[1..];
    }
  }

  predicate IsDigit(c: char) { '0' <= c <= '9' }

  /** The match of `Статья\s+(\d+)` anchored at the start of `s`: `j` is where the
      whitespace after the word ends; the article is the digit run there, if the
      whitespace is not empty and a digit follows it. */
  function ArticleAtStart(s: string): (r: Option<string>)
    ensures r.Some? ==> r.value != [] && forall i :: 0 <= i < |r.value| ==> IsDigit(r.value[i])
  {
    if !StartsWith(s, "Статья") then None
    else
      var j := |s| - |TrimLeft(s[|"Статья"|..])|;
      if |"Статья"| < j < |s| && IsDigit(s[j]) then
        Some(DigitRun(s, j))
      else None
  }

  /** `s` starts with `Статья`, then whitespace up to index `j`, at least one character
      of it, then a digit at `j`. */
  predicate ArticleMatchAt(s: string, j: nat) {
    && StartsWith(s, "Статья") && |"Статья"| < j < |s|
    && (forall m :: |"Статья"| <= m < j ==> IsSpace(s[m]))
    && IsDigit(s[j])
  }

  /** The pattern matches at the start of `s` exactly when the word is followed by
      whitespace and a digit. */
  lemma ArticleAtStartSpec(s: string)
    ensures ArticleAtStart(s).Some? <==> exists j: nat :: ArticleMatchAt(s, j)
  {
    var w := |"Статья"|;
    forall j: nat | ArticleMatchAt(s, j) ensures ArticleAtStart(s).Some? {
      ArticleAtMatch(s, j);
    }
    if ArticleAtStart(s).Some? {
      var after := s[w..];
      var rest := TrimLeft(after);
      var j := |s| - |rest|;
      forall m | w <= m < j ensures IsSpace(s[m]) {
        assert s[m] == after[m - w];
      }
      assert ArticleMatchAt(s, j);
    }
  }

  /** Where the pattern matches, the article is the whole digit run after the
      whitespace. */
  lemma ArticleAtMatch(s: string, j: nat)
    requires ArticleMatchAt(s, j)
    ensures ArticleAtStart(s) == Some(DigitRun(s, j))
  {
    SpacesThenDigit(s, |"Статья"|, j);
    assert |s| - |TrimLeft(s[|"Статья"|..])| == j;
  }

  /** Whitespace from `w` up to `j`, at least one character of it, then a digit:
      `TrimLeft` of the text from `w` on stops exactly at the digit. */
  lemma SpacesThenDigit(s: string, w: nat, j: nat)
    requires w < j < |s| && IsDigit(s[j])
    requires forall m :: w <= m < j ==> IsSpace(s[m])
    ensures TrimLeft(s[w..]) == s[j..]
  {
    var t := s[w..];
    forall i | 0 <= i < j - w ensures IsSpace(t[i]) {
      assert t[i] == s[w + i];
    }
    assert t[j - w] == s[j];
    TrimLeftSkips(t, j - w);
    assert t[j - w..] == s[j..];
  }

  /** `TrimLeft` drops exactly a leading run of whitespace that ends before a
      non-space character. */
  lemma {:induction false} TrimLeftSkips(t: string, n: nat)
    requires n < |t| && !IsSpace(t[n])
    requires forall i :: 0 <= i < n ==> IsSpace(t[i])
    ensures TrimLeft(t) == t[n..]
  {
    if n > 0 {
      forall i | 0 <= i < n - 1 ensures IsSpace(t[1..][i]) {
        assert t[1..][i] == t[i + 1];
      }
      assert t[1..][n - 1] == t[n];
      TrimLeftSkips(t[1..], n - 1);
      assert t[1..][n - 1..] == t[n..];
    }
  }

  /** The run of digits of `s` starting at `j`, as long as it goes. */
  function DigitRun(s: string, j: nat): (r: string)
    requires j <= |s|
    ensures j + |r| <= |s|
    ensures forall i :: 0 <= i < |r| ==> r[i] == s[j + i] && IsDigit(r[i])
    ensures j + |r| < |s| ==> !IsDigit(s[j + |r|])
  {
    var n := DigitRunLength(s[j..]);
    assert forall i :: 0 <= i < n ==> s[j..][i] == s[j + i];
    s[j..j + n]
  }

  /** The length of the leading run of ASCII digits. */
  function DigitRunLength(s: string): (n: nat)
    ensures n <= |s|
    ensures forall i :: 0 <= i < n ==> IsDigit(s[i])
    ensures n < |s| ==> !IsDigit(s[n])
  {
    if s != [] && IsDigit(s[0]) then 1 + DigitRunLength(s[1..]) else 0
  }

  /** The pattern matched at index `i` of `s`. */
  function ArticleAt(s: string, i: nat): Option<string>
    requires i <= |s|
  {
    ArticleAtStart(s[i..])
  }

  /** `re.search(r'Статья\s+(\d+)', s).group(1)`, or `None` when nothing matches. */
  function FindArticle(s: string): (r: Option<string>)
    decreases |s|
  {
    match ArticleAtStart(s)
    case Some(v) => Some(v)
    case None => if s == [] then None else FindArticle(s[1..])
  }

  /** `re.search` returns the first (leftmost) match: when the pattern matches at `i`
      and nowhere before, the article found is the digit run matched at `i`. */
  lemma {:induction false} FindArticleFirstMatch(s: string, i: nat)
    requires i <= |s| && ArticleAt(s, i).Some?
    requires forall j :: 0 <= j < i ==> ArticleAt(s, j).None?
    ensures FindArticle(s) == ArticleAt(s, i)
    decreases i
  {
    assert s[0..] == s;
    if i > 0 {
      assert ArticleAt(s, 0).None?;
      assert s[1..][i - 1..] == s[i..];
      forall j | 0 <= j < i - 1 ensures ArticleAt(s[1..], j).None? {
        assert s[1..][j..] == s[j + 1..];
        assert ArticleAt(s, j + 1).None?;
      }
      FindArticleFirstMatch(s[1..], i - 1);
    }
  }

  /** When the pattern matches nowhere, no article is found. */
  lemma {:induction false} FindArticleNoMatch(s: string)
    requires forall j :: 0 <= j <= |s| ==> ArticleAt(s, j).None?
    ensures FindArticle(s).None?
    decreases |s|
  {
    assert s[0..] == s;
    assert ArticleAt(s, 0).None?;
    if s != [] {
      forall j | 0 <= j <= |s| - 1 ensures ArticleAt(s[1..], j).None? {
        assert s[1..][j..] == s[j + 1..];
        assert ArticleAt(s, j + 1).None?;
      }
      FindArticleNoMatch(s[1..]);
    }
  }

  /** A `.txt` file whose loading did not raise. */
  predicate Loads(f: LawFile) {
    EndsWith(f.name, ".txt") && f.text.Some?
  }

  /** The metadata the loader writes on the document of one law file. */
  function LoadFile(f: LawFile): Doc
    requires f.text.Some?
  {
    Doc(f.text.value, f.name, LawName(f.name), FindArticle(f.text.value))
  }

  /** The documents read from a walk over the laws directory: one per `.txt` file that
      loads, in walk order; other files, and files whose loading raised, are skipped. */
  function LoadedDocs(files: seq<LawFile>): (docs: seq<Doc>) {
    if files == [] then []
    else
      var init := LoadedDocs(files[..|files| - 1]);
      var f := files[|files| - 1];
      if Loads(f) then init + [LoadFile(f)] else init
  }

  /** Every loaded document is the load of a `.txt` file that loads, carrying that file's
      name, a law name without `_` and the file's first article; every `.txt` file that
      loads is loaded. */
  lemma {:induction false} LoadedDocsSpec(files: seq<LawFile>)
    ensures forall d :: d in LoadedDocs(files) ==> exists f :: f in files && Loads(f) && d == LoadFile(f)
    ensures forall d :: d in LoadedDocs(files) ==> EndsWith(d.sourceFile, ".txt") && '_' !in d.lawName
    ensures forall d :: d in LoadedDocs(files) ==>
              d.lawName == LawName(d.sourceFile) && d.article == FindArticle(d.content)
    ensures forall f :: f in files && Loads(f) ==> LoadFile(f) in LoadedDocs(files)
  {
    if files != [] {
      var init := files[..|files| - 1];
      LoadedDocsSpec(init);
      assert forall f :: f in files ==> f in init || f == files[|files| - 1];
    }
  }

  /** The loading loop of the knowledge-base builder: every `.txt` file that loads becomes
      one document whose metadata names the file, its law and its first article; a load
      that raises is logged and the file skipped. */
  method LoadDocuments(files: seq<LawFile>) returns (docs: seq<Doc>)
    ensures docs == LoadedDocs(files)
    ensures forall d :: d in docs ==> EndsWith(d.sourceFile, ".txt") && '_' !in d.lawName
    ensures forall f :: f in files && Loads(f) ==> LoadFile(f) in docs
  {
    docs := [];
    for i := 0 to |files|
      invariant docs == LoadedDocs(files[..i])
    {
      assert files[..i + 1][..i] == files[..i];
      var file := files[i];
      if EndsWith(file.name, ".txt") {
        match file.text
        case None =>
        case Some(text) =>
          var doc := Doc(text, file.name, "", None);
          doc := doc.(lawName := LawName(file.name));
          var article := FindArticle(doc.content);
          if article.Some? {
            doc := doc.(article := article);
          }
          docs := docs + [doc];
      }
    }
    assert files[..|files|] == files;
    LoadedDocsSpec(files);
  }

  /** `text.lower().split()`: the tokens the BM25 index and its queries use. */
  function Tokenize(text: string): seq<string> {
    SplitWs(LowerStr(text))
  }

  /** Tokens are non-empty and hold no whitespace, and together they are exactly the
      non-whitespace characters of the lowered text, in order. */
  lemma TokenizeSpec(text: string)
    ensures forall k :: 0 <= k < |Tokenize(text)| ==> IsRun(Tokenize(text)[k], NonSpace)
    ensures Concat(Tokenize(text)) == Keep(LowerStr(text), NonSpace)
  {
    RunsAreRuns(LowerStr(text), NonSpace);
    RunsConcat(LowerStr(text), NonSpace);
  }

  /** The BM25 corpus, index-aligned with the document list returned beside it. The
      BM25 scorer itself is a foreign library: the model takes its scores as given
      (`Retrieval.Store.bm25Scores`), one per document of this corpus, and
      `Retrieval.Store.corpus` is the document list it is aligned with. */
  function Bm25Corpus(docs: seq<Doc>): (corpus: seq<seq<string>>)
    ensures |corpus| == |docs|
    ensures forall i :: 0 <= i < |docs| ==> corpus[i] == Tokenize(docs[i].content)
  {
    seq(|docs|, i requires 0 <= i < |docs| => Tokenize(docs[i].content))
  }
}
