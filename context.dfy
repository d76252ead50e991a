/**
 * Context assembly (retrieval.py, end of `get_message_content`): the selected
 * documents are grouped by source file in order of first appearance, each
 * group headed by the law name of its first document, and at most three
 * whitespace-normalised chunks are shown per law.
 */
module ContextAssembly {
  import opened Wrappers
  import opened Text
  import opened Documents

  /** At most this many chunks of one law reach the prompt. */
  const ChunksPerSource: nat := 3

  /** One entry of `sources_content`: a source file, the law name stored for it and the
      chunk texts collected for it, in arrival order. */
  datatype Source = Source(file: string, lawName: string, chunks: seq<string>)

  /** An `article` value that Python treats as true: present and non-empty. */
  predicate HasArticle(d: Doc) {
    d.article.Some? && d.article.value != []
  }

  /** The chunk text of a document: its content, prefixed with `[Статья N] ` when it
      carries an article. */
  function ChunkText(d: Doc): (r: string)
    ensures HasArticle(d) ==> r == "[Статья " + d.article.value + "] " + d.content
    ensures !HasArticle(d) ==> r == d.content
  {
    if HasArticle(d) then "[Статья " + d.article.value + "] " + d.content else d.content
  }

  /** `re.sub(r'\s+', ' ', re.sub(r'\n+', ' ', chunk.strip()))` */
  function CleanChunk(c: string): string {
    CollapseSpaces(NewlinesToSpace(Strip(c)))
  }

  /** A cleaned chunk is one line with single plain spaces and no whitespace at either
      end. */
  lemma CleanChunkShape(c: string)
    ensures '\n' !in CleanChunk(c) && SingleSpaced(CleanChunk(c)) && Trimmed(CleanChunk(c))
  {
    StripFacts(c);
    var t := Strip(c);
    var n := NewlinesToSpace(t);
    var r := CollapseSpaces(n);
    CollapseSpacesSingleSpaced(n);
    if r != [] {
      assert !IsSpace(n[0]) && !IsSpace(n[|n| - 1]);
    }
    assert forall i :: 0 <= i < |r| ==> r[i] != '\n' by {
      forall i | 0 <= i < |r| ensures r[i] != '\n' {
        assert IsSpace('\n');
      }
    }
  }

  /** Cleaning changes whitespace only: every non-whitespace character of the chunk is
      kept, in order, and none is added. */
  lemma CleanChunkKeepsText(c: string)
    ensures Keep(CleanChunk(c), NonSpace) == Keep(c, NonSpace)
  {
    KeepStrip(c);
    KeepNewlinesToSpace(Strip(c));
    KeepCollapseSpaces(NewlinesToSpace(Strip(c)));
  }

  /** Where the entry for `file` is, if there is one. */
  function IndexOfSource(groups: seq<Source>, file: string): (r: Option<nat>)
    ensures r.Some? ==> r.value < |groups| && groups[r.value].file == file
    ensures r.None? ==> forall j :: 0 <= j < |groups| ==> groups[j].file != file
  {
    if groups == [] then None
    else if groups[0].file == file then Some(0)
    else match IndexOfSource(groups[1..], file)
      case None => None
      case Some(j) => Some(j + 1)
  }

  /** One step of the grouping loop: the chunk joins its file's entry, or opens a new
      entry that records the document's law name. */
  function AddDoc(groups: seq<Source>, d: Doc): seq<Source> {
    match IndexOfSource(groups, d.sourceFile)
    case Some(j) => groups[j := groups[j].(chunks := groups[j].chunks + [ChunkText(d)])]
    case None => groups + [Source(d.sourceFile, d.lawName, [ChunkText(d)])]
  }

  /** `sources_content` after the grouping loop over `docs`. */
  function Grouped(docs: seq<Doc>): seq<Source> {
    if docs == [] then [] else AddDoc(Grouped(docs[..|docs| - 1]), docs[|docs| - 1])
  }

  // An independent description of the grouping.

  /** The distinct source files of `docs`, in order of first appearance. */
  function SourcesOf(docs: seq<Doc>): seq<string> {
    if docs == [] then []
    else
      var init := SourcesOf(docs[..|docs| - 1]);
      var f := docs[|docs| - 1].sourceFile;
      if f in init then init else init + [f]
  }

  /** The chunk texts of the documents from `file`, in order. */
  function ChunksOf(docs: seq<Doc>, file: string): seq<string> {
    if docs == [] then []
    else
      ChunksOf(docs[..|docs| - 1], file)
      + (if docs[|docs| - 1].sourceFile == file then [ChunkText(docs[|docs| - 1])] else [])
  }

  /** The index of the first document from `file`, or `|docs|` when there is none. */
  function FirstFrom(docs: seq<Doc>, file: string): (i: nat)
    ensures i <= |docs|
    ensures i < |docs| ==> docs[i].sourceFile == file
  {
    if docs == [] then 0
    else if docs[0].sourceFile == file then 0
    else 1 + FirstFrom(docs[1..], file)
  }

  /** No document before the first one from `file` is from `file`. */
  lemma {:induction false} FirstFromFirst(docs: seq<Doc>, file: string)
    ensures forall j :: 0 <= j < FirstFrom(docs, file) ==> docs[j].sourceFile != file
  {
    if docs != [] && docs[0].sourceFile != file {
      FirstFromFirst(docs[1..], file);
      forall j | 0 < j < FirstFrom(docs, file) ensures docs[j].sourceFile != file {
        assert docs[j] == docs[1..][j - 1];
      }
    }
  }

  /** Appending a document does not move the first document of a file already present,
      and makes the new document the first of a file not present before. */
  lemma {:induction false} FirstFromAppend(docs: seq<Doc>, d: Doc, file: string)
    ensures FirstFrom(docs, file) < |docs| ==> FirstFrom(docs + [d], file) == FirstFrom(docs, file)
    ensures FirstFrom(docs, file) == |docs| && d.sourceFile == file ==> FirstFrom(docs + [d], file) == |docs|
  {
    if docs != [] {
      assert (docs + [d])[0] == docs[0];
      if docs[0].sourceFile != file {
        assert (docs + [d])[1..] == docs[1..] + [d];
        FirstFromAppend(docs[1..], d, file);
      }
    }
  }

  /** The source files are distinct, cover every document, and come in order of each
      file's first document. */
  lemma SourcesOfSpec(docs: seq<Doc>)
    ensures forall a, b :: 0 <= a < b < |SourcesOf(docs)| ==> SourcesOf(docs)[a] != SourcesOf(docs)[b]
    ensures forall i :: 0 <= i < |docs| ==> docs[i].sourceFile in SourcesOf(docs)
    ensures forall a :: 0 <= a < |SourcesOf(docs)| ==> FirstFrom(docs, SourcesOf(docs)[a]) < |docs|
    ensures forall a, b :: 0 <= a < b < |SourcesOf(docs)| ==>
              FirstFrom(docs, SourcesOf(docs)[a]) < FirstFrom(docs, SourcesOf(docs)[b])
  {
    SourcesOfCovers(docs);
    SourcesOfOrdered(docs);
  }

  lemma SourcesOfStep(init: seq<Doc>, d: Doc)
    ensures SourcesOf(init + [d]) ==
              if d.sourceFile in SourcesOf(init) then SourcesOf(init) else SourcesOf(init) + [d.sourceFile]
  {
    assert (init + [d])[..|init|] == init;
  }

  lemma {:induction false} SourcesOfCovers(docs: seq<Doc>)
    ensures forall i :: 0 <= i < |docs| ==> docs[i].sourceFile in SourcesOf(docs)
  {
    if docs != [] {
      var init, d := docs[..|docs| - 1], docs[|docs| - 1];
      assert docs == init + [d];
      SourcesOfCovers(init);
      SourcesOfStep(init, d);
      forall i | 0 <= i < |docs| ensures docs[i].sourceFile in SourcesOf(docs) {
        if i < |init| {
          assert docs[i] == init[i];
        }
      }
    }
  }

  lemma {:induction false} SourcesOfOrdered(docs: seq<Doc>)
    ensures forall a, b :: 0 <= a < b < |SourcesOf(docs)| ==> SourcesOf(docs)[a] != SourcesOf(docs)[b]
    ensures forall a :: 0 <= a < |SourcesOf(docs)| ==> FirstFrom(docs, SourcesOf(docs)[a]) < |docs|
    ensures forall a, b :: 0 <= a < b < |SourcesOf(docs)| ==>
              FirstFrom(docs, SourcesOf(docs)[a]) < FirstFrom(docs, SourcesOf(docs)[b])
  {
    if docs != [] {
      var init, d := docs[..|docs| - 1], docs[|docs| - 1];
      assert docs == init + [d];
      SourcesOfOrdered(init);
      SourcesOfStep(init, d);
      var s := SourcesOf(init);
      forall a | 0 <= a < |s| ensures FirstFrom(docs, s[a]) == FirstFrom(init, s[a]) {
        FirstFromAppend(init, d, s[a]);
      }
      if d.sourceFile !in s {
        SourcesOfCovers(init);
        OrderedNewSource(init, d, s);
      }
    }
  }

  lemma OrderedNewSource(init: seq<Doc>, d: Doc, s: seq<string>)
    requires d.sourceFile !in s
    requires forall i :: 0 <= i < |init| ==> init[i].sourceFile in s
    requires forall a, b :: 0 <= a < b < |s| ==> s[a] != s[b]
    requires forall a :: 0 <= a < |s| ==> FirstFrom(init + [d], s[a]) == FirstFrom(init, s[a]) < |init|
    requires forall a, b :: 0 <= a < b < |s| ==> FirstFrom(init, s[a]) < FirstFrom(init, s[b])
    ensures var s', docs := s + [d.sourceFile], init + [d];
      && (forall a, b :: 0 <= a < b < |s'| ==> s'[a] != s'[b])
      && (forall a :: 0 <= a < |s'| ==> FirstFrom(docs, s'[a]) < |docs|)
      && (forall a, b :: 0 <= a < b < |s'| ==> FirstFrom(docs, s'[a]) < FirstFrom(docs, s'[b]))
  {
    NewSourceFirst(init, d, s);
    DistinctAppend(s, d.sourceFile);
    var s', docs := s + [d.sourceFile], init + [d];
    forall a | 0 <= a < |s'|
      ensures FirstFrom(docs, s'[a]) < |docs| && (a < |s| ==> FirstFrom(docs, s'[a]) < |init|)
    {
      if a < |s| {
        assert s'[a] == s[a];
      }
    }
    forall a, b | 0 <= a < b < |s'|
      ensures FirstFrom(docs, s'[a]) < FirstFrom(docs, s'[b])
    {
      assert s'[a] == s[a];
      if b < |s| {
        assert s'[b] == s[b];
      }
    }
  }

  /** A file no earlier document comes from is first met at the appended document. */
  lemma NewSourceFirst(init: seq<Doc>, d: Doc, s: seq<string>)
    requires d.sourceFile !in s
    requires forall i :: 0 <= i < |init| ==> init[i].sourceFile in s
    ensures FirstFrom(init + [d], d.sourceFile) == |init|
  {
    var f := d.sourceFile;
    assert forall i :: 0 <= i < |init| ==> init[i].sourceFile != f;
    FirstFromAppend(init, d, f);
  }

  lemma DistinctAppend(s: seq<string>, f: string)
    requires forall a, b :: 0 <= a < b < |s| ==> s[a] != s[b]
    requires f !in s
    ensures forall a, b :: 0 <= a < b < |s + [f]| ==> (s + [f])[a] != (s + [f])[b]
  {
    forall a, b | 0 <= a < b < |s + [f]|
      ensures (s + [f])[a] != (s + [f])[b]
    {
      assert (s + [f])[a] == s[a];
      if b == |s| {
        assert s[a] in s;
      }
    }
  }

  /** `groups` has one entry per source file of `docs`, in order of first appearance;
      each entry holds the chunks of exactly that file's documents, in order, and the
      law name of the file's first document. */
  ghost predicate GroupsMatch(docs: seq<Doc>, groups: seq<Source>) {
    && |groups| == |SourcesOf(docs)|
    && forall a :: 0 <= a < |groups| ==>
         && groups[a].file == SourcesOf(docs)[a]
         && groups[a].chunks == ChunksOf(docs, SourcesOf(docs)[a])
         && FirstFrom(docs, SourcesOf(docs)[a]) < |docs|
         && groups[a].lawName == docs[FirstFrom(docs, SourcesOf(docs)[a])].lawName
  }

  /** The grouping loop builds exactly the entries described by `GroupsMatch`. */
  lemma {:induction false} GroupedSpec(docs: seq<Doc>)
    ensures GroupsMatch(docs, Grouped(docs))
  {
    if docs != [] {
      var init := docs[..|docs| - 1];
      var d := docs[|docs| - 1];
      assert docs == init + [d];
      GroupedSpec(init);
      AddDocMatches(init, d, Grouped(init));
    }
  }

  /** A file none of whose documents is in `docs` has no chunks. */
  lemma {:induction false} ChunksOfAbsent(docs: seq<Doc>, file: string)
    requires forall i :: 0 <= i < |docs| ==> docs[i].sourceFile != file
    ensures ChunksOf(docs, file) == []
  {
    if docs != [] {
      ChunksOfAbsent(docs[..|docs| - 1], file);
    }
  }

  /** One step of the grouping loop keeps `GroupsMatch`. */
  lemma AddDocMatches(init: seq<Doc>, d: Doc, g: seq<Source>)
    requires GroupsMatch(init, g)
    ensures GroupsMatch(init + [d], AddDoc(g, d))
  {
    SourcesOfSpec(init);
    forall a | 0 <= a < |SourcesOf(init)|
      ensures FirstFrom(init + [d], SourcesOf(init)[a]) == FirstFrom(init, SourcesOf(init)[a])
    {
      FirstFromAppend(init, d, SourcesOf(init)[a]);
    }
    if d.sourceFile in SourcesOf(init) {
      AddDocKnownSource(init, d, g);
    } else {
      AddDocNewSource(init, d, g);
    }
  }

  /** Appending a document adds its chunk to its own file's chunks only. */
  lemma ChunksOfAppend(init: seq<Doc>, d: Doc, file: string)
    ensures ChunksOf(init + [d], file) ==
              ChunksOf(init, file) + (if d.sourceFile == file then [ChunkText(d)] else [])
  {
    assert (init + [d])[..|init|] == init;
  }

  /** A document from a file already grouped joins that file's entry. */
  lemma AddDocKnownSource(init: seq<Doc>, d: Doc, g: seq<Source>)
    requires GroupsMatch(init, g) && d.sourceFile in SourcesOf(init)
    requires forall a, b :: 0 <= a < b < |SourcesOf(init)| ==> SourcesOf(init)[a] != SourcesOf(init)[b]
    requires forall a :: 0 <= a < |SourcesOf(init)| ==>
               FirstFrom(init + [d], SourcesOf(init)[a]) == FirstFrom(init, SourcesOf(init)[a])
    ensures GroupsMatch(init + [d], AddDoc(g, d))
  {
    var docs := init + [d];
    assert docs[..|docs| - 1] == init;
    var s := SourcesOf(init);
    assert SourcesOf(docs) == s;
    var f := d.sourceFile;
    var j := IndexOfSource(g, f).value;
    assert s[j] == f;
    var g' := AddDoc(g, d);
    assert g' == g[j := g[j].(chunks := g[j].chunks + [ChunkText(d)])];
    forall a | 0 <= a < |g'|
      ensures g'[a].file == s[a]
      ensures g'[a].chunks == ChunksOf(docs, s[a])
      ensures FirstFrom(docs, s[a]) < |docs|
      ensures g'[a].lawName == docs[FirstFrom(docs, s[a])].lawName
    {
      ChunksOfAppend(init, d, s[a]);
      assert (f == s[a]) == (a == j);
      assert docs[FirstFrom(init, s[a])] == init[FirstFrom(init, s[a])];
    }
  }

  /** A document from a file not yet grouped opens a new entry at the end. */
  lemma AddDocNewSource(init: seq<Doc>, d: Doc, g: seq<Source>)
    requires GroupsMatch(init, g) && d.sourceFile !in SourcesOf(init)
    requires forall i :: 0 <= i < |init| ==> init[i].sourceFile in SourcesOf(init)
    requires forall a :: 0 <= a < |SourcesOf(init)| ==>
               FirstFrom(init + [d], SourcesOf(init)[a]) == FirstFrom(init, SourcesOf(init)[a])
    ensures GroupsMatch(init + [d], AddDoc(g, d))
  {
    var docs := init + [d];
    assert docs[..|docs| - 1] == init;
    var s := SourcesOf(init);
    var f := d.sourceFile;
    assert SourcesOf(docs) == s + [f];
    assert IndexOfSource(g, f).None?;
    var g' := AddDoc(g, d);
    assert g' == g + [Source(f, d.lawName, [ChunkText(d)])];
    forall a | 0 <= a < |s|
      ensures g'[a].file == (s + [f])[a]
      ensures g'[a].chunks == ChunksOf(docs, (s + [f])[a])
      ensures FirstFrom(docs, (s + [f])[a]) < |docs|
      ensures g'[a].lawName == docs[FirstFrom(docs, (s + [f])[a])].lawName
    {
      assert (s + [f])[a] == s[a] != f;
      ChunksOfAppend(init, d, s[a]);
      assert docs[FirstFrom(init, s[a])] == init[FirstFrom(init, s[a])];
    }
    FirstFromAppend(init, d, f);
    ChunksOfAbsent(init, f);
    ChunksOfAppend(init, d, f);
    assert (s + [f])[|s|] == f;
  }

  /** The cleaned lines of the chunks shown, one per line. */
  function Lines(chunks: seq<string>): string {
    if chunks == [] then []
    else Lines(chunks[..|chunks| - 1]) + CleanChunk(chunks[|chunks| - 1]) + "\n"
  }

  /** One law's block: a header line, at most three cleaned chunks, a blank line. */
  function Section(s: Source): string {
    "\n=== " + s.lawName + " ===\n" + Lines(s.chunks[..Min(ChunksPerSource, |s.chunks|)]) + "\n"
  }

  /** The blocks of all entries, in entry order. */
  function Rendered(groups: seq<Source>): string {
    if groups == [] then []
    else Rendered(groups[..|groups| - 1]) + Section(groups[|groups| - 1])
  }

  /** Every block starts with a newline and then the `=` of its header. */
  lemma SectionHeader(s: Source)
    ensures |Section(s)| > 1 && Section(s)[1] == '='
  {
    HeaderMark(s.lawName, Lines(s.chunks[..Min(ChunksPerSource, |s.chunks|)]));
  }

  lemma HeaderMark(lawName: string, body: string)
    ensures var t := "\n=== " + lawName + " ===\n" + body + "\n"; |t| > 1 && t[1] == '='
  {
    var v := "\n=== " + lawName;
    assert v[1] == '=';
  }

  /** The context string handed to the prompt for these documents. */
  function Context(docs: seq<Doc>): string {
    Strip(Rendered(Grouped(docs)))
  }

  /** The context is empty exactly when no document was selected: every law block has a
      header, so stripping cannot remove everything. */
  lemma ContextEmpty(docs: seq<Doc>)
    ensures Context(docs) == [] <==> docs == []
    ensures Trimmed(Context(docs))
  {
    var g := Grouped(docs);
    StripFacts(Rendered(g));
    if docs != [] {
      GroupedNonEmpty(docs);
      RenderedHasMark(g);
    }
  }

  /** Some document gives some entry. */
  lemma GroupedNonEmpty(docs: seq<Doc>)
    requires docs != []
    ensures Grouped(docs) != []
  {
    GroupedSpec(docs);
    SourcesOfSpec(docs);
    assert docs[0].sourceFile in SourcesOf(docs);
  }

  /** The blocks of some entries hold a character that is not whitespace. */
  lemma RenderedHasMark(g: seq<Source>)
    requires g != []
    ensures exists i :: 0 <= i < |Rendered(g)| && !IsSpace(Rendered(g)[i])
  {
    var init := Rendered(g[..|g| - 1]);
    var last := Section(g[|g| - 1]);
    SectionHeader(g[|g| - 1]);
    assert Rendered(g) == init + last;
    assert Rendered(g)[|init| + 1] == last[1] == '=';
  }

  /** The context-building loops: group the documents by source file in a dictionary
      that keeps insertion order, then write each law's block. */
  method BuildContext(docs: seq<Doc>) returns (content: string)
    ensures content == Context(docs)
    ensures Trimmed(content)
    ensures content == [] <==> docs == []
  {
    var sourcesContent := GroupBySource(docs);
    var messageContent := RenderSources(sourcesContent);
    content := Strip(messageContent);
    ContextEmpty(docs);
  }

  /** The grouping loop. */
  method GroupBySource(docs: seq<Doc>) returns (sourcesContent: seq<Source>)
    ensures sourcesContent == Grouped(docs)
  {
    sourcesContent := [];
    for i := 0 to |docs|
      invariant sourcesContent == Grouped(docs[..i])
    {
      assert docs[..i + 1][..i] == docs[..i];
      var doc := docs[i];
      var chunkText := doc.content;
      if HasArticle(doc) {
        chunkText := "[Статья " + doc.article.value + "] " + chunkText;
      }
      match IndexOfSource(sourcesContent, doc.sourceFile)
      case Some(j) =>
        sourcesContent := sourcesContent[j := sourcesContent[j].(chunks := sourcesContent[j].chunks + [chunkText])];
      case None =>
        sourcesContent := sourcesContent + [Source(doc.sourceFile, doc.lawName, [chunkText])];
    }
    assert docs[..|docs|] == docs;
  }

  /** The rendering loop over the entries. */
  method RenderSources(sourcesContent: seq<Source>) returns (messageContent: string)
    ensures messageContent == Rendered(sourcesContent)
  {
    messageContent := "";
    for a := 0 to |sourcesContent|
      invariant messageContent == Rendered(sourcesContent[..a])
    {
      assert sourcesContent[..a + 1][..a] == sourcesContent[..a];
      messageContent := AppendSection(messageContent, sourcesContent[a]);
    }
    assert sourcesContent[..|sourcesContent|] == sourcesContent;
  }

  /** One pass of the outer rendering loop: the header, the first three chunks cleaned,
      one per line, and a blank line. */
  method AppendSection(init: string, s: Source) returns (out: string)
    ensures out == init + Section(s)
  {
    var header := "\n=== " + s.lawName + " ===\n";
    var shown := s.chunks[..Min(ChunksPerSource, |s.chunks|)];
    var lines := "";
    for c := 0 to |shown|
      invariant lines == Lines(shown[..c])
    {
      var cleanChunk := NewlinesToSpace(Strip(shown[c]));
      cleanChunk := CollapseSpaces(cleanChunk);
      LinesStep(shown, c);
      lines := lines + cleanChunk + "\n";
    }
    assert shown[..|shown|] == shown;
    assert Section(s) == header + lines + "\n";
    out := init + (header + lines + "\n");
  }

  lemma LinesStep(chunks: seq<string>, c: nat)
    requires c < |chunks|
    ensures Lines(chunks[..c + 1]) == Lines(chunks[..c]) + CleanChunk(chunks[c]) + "\n"
  {
    assert chunks[..c + 1][..c] == chunks[..c];
  }
}
