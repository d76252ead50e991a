/**
 * Candidate deduplication (retrieval.py, `get_message_content`): a document is
 * kept when no earlier candidate had the same fingerprint, the first 100
 * characters of its content. The source hashes that prefix; hash collisions
 * are not modelled, so the fingerprint is the prefix itself.
 */
module Dedup {
  import opened Text
  import opened Documents

  const FingerprintLength: nat := 100

  /** `doc.page_content[:100]` */
  function Fingerprint(d: Doc): (f: string)
    ensures |f| <= FingerprintLength && |f| <= |d.content| && f == d.content[..|f|]
    ensures |d.content| >= FingerprintLength ==> |f| == FingerprintLength
    ensures |f| == Min(FingerprintLength, |d.content|)
    ensures |d.content| < FingerprintLength ==> f == d.content
  {
    d.content[..Min(FingerprintLength, |d.content|)]
  }

  /** The fingerprints of a list of documents. */
  ghost function Fingerprints(docs: seq<Doc>): set<string> {
    set d | d in docs :: Fingerprint(d)
  }

  /** What the loop keeps of `docs` once the fingerprints in `seen` are taken. */
  function DedupFrom(docs: seq<Doc>, seen: set<string>): seq<Doc>
    decreases |docs|
  {
    if docs == [] then []
    else if Fingerprint(docs[0]) in seen then DedupFrom(docs[1..], seen)
    else [docs[0]] + DedupFrom(docs[1..], seen + {Fingerprint(docs[0])})
  }

  /** The deduplicated candidate list. */
  function Deduplicate(docs: seq<Doc>): seq<Doc> {
    DedupFrom(docs, {})
  }

  /** The index of the first document with fingerprint `f`, or `|docs|` when none has it. */
  function FirstWith(docs: seq<Doc>, f: string): (i: nat)
    ensures i <= |docs|
    ensures forall j :: 0 <= j < i ==> Fingerprint(docs[j]) != f
    ensures i < |docs| ==> Fingerprint(docs[i]) == f
  {
    if docs == [] then 0
    else if Fingerprint(docs[0]) == f then 0
    else 1 + FirstWith(docs[1..], f)
  }

  /** `a` is `b` with some elements left out, the rest kept in order. */
  ghost predicate IsSubsequence(a: seq<Doc>, b: seq<Doc>)
    decreases |b|
  {
    if a == [] then true
    else if b == [] then false
    else (a[0] == b[0] && IsSubsequence(a[1..], b[1..])) || IsSubsequence(a, b[1..])
  }

  /** The deduplication loop: a `seen` set of fingerprints and the list of kept documents
      grow together as the candidates are scanned in arrival order. */
  method DeduplicateDocs(allDocs: seq<Doc>) returns (unique: seq<Doc>)
    ensures unique == Deduplicate(allDocs)
    ensures forall i, j :: 0 <= i < j < |unique| ==> Fingerprint(unique[i]) != Fingerprint(unique[j])
    ensures IsSubsequence(unique, allDocs)
  {
    var seen: set<string> := {};
    unique := [];
    for i := 0 to |allDocs|
      invariant unique + DedupFrom(allDocs[i..], seen) == Deduplicate(allDocs)
    {
      assert allDocs[i..][1..] == allDocs[i + 1..];
      var doc := allDocs[i];
      var contentHash := Fingerprint(doc);
      if contentHash !in seen {
        seen := seen + {contentHash};
        unique := unique + [doc];
      }
    }
    DeduplicateSpec(allDocs);
  }

  /** No two kept documents share a fingerprint, and none has a fingerprint in `seen`. */
  lemma {:induction false} DedupFromDistinct(docs: seq<Doc>, seen: set<string>)
    ensures forall i :: 0 <= i < |DedupFrom(docs, seen)| ==> Fingerprint(DedupFrom(docs, seen)[i]) !in seen
    ensures forall i, j :: 0 <= i < j < |DedupFrom(docs, seen)| ==>
              Fingerprint(DedupFrom(docs, seen)[i]) != Fingerprint(DedupFrom(docs, seen)[j])
    decreases |docs|
  {
    if docs != [] {
      var f := Fingerprint(docs[0]);
      if f in seen {
        DedupFromDistinct(docs[1..], seen);
      } else {
        DedupFromDistinct(docs[1..], seen + {f});
      }
    }
  }

  /** Every fingerprint of `docs` outside `seen` is represented, and no other. */
  lemma {:induction false} DedupFromCovers(docs: seq<Doc>, seen: set<string>)
    ensures Fingerprints(DedupFrom(docs, seen)) == Fingerprints(docs) - seen
    decreases |docs|
  {
    if docs != [] {
      var d := docs[0];
      var f := Fingerprint(d);
      var rest := docs[1..];
      assert forall x :: x in docs <==> x == d || x in rest;
      assert Fingerprints(docs) == {f} + Fingerprints(rest);
      if f in seen {
        DedupFromCovers(rest, seen);
      } else {
        DedupFromCovers(rest, seen + {f});
        var r := DedupFrom(rest, seen + {f});
        assert forall x :: x in [d] + r <==> x == d || x in r;
        assert Fingerprints([d] + r) == {f} + Fingerprints(r);
      }
    }
  }

  /** Each kept document is the first document of `docs` with its fingerprint. */
  lemma {:induction false} DedupFromFirst(docs: seq<Doc>, seen: set<string>)
    ensures forall i :: 0 <= i < |DedupFrom(docs, seen)| ==>
              FirstWith(docs, Fingerprint(DedupFrom(docs, seen)[i])) < |docs|
              && DedupFrom(docs, seen)[i] == docs[FirstWith(docs, Fingerprint(DedupFrom(docs, seen)[i]))]
    decreases |docs|
  {
    if docs != [] {
      var f := Fingerprint(docs[0]);
      var rest := docs[1..];
      var seen' := if f in seen then seen else seen + {f};
      DedupFromFirst(rest, seen');
      DedupFromDistinct(rest, seen');
      var r := DedupFrom(rest, seen');
      forall i | 0 <= i < |r|
        ensures FirstWith(docs, Fingerprint(r[i])) == 1 + FirstWith(rest, Fingerprint(r[i]))
      {
        assert Fingerprint(r[i]) != f || f in seen;
      }
    }
  }

  /** The kept documents are in arrival order. */
  lemma {:induction false} DedupFromOrdered(docs: seq<Doc>, seen: set<string>)
    ensures IsSubsequence(DedupFrom(docs, seen), docs)
    decreases |docs|
  {
    if docs != [] {
      var d := docs[0];
      var f := Fingerprint(d);
      var rest := docs[1..];
      if f in seen {
        DedupFromOrdered(rest, seen);
        SubsequenceSkip(DedupFrom(rest, seen), d, rest);
        assert [d] + rest == docs;
      } else {
        DedupFromOrdered(rest, seen + {f});
        var out := [d] + DedupFrom(rest, seen + {f});
        assert out[1..] == DedupFrom(rest, seen + {f});
      }
    }
  }

  lemma SubsequenceSkip(a: seq<Doc>, d: Doc, rest: seq<Doc>)
    requires IsSubsequence(a, rest)
    ensures IsSubsequence(a, [d] + rest)
  {
    assert ([d] + rest)[1..] == rest;
  }

  /** Deduplication keeps, in arrival order, the first document of each distinct
      fingerprint: its output is a subsequence of the candidates, no two outputs share a
      fingerprint, and every candidate's fingerprint is represented. */
  lemma DeduplicateSpec(docs: seq<Doc>)
    ensures forall i, j :: 0 <= i < j < |Deduplicate(docs)| ==>
              Fingerprint(Deduplicate(docs)[i]) != Fingerprint(Deduplicate(docs)[j])
    ensures Fingerprints(Deduplicate(docs)) == Fingerprints(docs)
    ensures forall i :: 0 <= i < |Deduplicate(docs)| ==>
              FirstWith(docs, Fingerprint(Deduplicate(docs)[i])) < |docs|
              && Deduplicate(docs)[i] == docs[FirstWith(docs, Fingerprint(Deduplicate(docs)[i]))]
    ensures IsSubsequence(Deduplicate(docs), docs)
  {
    DedupFromDistinct(docs, {});
    DedupFromCovers(docs, {});
    DedupFromFirst(docs, {});
    DedupFromOrdered(docs, {});
  }
}
