/**
 * Corpus assembly of `build_index` (embedder.py): every file of the document
 * folder, in listing order, is partitioned into elements, and every element with
 * non-empty text becomes one document, with the file's name as its source.
 *
 * The directory listing and the partitioner are replaced by their result, a
 * sequence of files each with its elements. The embedding call is a function
 * parameter; the vector index built from the embeddings is not part of this model.
 */
module Embedder {
  import opened Wrappers

  /** One element produced by the partitioner; `None` where the element carries no text. */
  datatype Element = Element(text: Option<string>)

  /** A directory entry: its file name and the elements of its contents, in order. */
  datatype SourceFile = SourceFile(name: string, elements: seq<Element>)

  /** One document together with the name of the file it came from. */
  datatype Chunk = Chunk(text: string, source: string)

  /** Where an element lives: the index of its file in the listing and its index among that file's elements. */
  datatype Position = Position(file: nat, element: nat)

  /** `if el.text:` keeps elements whose text is present and non-empty. */
  predicate HasText(e: Element)
  {
    e.text.Some? && e.text.value != ""
  }

  // ---------------------------------------------------------------------------
  // Specification of the assembled corpus
  // ---------------------------------------------------------------------------

  /** The chunks contributed by one file, in element order. */
  function FileChunks(name: string, elements: seq<Element>): seq<Chunk>
  {
    if elements == [] then []
    else
      var last := elements[|elements| - 1];
      FileChunks(name, elements[..|elements| - 1])
        + (if HasText(last) then [Chunk(last.text.value, name)] else [])
  }

  /** The chunks of the whole listing, file after file. */
  function Corpus(listing: seq<SourceFile>): seq<Chunk>
  {
    if listing == [] then []
    else
      var last := listing[|listing| - 1];
      Corpus(listing[..|listing| - 1]) + FileChunks(last.name, last.elements)
  }

  function Texts(chunks: seq<Chunk>): seq<string>
  {
    seq(|chunks|, i requires 0 <= i < |chunks| => chunks[i].text)
  }

  function Sources(chunks: seq<Chunk>): seq<string>
  {
    seq(|chunks|, i requires 0 <= i < |chunks| => chunks[i].source)
  }

  // ---------------------------------------------------------------------------
  // Provenance: which element each chunk comes from
  // ---------------------------------------------------------------------------

  /** The positions, in element order, of the elements of file number `file` that have text. */
  function FilePositions(file: nat, elements: seq<Element>): seq<Position>
  {
    if elements == [] then []
    else
      FilePositions(file, elements[..|elements| - 1])
        + (if HasText(elements[|elements| - 1]) then [Position(file, |elements| - 1)] else [])
  }

  /** The positions of all elements of the listing that have text, file after file. */
  function Positions(listing: seq<SourceFile>): seq<Position>
  {
    if listing == [] then []
    else Positions(listing[..|listing| - 1]) + FilePositions(|listing| - 1, listing[|listing| - 1].elements)
  }

  /** `p` names an element of the listing, and that element has text. */
  predicate AtText(listing: seq<SourceFile>, p: Position)
  {
    p.file < |listing| && p.element < |listing[p.file].elements| && HasText(listing[p.file].elements[p.element])
  }

  /** The chunk that the element at `p` yields: its text, sourced to its file's name. */
  function ChunkAt(listing: seq<SourceFile>, p: Position): Chunk
    requires AtText(listing, p)
  {
    Chunk(listing[p.file].elements[p.element].text.value, listing[p.file].name)
  }

  /** Lexicographic order on positions: listing order first, element order within a file. */
  predicate Before(p: Position, q: Position)
  {
    p.file < q.file || (p.file == q.file && p.element < q.element)
  }

  lemma {:induction false} FileProvenance(file: nat, name: string, elements: seq<Element>)
    ensures |FilePositions(file, elements)| == |FileChunks(name, elements)|
    ensures forall i :: 0 <= i < |FilePositions(file, elements)| ==>
      var p := FilePositions(file, elements)[i];
      p.file == file && p.element < |elements| && HasText(elements[p.element]) &&
      FileChunks(name, elements)[i] == Chunk(elements[p.element].text.value, name)
  {
    if elements != [] {
      var init := elements[..|elements| - 1];
      FileProvenance(file, name, init);
      forall i | 0 <= i < |FilePositions(file, init)|
        ensures elements[FilePositions(file, init)[i].element] == init[FilePositions(file, init)[i].element]
      {
      }
    }
  }

  /**
   * Every chunk of the corpus comes from an element with text: `Positions(listing)[i]`
   * names the file and element that produced chunk `i`, and the chunk's source is
   * that file's name.
   */
  lemma {:induction false} Provenance(listing: seq<SourceFile>)
    ensures |Positions(listing)| == |Corpus(listing)|
    ensures forall i :: 0 <= i < |Corpus(listing)| ==>
      AtText(listing, Positions(listing)[i]) && Corpus(listing)[i] == ChunkAt(listing, Positions(listing)[i])
  {
    if listing != [] {
      var init := listing[..|listing| - 1];
      var last := listing[|listing| - 1];
      Provenance(init);
      FileProvenance(|listing| - 1, last.name, last.elements);
      var ps, fs := Positions(init), FilePositions(|listing| - 1, last.elements);
      var cs, ks := Corpus(init), FileChunks(last.name, last.elements);
      assert Positions(listing) == ps + fs && Corpus(listing) == cs + ks;
      forall i | 0 <= i < |cs + ks|
        ensures AtText(listing, (ps + fs)[i]) && (cs + ks)[i] == ChunkAt(listing, (ps + fs)[i])
      {
        if i < |cs| {
          var p := ps[i];
          assert (ps + fs)[i] == p && (cs + ks)[i] == cs[i];
          assert listing[p.file] == init[p.file];
        } else {
          assert (ps + fs)[i] == fs[i - |cs|] && (cs + ks)[i] == ks[i - |cs|];
        }
      }
    }
  }

  /** Every document is a non-empty text. */
  lemma DocumentsNonEmpty(listing: seq<SourceFile>)
    ensures forall i :: 0 <= i < |Corpus(listing)| ==> Corpus(listing)[i].text != ""
  {
    Provenance(listing);
  }

  lemma {:induction false} FilePositionsIncreasing(file: nat, elements: seq<Element>)
    ensures forall i :: 0 <= i < |FilePositions(file, elements)| ==>
      FilePositions(file, elements)[i].file == file && FilePositions(file, elements)[i].element < |elements|
    ensures forall i, j :: 0 <= i < j < |FilePositions(file, elements)| ==>
      FilePositions(file, elements)[i].element < FilePositions(file, elements)[j].element
  {
    if elements != [] {
      FilePositionsIncreasing(file, elements[..|elements| - 1]);
    }
  }

  /** Order is preserved: chunks follow the listing order of their files and, within a file, element order. */
  lemma {:induction false} PositionsIncreasing(listing: seq<SourceFile>)
    ensures forall i :: 0 <= i < |Positions(listing)| ==> Positions(listing)[i].file < |listing|
    ensures forall i, j :: 0 <= i < j < |Positions(listing)| ==> Before(Positions(listing)[i], Positions(listing)[j])
  {
    if listing != [] {
      var init := listing[..|listing| - 1];
      var ps := Positions(init);
      var fs := FilePositions(|listing| - 1, listing[|listing| - 1].elements);
      PositionsIncreasing(init);
      FilePositionsIncreasing(|listing| - 1, listing[|listing| - 1].elements);
      assert Positions(listing) == ps + fs;
      forall i, j | 0 <= i < j < |ps + fs| ensures Before((ps + fs)[i], (ps + fs)[j]) {
        if j < |ps| {
        } else if i < |ps| {
          assert (ps + fs)[j] == fs[j - |ps|];
        } else {
          assert (ps + fs)[j] == fs[j - |ps|] && (ps + fs)[i] == fs[i - |ps|];
        }
      }
    }
  }

  lemma {:induction false} FilePositionsComplete(file: nat, elements: seq<Element>, e: nat)
    requires e < |elements| && HasText(elements[e])
    ensures Position(file, e) in FilePositions(file, elements)
  {
    if e < |elements| - 1 {
      FilePositionsComplete(file, elements[..|elements| - 1], e);
    }
  }

  /** No element with text is skipped: each one has a chunk in the corpus. */
  lemma {:induction false} PositionsComplete(listing: seq<SourceFile>, p: Position)
    requires AtText(listing, p)
    ensures p in Positions(listing)
  {
    if p.file < |listing| - 1 {
      PositionsComplete(listing[..|listing| - 1], p);
    } else {
      FilePositionsComplete(p.file, listing[p.file].elements, p.element);
    }
  }

  // ---------------------------------------------------------------------------
  // Size of the corpus
  // ---------------------------------------------------------------------------

  /** The number of elements with text, counted from the front. */
  function CountWithText(elements: seq<Element>): nat
  {
    if elements == [] then 0 else (if HasText(elements[0]) then 1 else 0) + CountWithText(elements[1..])
  }

  /** The number of elements with text over all files, counted from the front. */
  function TotalWithText(listing: seq<SourceFile>): nat
  {
    if listing == [] then 0 else CountWithText(listing[0].elements) + TotalWithText(listing[1..])
  }

  lemma {:induction false} CountWithTextSnoc(elements: seq<Element>, e: Element)
    ensures CountWithText(elements + [e]) == CountWithText(elements) + (if HasText(e) then 1 else 0)
  {
    if elements != [] {
      assert (elements + [e])[1..] == elements[1..] + [e];
      CountWithTextSnoc(elements[1..], e);
    }
  }

  lemma {:induction false} TotalWithTextSnoc(listing: seq<SourceFile>, f: SourceFile)
    ensures TotalWithText(listing + [f]) == TotalWithText(listing) + CountWithText(f.elements)
  {
    if listing != [] {
      assert (listing + [f])[1..] == listing[1..] + [f];
      TotalWithTextSnoc(listing[1..], f);
    }
  }

  lemma {:induction false} FileChunksSize(name: string, elements: seq<Element>)
    ensures |FileChunks(name, elements)| == CountWithText(elements)
  {
    if elements != [] {
      var init := elements[..|elements| - 1];
      FileChunksSize(name, init);
      assert init + [elements[|elements| - 1]] == elements;
      CountWithTextSnoc(init, elements[|elements| - 1]);
    }
  }

  /** The number of documents is the number of elements with text across all files. */
  lemma {:induction false} CorpusSize(listing: seq<SourceFile>)
    ensures |Corpus(listing)| == TotalWithText(listing)
  {
    if listing != [] {
      var init := listing[..|listing| - 1];
      var last := listing[|listing| - 1];
      CorpusSize(init);
      FileChunksSize(last.name, last.elements);
      assert init + [last] == listing;
      TotalWithTextSnoc(init, last);
    }
  }

  // ---------------------------------------------------------------------------
  // build_index
  // ---------------------------------------------------------------------------

  /** The nested loops of `build_index`: append each text and its file name to two parallel lists. */
  method AssembleCorpus(listing: seq<SourceFile>) returns (documents: seq<string>, sources: seq<string>)
    ensures |documents| == |sources| == |Corpus(listing)|
    ensures forall i :: 0 <= i < |documents| ==> Corpus(listing)[i] == Chunk(documents[i], sources[i])
  {
    documents, sources := [], [];
    var i := 0;
    while i < |listing|
      invariant 0 <= i <= |listing|
      invariant |documents| == |sources| == |Corpus(listing[..i])|
      invariant forall k :: 0 <= k < |documents| ==> Corpus(listing[..i])[k] == Chunk(documents[k], sources[k])
    {
      var file := listing[i];
      var elements := file.elements;
      ghost var before := Corpus(listing[..i]);
      var j := 0;
      while j < |elements|
        invariant 0 <= j <= |elements|
        invariant |documents| == |sources| == |before + FileChunks(file.name, elements[..j])|
        invariant forall k :: 0 <= k < |documents| ==>
          (before + FileChunks(file.name, elements[..j]))[k] == Chunk(documents[k], sources[k])
      {
        var el := elements[j];
        if el.text.Some? && el.text.value != "" {
          documents := documents + [el.text.value];
          sources := sources + [file.name];
        }
        assert elements[..j + 1][..j] == elements[..j];
        j := j + 1;
      }
      assert elements[..j] == elements;
      assert listing[..i + 1][..i] == listing[..i];
      i := i + 1;
    }
    assert listing[..i] == listing;
  }

  /** Why `build_index` stops before returning. */
  datatype BuildError =
    | EmbeddingFailed   // the embedding call raised
    | NoEmbeddings      // `embeddings[0]` on an empty list raises IndexError

  /**
   * `build_index`: assemble the corpus, embed its documents, and return the two
   * lists exactly as assembled. `embed` stands for the embedding service (`None`
   * when the call raises); the vectors themselves are only inspected for being
   * present.
   */
  method BuildIndex<V>(listing: seq<SourceFile>, embed: seq<string> -> Option<seq<V>>)
    returns (result: Result<(seq<string>, seq<string>), BuildError>)
    ensures var corpus := Corpus(listing);
      match embed(Texts(corpus))
      case None => result == Failure(EmbeddingFailed)
      case Some(vectors) =>
        result == if vectors == [] then Failure(NoEmbeddings) else Success((Texts(corpus), Sources(corpus)))
  {
    var documents, sources := AssembleCorpus(listing);
    assert documents == Texts(Corpus(listing)) && sources == Sources(Corpus(listing));
    var embeddings := embed(documents);
    if embeddings.None? {
      return Failure(EmbeddingFailed);
    }
    if |embeddings.value| == 0 {
      return Failure(NoEmbeddings);
    }
    result := Success((documents, sources));
  }
}
