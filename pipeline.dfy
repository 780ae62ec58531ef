/** The driver's own steps (main.py): cutting loaded documents into
    propositions, handing their texts to the chunker, and turning the
    chunker's chunks back into documents for embedding. */
module Pipeline {
  import opened Strings
  import opened Documents

  /** One entry of the `propositions` list: its text and where it came from. */
  datatype Proposition = Proposition(text: string, source: Value, docType: Value)

  /** A chunk as the chunker stores it under its id. */
  datatype ChunkRecord = ChunkRecord(propositions: seq<string>, title: string, summary: string, chunkIndex: int)

  /** The positions of the splits that are not blank after stripping, in order. */
  function KeptIndices(splits: seq<string>): (idx: seq<nat>)
    ensures forall k :: 0 <= k < |idx| ==> idx[k] < |splits| && Strip(splits[idx[k]]) != []
    ensures forall k, l :: 0 <= k < l < |idx| ==> idx[k] < idx[l]
    ensures forall j :: 0 <= j < |splits| && Strip(splits[j]) != [] ==> j in idx
  {
    if splits == [] then []
    else
      var n := |splits| - 1;
      var init := KeptIndices(splits[..n]);
      assert forall k :: 0 <= k < |init| ==> splits[..n][init[k]] == splits[init[k]];
      if Strip(splits[n]) != [] then init + [n] else init
  }

  /** What the inner loop of `extract_propositions_from_documents` appends for
      one document: each split that is not blank, stripped, tagged with the
      document's source and type. */
  function DocPropositions(splits: seq<string>, source: Value, docType: Value): seq<Proposition>
  {
    if splits == [] then []
    else
      var n := |splits| - 1;
      var init := DocPropositions(splits[..n], source, docType);
      if Strip(splits[n]) != [] then init + [Proposition(Strip(splits[n]), source, docType)] else init
  }

  /** The k-th proposition of a document is its k-th kept split, stripped. */
  lemma {:induction false} DocPropositionsKept(splits: seq<string>, source: Value, docType: Value)
    ensures |DocPropositions(splits, source, docType)| == |KeptIndices(splits)|
    ensures forall k :: 0 <= k < |KeptIndices(splits)| ==>
              DocPropositions(splits, source, docType)[k] == Proposition(Strip(splits[KeptIndices(splits)[k]]), source, docType)
    decreases |splits|
  {
    if splits != [] {
      var n := |splits| - 1;
      var init := splits[..n];
      var keep := Strip(splits[n]) != [];
      var props, idx := DocPropositions(splits, source, docType), KeptIndices(splits);
      var propsInit, idxInit := DocPropositions(init, source, docType), KeptIndices(init);
      DocPropositionsKept(init, source, docType);
      assert props == if keep then propsInit + [Proposition(Strip(splits[n]), source, docType)] else propsInit;
      assert idx == if keep then idxInit + [n] else idxInit;
      forall k | 0 <= k < |idx|
        ensures props[k] == Proposition(Strip(splits[idx[k]]), source, docType)
      {
        if k < |idxInit| {
          assert init[idxInit[k]] == splits[idxInit[k]];
        }
      }
    }
  }

  /** `doc.metadata.get('file_name', 'unknown')`. */
  function SourceOf(d: Document): Value
    reads d
  {
    Get(d.metadata, "file_name", Str("unknown"))
  }

  /** The propositions extracted from `docs` with splitter `split`. */
  function Propositions(docs: seq<Document>, split: string -> seq<string>): (r: seq<Proposition>)
    reads docs
    ensures forall k :: 0 <= k < |r| ==> r[k].text != [] && Strip(r[k].text) == r[k].text
  {
    if docs == [] then []
    else
      var d := docs[|docs| - 1];
      var own := DocPropositions(split(d.pageContent), SourceOf(d), DocTypeOf(d));
      assert forall k :: 0 <= k < |own| ==> own[k].text != [] && Strip(own[k].text) == own[k].text by {
        var splits := split(d.pageContent);
        DocPropositionsKept(splits, SourceOf(d), DocTypeOf(d));
        forall k | 0 <= k < |own| ensures own[k].text != [] && Strip(own[k].text) == own[k].text {
          StripIdempotent(splits[KeptIndices(splits)[k]]);
        }
      }
      Propositions(docs[..|docs| - 1], split) + own
  }

  /** Documents are processed in input order: extracting from two runs of
      documents yields the first run's propositions followed by the second's. */
  lemma {:induction false} PropositionsAppend(first: seq<Document>, second: seq<Document>, split: string -> seq<string>)
    ensures Propositions(first + second, split) == Propositions(first, split) + Propositions(second, split)
    decreases |second|
  {
    if second != [] {
      var all := first + second;
      var n := |second| - 1;
      assert all[..|all| - 1] == first + second[..n];
      PropositionsAppend(first, second[..n], split);
    } else {
      assert first + second == first;
    }
  }

  /** `extract_propositions_from_documents`, with the text splitter as `split`. */
  /** One more split extends a document's propositions by at most that split. */
  lemma DocPropositionsPrefix(splits: seq<string>, j: nat, source: Value, docType: Value)
    requires j < |splits|
    ensures DocPropositions(splits[..j + 1], source, docType) ==
              DocPropositions(splits[..j], source, docType) +
              (if Strip(splits[j]) != [] then [Proposition(Strip(splits[j]), source, docType)] else [])
  {
    assert splits[..j + 1][..j] == splits[..j];
  }

  /** One more document extends the propositions by that document's own. */
  lemma PropositionsPrefix(docs: seq<Document>, i: nat, split: string -> seq<string>)
    requires i < |docs|
    ensures Propositions(docs[..i + 1], split) ==
              Propositions(docs[..i], split) +
              DocPropositions(split(docs[i].pageContent), SourceOf(docs[i]), DocTypeOf(docs[i]))
  {
    assert docs[..i + 1][..i] == docs[..i];
  }

  method ExtractPropositions(docs: seq<Document>, split: string -> seq<string>) returns (props: seq<Proposition>)
    ensures props == Propositions(docs, split)
  {
    props := [];
    for i := 0 to |docs|
      invariant props == Propositions(docs[..i], split)
    {
      var doc := docs[i];
      var splits := split(doc.pageContent);
      var source := Get(doc.metadata, "file_name", Str("unknown"));
      var docType := Get(doc.metadata, "doc_type", Str("unknown"));
      ghost var before := props;
      for j := 0 to |splits|
        invariant props == before + DocPropositions(splits[..j], source, docType)
      {
        DocPropositionsPrefix(splits, j, source, docType);
        var text := Strip(splits[j]);
        if text != [] {
          props := props + [Proposition(text, source, docType)];
        }
      }
      assert splits[..|splits|] == splits;
      PropositionsPrefix(docs, i, split);
    }
    assert docs[..|docs|] == docs;
  }

  /** `[p['text'] for p in propositions]`: the texts given to the chunker, all
      of them and in order. */
  function PropositionTexts(props: seq<Proposition>): (r: seq<string>)
    ensures |r| == |props|
    ensures forall k :: 0 <= k < |props| ==> r[k] == props[k].text
  {
    seq(|props|, k requires 0 <= k < |props| => props[k].text)
  }

  /** Every text handed to the chunker is non-empty and already stripped. */
  lemma PropositionTextsClean(docs: seq<Document>, split: string -> seq<string>)
    ensures forall k :: 0 <= k < |PropositionTexts(Propositions(docs, split))| ==>
              var text := PropositionTexts(Propositions(docs, split))[k];
              text != [] && Strip(text) == text
  {
    var props := Propositions(docs, split);
    forall k | 0 <= k < |PropositionTexts(props)|
      ensures PropositionTexts(props)[k] != [] && Strip(PropositionTexts(props)[k]) == PropositionTexts(props)[k]
    {
      assert PropositionTexts(props)[k] == props[k].text;
    }
  }

  /** The metadata of the document built for one chunk. */
  function ChunkMetadata(id: string, chunk: ChunkRecord): map<string, Value>
  {
    map["chunk_id" := Str(id), "title" := Str(chunk.title), "summary" := Str(chunk.summary),
        "chunk_index" := Num(chunk.chunkIndex)]
  }

  /** The conversion loop of main.py: one new document per chunk, in the
      chunk dictionary's order, whose text is the chunk's propositions joined by
      single spaces. */
  method ChunksToDocuments(chunks: seq<(string, ChunkRecord)>) returns (docs: seq<Document>)
    ensures |docs| == |chunks|
    ensures forall i :: 0 <= i < |docs| ==> fresh(docs[i])
    ensures forall i, j :: 0 <= i < j < |docs| ==> docs[i] != docs[j]
    ensures forall i :: 0 <= i < |chunks| ==>
              docs[i].pageContent == Join(" ", chunks[i].1.propositions)
              && docs[i].metadata == ChunkMetadata(chunks[i].0, chunks[i].1)
  {
    docs := [];
    for i := 0 to |chunks|
      invariant |docs| == i
      invariant forall j :: 0 <= j < |docs| ==> fresh(docs[j])
      invariant forall j, k :: 0 <= j < k < |docs| ==> docs[j] != docs[k]
      invariant forall j :: 0 <= j < i ==>
                  docs[j].pageContent == Join(" ", chunks[j].1.propositions)
                  && docs[j].metadata == ChunkMetadata(chunks[j].0, chunks[j].1)
    {
      var (id, chunk) := chunks[i];
      var doc := new Document(Join(" ", chunk.propositions), ChunkMetadata(id, chunk));
      docs := docs + [doc];
    }
  }
}
