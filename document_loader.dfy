/** Tagging loaded documents with their type and file name, and the per-type
    tally printed after loading (src/document_loader.py). */
module DocumentLoader {
  import opened Strings
  import opened Documents

  /** `add_metadata`: overwrites `doc_type` and `file_name` in place and hands
      back the same document. */
  method AddMetadata(doc: Document, docType: string, fileName: string) returns (r: Document)
    modifies doc
    ensures r == doc
    ensures doc.pageContent == old(doc.pageContent)
    ensures doc.metadata == old(doc.metadata)["doc_type" := Str(docType)]["file_name" := Str(fileName)]
    ensures doc.metadata.Keys == old(doc.metadata).Keys + {"doc_type", "file_name"}
    ensures forall k :: k in old(doc.metadata) && k != "doc_type" && k != "file_name" ==>
              doc.metadata[k] == old(doc.metadata)[k]
  {
    doc.metadata := doc.metadata["doc_type" := Str(docType)];
    doc.metadata := doc.metadata["file_name" := Str(fileName)];
    r := doc;
  }

  /** The components a POSIX path keeps: empty and `.` components vanish. */
  function Components(pieces: seq<string>): (r: seq<string>)
    ensures forall k :: 0 <= k < |r| ==> r[k] != "" && r[k] != "." && r[k] in pieces
  {
    if pieces == [] then []
    else
      var init := Components(pieces[..|pieces| - 1]);
      var last := pieces[|pieces| - 1];
      if last == "" || last == "." then init else init + [last]
  }

  /** `Path(path).name`: the final component of a POSIX path, or "" when the
      path has none (the root, "." or ""). */
  function FileName(path: string): (r: string)
    ensures '/' !in r && r != "."
    ensures r == "" || r in Split(path, '/')
  {
    var parts := Components(Split(path, '/'));
    if parts == [] then "" else parts[|parts| - 1]
  }

  /** A name without separators is its own file name, and stays the file name
      whatever directory is put in front of it. */
  lemma FileNameOfJoin(dir: string, name: string)
    requires name != "" && name != "." && '/' !in name
    ensures FileName(name) == name
    ensures FileName(dir + "/" + name) == name
  {
    SplitNoSeparator(name, '/');
    assert Components([name]) == Components([name][..0]) + [name];
    SplitAppend(dir, name, '/');
    var pieces := Split(dir, '/') + [name];
    assert pieces[..|pieces| - 1] == Split(dir, '/');
    assert dir + "/" + name == dir + ['/'] + name;
  }

  /** The file name a markdown document is tagged with:
      `Path(doc.metadata.get("source", "unknown")).name`. `None` stands for the
      TypeError `Path` raises on a non-string source. */
  function MarkdownFileName(metadata: map<string, Value>): Option<string>
  {
    match Get(metadata, "source", Str("unknown"))
    case Str(p) => Some(FileName(p))
    case Num(_) => None
  }

  lemma MarkdownFileNameOf(metadata: map<string, Value>, dir: string, name: string)
    requires name != "" && name != "." && '/' !in name
    ensures "source" !in metadata ==> MarkdownFileName(metadata) == Some("unknown")
    ensures "source" in metadata && metadata["source"] == Str(dir + "/" + name) ==>
              MarkdownFileName(metadata) == Some(name)
  {
    FileNameOfJoin(dir, name);
    FileNameOfJoin("", "unknown");
  }

  /** The doc_type of each document, in order. */
  function DocTypes(docs: seq<Document>): (r: seq<Value>)
    reads docs
    ensures |r| == |docs|
    ensures forall i :: 0 <= i < |docs| ==> r[i] == DocTypeOf(docs[i])
  {
    if docs == [] then [] else DocTypes(docs[..|docs| - 1]) + [DocTypeOf(docs[|docs| - 1])]
  }

  /** The distinct types in order of first appearance: the key order of the
      tally dictionary. */
  function FirstSeen(types: seq<Value>): seq<Value>
  {
    if types == [] then []
    else
      var prev := FirstSeen(types[..|types| - 1]);
      var t := types[|types| - 1];
      if t in prev then prev else prev + [t]
  }

  /** The key order lists every type that occurs, each exactly once. */
  lemma {:induction false} FirstSeenKeys(types: seq<Value>)
    ensures forall i, j :: 0 <= i < j < |FirstSeen(types)| ==> FirstSeen(types)[i] != FirstSeen(types)[j]
    ensures forall t :: t in FirstSeen(types) <==> t in types
    decreases |types|
  {
    if types != [] {
      var init := types[..|types| - 1];
      FirstSeenKeys(init);
      assert types == init + [types[|types| - 1]];
    }
  }

  /** The sum of the counts of the given keys. */
  function Total(keys: seq<Value>, counts: map<Value, nat>): nat
  {
    if keys == [] then 0
    else Total(keys[..|keys| - 1], counts) + CountOf(counts, keys[|keys| - 1])
  }

  function CountOf(counts: map<Value, nat>, t: Value): nat
  {
    if t in counts then counts[t] else 0
  }

  lemma {:induction false} TotalOther(keys: seq<Value>, counts: map<Value, nat>, t: Value, n: nat)
    requires t !in keys
    ensures Total(keys, counts[t := n]) == Total(keys, counts)
    decreases |keys|
  {
    if keys != [] {
      TotalOther(keys[..|keys| - 1], counts, t, n);
    }
  }

  /** Adding one to a key that occurs exactly once among the keys adds one to the total. */
  lemma {:induction false} TotalBump(keys: seq<Value>, counts: map<Value, nat>, t: Value)
    requires forall i, j :: 0 <= i < j < |keys| ==> keys[i] != keys[j]
    requires t in keys
    ensures Total(keys, counts[t := CountOf(counts, t) + 1]) == Total(keys, counts) + 1
    decreases |keys|
  {
    var init := keys[..|keys| - 1];
    if keys[|keys| - 1] == t {
      assert t !in init;
      TotalOther(init, counts, t, CountOf(counts, t) + 1);
    } else {
      assert keys == init + [keys[|keys| - 1]];
      TotalBump(init, counts, t);
    }
  }

  lemma FirstSeenSnoc(types: seq<Value>, t: Value)
    ensures FirstSeen(types + [t]) == if t in types then FirstSeen(types) else FirstSeen(types) + [t]
  {
    assert (types + [t])[..|types|] == types;
    FirstSeenKeys(types);
  }

  /** The tally of `types`, built one type at a time as the loader's loop does. */
  function TallyOf(types: seq<Value>): map<Value, nat>
  {
    if types == [] then map[]
    else
      var m := TallyOf(types[..|types| - 1]);
      var t := types[|types| - 1];
      m[t := CountOf(m, t) + 1]
  }

  lemma TallyOfSnoc(types: seq<Value>, t: Value, longer: seq<Value>)
    requires longer == types + [t]
    ensures TallyOf(longer) == TallyOf(types)[t := CountOf(TallyOf(types), t) + 1]
  {
    assert longer[..|types|] == types;
    assert longer[|longer| - 1] == t;
  }

  /** The tally has a key for exactly the types that occur, and counts each
      type as often as it occurs. */
  lemma {:induction false} TallyOfCounts(types: seq<Value>)
    ensures forall t :: t in TallyOf(types) <==> t in types
    ensures forall t :: CountOf(TallyOf(types), t) == multiset(types)[t]
    decreases |types|
  {
    if types != [] {
      var init := types[..|types| - 1];
      var t := types[|types| - 1];
      TallyOfCounts(init);
      assert types == init + [t];
      assert multiset(types) == multiset(init) + multiset{t};
    }
  }

  /** The counts of the tally, taken in the dictionary's key order, add up to
      the number of documents counted. */
  lemma {:induction false} TallyOfTotal(types: seq<Value>)
    ensures Total(FirstSeen(types), TallyOf(types)) == |types|
    decreases |types|
  {
    if types != [] {
      var init := types[..|types| - 1];
      TallyOfTotal(init);
      assert types == init + [types[|types| - 1]];
      TallyTotalSnoc(init, types[|types| - 1]);
    }
  }

  lemma TallyTotalSnoc(init: seq<Value>, t: Value)
    requires Total(FirstSeen(init), TallyOf(init)) == |init|
    ensures Total(FirstSeen(init + [t]), TallyOf(init + [t])) == |init| + 1
  {
    if t in init {
      TallySeenStep(init, t);
    } else {
      TallyNewStep(init, t);
    }
  }

  /** Counting a type seen before keeps the key order and bumps its count. */
  lemma TallySeenStep(init: seq<Value>, t: Value)
    requires t in init
    ensures Total(FirstSeen(init + [t]), TallyOf(init + [t])) == Total(FirstSeen(init), TallyOf(init)) + 1
  {
    var keys := FirstSeen(init);
    var m := TallyOf(init);
    assert TallyOf(init + [t]) == m[t := CountOf(m, t) + 1] by {
      TallyOfSnoc(init, t, init + [t]);
    }
    assert FirstSeen(init + [t]) == keys by {
      FirstSeenSnoc(init, t);
    }
    FirstSeenKeys(init);
    TotalBump(keys, m, t);
  }

  /** Counting a new type appends it to the key order with count one. */
  lemma TallyNewStep(init: seq<Value>, t: Value)
    requires t !in init
    ensures Total(FirstSeen(init + [t]), TallyOf(init + [t])) == Total(FirstSeen(init), TallyOf(init)) + 1
  {
    var m := TallyOf(init);
    TallyOfSnoc(init, t, init + [t]);
    FirstSeenSnoc(init, t);
    assert t !in m by {
      TallyOfCounts(init);
    }
    FirstSeenKeys(init);
    TotalNew(FirstSeen(init), m, t);
  }

  /** Appending a key not yet counted, with count one, adds one to the total. */
  lemma TotalNew(keys: seq<Value>, counts: map<Value, nat>, t: Value)
    requires t !in keys && t !in counts
    ensures Total(keys + [t], counts[t := 1]) == Total(keys, counts) + 1
  {
    TotalOther(keys, counts, t, 1);
    assert (keys + [t])[..|keys|] == keys;
  }

  /** One pass of the tally loop: the key order and the tally of the first
      `i + 1` types, from those of the first `i`. */
  lemma TallyStep(types: seq<Value>, i: nat, t: Value, order: seq<Value>, counts: map<Value, nat>)
    requires i < |types| && t == types[i]
    requires order == FirstSeen(types[..i]) && counts == TallyOf(types[..i])
    ensures FirstSeen(types[..i + 1]) == (if t in counts then order else order + [t])
    ensures TallyOf(types[..i + 1]) == counts[t := CountOf(counts, t) + 1]
  {
    var seen := types[..i];
    assert types[..i + 1] == seen + [t];
    assert (t in counts) == (t in seen) by {
      TallyOfCounts(seen);
    }
    FirstSeenSnoc(seen, t);
    TallyOfSnoc(seen, t, types[..i + 1]);
  }

  /** What the finished tally loop has computed. */
  lemma TallyDone(types: seq<Value>, order: seq<Value>, counts: map<Value, nat>)
    requires order == FirstSeen(types[..|types|]) && counts == TallyOf(types[..|types|])
    ensures order == FirstSeen(types)
    ensures forall t :: t in counts <==> t in types
    ensures forall t :: t in counts ==> counts[t] == multiset(types)[t] >= 1
    ensures Total(order, counts) == |types|
  {
    assert types[..|types|] == types;
    TallyOfCounts(types);
    TallyOfTotal(types);
    forall t | t in counts
      ensures counts[t] == multiset(types)[t] >= 1
    {
      assert CountOf(counts, t) == counts[t];
    }
  }

  /** The summary loop of `document_loader`: counts the loaded documents per
      doc_type (a missing type counts as "unknown"). `order` is the key order
      of the resulting dictionary. */
  method TallyDocTypes(docs: seq<Document>) returns (order: seq<Value>, counts: map<Value, nat>)
    ensures order == FirstSeen(DocTypes(docs))
    ensures forall t :: t in counts <==> t in DocTypes(docs)
    ensures forall t :: t in counts ==> counts[t] == multiset(DocTypes(docs))[t] >= 1
    ensures Total(order, counts) == |docs|
  {
    ghost var types := DocTypes(docs);
    order, counts := [], map[];
    for i := 0 to |docs|
      invariant order == FirstSeen(types[..i])
      invariant counts == TallyOf(types[..i])
    {
      var docType := Get(docs[i].metadata, "doc_type", Str("unknown"));
      TallyStep(types, i, docType, order, counts);
      if docType !in counts {
        order := order + [docType];
      }
      counts := counts[docType := CountOf(counts, docType) + 1];
    }
    TallyDone(types, order, counts);
  }
}
