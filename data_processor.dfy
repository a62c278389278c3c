/** The document side of the pipeline (src/data_processor.py): turning the
    markdown files found under the content folder into documents, and cutting
    documents into overlapping word windows. */
module DataProcessor {
  import opened Common
  import opened Strings

  /** A document or a chunk of one: its text, its metadata dictionary and the
      path of the file it came from. */
  datatype Document = Document(content: string, metadata: Metadata, source: string)

  /** One file met while walking the content folder: its bare name, its path
      relative to the clone, and its text once converted from markdown (the
      walk and the conversion are not part of this model). */
  datatype FileEntry = FileEntry(name: string, relativePath: string, text: string)

  /** The `category` of every document: the configured subfolder when it is a
      non-empty string, otherwise "general". */
  function Category(subfolder: Option<string>): (c: string)
    ensures subfolder.Some? && subfolder.value != "" ==> c == subfolder.value
    ensures subfolder.None? || subfolder.value == "" ==> c == "general"
  {
    match subfolder
    case Some(s) => if s != "" then s else "general"
    case None => "general"
  }

  /** The document a file yields: only markdown files do. */
  function FileDocument(entry: FileEntry, subfolder: Option<string>): (r: Option<Document>)
    ensures r.Some? <==> EndsWith(entry.name, ".md")
    ensures r.Some? ==> r.value.content == entry.text && r.value.source == entry.relativePath
    ensures r.Some? ==> r.value.metadata.Keys == {"source", "title", "category"}
    ensures r.Some? ==> r.value.metadata["source"] == Text(r.value.source)
    ensures r.Some? ==> r.value.metadata["title"] == Text(SplitExt(entry.name).0)
    ensures r.Some? ==> r.value.metadata["category"] == Text(Category(subfolder))
  {
    if EndsWith(entry.name, ".md") then
      Some(Document(
        entry.text,
        map["source" := Text(entry.relativePath),
            "title" := Text(SplitExt(entry.name).0),
            "category" := Text(Category(subfolder))],
        entry.relativePath))
    else
      None
  }

  /** The title of a markdown file is its name without the ".md" extension,
      except for names made only of dots before ".md", which keep their whole
      name (that is how `os.path.splitext` treats leading dots). */
  lemma MarkdownTitle(name: string)
    requires EndsWith(name, ".md")
    ensures (exists j :: 0 <= j < |name| - 3 && name[j] != '.') ==> SplitExt(name).0 + ".md" == name
    ensures (forall j :: 0 <= j < |name| - 3 ==> name[j] == '.') ==> SplitExt(name).0 == name
  {
    assert name[|name| - 3] == '.';
    assert name[|name| - 2..] == "md";
  }

  /** The documents of a sequence of files, in walk order. */
  function MarkdownDocuments(entries: seq<FileEntry>, subfolder: Option<string>): seq<Document>
  {
    if |entries| == 0 then []
    else
      var prefix := MarkdownDocuments(entries[..|entries| - 1], subfolder);
      match FileDocument(entries[|entries| - 1], subfolder)
      case Some(d) => prefix + [d]
      case None => prefix
  }

  /** How many of the files are markdown files. */
  function MarkdownCount(entries: seq<FileEntry>): nat
  {
    if |entries| == 0 then 0
    else MarkdownCount(entries[..|entries| - 1]) + (if EndsWith(entries[|entries| - 1].name, ".md") then 1 else 0)
  }

  /** One document per markdown file, each carrying its own path as `source`
      both as a field and in its metadata, and its file name without the
      extension as `title`. */
  lemma {:induction false} MarkdownDocumentsShape(entries: seq<FileEntry>, subfolder: Option<string>)
    ensures |MarkdownDocuments(entries, subfolder)| == MarkdownCount(entries) <= |entries|
    ensures forall d :: d in MarkdownDocuments(entries, subfolder) ==>
              d.metadata.Keys == {"source", "title", "category"} &&
              d.metadata["source"] == Text(d.source) && d.metadata["category"] == Text(Category(subfolder)) &&
              exists e :: e in entries && EndsWith(e.name, ".md") && d.source == e.relativePath && d.content == e.text &&
                          d.metadata["title"] == Text(SplitExt(e.name).0)
  {
    if |entries| > 0 {
      var init := entries[..|entries| - 1];
      MarkdownDocumentsShape(init, subfolder);
      forall e | e in init ensures e in entries {
        var k :| 0 <= k < |init| && init[k] == e;
        assert entries[k] == e;
      }
    }
  }

  /** The file loop of `get_documents`: keeps the markdown files, in walk
      order, with their metadata. */
  method CollectDocuments(entries: seq<FileEntry>, subfolder: Option<string>) returns (documents: seq<Document>)
    ensures documents == MarkdownDocuments(entries, subfolder)
  {
    documents := [];
    for k := 0 to |entries|
      invariant documents == MarkdownDocuments(entries[..k], subfolder)
    {
      assert entries[..k + 1][..k] == entries[..k];
      var entry := entries[k];
      if EndsWith(entry.name, ".md") {
        var metadata := map["source" := Text(entry.relativePath),
                            "title" := Text(SplitExt(entry.name).0),
                            "category" := Text(Category(subfolder))];
        documents := documents + [Document(entry.text, metadata, entry.relativePath)];
      }
    }
    assert entries[..|entries|] == entries;
  }

  // ---------------------------------------------------------------------------
  // Chunking

  /** The chunk whose window starts at word `i`: up to `size` words re-joined
      with single spaces, the parent's metadata with `chunk_index` set to
      `i / step`, and the parent's source. */
  function ChunkAt(doc: Document, words: seq<string>, size: nat, step: nat, i: nat): Document
    requires step > 0 && i <= |words|
  {
    Document(Join(words[i..Min(i + size, |words|)], " "),
             doc.metadata["chunk_index" := Num(i / step)],
             doc.source)
  }

  /** The chunks whose windows start at `i`, `i + step`, `i + 2*step`, ...
      below the word count. */
  function ChunksFrom(doc: Document, words: seq<string>, size: nat, step: nat, i: nat): seq<Document>
    requires step > 0
    decreases |words| - i
  {
    if i >= |words| then []
    else [ChunkAt(doc, words, size, step, i)] + ChunksFrom(doc, words, size, step, i + step)
  }

  /** The chunks of one document. */
  function DocChunks(doc: Document, size: nat, step: nat): seq<Document>
    requires step > 0
  {
    ChunksFrom(doc, Split(doc.content), size, step, 0)
  }

  /** The chunks of several documents, document after document. */
  function ChunkAll(docs: seq<Document>, size: nat, step: nat): seq<Document>
    requires step > 0
  {
    if |docs| == 0 then []
    else ChunkAll(docs[..|docs| - 1], size, step) + DocChunks(docs[|docs| - 1], size, step)
  }

  /** What `chunk_documents(documents, chunk_size, chunk_overlap)` returns:
      a zero stride makes `range` raise as soon as a document is met, a
      negative stride gives an empty range for every document. */
  function ChunkResult(docs: seq<Document>, chunkSize: int, chunkOverlap: int): Result<seq<Document>>
    requires chunkSize >= 0
  {
    var step := chunkSize - chunkOverlap;
    if |docs| == 0 then Ok([])
    else if step == 0 then Err(ValueError("range() arg 3 must not be zero"))
    else if step < 0 then Ok([])
    else Ok(ChunkAll(docs, chunkSize, step))
  }

  method ChunkDocuments(documents: seq<Document>, chunkSize: int, chunkOverlap: int) returns (r: Result<seq<Document>>)
    requires chunkSize >= 0
    ensures r == ChunkResult(documents, chunkSize, chunkOverlap)
  {
    var chunked: seq<Document> := [];
    var step := chunkSize - chunkOverlap;
    for d := 0 to |documents|
      invariant step > 0 ==> chunked == ChunkAll(documents[..d], chunkSize, step)
      invariant step <= 0 ==> chunked == []
      invariant step == 0 ==> d == 0
    {
      var doc := documents[d];
      var words := Split(doc.content);
      if step == 0 {
        return Err(ValueError("range() arg 3 must not be zero"));
      }
      if step > 0 {
        ChunkAllSnoc(documents, d, chunkSize, step);
        chunked := AppendWindows(chunked, doc, words, chunkSize, step);
      }
    }
    assert documents[..|documents|] == documents;
    r := Ok(chunked);
  }

  /** The inner loop of `chunk_documents`: appends the windows of one
      document, starting at 0 and advancing by the stride. */
  method AppendWindows(chunked: seq<Document>, doc: Document, words: seq<string>, chunkSize: nat, step: nat)
    returns (out: seq<Document>)
    requires step > 0
    ensures out == chunked + ChunksFrom(doc, words, chunkSize, step, 0)
  {
    out := chunked;
    var i := 0;
    while i < |words|
      invariant out + ChunksFrom(doc, words, chunkSize, step, i) == chunked + ChunksFrom(doc, words, chunkSize, step, 0)
      decreases |words| - i
    {
      ghost var rest := ChunksFrom(doc, words, chunkSize, step, i + step);
      assert ChunksFrom(doc, words, chunkSize, step, i) == [ChunkAt(doc, words, chunkSize, step, i)] + rest;
      var chunk := Join(words[i..Min(i + chunkSize, |words|)], " ");
      var next := Document(chunk, doc.metadata["chunk_index" := Num(i / step)], doc.source);
      assert (out + [next]) + rest == out + ([next] + rest);
      out := out + [next];
      i := i + step;
    }
  }

  /** One more document adds its windows at the end. */
  lemma ChunkAllSnoc(documents: seq<Document>, d: nat, size: nat, step: nat)
    requires step > 0 && d < |documents|
    ensures ChunkAll(documents[..d + 1], size, step) ==
              ChunkAll(documents[..d], size, step) + ChunksFrom(documents[d], Split(documents[d].content), size, step, 0)
  {
    assert documents[..d + 1][..d] == documents[..d];
  }

  // ---------------------------------------------------------------------------
  // Properties of the windows

  /** The j-th chunk from `i` exists exactly when its start `i + j * step`
      is below the word count, and it is the window starting there. */
  lemma ChunksFromIndex(doc: Document, words: seq<string>, size: nat, step: nat, i: nat, j: nat)
    requires step > 0
    ensures j < |ChunksFrom(doc, words, size, step, i)| <==> i + j * step < |words|
    ensures j < |ChunksFrom(doc, words, size, step, i)| ==>
              ChunksFrom(doc, words, size, step, i)[j] == ChunkAt(doc, words, size, step, i + j * step)
  {
    ChunksFromOffset(doc, words, size, step, i, j);
    OffsetIsProduct(step, j);
  }

  /** `j * step`, counted out one stride at a time. */
  function Offset(step: nat, j: nat): nat
  {
    if j == 0 then 0 else Offset(step, j - 1) + step
  }

  lemma {:induction false} OffsetIsProduct(step: nat, j: nat)
    ensures Offset(step, j) == j * step
  {
    if j > 0 {
      OffsetIsProduct(step, j - 1);
      MulSucc(j - 1, step);
    }
  }

  /** `ChunksFromIndex` with the start counted out by `Offset`. */
  lemma {:induction false} ChunksFromOffset(doc: Document, words: seq<string>, size: nat, step: nat, i: nat, j: nat)
    requires step > 0
    ensures j < |ChunksFrom(doc, words, size, step, i)| <==> i + Offset(step, j) < |words|
    ensures j < |ChunksFrom(doc, words, size, step, i)| ==>
              ChunksFrom(doc, words, size, step, i)[j] == ChunkAt(doc, words, size, step, i + Offset(step, j))
    decreases j
  {
    if i < |words| && j > 0 {
      var rest := ChunksFrom(doc, words, size, step, i + step);
      assert ChunksFrom(doc, words, size, step, i) == [ChunkAt(doc, words, size, step, i)] + rest;
      ChunksFromOffset(doc, words, size, step, i + step, j - 1);
      assert i + step + Offset(step, j - 1) == i + Offset(step, j);
    }
  }

  /** A document of n words yields ceil(n / s) chunks for the stride s,
      hence none when it has no words. */
  lemma ChunkCount(doc: Document, size: nat, step: nat)
    requires step > 0
    ensures |DocChunks(doc, size, step)| == CeilDiv(|Split(doc.content)|, step)
    ensures |Split(doc.content)| == 0 <==> DocChunks(doc, size, step) == []
  {
    ChunksFromCount(doc, Split(doc.content), size, step);
  }

  lemma ChunksFromCount(doc: Document, words: seq<string>, size: nat, step: nat)
    requires step > 0
    ensures |ChunksFrom(doc, words, size, step, 0)| == CeilDiv(|words|, step)
  {
    var m := |ChunksFrom(doc, words, size, step, 0)|;
    ChunksFromIndex(doc, words, size, step, 0, m);
    if m > 0 {
      ChunksFromIndex(doc, words, size, step, 0, m - 1);
    }
    CeilDivCount(|words|, step, m);
  }

  /** Chunk j of a document starts at word j * s, holds the next chunk_size
      words (fewer only at the end), has chunk_index j, keeps every other
      metadata entry and the parent's source. */
  lemma ChunkContents(doc: Document, size: nat, step: nat, j: nat)
    requires step > 0
    ensures j < |DocChunks(doc, size, step)| <==> j * step < |Split(doc.content)|
    ensures j < |DocChunks(doc, size, step)| ==>
              var words := Split(doc.content);
              var c := DocChunks(doc, size, step)[j];
              c.source == doc.source &&
              c.metadata == doc.metadata["chunk_index" := Num(j)] &&
              Split(c.content) == words[j * step..Min(j * step + size, |words|)]
  {
    var words := Split(doc.content);
    ChunksFromIndex(doc, words, size, step, 0, j);
    if j * step < |words| {
      ChunkAtContents(doc, words, size, step, j);
    }
  }

  /** The window starting at `j * step` is chunk number j, and re-splitting
      its text gives its words back. */
  lemma ChunkAtContents(doc: Document, words: seq<string>, size: nat, step: nat, j: nat)
    requires step > 0 && j * step < |words|
    requires forall k :: 0 <= k < |words| ==> IsWord(words[k])
    ensures var c := ChunkAt(doc, words, size, step, j * step);
            c.source == doc.source &&
            c.metadata == doc.metadata["chunk_index" := Num(j)] &&
            Split(c.content) == words[j * step..Min(j * step + size, |words|)]
  {
    DivBetween(j * step, step, j);
    WindowSplit(words, j * step, Min(j * step + size, |words|));
  }

  /** Joining a run of words with single spaces and splitting it again gives
      the run back. */
  lemma WindowSplit(words: seq<string>, lo: nat, hi: nat)
    requires lo <= hi <= |words|
    requires forall k :: 0 <= k < |words| ==> IsWord(words[k])
    ensures Split(Join(words[lo..hi], " ")) == words[lo..hi]
  {
    var window := words[lo..hi];
    forall k | 0 <= k < |window| ensures IsWord(window[k]) {
      assert window[k] == words[lo + k];
    }
    SplitJoin(window);
  }

  /** No chunk holds more than chunk_size words, and none is empty. */
  lemma ChunkSize(doc: Document, size: nat, step: nat, j: nat)
    requires step > 0 && size > 0 && j < |DocChunks(doc, size, step)|
    ensures 0 < |Split(DocChunks(doc, size, step)[j].content)| <= size
  {
    ChunkContents(doc, size, step, j);
  }

  /** When chunk j is full, its last chunk_size - s words (the overlap) are
      the first words of chunk j + 1. The second requires follows from the
      third when s < chunk_size; with no overlap (s == chunk_size) a full
      chunk may be the last one, so it is stated on its own. */
  lemma ChunkOverlap(doc: Document, size: nat, step: nat, j: nat)
    requires 0 < step <= size
    requires (j + 1) * step < |Split(doc.content)|
    requires j * step + size <= |Split(doc.content)|
    ensures j + 1 < |DocChunks(doc, size, step)|
    ensures var a := Split(DocChunks(doc, size, step)[j].content);
            var b := Split(DocChunks(doc, size, step)[j + 1].content);
            |a| == size && |b| >= size - step && a[step..] == b[..size - step]
  {
    var s0 := j * step;
    MulSucc(j, step);
    ChunkStartingAt(doc, size, step, j, s0);
    ChunkStartingAt(doc, size, step, j + 1, s0 + step);
    WindowOverlap(Split(doc.content), s0, size, step);
  }

  /** `ChunkContents` for a chunk whose start is already known. */
  lemma ChunkStartingAt(doc: Document, size: nat, step: nat, j: nat, start: nat)
    requires step > 0 && start == j * step && start < |Split(doc.content)|
    ensures j < |DocChunks(doc, size, step)|
    ensures Split(DocChunks(doc, size, step)[j].content) == Split(doc.content)[start..Min(start + size, |Split(doc.content)|)]
  {
    ChunkContents(doc, size, step, j);
  }

  /** Two windows `step` apart share `size - step` words when the first is
      full. */
  lemma WindowOverlap(words: seq<string>, s0: nat, size: nat, step: nat)
    requires 0 < step <= size && s0 + step < |words| && s0 + size <= |words|
    ensures var a := words[s0..s0 + size];
            var b := words[s0 + step..Min(s0 + step + size, |words|)];
            |b| >= size - step && a[step..] == b[..size - step]
  {
    var a := words[s0..s0 + size];
    var b := words[s0 + step..Min(s0 + step + size, |words|)];
    assert a[step..] == words[s0 + step..s0 + size];
    assert b[..size - step] == words[s0 + step..s0 + size];
  }

  /** A document of 1 to s words (s the stride) becomes exactly one chunk:
      its words joined by single spaces, with chunk_index 0. */
  lemma ShortDocument(doc: Document, size: nat, step: nat)
    requires 0 < step <= size
    requires 0 < |Split(doc.content)| <= step
    ensures DocChunks(doc, size, step) ==
              [Document(Join(Split(doc.content), " "), doc.metadata["chunk_index" := Num(0)], doc.source)]
  {
    var words := Split(doc.content);
    assert words[0..Min(size, |words|)] == words;
    assert ChunksFrom(doc, words, size, step, step) == [];
  }

  /** A document longer than the stride but no longer than chunk_size still
      yields a second chunk, although the first already holds every word and
      the second is a tail of the first. */
  lemma ExtraChunk(doc: Document, size: nat, step: nat)
    requires 0 < step < |Split(doc.content)| <= size
    ensures |DocChunks(doc, size, step)| >= 2
    ensures var a := Split(DocChunks(doc, size, step)[0].content);
            var b := Split(DocChunks(doc, size, step)[1].content);
            a == Split(doc.content) && b == a[step..]
  {
    var words := Split(doc.content);
    ChunkContents(doc, size, step, 0);
    ChunkContents(doc, size, step, 1);
    assert words[0..|words|] == words;
  }

  /** With the default window (1000 words, stride 800) a 2200-word document
      gives windows starting at 0, 800 and 1600, the last one 600 words. */
  lemma DefaultWindowExample(doc: Document)
    requires |Split(doc.content)| == 2200
    ensures |DocChunks(doc, 1000, 800)| == 3
    ensures forall j :: 0 <= j < 3 ==> DocChunks(doc, 1000, 800)[j].metadata == doc.metadata["chunk_index" := Num(j)]
    ensures |Split(DocChunks(doc, 1000, 800)[0].content)| == 1000
    ensures |Split(DocChunks(doc, 1000, 800)[1].content)| == 1000
    ensures |Split(DocChunks(doc, 1000, 800)[2].content)| == 600
  {
    ChunkCount(doc, 1000, 800);
    assert CeilDiv(2200, 800) == 3;
    ChunkContents(doc, 1000, 800, 0);
    ChunkContents(doc, 1000, 800, 1);
    ChunkContents(doc, 1000, 800, 2);
  }

  /** The chunks of several documents follow document order: the chunks of the
      first documents, then those of the next. */
  lemma ChunkAllAppend(docs: seq<Document>, more: seq<Document>, size: nat, step: nat)
    requires step > 0
    ensures ChunkAll(docs + more, size, step) == ChunkAll(docs, size, step) + ChunkAll(more, size, step)
  {
    var f := d => DocChunks(d, size, step);
    ChunkAllFlatMap(docs + more, size, step, f);
    ChunkAllFlatMap(docs, size, step, f);
    ChunkAllFlatMap(more, size, step, f);
    FlatMapAppend(docs, more, f);
  }

  /** `f(xs[0]) + f(xs[1]) + ...` */
  function FlatMap<A, B>(xs: seq<A>, f: A -> seq<B>): seq<B>
  {
    if |xs| == 0 then [] else FlatMap(xs[..|xs| - 1], f) + f(xs[|xs| - 1])
  }

  lemma {:induction false} FlatMapAppend<A, B>(xs: seq<A>, ys: seq<A>, f: A -> seq<B>)
    ensures FlatMap(xs + ys, f) == FlatMap(xs, f) + FlatMap(ys, f)
    decreases |ys|
  {
    if |ys| == 0 {
      assert xs + ys == xs;
    } else {
      var init := ys[..|ys| - 1];
      assert (xs + ys)[..|xs + ys| - 1] == xs + init;
      assert (xs + ys)[|xs + ys| - 1] == ys[|ys| - 1];
      FlatMapAppend(xs, init, f);
    }
  }

  /** `ChunkAll` chunks each document in turn. */
  lemma {:induction false} ChunkAllFlatMap(docs: seq<Document>, size: nat, step: nat, f: Document -> seq<Document>)
    requires step > 0
    requires forall d :: f(d) == DocChunks(d, size, step)
    ensures ChunkAll(docs, size, step) == FlatMap(docs, f)
    decreases |docs|
  {
    if |docs| > 0 {
      ChunkAllFlatMap(docs[..|docs| - 1], size, step, f);
    }
  }

  /** The key a chunk is filed under: its source and its chunk index (0 when
      the metadata lacks one). */
  function ChunkKey(c: Document): (string, Value)
  {
    (c.source, Get(c.metadata, "chunk_index", Num(0)))
  }

  /** Every chunk of several documents comes from one of them and carries a
      non-negative chunk index. */
  lemma {:induction false} ChunkAllOrigin(docs: seq<Document>, size: nat, step: nat, p: nat)
    requires step > 0 && p < |ChunkAll(docs, size, step)|
    ensures exists d :: 0 <= d < |docs| && ChunkAll(docs, size, step)[p].source == docs[d].source
    ensures ChunkKey(ChunkAll(docs, size, step)[p]).1.Num? && ChunkKey(ChunkAll(docs, size, step)[p]).1.n >= 0
  {
    var init := docs[..|docs| - 1];
    var last := docs[|docs| - 1];
    var prefix := ChunkAll(init, size, step);
    if p < |prefix| {
      ChunkAllOrigin(init, size, step, p);
      var d :| 0 <= d < |init| && prefix[p].source == init[d].source;
      assert docs[d] == init[d];
    } else {
      ChunkContents(last, size, step, p - |prefix|);
      assert ChunkAll(docs, size, step)[p] == DocChunks(last, size, step)[p - |prefix|];
    }
  }

  predicate KeysDistinct(cs: seq<Document>)
  {
    forall p, q :: 0 <= p < q < |cs| ==> ChunkKey(cs[p]) != ChunkKey(cs[q])
  }

  /** Documents with distinct sources give chunks with distinct keys. */
  lemma {:induction false} ChunkKeysDistinct(docs: seq<Document>, size: nat, step: nat)
    requires step > 0
    requires forall a, b :: 0 <= a < b < |docs| ==> docs[a].source != docs[b].source
    ensures KeysDistinct(ChunkAll(docs, size, step))
  {
    if |docs| > 0 {
      var init := docs[..|docs| - 1];
      var last := docs[|docs| - 1];
      var prefix := ChunkAll(init, size, step);
      var tail := DocChunks(last, size, step);
      var cs := ChunkAll(docs, size, step);
      ChunkKeysDistinct(init, size, step);
      assert cs == prefix + tail;
      forall p, q | 0 <= p < q < |cs| ensures ChunkKey(cs[p]) != ChunkKey(cs[q]) {
        if q < |prefix| {
          assert cs[p] == prefix[p] && cs[q] == prefix[q];
          assert ChunkKey(prefix[p]) != ChunkKey(prefix[q]);
        } else if p >= |prefix| {
          var jp, jq := p - |prefix|, q - |prefix|;
          ChunkContents(last, size, step, jp);
          ChunkContents(last, size, step, jq);
          assert cs[p] == tail[jp] && cs[q] == tail[jq];
          assert ChunkKey(cs[p]).1 == Num(jp);
          assert ChunkKey(cs[q]).1 == Num(jq);
          assert ChunkKey(cs[p]) != ChunkKey(cs[q]);
        } else {
          ChunkAllOrigin(init, size, step, p);
          var d :| 0 <= d < |init| && prefix[p].source == init[d].source;
          ChunkContents(last, size, step, q - |prefix|);
          assert cs[p] == prefix[p] && cs[q] == tail[q - |prefix|];
          assert init[d] == docs[d];
          assert cs[q].source == docs[|docs| - 1].source;
          assert cs[p].source == docs[d].source;
          assert docs[d].source != docs[|docs| - 1].source;
          assert ChunkKey(cs[p]) != ChunkKey(cs[q]);
        }
      }
    }
  }
}
