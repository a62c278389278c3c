/** The two vector indexes behind one `add_documents`/`search` contract
    (src/vector_db.py). The sentence embedder, the FAISS nearest-neighbour
    search and the Pinecone service are oracles: the embedder is a function
    fixed when an index is built, the searches are functions passed to
    `Search`, and Pinecone's writes are kept as a log of upsert requests. */
module VectorDb {
  import opened Common

  /** A dense vector from the sentence embedder. */
  type Embedding = seq<real>

  /** A record handed to `add_documents`: `{id, content, metadata}`. */
  datatype Record = Record(id: string, content: string, metadata: Metadata)

  /** What `search` returns for one hit. */
  datatype SearchResult = SearchResult(content: string, metadata: Metadata, score: real)

  // ---------------------------------------------------------------------------
  // Pinecone

  /** Records are upserted at most this many per request. */
  const BatchSize: nat := 100

  /** Width of the all-MiniLM-L6-v2 embeddings the remote index is created for. */
  const Dimension: nat := 384

  /** A `create_index` request. */
  datatype IndexSpec = IndexSpec(name: string, dimension: nat, metric: string)

  /** One vector of an upsert request. */
  datatype PineconeVector = PineconeVector(id: string, values: Embedding, metadata: Metadata)

  /** A `query` request. */
  datatype QueryRequest = QueryRequest(vector: Embedding, topK: int, includeMetadata: bool)

  /** One match of a query response. */
  datatype Match = Match(metadata: Metadata, score: real)

  /** The vector a record is stored as: its id, the embedding of its content,
      and its metadata with `content` set to the content. */
  function Vectorize(doc: Record, embed: string -> Embedding): PineconeVector
  {
    PineconeVector(doc.id, embed(doc.content), doc.metadata["content" := Text(doc.content)])
  }

  /** The slices `s[i:i+size]`, `s[i+size:i+2*size]`, ... of a sequence. */
  function Batches<T>(s: seq<T>, size: nat, i: nat): seq<seq<T>>
    requires size > 0
    decreases |s| - i
  {
    if i >= |s| then [] else [s[i..Min(i + size, |s|)]] + Batches(s, size, i + size)
  }

  function Flatten<T>(ss: seq<seq<T>>): seq<T>
  {
    if |ss| == 0 then [] else ss[0] + Flatten(ss[1..])
  }

  /** Sending the batches one after the other sends every vector once, in
      order. */
  lemma {:induction false} BatchesFlatten<T>(s: seq<T>, size: nat, i: nat)
    requires size > 0 && i <= |s|
    ensures Flatten(Batches(s, size, i)) == s[i..]
    decreases |s| - i
  {
    if i < |s| {
      var end := Min(i + size, |s|);
      BatchesFlatten(s, size, end);
      if end < i + size {
        assert Batches(s, size, i + size) == [];
        assert s[end..] == [];
      }
      assert s[i..] == s[i..end] + s[end..];
    }
  }

  /** Batch j exists exactly when `i + j * size` is below the length, and
      holds the slice starting there. */
  lemma {:induction false} BatchesIndex<T>(s: seq<T>, size: nat, i: nat, j: nat)
    requires size > 0
    ensures j < |Batches(s, size, i)| <==> i + j * size < |s|
    ensures j < |Batches(s, size, i)| ==>
              Batches(s, size, i)[j] == s[i + j * size..Min(i + j * size + size, |s|)]
    decreases j
  {
    if i < |s| && j > 0 {
      BatchesIndex(s, size, i + size, j - 1);
      MulSucc(j - 1, size);
    }
  }

  /** There are ceil(n / size) batches, every one non-empty and no larger than
      `size`, and all but the last exactly `size`. */
  lemma BatchesShape<T>(s: seq<T>, size: nat)
    requires size > 0
    ensures |Batches(s, size, 0)| == CeilDiv(|s|, size)
    ensures forall j :: 0 <= j < |Batches(s, size, 0)| ==> 0 < |Batches(s, size, 0)[j]| <= size
    ensures forall j :: 0 <= j < |Batches(s, size, 0)| - 1 ==> |Batches(s, size, 0)[j]| == size
  {
    var m := |Batches(s, size, 0)|;
    BatchesIndex(s, size, 0, m);
    if m > 0 {
      BatchesIndex(s, size, 0, m - 1);
    }
    CeilDivCount(|s|, size, m);
    forall j | 0 <= j < m
      ensures 0 < |Batches(s, size, 0)[j]| <= size && (j < m - 1 ==> |Batches(s, size, 0)[j]| == size)
    {
      BatchLength(s, size, j);
    }
  }

  /** Batch j is non-empty, holds at most `size` items, and exactly `size`
      when another batch follows. */
  lemma BatchLength<T>(s: seq<T>, size: nat, j: nat)
    requires size > 0 && j < |Batches(s, size, 0)|
    ensures 0 < |Batches(s, size, 0)[j]| <= size
    ensures j + 1 < |Batches(s, size, 0)| ==> |Batches(s, size, 0)[j]| == size
  {
    BatchesIndex(s, size, 0, j);
    BatchesIndex(s, size, 0, j + 1);
    MulSucc(j, size);
  }

  /** The Pinecone-backed index. `created` logs the `create_index` request
      made when the index was missing; `upserts` logs every upsert request. */
  class PineconeDB {
    const indexName: string
    const embed: string -> Embedding
    var created: seq<IndexSpec>
    var upserts: seq<seq<PineconeVector>>

    /** Connects, and creates a cosine index of the embedder's width under
        `indexName` unless the service already lists one. */
    constructor (apiKey: string, environment: string, indexName: string, existing: set<string>,
                 embed: string -> Embedding)
      ensures this.indexName == indexName && this.embed == embed
      ensures created == if indexName in existing then [] else [IndexSpec(indexName, Dimension, "cosine")]
      ensures upserts == []
    {
      this.indexName := indexName;
      this.embed := embed;
      created := if indexName in existing then [] else [IndexSpec(indexName, Dimension, "cosine")];
      upserts := [];
    }

    /** Builds one vector per record, then upserts them in slices of
        `BatchSize`. */
    method AddDocuments(documents: seq<Record>)
      modifies this`upserts
      ensures upserts == old(upserts) + Batches(Vectors(documents, embed), BatchSize, 0)
    {
      var vectors: seq<PineconeVector> := [];
      for d := 0 to |documents|
        invariant |vectors| == d
        invariant forall j :: 0 <= j < d ==> vectors[j] == Vectorize(documents[j], embed)
      {
        var doc := documents[d];
        vectors := vectors + [PineconeVector(doc.id, embed(doc.content), doc.metadata["content" := Text(doc.content)])];
      }
      assert vectors == Vectors(documents, embed);
      var i := 0;
      while i < |vectors|
        invariant upserts + Batches(vectors, BatchSize, i) == old(upserts) + Batches(vectors, BatchSize, 0)
        decreases |vectors| - i
      {
        var batch := vectors[i..Min(i + BatchSize, |vectors|)];
        upserts := upserts + [batch];
        i := i + BatchSize;
      }
    }

    /** Embeds the question, asks the service for `k` matches with their
        metadata, and maps the matches to results. */
    method Search(query: string, k: int, remote: QueryRequest -> seq<Match>) returns (r: Result<seq<SearchResult>>)
      ensures r == MatchesToResults(remote(QueryRequest(embed(query), k, true)))
    {
      var response := remote(QueryRequest(embed(query), k, true));
      r := MatchesToResults(response);
    }
  }

  /** The vectors of a list of records, in order. */
  function Vectors(documents: seq<Record>, embed: string -> Embedding): seq<PineconeVector>
  {
    seq(|documents|, j requires 0 <= j < |documents| => Vectorize(documents[j], embed))
  }

  /** Everything one `add_documents` call upserts: each record exactly once, in
      input order, under its own id, with its content in the metadata; in
      ceil(n / 100) requests of at most 100 vectors. */
  lemma UpsertedVectors(documents: seq<Record>, embed: string -> Embedding)
    ensures var batches := Batches(Vectors(documents, embed), BatchSize, 0);
            |batches| == CeilDiv(|documents|, BatchSize) &&
            (forall j :: 0 <= j < |batches| ==> 0 < |batches[j]| <= BatchSize) &&
            Flatten(batches) == Vectors(documents, embed)
    ensures var vectors := Vectors(documents, embed);
            |vectors| == |documents| &&
            forall j :: 0 <= j < |documents| ==>
              vectors[j].id == documents[j].id &&
              vectors[j].values == embed(documents[j].content) &&
              vectors[j].metadata.Keys == documents[j].metadata.Keys + {"content"} &&
              vectors[j].metadata["content"] == Text(documents[j].content) &&
              forall key :: key in documents[j].metadata && key != "content" ==>
                vectors[j].metadata[key] == documents[j].metadata[key]
  {
    var vectors := Vectors(documents, embed);
    BatchesFlatten(vectors, BatchSize, 0);
    BatchesShape(vectors, BatchSize);
    assert vectors[0..] == vectors;
  }

  /** A match carries its content as a string under the `content` key. */
  predicate HasTextContent(metadata: Metadata)
  {
    "content" in metadata && metadata["content"].Text?
  }

  /** The result list of a Pinecone query: one result per match, in order,
      with the match's `content` entry as content and its score unchanged. */
  function MatchesToResults(matches: seq<Match>): (r: Result<seq<SearchResult>>)
    ensures r.Ok? <==> forall i :: 0 <= i < |matches| ==> HasTextContent(matches[i].metadata)
    ensures r.Ok? ==> |r.value| == |matches|
    ensures r.Ok? ==> forall i :: 0 <= i < |matches| ==>
              r.value[i] == SearchResult(matches[i].metadata["content"].s, matches[i].metadata, matches[i].score)
    ensures r.Err? ==> r.error == KeyError("content")
  {
    if |matches| == 0 then Ok([])
    else if !HasTextContent(matches[0].metadata) then Err(KeyError("content"))
    else
      match MatchesToResults(matches[1..])
      case Err(e) => Err(e)
      case Ok(rest) =>
        Ok([SearchResult(matches[0].metadata["content"].s, matches[0].metadata, matches[0].score)] + rest)
  }

  /** Searching returns what was upserted: a match on a stored vector gives
      back the record's content and metadata (with `content` added), and the
      service's score. */
  lemma {:induction false} UpsertSearchRoundTrip(records: seq<Record>, scores: seq<real>, embed: string -> Embedding)
    requires |scores| == |records|
    ensures var matches := seq(|records|, j requires 0 <= j < |records| => Match(Vectorize(records[j], embed).metadata, scores[j]));
            MatchesToResults(matches) ==
              Ok(seq(|records|, j requires 0 <= j < |records| =>
                   SearchResult(records[j].content, records[j].metadata["content" := Text(records[j].content)], scores[j])))
  {
    var matches := seq(|records|, j requires 0 <= j < |records| => Match(Vectorize(records[j], embed).metadata, scores[j]));
    var expected := seq(|records|, j requires 0 <= j < |records| =>
                      SearchResult(records[j].content, records[j].metadata["content" := Text(records[j].content)], scores[j]));
    assert forall i :: 0 <= i < |matches| ==> HasTextContent(matches[i].metadata);
    var r := MatchesToResults(matches);
    assert r.Ok?;
    forall i | 0 <= i < |records| ensures r.value[i] == expected[i] {
    }
    assert r.value == expected;
  }

  // ---------------------------------------------------------------------------
  // FAISS

  /** The exact L2 index: the embeddings it was built from, in order. */
  datatype FlatIndex = FlatIndex(vectors: seq<Embedding>)

  /** One row of a FAISS answer: a squared L2 distance and the position of
      the stored vector, or -1 when fewer vectors than asked for exist. */
  datatype Neighbour = Neighbour(distance: real, idx: int)

  type Hit = n: Neighbour | n.distance >= 0.0 && n.idx >= -1 witness Neighbour(0.0, 0)

  function Embeddings(documents: seq<Record>, embed: string -> Embedding): seq<Embedding>
  {
    seq(|documents|, j requires 0 <= j < |documents| => embed(documents[j].content))
  }

  /** The FAISS-backed index. Each non-empty `add_documents` replaces both
      the stored records and the index built from them. */
  class FaissDB {
    const embed: string -> Embedding
    var index: Option<FlatIndex>
    var documents: seq<Record>

    /** An index exists only once records were added, and it holds their
        embeddings in record order. */
    ghost predicate Valid()
      reads this
    {
      index.Some? ==> |documents| > 0 && index.value == FlatIndex(Embeddings(documents, embed))
    }

    constructor (embed: string -> Embedding)
      ensures Valid() && this.embed == embed
      ensures index == None && documents == []
    {
      this.embed := embed;
      index := None;
      documents := [];
    }

    method AddDocuments(docs: seq<Record>)
      requires Valid()
      modifies this
      ensures Valid()
      ensures docs == [] ==> index == old(index) && documents == old(documents)
      ensures docs != [] ==> documents == docs && index == Some(FlatIndex(Embeddings(docs, embed)))
    {
      if |docs| == 0 {
        return;
      }
      documents := docs;
      var embeddings := seq(|docs|, j requires 0 <= j < |docs| => embed(docs[j].content));
      index := Some(FlatIndex(embeddings));
    }

    /** Before any records were added there is nothing to search; afterwards
        the `k` rows FAISS returns are post-processed in order. */
    method Search(query: string, k: int, knn: (FlatIndex, Embedding, int) -> seq<Hit>) returns (results: seq<SearchResult>)
      requires Valid()
      requires index.Some? ==> |knn(index.value, embed(query), k)| == k
      ensures index.None? ==> results == []
      ensures index.Some? ==> results == PostProcess(documents, knn(index.value, embed(query), k))
      ensures |results| <= if index.Some? then k else 0
    {
      if index.None? {
        return [];
      }
      var hits := knn(index.value, embed(query), k);
      results := [];
      for i := 0 to |hits|
        invariant results == PostProcess(documents, hits[..i])
      {
        assert hits[..i + 1][..i] == hits[..i];
        var idx := hits[i].idx;
        if idx < |documents| {
          var doc := if idx >= 0 then documents[idx] else documents[|documents| + idx];
          results := results + [SearchResult(doc.content, doc.metadata, 1.0 / (1.0 + hits[i].distance))];
        }
      }
      assert hits[..|hits|] == hits;
      PostProcessLength(documents, hits);
    }
  }

  /** The similarity reported for a squared L2 distance. */
  function Score(d: real): (s: real)
    requires d >= 0.0
    ensures 0.0 < s <= 1.0
    ensures s == 1.0 <==> d == 0.0
  {
    1.0 / (1.0 + d)
  }

  /** A larger distance always gives a smaller score. */
  lemma ScoreDecreasing(d1: real, d2: real)
    requires 0.0 <= d1 < d2
    ensures Score(d1) > Score(d2)
  {
    assert Score(d1) * (1.0 + d1) == 1.0;
    assert Score(d2) * (1.0 + d2) == 1.0;
    assert Score(d2) * (1.0 + d1) < 1.0;
  }

  /** Python's `s[idx]`, where a negative position counts from the end. */
  function PyIndex<T>(s: seq<T>, idx: int): T
    requires -|s| <= idx < |s|
  {
    if idx >= 0 then s[idx] else s[|s| + idx]
  }

  /** The guard of the result loop as written: `idx < len(documents)`. */
  predicate Admitted(h: Hit, n: nat)
  {
    h.idx < n
  }

  /** The results of a FAISS answer as the source builds them: every admitted
      row gives the record at that (Python) position with the row's score. */
  function PostProcess(documents: seq<Record>, hits: seq<Hit>): seq<SearchResult>
    requires |documents| > 0
  {
    if |hits| == 0 then []
    else
      var h := hits[|hits| - 1];
      PostProcess(documents, hits[..|hits| - 1]) +
      if Admitted(h, |documents|) then
        var doc := PyIndex(documents, h.idx);
        [SearchResult(doc.content, doc.metadata, Score(h.distance))]
      else []
  }

  /** No more results than rows, each one a stored record's content and
      metadata with a score in (0, 1]. */
  lemma {:induction false} PostProcessLength(documents: seq<Record>, hits: seq<Hit>)
    requires |documents| > 0
    ensures |PostProcess(documents, hits)| <= |hits|
    ensures forall r :: r in PostProcess(documents, hits) ==>
              0.0 < r.score <= 1.0 &&
              exists d :: 0 <= d < |documents| && r.content == documents[d].content && r.metadata == documents[d].metadata
  {
    if |hits| > 0 {
      PostProcessLength(documents, hits[..|hits| - 1]);
      var h := hits[|hits| - 1];
      if Admitted(h, |documents|) {
        var d := if h.idx >= 0 then h.idx else |documents| + h.idx;
        assert PyIndex(documents, h.idx) == documents[d];
      }
    }
  }

  predicate ScoresNonIncreasing(rs: seq<SearchResult>)
  {
    forall a, b :: 0 <= a < b < |rs| ==> rs[a].score >= rs[b].score
  }

  /** Rows sorted by increasing distance give results sorted by decreasing
      score. */
  lemma {:induction false} PostProcessOrdered(documents: seq<Record>, hits: seq<Hit>)
    requires |documents| > 0
    requires forall a, b :: 0 <= a < b < |hits| ==> hits[a].distance <= hits[b].distance
    ensures ScoresNonIncreasing(PostProcess(documents, hits))
    ensures forall r :: r in PostProcess(documents, hits) && |hits| > 0 ==> r.score >= Score(hits[|hits| - 1].distance)
  {
    if |hits| > 0 {
      var init := hits[..|hits| - 1];
      var h := hits[|hits| - 1];
      PostProcessOrdered(documents, init);
      var prefix := PostProcess(documents, init);
      var rs := PostProcess(documents, hits);
      forall r | r in prefix ensures r.score >= Score(h.distance) {
        var last := init[|init| - 1];
        assert last.distance <= h.distance;
        if last.distance < h.distance {
          ScoreDecreasing(last.distance, h.distance);
        }
      }
      forall a, b | 0 <= a < b < |rs| ensures rs[a].score >= rs[b].score {
        if b < |prefix| {
          assert rs[a] == prefix[a] && rs[b] == prefix[b];
        } else {
          assert rs[a] == prefix[a] && rs[a] in prefix;
          assert rs[a].score >= Score(h.distance);
          assert rs[b].score == Score(h.distance);
        }
      }
    }
  }

  /** A padding row (index -1) is admitted by the guard and yields the last
      stored record, as if it had been found. */
  lemma PaddingYieldsLastRecord(documents: seq<Record>, d: real)
    requires |documents| > 0 && d >= 0.0
    ensures var last := documents[|documents| - 1];
            PostProcess(documents, [Neighbour(d, -1)]) == [SearchResult(last.content, last.metadata, Score(d))]
  {
    assert [Neighbour(d, -1)][..0] == [];
  }

  /** A single stored record found at distance zero comes back alone with
      score 1.0. */
  lemma SelfMatch(record: Record)
    ensures PostProcess([record], [Neighbour(0.0, 0)]) == [SearchResult(record.content, record.metadata, 1.0)]
  {
    assert [Neighbour(0.0, 0)][..0] == [];
  }

  /** The guard the result loop evidently means: a real position. */
  predicate Genuine(h: Hit, n: nat)
  {
    0 <= h.idx < n
  }

  /** The results of a FAISS answer with padding rows skipped. */
  function PostProcessGenuine(documents: seq<Record>, hits: seq<Hit>): seq<SearchResult>
  {
    if |hits| == 0 then []
    else
      var h := hits[|hits| - 1];
      PostProcessGenuine(documents, hits[..|hits| - 1]) +
      if Genuine(h, |documents|) then
        [SearchResult(documents[h.idx].content, documents[h.idx].metadata, Score(h.distance))]
      else []
  }

  /** With padding skipped, there is one result per genuine row, taken from
      the record at that row's position; a padding row adds nothing; and
      without padding both post-processings agree. */
  lemma {:induction false} PostProcessGenuineSound(documents: seq<Record>, hits: seq<Hit>)
    ensures |PostProcessGenuine(documents, hits)| == GenuineCount(hits, |documents|)
    ensures forall pad: Hit :: pad.idx == -1 ==> PostProcessGenuine(documents, hits + [pad]) == PostProcessGenuine(documents, hits)
    ensures |documents| > 0 && (forall i :: 0 <= i < |hits| ==> hits[i].idx >= 0) ==>
              PostProcessGenuine(documents, hits) == PostProcess(documents, hits)
  {
    forall pad: Hit | pad.idx == -1
      ensures PostProcessGenuine(documents, hits + [pad]) == PostProcessGenuine(documents, hits)
    {
      assert (hits + [pad])[..|hits|] == hits;
    }
    if |hits| > 0 {
      var init := hits[..|hits| - 1];
      PostProcessGenuineSound(documents, init);
    }
  }

  /** How many rows name a stored record. */
  function GenuineCount(hits: seq<Hit>, n: nat): nat
  {
    if |hits| == 0 then 0
    else GenuineCount(hits[..|hits| - 1], n) + if Genuine(hits[|hits| - 1], n) then 1 else 0
  }
}
