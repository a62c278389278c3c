/** Start-up of the chat application (src/app.py): chunked documents become
    vector-store records keyed `<source>_<chunk_index>`, the backend is picked
    from the `VECTOR_DB_TYPE` setting, the records are added, and the answering
    system is configured. Environment variables arrive as parameters. */
module App {
  import opened Common
  import opened Strings
  import opened DataProcessor
  import opened VectorDb
  import opened Rag

  /** `chunk_documents` is called with its default window: 1000 words, 200
      of them shared with the next window. */
  const DefaultChunkSize: int := 1000
  const DefaultChunkOverlap: int := 200

  /** The chunk index a record id carries: `chunk_index`, or 0 when absent. */
  function IndexOf(chunk: Document): Value
  {
    Get(chunk.metadata, "chunk_index", Num(0))
  }

  /** `f"{doc.source}_{doc.metadata.get('chunk_index', 0)}"` */
  function RecordId(chunk: Document): string
  {
    chunk.source + "_" + Display(IndexOf(chunk))
  }

  /** The `db_documents` list: one record per chunk, in chunk order, holding
      the chunk's text and its metadata unchanged. */
  function DbRecords(chunks: seq<Document>): seq<Record>
  {
    seq(|chunks|, i requires 0 <= i < |chunks| => Record(RecordId(chunks[i]), chunks[i].content, chunks[i].metadata))
  }

  /** Reads a record id back: the source before the last underscore and the
      decimal index after it. */
  function ParseRecordId(id: string): Option<(string, nat)>
  {
    var u := LastIndexOf(id, '_');
    if u >= 0 && u + 1 < |id| && AllDigits(id[u + 1..]) then Some((id[..u], ParseDigits(id[u + 1..])))
    else None
  }

  /** Sources may hold underscores and digits, yet the id of a chunk with a
      non-negative index still gives back its source and index: the digits
      after the last underscore are the index. */
  lemma RecordIdRoundTrip(chunk: Document, n: nat)
    requires IndexOf(chunk) == Num(n)
    ensures ParseRecordId(RecordId(chunk)) == Some((chunk.source, n))
  {
    var s, d := chunk.source, NatToString(n);
    var id := RecordId(chunk);
    assert id == s + "_" + d;
    assert id[|s|] == '_';
    var u := LastIndexOf(id, '_');
    assert u == |s|;
    assert id[..u] == s;
    assert id[u + 1..] == d;
    NatToStringRoundTrip(n);
  }

  /** A chunk without `chunk_index` is filed under index 0. */
  lemma MissingIndexDefaultsToZero(chunk: Document)
    requires "chunk_index" !in chunk.metadata
    ensures RecordId(chunk) == chunk.source + "_0"
  {
    assert DigitChar(0) == '0';
    assert NatToString(0) == "0";
  }

  /** When chunking succeeds on documents with distinct sources, no two
      records share an id, so no upsert overwrites another chunk. */
  lemma {:induction false} RecordIdsDistinct(documents: seq<Document>, chunkSize: int, chunkOverlap: int)
    requires chunkSize >= 0
    requires forall a, b :: 0 <= a < b < |documents| ==> documents[a].source != documents[b].source
    ensures ChunkResult(documents, chunkSize, chunkOverlap).Ok? ==>
              var records := DbRecords(ChunkResult(documents, chunkSize, chunkOverlap).value);
              forall p, q :: 0 <= p < q < |records| ==> records[p].id != records[q].id
  {
    var step := chunkSize - chunkOverlap;
    if |documents| > 0 && step > 0 {
      var cs := ChunkAll(documents, chunkSize, step);
      var records := DbRecords(cs);
      ChunkKeysDistinct(documents, chunkSize, step);
      forall p, q | 0 <= p < q < |records| ensures records[p].id != records[q].id {
        ChunkAllOrigin(documents, chunkSize, step, p);
        ChunkAllOrigin(documents, chunkSize, step, q);
        var np, nq := IndexOf(cs[p]).n, IndexOf(cs[q]).n;
        RecordIdRoundTrip(cs[p], np);
        RecordIdRoundTrip(cs[q], nq);
        assert ChunkKey(cs[p]) != ChunkKey(cs[q]);
      }
    }
  }

  /** The two vector-store backends. */
  datatype Backend = Faiss | Pinecone

  /** `VECTOR_DB_TYPE`, defaulting to "faiss": Pinecone exactly when the
      setting is "pinecone", FAISS for any other value or none. */
  function SelectBackend(vectorDbType: Option<string>): (b: Backend)
    ensures b == Pinecone <==> vectorDbType == Some("pinecone")
  {
    var kind := if vectorDbType.Some? then vectorDbType.value else "faiss";
    if kind == "pinecone" then Pinecone else Faiss
  }

  /** The vector store the application built. */
  datatype Store = FaissStore(faiss: FaissDB) | PineconeStore(pinecone: PineconeDB)

  /** `initialize_system`, from the converted documents on. `existingIndexes`
      is what the Pinecone service lists; `embed` is the sentence embedder. */
  method InitializeSystem(documents: seq<Document>, vectorDbType: Option<string>, llmProvider: Option<string>,
                          openaiApiKey: string, pineconeApiKey: string, pineconeEnvironment: string,
                          pineconeIndexName: string, existingIndexes: set<string>, embed: string -> Embedding)
    returns (store: Store, system: Result<RagSystem>)
    ensures ChunkResult(documents, DefaultChunkSize, DefaultChunkOverlap).Ok?
    ensures var records := DbRecords(ChunkResult(documents, DefaultChunkSize, DefaultChunkOverlap).value);
            match store
            case FaissStore(db) =>
              SelectBackend(vectorDbType) == Faiss && fresh(db) && db.Valid() && db.embed == embed &&
              (records == [] ==> db.index.None? && db.documents == []) &&
              (records != [] ==> db.documents == records && db.index == Some(FlatIndex(Embeddings(records, embed))))
            case PineconeStore(db) =>
              SelectBackend(vectorDbType) == Pinecone && fresh(db) && db.embed == embed &&
              db.indexName == pineconeIndexName &&
              db.created == (if pineconeIndexName in existingIndexes then [] else [IndexSpec(pineconeIndexName, Dimension, "cosine")]) &&
              db.upserts == Batches(Vectors(records, embed), BatchSize, 0)
    ensures system == NewRagSystem(if llmProvider.Some? then llmProvider.value else "openai", openaiApiKey)
  {
    var chunked := ChunkDocuments(documents, DefaultChunkSize, DefaultChunkOverlap);
    var records := DbRecords(chunked.value);
    if SelectBackend(vectorDbType) == Pinecone {
      var db := new PineconeDB(pineconeApiKey, pineconeEnvironment, pineconeIndexName, existingIndexes, embed);
      db.AddDocuments(records);
      store := PineconeStore(db);
    } else {
      var db := new FaissDB(embed);
      db.AddDocuments(records);
      store := FaissStore(db);
    }
    var provider := if llmProvider.Some? then llmProvider.value else "openai";
    system := NewRagSystem(provider, openaiApiKey);
  }
}
