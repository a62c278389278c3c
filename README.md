# Blog chatbot: retrieval-augmented answering, modelled in Dafny

This project models the core of a chatbot that answers questions about a
blog. Markdown posts become documents. Each document is cut into
overlapping word windows ("chunks"), and the chunks are stored as records
in a vector index. The index is either an in-process FAISS flat L2 index
or a remote Pinecone index. A question is answered in five steps:

1. The `k` nearest chunks are retrieved.
2. They are formatted into a numbered context block.
3. A chat model is asked to answer from that context.
4. Every retrieved passage whose exact text occurs in the answer is cited.
5. The answer and its citations are returned.

Modules, one per source file plus two shared ones:

- `Common` (`common.dfy`) defines the shared values. These are metadata
  dictionaries over string and integer values, the `KeyError`/`ValueError`
  exceptions the Python code raises, and `Option`/`Result`.
- `Strings` (`strings.dfy`) provides the Python string operations the core
  relies on: `str.split()` with Python's whitespace set, `' '.join`,
  substring `in`, `str(int)` and `os.path.splitext`.
- `DataProcessor` (`data_processor.dfy`) covers the per-file document
  builder of `get_documents` and the word-window chunker `chunk_documents`.
  The chunker is an imperative method proved equal to a recursive
  specification. Lemmas cover the window count, contents, size, overlap,
  numbering, order and key uniqueness.
- `VectorDb` (`vector_db.dfy`) holds `SearchResult` and the two backends.
  - `PineconeDB` is a class. Its state is a log of index-creation requests
    and upsert batches.
  - `FaissDB` is a class with the `index` and `documents` fields the source
    overwrites.
  - The FAISS search post-processing is modelled over reals, with
    score = 1/(1+d).
- `Rag` (`rag.dfy`) covers the LLM provider check, the context block, the
  citation extractor and `query`.
- `App` (`app.dfy`) covers the record list built in `initialize_system`,
  with ids `<source>_<chunk_index>`, the `VECTOR_DB_TYPE` backend choice and
  the start-up sequence.

The embedder, the FAISS nearest-neighbour search, the Pinecone query and the
chat model are passed in as function-typed oracles. Environment variables
and the list of existing Pinecone indexes are passed in as parameters.

Where the code and the design description of the system disagree, the
model follows the code:

- `chunk_overlap == chunk_size` makes the `range` step zero. Python raises
  `ValueError` only when at least one document is chunked; no
  configuration error is raised up front.
- `chunk_overlap > chunk_size` gives a negative step, an empty `range`,
  and so no chunks at all. It is not an error.
- "A document of at most `chunk_size` words yields exactly one chunk" holds
  only when the document has at most `chunk_size - chunk_overlap` words
  (`ShortDocument`). A longer document of at most `chunk_size` words yields
  a second chunk that repeats a tail of the first (`ExtraChunk`).
- A second non-empty FAISS `add_documents` replaces the stored records
  instead of adding to them (`FaissDB.AddDocuments`).

## Model

| member | source | states |
|---|---|---|
| Strings.Split | src/data_processor.py:81 | `str.split()` yields only non-empty runs of non-whitespace characters |
| Strings.SplitJoin | src/data_processor.py:81-83 | joining words with single spaces and splitting again gives back the same words, so a chunk's text holds exactly its window's words |
| Strings.JoinContainsPart | src/rag.py:61 | every part occurs in the joined string |
| Strings.ContainsEmpty | src/rag.py:66 | the empty string occurs in every text |
| Strings.NatToString | src/rag.py:60 | `str(n)` of a non-negative integer is a non-empty string of decimal digits |
| Strings.NatToStringRoundTrip | src/app.py:29 | the decimal rendering of a chunk index reads back as the same number |
| Strings.NatToStringInjective | src/app.py:29 | distinct indices render differently |
| Strings.SplitExt | src/data_processor.py:64 | root + extension is the name; the extension is empty or a dot followed by no further dot |
| DataProcessor.Category | src/data_processor.py:65 | the category is the subfolder when it is a non-empty string, otherwise "general" |
| DataProcessor.FileDocument | src/data_processor.py:57-72 | a file gives a document exactly when its name ends in ".md"; the document's content and source come from the file; the metadata keys are exactly source, title and category; source equals the relative path, title is the file name without its extension, category is the subfolder or "general" |
| DataProcessor.MarkdownTitle | src/data_processor.py:64 | the title of `x.md` is `x`, except for names with only dots before ".md", which keep the whole name |
| DataProcessor.MarkdownDocumentsShape | src/data_processor.py:55-72 | one document per markdown file, each from one of the files, with the three metadata keys, that file's path as source and its name without the extension as title |
| DataProcessor.CollectDocuments | src/data_processor.py:55-74 | the file loop returns the markdown documents in walk order |
| DataProcessor.ChunkDocuments | src/data_processor.py:76-90 | the nested loops return the specified chunks: an error for a zero stride with documents present, nothing for a negative stride, else every document's windows in order |
| DataProcessor.AppendWindows | src/data_processor.py:82-88 | the inner loop appends exactly the windows of one document, starting at 0 and advancing by the stride |
| DataProcessor.ChunksFromIndex | src/data_processor.py:82-86 | the j-th window from start i exists iff `i + j*stride` is below the word count, and it is the window starting there |
| DataProcessor.ChunkCount | src/data_processor.py:81-82 | a document gives ceil(n / stride) chunks, and none exactly when it has no words |
| DataProcessor.ChunksFromCount | src/data_processor.py:82 | the windows from start 0 number ceil(n / stride) |
| DataProcessor.ChunkContents | src/data_processor.py:82-88 | chunk j exists iff `j*stride < n`; it keeps the parent's source, carries the parent's metadata with `chunk_index` set to j (overriding any old value), and its words are `words[j*stride .. j*stride + chunk_size]` |
| DataProcessor.ChunkSize | src/data_processor.py:83 | every chunk has between 1 and chunk_size words |
| DataProcessor.ChunkOverlap | src/data_processor.py:82-83 | when chunk j is full, its last `chunk_size - stride` words are the first words of chunk j+1 |
| DataProcessor.ShortDocument | src/data_processor.py:82-86 | a document of 1 to stride words becomes exactly one chunk, its words joined by single spaces, with chunk_index 0 |
| DataProcessor.ExtraChunk | src/data_processor.py:82-83 | a document longer than the stride but no longer than chunk_size gives at least two chunks; the first holds every word and the second is a tail of the first |
| DataProcessor.DefaultWindowExample | src/data_processor.py:76-86 | with the 1000/200 defaults, a 2200-word document gives three chunks, indexed 0 to 2, of 1000, 1000 and 600 words |
| DataProcessor.ChunkAllAppend | src/data_processor.py:80-88 | output order is document order: chunking a concatenation concatenates the chunks |
| DataProcessor.ChunkAllOrigin | src/data_processor.py:84-88 | every chunk comes from one of the input documents and carries a non-negative chunk_index |
| DataProcessor.ChunkKeysDistinct | src/data_processor.py:84-88 | documents with distinct sources give chunks with pairwise distinct (source, chunk_index) keys |
| VectorDb.BatchesFlatten | src/vector_db.py:57-60 | the upsert batches, concatenated, are the vector list in order |
| VectorDb.BatchesIndex | src/vector_db.py:58-59 | batch j exists iff `j*100` is below the count, and it is the slice starting there |
| VectorDb.BatchesShape | src/vector_db.py:57-60 | there are ceil(n / 100) batches (none for an empty list); each holds 1 to 100 vectors and all but the last hold exactly 100 |
| VectorDb.BatchLength | src/vector_db.py:58-59 | each batch holds 1 to 100 vectors, and exactly 100 when another batch follows |
| VectorDb.PineconeDB.constructor | src/vector_db.py:27-44 | a cosine index 384 wide is requested under the name exactly when the service does not list that name |
| VectorDb.PineconeDB.AddDocuments | src/vector_db.py:46-60 | the upsert log grows by the batches of 100 of the vectors built from the records, in order |
| VectorDb.UpsertedVectors | src/vector_db.py:47-60 | ceil(n / 100) batches that concatenate to one vector per record, in order, each with the record's id and embedding and the record's metadata plus `content` set to its text |
| VectorDb.PineconeDB.Search | src/vector_db.py:62-77 | the query embeds the question, asks for k matches with metadata, and maps the matches to results |
| VectorDb.MatchesToResults | src/vector_db.py:70-77 | one result per match, in order, with the match's metadata and unchanged score and content `metadata['content']`; a KeyError exactly when some match lacks a text content |
| VectorDb.UpsertSearchRoundTrip | src/vector_db.py:46-77 | matches on upserted vectors map back to the original records' content, with the service's scores passed through |
| VectorDb.FaissDB.constructor | src/vector_db.py:80-83 | a fresh index holds no index and no records |
| VectorDb.FaissDB.AddDocuments | src/vector_db.py:85-95 | adding nothing changes nothing; otherwise records and index are replaced by the new records and their embeddings |
| VectorDb.FaissDB.Search | src/vector_db.py:97-116 | no results before a non-empty add; afterwards the k rows from FAISS are post-processed in order, giving at most k results |
| VectorDb.Score | src/vector_db.py:113 | for d ≥ 0 the score lies in (0, 1] and equals 1 exactly at distance 0 |
| VectorDb.ScoreDecreasing | src/vector_db.py:113 | the score strictly decreases as the distance grows |
| VectorDb.PostProcessLength | src/vector_db.py:106-114 | no more results than rows; each result is a stored record's content and metadata with a score in (0, 1] |
| VectorDb.PostProcessOrdered | src/vector_db.py:106-114 | rows in non-decreasing distance give results in non-increasing score |
| VectorDb.SelfMatch | src/vector_db.py:106-114 | a single record found at distance 0 comes back alone with score 1.0 |
| VectorDb.PaddingYieldsLastRecord | src/vector_db.py:107-109 | a padding row (index -1) passes the guard and returns the last stored record |
| VectorDb.PostProcessGenuineSound | src/vector_db.py:107-114 | with the guard `0 <= idx < len`, padding rows add nothing, the result count is the count of genuine rows, and without padding the result equals the code's |
| Rag.InitializeLlm | src/rag.py:23-33 | only "openai" is accepted, configured with temperature 0, 2000 tokens and text output; any other provider raises `ValueError("Unsupported LLM provider: ...")` |
| Rag.NewRagSystem | src/rag.py:18-20 | building the system fails exactly when the provider is not supported |
| Rag.FormatContext | src/rag.py:57-61 | the loop builds the 1-based entries `Source i (title):\ncontent\n` in result order, joined by newlines, or raises KeyError("title") |
| Rag.ContextShowsEveryPassage | src/rag.py:57-61 | every entry, and so every passage's content, occurs in the context block |
| Rag.SingleResultContext | src/rag.py:59-61 | one result gives exactly `Source 1 (title):\ncontent\n` |
| Rag.ExtractCitations | src/rag.py:63-72 | the loop returns the citations of the results whose content occurs in the answer, in order, or the KeyError of the first such result missing source or title |
| Rag.CitationsFailureSticks | src/rag.py:65-71 | once a contained result lacks its source or title, later results do not change the error |
| Rag.CitationsFail | src/rag.py:66-69 | extraction fails exactly when a contained result lacks source or title |
| Rag.CitedIff | src/rag.py:64-72 | a citation is produced iff some result's content occurs in the answer and the citation is that result's source, title and score |
| Rag.CitationsCount | src/rag.py:64-72 | one citation per contained result with no de-duplication, so never more than the results; as many only when every content occurs |
| Rag.CitationsAppend | src/rag.py:64-72 | citations follow retrieval order: the citations of a concatenation concatenate |
| Rag.EmptyContentCited | src/rag.py:66 | a citable result with empty content is always cited |
| Rag.CiteAlone | src/rag.py:66-71 | a citable result whose content occurs is cited as its source, title and score |
| Rag.OneQuotedPassage | src/rag.py:64-72 | of two passages, only the one quoted verbatim is cited, whichever order they came in |
| Rag.Query | src/rag.py:74-104 | a failing search ends the query with its error and no model request; an empty retrieval gives the canned answer and no model request; a result without a title raises before any request; otherwise the model gets the context of the results and the unchanged question, and the answer is its text with the citations drawn from that same text |
| App.RecordIdRoundTrip | src/app.py:29 | a record id reads back as the chunk's source and index, even when the source holds underscores or digits |
| App.MissingIndexDefaultsToZero | src/app.py:29 | a chunk without chunk_index gets id `<source>_0` |
| App.RecordIdsDistinct | src/app.py:26-34 | when chunking succeeds on documents with distinct sources, all record ids are distinct |
| App.SelectBackend | src/app.py:37-45 | Pinecone exactly when `VECTOR_DB_TYPE` is "pinecone" (case-sensitive), FAISS for any other value or when unset |
| App.InitializeSystem | src/app.py:23-55 | chunking with the defaults succeeds; the selected backend is freshly built and holds one record per chunk; the answering system uses `LLM_PROVIDER`, defaulting to "openai" |

## Left out

- Git clone and pull, `os.walk`, file reading and the markdown to text
  conversion (src/data_processor.py:23-55) are I/O and foreign libraries.
  The walk is given as a sequence of file entries, each with its name,
  relative path and converted text.
- The sentence embedder, FAISS `IndexFlatL2` construction and search, and
  the Pinecone `init`/`list_indexes`/`create_index`/`upsert`/`query` calls
  are foreign calls. The embedder and the searches are function parameters.
  Pinecone writes are kept as a log of requests.
- The LangChain prompt template, the chain and `ChatOpenAI` are a foreign
  service. The model is an oracle from configuration and request to text.
  The prompt wording and `set_verbose` are not modelled.
- Streamlit, chat history in session state, and dotenv/environment loading
  (src/app.py:9-12, 59-110) are not modelled. Environment values are
  parameters of `App.InitializeSystem`. The Pinecone client's handling of
  unset variables is not modelled.
- src/test_implementation.py is not part of this model. It is a driver
  against live services and repeats the record mapping of `initialize_system`.
- Floating point: distances and scores are Dafny reals, so
  `float(1/(1+d))` rounding and infinite FAISS padding distances are not
  modelled. Padding rows are modelled with any distance ≥ 0.
- VectorDb.FaissDB.Search: requires that the kNN oracle returns exactly `k`
  rows, as FAISS does. Which rows it returns, and so the self-search and
  nearest-first properties, is up to the oracle. `SelfMatch` and
  `PostProcessOrdered` state what the code does with the rows. A built
  index is taken to be truthy in `if not self.index`.
- VectorDb.MatchesToResults: `metadata['content']` must be a string in the
  model. A missing or non-string `content` is reported as
  `KeyError("content")`, whereas Python would pass a non-string value
  through.
- DataProcessor.ChunkDocuments: requires `chunk_size >= 0`. A negative
  chunk size makes Python slice with a negative end, which the model does
  not follow; a zero chunk size is modelled (every window is empty).
- Rag.Query: `k` is passed through unchanged; its default of 5 is the
  caller's choice. A failure of the chat model is not modelled.
- The PineconeDB API key and environment are accepted but have no
  observable effect in the model.

## Findings

| source | as written | input that shows it | evidently intended | confidence | as-written member | corrected member |
|---|---|---|---|---|---|---|
| src/vector_db.py:107-109 | the guard `idx < len(self.documents)` admits the `-1` that FAISS returns for missing neighbours, and `self.documents[-1]` is the last record | two stored records searched with k = 3: FAISS returns a third row with index -1, and the last record comes back a second time, so the result can exceed the number of stored records | keep only indices with `0 <= idx < len(self.documents)` | not executed | VectorDb.PaddingYieldsLastRecord | VectorDb.PostProcessGenuineSound |
