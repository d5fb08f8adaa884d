# Verification of the commerce platform's stateful cores

A Dafny model of the parts of the platform that carry state or promise an algorithmic result: document
chunking and vector indexing, the cached knowledge-base search with its ranking steps, the circuit breaker in
front of the RAG service, purchase orders with the stock ledger, the low-stock alert pass, the workflow walker,
text extraction from Word and PDF documents, the HTTP rate limiter and the load tester's worker pool.
`dafny verify dfyconfig.toml` checks the project.

## How it is built

Code that updates state step by step is a class or a method with loops, proved against a specification function
or relation; the laws are lemmas about that specification.

| Area | Files |
|---|---|
| Chunking, indexing, batch indexing | `Text`, `Utf8`, `Chunking`, `ChunkRuns`, `Indexing`, `BatchRefinement`, `BatchTheorems`, `InsertFailures`, `IndexLaws` |
| Vector store | `Vectors`, `Sorting`, `Filtering`, `VectorStore` |
| Search, ranking, cache | `RankFusion`, `RankLaws`, `FusionOrder`, `FusionComparison`, `AnswerOrder`, `KeywordSearch`, `Numerals`, `SearchCache`, `AnswerLaws`, `SearchSources` |
| Circuit breaker and remote client | `CircuitBreaker`, `BreakerClient` |
| Purchasing, stock, alerts | `PurchaseFsm`, `StockLedger`, `StockLaws`, `RequestLaws`, `StockAlerts`, `PassLaws` |
| Workflow engine | `Workflow`, `WorkflowLaws` |
| Document text | `Edits`, `WordText`, `PdfText` |
| Concurrency helpers | `RateLimiting`, `WorkerPool` |

Modelling choices. A string is a sequence of code points, each 1 to 4 bytes long in UTF-8, so the code's byte
lengths and rune counts stay apart. Floating-point numbers are reals and `math.Sqrt` is any function with its
defining property. Time is an integer of nanoseconds passed in by the caller. Go's `int` is written out as 64-bit
arithmetic where stock is added, the breaker's failure counter as 32-bit arithmetic. Database tables are
sequences or maps, a transaction is one atomic step, and a database call that may fail is an input. The embedding
service, the keyword scores, the query hash, vector and full-text recall and the behaviour of workflow nodes are
uninterpreted functions; `SearchSources` then plugs the verified vector store and keyword fallback into the search. A
Go map may be walked in any order, so rank fusion and everything behind it is a relation: documents with equal fused
scores may come out either way. The two other sorts give equal inputs equal outputs, so recall without fusion is a
function. Goroutines are interleavings of atomic steps.

## Where a promise fails

The code is modelled as it is. Where a natural or documented promise does not hold for every input, the exact
condition is proved.

- `BatchIndexDocuments` is offered as a faster loop over `IndexDocument`. For distinct document ids, an embedder that
  works text by text and never fails, and inserts that all succeed, it leaves the same state exactly when nothing stale
  is there (`BatchRefinesLoop`): for a document without chunks the loop keeps old PostgreSQL rows and
  the batch deletes them; for a document whose embeddings all come back empty the loop deletes old vectors and the
  batch keeps them. The batch reports success for every document, whatever failed.
- When inserts may fail, batch and loop store the same vectors for every embedder exactly when no vectors of the
  documents were there before and every stored chunk finds the same text under the batch's cursor and under its own
  document's (`SameVectorsExactly`).
- In both ways of indexing, a failed row insert shifts the vectors of the rows after it;
  `BatchStoreAlignedExactly` and `DocumentStoreAlignedExactly` say when the stored records still carry their own
  embeddings, `VectorOfChunk` which embedding a row of a batch gets otherwise.
- A batch that names a document twice leaves vectors without a row: the second cleanup deletes the first rows, and both
  sets of vectors are stored (`NewVectorOfBatch`).
- A packed chunk may be one byte longer than the "maximum" size (`PackedChunkExceedsExactly`).
- `ChunkText` ends exactly when the overlap is below the chunk size or no paragraph needs a second slice; with an
  overlap equal to the chunk size it otherwise loops for ever, with a larger one it crashes
  (`ChunkTextEndsExactly`). A negative overlap loses text exactly when some paragraph needs a second slice
  (`LosslessExactly`).
- The breaker's comment (`rag_client.go:23`) promises one probe in the half-open state; the code (`:64-65`) admits
  every caller, and the promise holds for one caller only (`OneProbeExactly`). With two or more callers a failure
  that wraps the 32-bit counter may not restart the pause (`PauseFromLastFailureExactly`).
- Receiving goods adds to the stock without an overflow check, so stock can become negative; it never does if and
  only if no receipt overflows (`NonNegativeExactly`, `OverflowGoesNegative`).
- Rank fusion returns one list exactly when contents tie only where at least topK contents have a larger score
  (`OneResultExactly`).
- Asking a search twice can give two answers (`TwoBestHits`). A hybrid search has one answer exactly when each of the
  first topK places, by final and then by fused score, is settled: nothing later ties in both, and the recall window
  does not cut through its fused ties (`HybridAnswerExactly`, `OneAnswerExactly`). Every answer of every run, cached or
  not, is one the pipeline could give exactly when no two requests share a key harmfully (`CacheTransparentExactly`),
  which takes a collision of query hashes (`NoCollisionIsHarmless`), and repeated requests always agree exactly when in
  addition every request has one answer (`RepeatsAgreeExactly`). A collision never shows a text of another knowledge
  base (`AnswersStayInKb`).
- Deleting a knowledge base commutes with an upsert only under the condition in `DeleteByKbCommutes`.
- Word text: a `>` in a run is lost; a self-closing run with attributes lets loose characters through until the next
  run ends (`LeaksExactly`); the line of a self-closing paragraph without attributes is lost. The lines of a document come
  back, trimmed, exactly when there is no such `>`, nothing visible gets through, and between the first and the last
  visible character leaked line breaks make up for lost ones (`WordText.RoundTripExactly`). Without such runs and
  paragraphs: exactly when no run has a `>` (`OrdinaryRoundTrip`).
- PDF strings come back exactly when they have no parenthesis without a backslash (`PdfText.RoundTripExactly`).
- A second alert pass repeats orders of rows that the first one did not announce: because nobody is there to be
  notified or because its transaction failed (`SecondPassExactly`).
- A workflow run is cut off without an error exactly when without the step limit it would go on after fifty nodes
  (`LimitCutsExactly`), as a row of more than fifty does (`ChainTruncated`).

## Model

| member | source | states |
|---|---|---|
| `Text.TrimPadded` | internal/application/ai/rag.go:515 | `strings.TrimSpace` removes exactly the blanks around a text that neither begins nor ends with one |
| `Text.JoinAfterSplit` | internal/application/ai/rag.go:501 | splitting a text at blank lines loses nothing: joining the pieces again gives the text |
| `Text.SplitAfterJoin` | internal/application/ai/rag.go:501 | trimmed paragraphs without a blank line inside survive being joined and split again |
| `Utf8.EncodeDecode` | internal/application/ai/rag.go:519-523 | the width of a code point is the length of its UTF-8 form, whose first byte announces it and from which the code point comes back |
| `Utf8.ByteLenIsEncodedLength` | internal/application/ai/rag.go:519-523 | `len` of a text is the number of bytes of its UTF-8 form |
| `Chunking.ChunkText` | internal/application/ai/rag.go:493-551 | the loop returns the texts of the chunk plan of the effective configuration, and its final fallback never adds anything |
| `Chunking.PackParagraph` | internal/application/ai/rag.go:519-543 | one paragraph's branch: flush when the waiting text has no room, then slice or append, with the byte counter equal to the waiting text's byte length |
| `Chunking.AppendSlices` | internal/application/ai/rag.go:525-535 | the slicing loop appends the windows of the paragraph and ends when the step is positive or one window suffices |
| `ChunkRuns.ChunkTextEndsExactly` | internal/application/ai/rag.go:493-551 | taken round by round, the call returns (and then the planned chunks) if and only if the overlap is below the chunk size or no paragraph needs a second window; otherwise it loops for ever exactly when the two are equal and crashes exactly when the overlap is larger |
| `ChunkRuns.SlicingRepeats` | internal/application/ai/rag.go:526-535 | with the overlap equal to the chunk size every round of the slicing loop stays at the start and appends the same window |
| `ChunkRuns.SlicingCrashes` | internal/application/ai/rag.go:526-531 | with a larger overlap the second round slices at a negative index |
| `Chunking.ChunkingRecovers` | internal/application/ai/rag.go:493-551 | for every call that ends, dropping each later slice's overlap and splitting packed chunks at their joints gives back every paragraph, in order, as far as its windows cover it |
| `Chunking.LosslessExactly` | internal/application/ai/rag.go:493-551 | so the trimmed non-empty paragraphs come back if and only if the overlap is not negative or no paragraph needs a second window |
| `Chunking.ChunkingIsLossless` | internal/application/ai/rag.go:493-551 | in particular for 0 <= Overlap < ChunkSize |
| `Chunking.EmptyIffBlank` | internal/application/ai/rag.go:497-549 | there is no chunk if and only if the text is blank, so the fallback is dead code |
| `Chunking.ChunkSizes` | internal/application/ai/rag.go:482-485 | a packed chunk has at most ChunkSize + 1 bytes, a slice at most ChunkSize characters |
| `Chunking.PackedChunkExceedsExactly` | internal/application/ai/rag.go:519-542 | some packed chunk exceeds ChunkSize if and only if some paragraph joins a waiting chunk with exactly one byte to spare |
| `Chunking.PackedChunkMayExceedSize` | internal/application/ai/rag.go:520-539 | this happens: two one-byte paragraphs and ChunkSize 3 give a chunk of four bytes |
| `Chunking.SliceCount` | internal/application/ai/rag.go:524-535 | a paragraph of n > ChunkSize characters gives exactly ceil((n - Overlap) / (ChunkSize - Overlap)) slices, a shorter one gives one |
| `Chunking.ChunkingIsGreedy` | internal/application/ai/rag.go:519-522 | of two neighbouring packed chunks, the first had no room for the paragraph that opens the second |
| `Chunking.DefaultSizes` | internal/application/ai/rag.go:488-496 | a chunk size of zero or less stands for 500 characters with an overlap of 50; any other configuration is used as given |
| `Indexing.RagService.IndexDocument` | internal/application/ai/rag.go:555-654 | rows, vectors, document state and error after indexing one document, whichever inserts, embedding call or final save fail; a document without chunks only changes its status; an error exactly when the save fails |
| `Indexing.RagService.IndexChunks` | internal/application/ai/rag.go:558-645 | the same after chunking: cleanup, one embedding call, rows, records, status |
| `Indexing.RagService.CreateRows` | internal/application/ai/rag.go:591-614 | the rows whose insert succeeds, numbered on, each with its chunk's index and content |
| `Indexing.RagService.BuildRecords` | internal/application/ai/rag.go:617-631 | the row at position j takes embedding j; rows beyond the embeddings or with an empty one are skipped |
| `Indexing.RagService.BatchIndexDocuments` | internal/application/ai/rag.go:673-781 | the whole state after a batch with one embedding call, one cursor and one upsert, and the report: chunk count and success for every document, whatever failed |
| `Indexing.RagService.CollectChunks` | internal/application/ai/rag.go:686-692 | every document's chunks, in order, and their concatenation |
| `Indexing.RagService.WriteChunks` | internal/application/ai/rag.go:716-749 | each inserted row takes the embedding under the cursor, and the cursor moves once per inserted row |
| `BatchRefinement.BatchClosed` | internal/application/ai/rag.go:705-768 | for distinct documents: after n documents of the batch, the rows are the old ones without these documents plus all new rows, and the cursor is the number of new rows |
| `BatchRefinement.LoopClosed` | internal/application/ai/rag.go:555-654 | for distinct documents: the state after indexing n documents in turn, in the same closed form, with cleanup only for documents that have chunks |
| `BatchTheorems.BatchRefinesLoop` | internal/application/ai/rag.go:664-781 | with distinct documents, a pointwise embedder and successful inserts, batch and loop leave the same rows, states and vectors (same order) if and only if nothing stale was there |
| `BatchTheorems.BatchEqualsLoop` | internal/application/ai/rag.go:664-781 | they agree for all documents that are not blank when every text has a vector, whatever was stored before |
| `BatchTheorems.SameRecords` | internal/application/ai/rag.go:705-749 | the cursor lines the one big embedding answer up with the rows exactly as separate answers would |
| `BatchTheorems.CursorLags` | internal/application/ai/rag.go:716-749 | when chunk i of document n comes up, the cursor is behind its position in the batch by exactly the number of inserts that failed before |
| `BatchTheorems.VectorOfChunk` | internal/application/ai/rag.go:737-748 | a chunk stored after k failed inserts gets the embedding of the chunk k positions earlier |
| `BatchTheorems.AlignedExactly` | internal/application/ai/rag.go:737-748 | for every embedder each record carries the embedding of its own content, if and only if failed inserts shift no stored chunk onto a different one |
| `BatchTheorems.ShiftNecessary` | internal/application/ai/rag.go:737-748 | any harmful shift is exposed by some embedder |
| `BatchTheorems.NoFailureNoShift` | internal/application/ai/rag.go:737-748 | when no insert fails, no chunk is shifted |
| `BatchTheorems.BatchStoreAlignedExactly` | internal/application/ai/rag.go:673-781 | for every embedder the batch turns a store whose records carry their own embeddings into such a store, if and only if failed inserts shift no chunk onto a different one |
| `BatchTheorems.DocumentStoreAlignedExactly` | internal/application/ai/rag.go:555-636 | the same for indexing one document |
| `InsertFailures.SameVectorsExactly` | internal/application/ai/rag.go:555-781 | for distinct documents and whichever inserts fail, batch and loop store the same vectors in the same order for every embedder, if and only if no vectors of documents with chunks were there before and every stored chunk finds equal texts under the batch cursor and under its own document's cursor |
| `InsertFailures.DifferentTextShows` | internal/application/ai/rag.go:617-749 | two different texts under the cursors are exposed by some embedder |
| `IndexLaws.NewVectorHasRow` | internal/application/ai/rag.go:591-636 | every vector that indexing a document adds has a row inserted for it in the final table, equal in chunk id, document, knowledge base, index and content, and these are the document's and the chunk's |
| `IndexLaws.RowsExactly` | internal/application/ai/rag.go:566-614 | afterwards the table has the other documents' rows, a row with the right fields for every chunk whose insert succeeds, and old rows of the document only without PostgreSQL |
| `IndexLaws.OldVectorsGone` | internal/application/ai/rag.go:569-573 | vectors of other documents stay; with a store and chunks all vectors of the document are new |
| `IndexLaws.StatusExactly` | internal/application/ai/rag.go:638-645 | the document is ready with its number of chunks unless saving fails; no other status changes |
| `IndexLaws.NewVectorOfBatch` | internal/application/ai/rag.go:705-749 | every vector a batch adds has the id, knowledge base, index and text of a chunk of one of its documents, repeated documents included; its row is in the final table if and only if PostgreSQL did not clean up for that document again later in the batch |
| `IndexLaws.ChunkIsStored` | internal/application/ai/rag.go:737-768 | every inserted chunk with a non-empty embedding under the cursor is stored with it |
| `IndexLaws.NewVectorFound` | internal/application/ai/vectorstore.go:241-308 | such a vector is a candidate for its own document's knowledge base and for 0 (all) and no other, is deleted with that knowledge base and no other, and its hit names its chunk |
| `IndexLaws.DocumentVectors` | internal/application/ai/rag.go:555-636 | from a document's content: each new vector has its id and knowledge base and the text of one of its chunks |
| `IndexLaws.BatchDocumentVectors` | internal/application/ai/rag.go:673-768 | the same for a batch |
| `Vectors.CosineSimilarity` | internal/application/ai/vectorstore.go:314-328 | one loop computes dot product and both norms; zero for unequal lengths, empty or zero vectors |
| `Vectors.CauchySchwarz` | internal/application/ai/vectorstore.go:318-327 | dot^2 <= na * nb for the three sums the loop accumulates |
| `Vectors.CosineBounded` | internal/application/ai/vectorstore.go:313 | every similarity lies in [-1, 1] |
| `Vectors.CosineSquared` | internal/application/ai/vectorstore.go:314-328 | without square roots: the square of the similarity times both squared norms is the squared dot product, with the dot product's sign |
| `Vectors.SameDirectionExactly` | internal/application/ai/vectorstore.go:313-328 | the similarity is 1 if and only if the second vector is a positive multiple of a non-zero first |
| `Sorting.SortSlice` | internal/application/ai/vectorstore.go:262-264 | a descending rearrangement of the list |
| `Sorting.StableSortSorts` | internal/application/ai/reranker.go:232-234 | the stable sort is descending and a permutation |
| `Sorting.StableSortIsStable` | internal/application/ai/reranker.go:232-234 | elements with equal scores keep their order |
| `VectorStore.InMemoryVectorStore.UpsertVectors` | internal/application/ai/vectorstore.go:218-238 | filtering in the backing array that is being read, then appending, leaves the other documents' records in order followed by the batch |
| `VectorStore.InMemoryVectorStore.DeleteByDoc` | internal/application/ai/vectorstore.go:283-294 | exactly the document's records go, the rest keeps its order |
| `VectorStore.InMemoryVectorStore.DeleteByKB` | internal/application/ai/vectorstore.go:297-308 | exactly the knowledge base's records go, the rest keeps its order |
| `VectorStore.InMemoryVectorStore.Search` | internal/application/ai/vectorstore.go:241-280 | exact top-k: distinct candidates of the right knowledge base and dimension with their own similarity, best first, and no omitted candidate scores higher; an error only for the empty query |
| `VectorStore.UpsertRefinesMap` | internal/application/ai/vectorstore.go:217-238 | seen as a map from document to records, an upsert replaces the batch's documents and leaves all others |
| `VectorStore.DeleteByDocRefinesMap` | internal/application/ai/vectorstore.go:282-294 | deleting a document empties its entry only |
| `VectorStore.DeleteByKbRefinesMap` | internal/application/ai/vectorstore.go:296-308 | deleting a knowledge base filters every entry and leaves none of its records |
| `VectorStore.UpsertIdempotent` | internal/application/ai/vectorstore.go:217 | writing a batch twice is writing it once |
| `VectorStore.DeleteByDocCommutes` | internal/application/ai/vectorstore.go:218-294 | deleting after an upsert is upserting the rest into a store without the document |
| `VectorStore.DeleteByKbCommutes` | internal/application/ai/vectorstore.go:218-308 | the same for a knowledge base holds if and only if no old record outside it belongs to a document that the batch puts wholly into it |
| `RankFusion.RRFusion` | internal/application/ai/reranker.go:310-356 | for every order in which the map may be walked: one entry per distinct content with the sum of 1/(K + rank) over all its occurrences and the first occurrence's other fields, descending, then truncated |
| `RankFusion.AddRanking` | internal/application/ai/reranker.go:326-339 | one list adds each content's weights to the map and new contents with their first document |
| `RankFusion.Collect` | internal/application/ai/reranker.go:343-347 | every map entry becomes one document carrying its fused score, whatever the iteration order |
| `RankLaws.ScoreIgnoresOrder` | internal/application/ai/reranker.go:325-335 | fused scores depend on the multiset of lists, not on their order |
| `RankLaws.ScoresAddUp` | internal/application/ai/reranker.go:325-347 | before truncation the scores sum to the weights of all positions of all lists |
| `RankLaws.FusionRespectsDominance` | internal/application/ai/reranker.go:325-355 | if d stands ahead of e in every list that has e (once), d comes before e in the result, and truncation never keeps e without d |
| `FusionComparison.TwoPlacesAgainstOne` | internal/application/ai/reranker.go:305-350 | in every fusion result a content at places p and q of two lists precedes one at place r of one list if (2K + p + q)(K + r) > (K + p)(K + q), follows it if smaller, ties if equal |
| `FusionComparison.ConsensusWins` | internal/application/ai/reranker.go:305-350 | two lists with a content among their first K + 1 places outvote any single list; at place K + 2 of both it ties with the first of a list |
| `FusionComparison.DefaultConsensus` | internal/application/ai/reranker.go:315-355 | with default parameters that is place 61, also in the returned list |
| `FusionComparison.DefaultTie` | internal/application/ai/reranker.go:315-350 | and at place 62 of both it ties with the first of another |
| `FusionComparison.FirstOccurrenceShown` | internal/application/ai/reranker.go:325-347 | title, source and chunk index come from the first document with the content, in the first list that has one |
| `FusionOrder.FusionExists` | internal/application/ai/reranker.go:323-350 | every input has a fusion result |
| `FusionOrder.TieSwaps` | internal/application/ai/reranker.go:343-350 | two documents with the same fused score may come out either way round |
| `FusionOrder.OneResultBy` | internal/application/ai/reranker.go:343-355 | given any fusion result before truncation, what is returned is determined if and only if no two of its documents tie with the first of them inside the returned part |
| `FusionOrder.OneResultExactly` | internal/application/ai/reranker.go:310-356 | the returned list is determined if and only if any two tied contents have at least topK contents with a larger fused score; without truncation, if and only if no two contents tie |
| `AnswerOrder.SettledExactly` | internal/application/ai/reranker.go:210-240 | resorting a returned fusion list and keeping the first k gives one outcome for every list that fusion may return, if and only if each of the k places is settled |
| `KeywordSearch.SortDocumentsByScore` | internal/application/ai/rag.go:833-841 | the exchange sort in place yields a descending permutation |
| `KeywordSearch.BringBestTo` | internal/application/ai/rag.go:835-839 | the inner loop puts a best element of the tail at its head and only rearranges the tail |
| `KeywordSearch.TfidfSearch` | internal/application/ai/rag.go:431-477 | an error without a database or when it fails (but not for a query without keywords); otherwise results and dropped documents together are the positively scored ready documents of the knowledge base, best first, and something is dropped only when topK are returned |
| `KeywordSearch.ResultsExactly` | internal/application/ai/rag.go:444-470 | each result shows title, shortened content, source and score of a positively scored document of the knowledge base (0 for all), best first, and what is left out scores no higher than any of topK results |
| `KeywordSearch.ErrorsExactly` | internal/application/ai/rag.go:436-451 | an error exactly without a database or when it fails on a query with keywords; nothing without keywords |
| `SearchCache.RagSearch.Search` | internal/application/ai/rag.go:93-220 | answer and cache after one search: a hit is returned as stored; a miss gives an answer the pipeline can give, with fusion leaving ties open; only non-empty answers are written, an error writes nothing |
| `SearchCache.RagSearch.Recall` | internal/application/ai/rag.go:128-155 | vector and full-text recall, joined by rank fusion when both answer, else the one that does; a failed vector search counts as empty |
| `SearchCache.RagSearch.Rerank` | internal/application/ai/reranker.go:210-240 | in-place rescoring 0.6/0.4 with negative scores raised to zero, stable sort, truncation |
| `SearchCache.CacheKeyExact` | internal/application/ai/rag.go:225-228 | two requests share a key if and only if knowledge base, effective topK and query hash agree |
| `SearchCache.CacheStaysSound` | internal/application/ai/rag.go:232-268 | on every run each cached entry is a non-empty answer that the pipeline can give to some request of the run with that key |
| `SearchCache.CacheTransparentExactly` | internal/application/ai/rag.go:93-268 | over a fixed corpus, on every run with arbitrary expiries and Redis failures every answer is one the pipeline could give, if and only if no two requests share a key while the first has an answer the second cannot have |
| `SearchCache.NoCollisionIsHarmless` | internal/application/ai/rag.go:222-228 | without a hash collision among the queries that condition holds |
| `SearchCache.HarmShows` | internal/application/ai/rag.go:225-228 | a harmful pair of requests shows on the run that asks one, then the other |
| `SearchCache.AlwaysAnswered` | internal/application/ai/rag.go:93-218 | every request has an answer |
| `SearchCache.HybridAnswerExactly` | internal/application/ai/rag.go:93-218 | a hybrid search has one answer if and only if the first topK places, by final and then fused score, are settled: no later document ties in both scores, and the recall window does not cut through the place's fused ties |
| `SearchCache.OneAnswerExactly` | internal/application/ai/rag.go:93-218 | any request has one answer if and only if it is not a hybrid search or its places are settled |
| `SearchCache.TwoBestHits` | internal/application/ai/rag.go:142-147 | two recalls of one document each, with different contents and no reranker, make a search with more than one answer |
| `SearchCache.RepeatsAgreeExactly` | internal/application/ai/rag.go:93-268 | on every run of a set of requests equal requests get equal answers, from the cache or not, if and only if every request has one answer and no two share a key harmfully |
| `SearchCache.NeverMoreThanTopK` | internal/application/ai/rag.go:93-217 | no search of any run returns more than the effective topK documents, even with hash collisions |
| `SearchCache.NoRedisNoCache` | internal/application/ai/rag.go:232-255 | without Redis nothing is cached and every answer is computed |
| `AnswerLaws.AnswerExactly` | internal/application/ai/rag.go:93-218 | the answer shows the fusion (K = 60, window max(20, 4 topK)) of both recalls when both have something, else the recall that has, full text included, else the keyword fallback; an error exactly when that is needed and fails; shown are the first topK (5 by default), or with the reranker the best by 0.6 max(score, 0) + 0.4 keyword score, ties in old order |
| `AnswerLaws.FallbackUnused` | internal/application/ai/rag.go:142-176 | when some recall answers, the keyword fallback has no influence, and the answer is no error and not empty |
| `AnswerLaws.StableOrder` | internal/application/ai/reranker.go:232-234 | the stable sort lists all places by descending score, equal scores by place |
| `SearchSources.VectorSearch` | internal/application/ai/rag.go:301-334 | over the in-memory store: the topK best records as documents with their similarities, an error when the query has no vector |
| `SearchSources.RecallExactly` | internal/application/ai/rag.go:301-334 | vector recall fails exactly without a query vector; each document shows text, chunk index and similarity of a record of the knowledge base (0 for all), best first, and a comparable record is missing only if topK others are at least as similar |
| `SearchSources.VectorHitsExactly` | internal/application/ai/vectorstore.go:241-267 | vector recall has something if and only if the query has a vector and a record of the knowledge base asked has its dimension |
| `SearchSources.AnswersStayInKb` | internal/application/ai/rag.go:93-268 | on every run over the store, the full-text rows and the documents, each document of each answer is a text stored in the knowledge base that was asked, whatever is cached and however query hashes collide |
| `SearchSources.PlainAnswerExact` | internal/application/ai/rag.go:93-218 | every answer without reranker, from the sources: the topK most similar records when only vectors can be compared, the first topK full-text hits when only they exist, the first topK of a fusion of the two when both do, else what the keyword fallback makes of the stored documents |
| `CircuitBreakers.CircuitBreaker.Allow` | internal/application/ai/rag_client.go:48-69 | grants exactly when the history says so: not open, or the pause since the opening is over; a denial changes nothing |
| `CircuitBreakers.CircuitBreaker.RecordSuccess` | internal/application/ai/rag_client.go:72-80 | closed with no failures, the opening time untouched |
| `CircuitBreakers.CircuitBreaker.RecordFailure` | internal/application/ai/rag_client.go:83-104 | the fields stay the function of the history that `Valid` defines: failures since the last success modulo 2^32, closed below the threshold, half-open iff some call was granted since the last failure |
| `CircuitBreakers.AfterGranted` | internal/application/ai/rag_client.go:52-66 | what a granted call does to the meaning of the history: a breaker that is not closed becomes half-open |
| `CircuitBreakers.AfterFailure` | internal/application/ai/rag_client.go:87-103 | what a failure does: one more in the run, open at the threshold, the clock restarted iff the failure reopens |
| `CircuitBreakers.OpenedAtIsLastFailure` | internal/application/ai/rag_client.go:90-100 | with the threshold reached and fewer than 2^32 failures in a row, the opening time is the time of the last failure |
| `CircuitBreakers.PauseRestartsExactly` | internal/application/ai/rag_client.go:87-103 | the pause counts from the last failure, whenever that was, if and only if that failure ended a half-open phase or had its 32-bit count at the threshold |
| `BreakerClient.RemoteRagClient.Search` | internal/application/ai/rag_client.go:155-245 | answer and recorded events for every outcome of the remote call: a success is status 200 with a readable body of code 0, anything else counts as a failure and gives the fallback's answer, or an empty one without a fallback |
| `BreakerClient.CallsAccounted` | internal/application/ai/rag_client.go:166-244 | in every interleaving, grants = recorded outcomes + calls in flight |
| `BreakerClient.WastedCallsBounded` | internal/application/ai/rag_client.go:166-244 | while everything fails, n concurrent callers are granted at most threshold - 1 + n + n * floor(T / openDuration) calls within time T |
| `BreakerClient.SequentialWasteBounded` | internal/application/ai/rag_client.go:166-244 | for one caller: at most threshold + floor(T / openDuration) |
| `BreakerClient.WasteBoundAttained` | internal/application/ai/rag_client.go:166-244 | the bound cannot be improved: for every threshold, number of callers and number of pauses an all-failing run reaches it exactly |
| `BreakerClient.HalfOpenAdmitsEveryCaller` | internal/application/ai/rag_client.go:64-65 | any number of callers can be granted and in flight in one half-open phase |
| `BreakerClient.OneProbeExactly` | internal/application/ai/rag_client.go:23-65 | on all runs of n callers a half-open breaker has at most one grant since the last outcome and one call in flight, if and only if n <= 1 |
| `BreakerClient.PauseFromLastFailureExactly` | internal/application/ai/rag_client.go:83-104 | on all runs of n callers an open or half-open breaker counts its pause from the last failure, if and only if n <= 1 or the threshold is zero |
| `BreakerClient.WrapRestartsNothing` | internal/application/ai/rag_client.go:87-103 | a run of two callers in which the failure that wraps the 32-bit counter does not restart the pause |
| `PurchaseFsm.StateMachine.Transition` | internal/application/purchase/state_machine.go:70-82 | fires exactly the events the table allows; a refusal lists exactly the allowed events and leaves the state |
| `PurchaseFsm.StateMachine.AllowedEventsFromState` | internal/application/purchase/state_machine.go:90-100 | the nested loops find exactly the events with a target, with their targets |
| `PurchaseFsm.TableUnambiguous` | internal/application/purchase/state_machine.go:29-41 | at most one rule speaks about a state and an event |
| `PurchaseFsm.TargetIff` | internal/application/purchase/state_machine.go:29-41 | first-match lookup and membership in the table agree |
| `PurchaseFsm.ReceiptBoundary` | internal/application/purchase/state_machine.go:29-41 | `receive` is the only way into received/qc/reconciling/settled, nothing leads out, and no second `receive` is allowed there |
| `PurchaseFsm.NeverTracking` | internal/application/purchase/state_machine.go:29-41 | no event leads to `tracking` or the empty status, and every event changes the status |
| `PurchaseFsm.MovesExactly` | internal/application/purchase/state_machine.go:29-41 | event by event where an order may be and where it goes, told by stages: cancelled until the goods arrive, reopened to inquiry only when cancelled |
| `PurchaseFsm.StagesAdvance` | internal/application/purchase/state_machine.go:29-41 | every other event moves an order to a later stage, never past the receipt without it |
| `StockLedger.Handlers.HandleCreateOrder` | internal/interfaces/http/handler/purchase.go:357-415 | a new order in status ordered, or a refusal of a quantity below one |
| `StockLedger.Handlers.HandleUpdateOrder` | internal/interfaces/http/handler/purchase.go:417-454 | SKU and quantity change only in inquiry or quoting; the three refusals in the code's order |
| `StockLedger.Handlers.HandleTransition` | internal/interfaces/http/handler/purchase.go:465-544 | status and history move by the table, `receive` books the goods in, and a missing default warehouse rolls everything back |
| `StockLedger.Handlers.HandleReceive` | internal/interfaces/http/handler/purchase.go:547-610 | stock row created if missing, quantity added in 64-bit arithmetic, one movement and one receive record |
| `StockLedger.Handlers.HandleAdjust` | internal/interfaces/http/handler/inventory.go:103-199 | stock, movement and low-stock alert after an adjustment; refused for a missing row (unless inbound) and for a negative result |
| `StockLedger.Handlers.HandleUpdateInventory` | internal/interfaces/http/handler/inventory.go:74-92 | the safety stock of an existing row is replaced, nothing else changes |
| `StockLaws.OrdersStayOk` | internal/interfaces/http/handler/purchase.go:465-610 | on every run each order's history is a path in the table to its status with at most one receipt, booked in once and for the full quantity, also through cancel and reopen |
| `StockLaws.StepKeepsOrders` | internal/interfaces/http/handler/purchase.go:357-610 | each single request keeps that invariant |
| `StockLaws.GoodsFrozen` | internal/interfaces/http/handler/purchase.go:417-448 | once stocked, an order's SKU and quantity never change, it stays stocked, and its history only grows |
| `StockLaws.LedgerChains` | internal/interfaces/http/handler/purchase.go:570-593 | per warehouse and SKU every movement's before-quantity is the previous after-quantity, and the last equals the stock |
| `StockLaws.StockConserved` | internal/interfaces/http/handler/purchase.go:465-610 | on every run, in 64-bit arithmetic, stock = initial + accepted adjustments + (default warehouse) quantities of the stocked orders |
| `StockLaws.NonNegativeExactly` | internal/interfaces/http/handler/inventory.go:137-143 | stock is never negative on a run if and only if no receipt on it overflows |
| `StockLaws.StockConservedExactly` | internal/interfaces/http/handler/purchase.go:570-571 | on such runs the balance holds in plain integers |
| `StockLaws.OverflowGoesNegative` | internal/interfaces/http/handler/purchase.go:571 | two receipts of 2^62 each make the stock negative |
| `RequestLaws.AdjustExactly` | internal/interfaces/http/handler/inventory.go:103-143 | a complete adjustment of a known (or created) row is accepted if and only if 0 <= stock + quantity <= MaxInt64, or the sum wraps around from a negative stock; the three refusals, which change nothing |
| `RequestLaws.AdjustFromStock` | internal/interfaces/http/handler/inventory.go:137-175 | from a stock that is not negative: accepted if and only if the sum fits; then the stock is the sum, one movement shows kind, amount, before and after, nothing else moves |
| `RequestLaws.AlertExactly` | internal/interfaces/http/handler/inventory.go:178-188 | an accepted adjustment raises one pending low-stock alert if and only if a positive safety stock is reached |
| `RequestLaws.WithdrawalServed` | internal/interfaces/http/handler/inventory.go:103-199 | after any run without overflow a withdrawal of at most what is in stock is served exactly, a larger one refused without a change |
| `RequestLaws.InboundServed` | internal/interfaces/http/handler/inventory.go:103-199 | after any run without overflow goods can be added as long as the sum fits |
| `RequestLaws.RefusalChangesNothing` | internal/interfaces/http/handler/purchase.go:357-544 | a refused request of any kind leaves the whole database as it was |
| `RequestLaws.CreationExactly` | internal/interfaces/http/handler/purchase.go:357-415 | an order is created exactly for a quantity of at least one; the fields of created orders and automatic inquiries |
| `RequestLaws.EditExactly` | internal/interfaces/http/handler/purchase.go:417-454 | an edit succeeds exactly in inquiry or quoting with a quantity of at least one and sets SKU and quantity of that order only |
| `RequestLaws.TransitionExactly` | internal/interfaces/http/handler/purchase.go:465-544 | an allowed event fires unless a receipt lacks the default warehouse; status and history of that order change, its goods do not |
| `RequestLaws.ReceiptExactly` | internal/interfaces/http/handler/purchase.go:547-610 | a receipt adds the order's quantity in the default warehouse, one inbound movement and one receive record |
| `RequestLaws.SafetyExactly` | internal/interfaces/http/handler/inventory.go:74-92 | a safety stock is set on an existing row only; a created row starts without one |
| `Numerals.PrintInjective` | internal/application/ai/rag.go:227 | a printed number determines the number |
| `Numerals.LastSeparator` | internal/application/inventory/service.go:52 | a separator absent from both back parts fixes where a key splits |
| `StockAlerts.AlertService.CheckAndTrigger` | internal/application/inventory/service.go:25-69 | orders, messages and alerts after one pass, whichever transactions fail; triggered + skipped + failed = low rows, and one order per triggered row |
| `StockAlerts.AlertService.TriggerOne` | internal/application/inventory/service.go:72-218 | all three inserts or none; fails exactly without a supplier or when the transaction fails |
| `StockAlerts.AlertService.FindLow` | internal/application/inventory/service.go:28-33 | the low rows in table order |
| `StockAlerts.RefIdExact` | internal/application/inventory/service.go:52 | the "SKU-warehouse" key identifies SKU and warehouse for every SKU, also one with dashes |
| `StockAlerts.QuantityLaw` | internal/application/inventory/service.go:108-112 | the ordered quantity is positive, and twice the safety stock if and only if that fits 64 bits |
| `StockAlerts.PassUnread` | internal/application/inventory/service.go:189-212 | after a pass exactly the old keys and those of the rows acted on are unread, the latter only if somebody is notified |
| `StockAlerts.PassChanges` | internal/application/inventory/service.go:48-64 | a pass changes the database if and only if some low row has no unread message, a supplier and a committing transaction |
| `StockAlerts.SecondPassExactly` | internal/application/inventory/service.go:23-69 | with nothing read in between, whatever stock, catalogue and failures of the two passes: the second changes something if and only if some low row without an old unread message can be ordered now and was not announced by the first |
| `StockAlerts.RepeatedPassExactly` | internal/application/inventory/service.go:23-69 | when every transaction commits, repeating a pass changes nothing if and only if somebody is notified or there was nothing to do |
| `StockAlerts.PassIsInquiries` | internal/application/inventory/service.go:108-150 | the orders of a pass are those of ledger requests, so the laws about runs of the ledger hold across passes |
| `StockAlerts.OneOrderPerUnreadPeriod` | internal/application/inventory/service.go:23-69 | on every run with unique rows and somebody notified, orders for a row = orders before + times its unread messages were read away + 1 while one is unread (less 1 if one was unread at the start) |
| `PassLaws.PassAddsOnly` | internal/application/inventory/service.go:25-218 | every order, message and alert a pass adds belongs to a row with 0 < safety stock >= available stock, no unread message and a supplier, and has its data: SKU, twice the safety stock or 100, the product's supplier or else the default, critical and out of stock exactly at zero |
| `PassLaws.PassServesAll` | internal/application/inventory/service.go:25-218 | when transactions commit, every such row gets its order, a message for everybody to be notified, and a pending alert |
| `Workflow.ConditionMeaning` | internal/application/ai/engine.go:481-492 | `key = value` with any blanks around asks for exactly that context entry; only the first `=` separates |
| `Workflow.BuildNodes` | internal/application/ai/engine.go:309-323 | fails iff some node kind is unknown, otherwise maps ids to kinds |
| `Workflow.BuiltFrom` | internal/application/ai/engine.go:309-323 | the map has exactly the defined ids, each with the kind of its last definition |
| `Workflow.FindStart` | internal/application/ai/engine.go:328-337 | the first input node, else the first node, else none |
| `Workflow.BuildAdjacency` | internal/application/ai/engine.go:340-343 | each node's edges in definition order |
| `Workflow.ChooseNext` | internal/application/ai/engine.go:405-417 | the inner loop picks the target of the first enabled edge |
| `Workflow.WalkAndExecute` | internal/application/ai/engine.go:326-440 | some path and stop reason satisfy the greedy-path relation, and for them tokens and cost are the sums over the executed llm and text2sql nodes, on failure too; the output is the last output node's result, else the context |
| `Workflow.RunUnique` | internal/application/ai/engine.go:356-418 | that relation has one solution: definition, node behaviour and input determine path and stop reason |
| `Workflow.WalkIsSimple` | internal/application/ai/engine.go:352-362 | executed nodes are distinct defined nodes, at most fifty and at most as many as there are |
| `Workflow.FreeRunExists` | internal/application/ai/engine.go:356-418 | without the step limit every walk ends as well, after at most as many nodes as there are |
| `Workflow.LimitCutsExactly` | internal/application/ai/engine.go:353-356 | the executed path is the first fifty nodes of the walk without limit, and the limit is what ends it if and only if that walk has a fifty-first node or goes on from its fiftieth to a visited or failing one; never with fewer than fifty nodes defined |
| `Workflow.ChainTruncated` | internal/application/ai/engine.go:353-419 | a row of nodes runs to its end with at most fifty of them and is cut off after fifty, without an error, with more |
| `Workflow.KeysPersist` | internal/application/ai/engine.go:379-382 | context keys never disappear along a walk |
| `Workflow.FirstUsableEdge` | internal/application/ai/engine.go:400-418 | the next node is the target of the first edge in the whole definition that leaves the node and is enabled; none exactly when there is no such edge |
| `Workflow.OutputIsLast` | internal/application/ai/engine.go:394-396 | the recorded output is the result of the last output node on the path |
| `Workflow.OnlyThePathMatters` | internal/application/ai/engine.go:326-440 | changing nodes and edges off the path changes neither path nor stop reason |
| `WorkflowLaws.LastWriterWins` | internal/application/ai/engine.go:379-382 | a key is in the context if and only if the input or a result on the path has it, with the value of the last such result, else the input's |
| `WorkflowLaws.OutputExactly` | internal/application/ai/engine.go:394-424 | the output is the last output node's result; without one nothing after an error, else the final context key by key |
| `WorkflowLaws.ChargedExactly` | internal/application/ai/engine.go:384-392 | charging one node differently changes tokens and cost by that difference if it is an llm or text2sql node, and not at all otherwise |
| `WorkflowLaws.NothingCharged` | internal/application/ai/engine.go:384-392 | nodes that report nothing cost nothing |
| `WorkflowLaws.EndsInErrorExactly` | internal/application/ai/engine.go:356-418 | an error exactly when, after fewer than fifty nodes, the first usable edge leads to an id not executed before that no node has or whose node fails |
| `WorkflowLaws.StartsAt` | internal/application/ai/engine.go:328-337 | the walk starts at the first input node, else at the first defined node |
| `WorkflowLaws.PlainCondition` | internal/application/ai/engine.go:481-492 | a condition without `=` always holds |
| `WordText.ExtractWtText` | internal/application/ai/docparser.go:264-314 | the loop over the characters with its flags and tag buffer computes the scan that the laws below speak about |
| `WordText.ScanTag` | internal/application/ai/docparser.go:273-304 | a whole tag acts as its text says, whatever state and buffer it meets |
| `WordText.ExtractionLaw` | internal/application/ai/docparser.go:261-314 | for every document of paragraphs, runs, self-closing ones of both (with or without attributes), other tags and loose characters: what is written is the runs without their `>`, the leaked characters in place, and the line breaks that are seen |
| `WordText.RoundTripExactly` | internal/application/ai/docparser.go:261-314 | the paragraph texts come back as lines, trimmed, if and only if no run has a `>`, no visible character leaks, and between the first and last visible character leaked line breaks balance the lost lines of attribute-free self-closing paragraphs |
| `WordText.OrdinaryRoundTrip` | internal/application/ai/docparser.go:261-314 | without self-closing runs with attributes and self-closing paragraphs without: if and only if no run has a `>` |
| `Edits.TrimmedEqualExactly` | internal/application/ai/docparser.go:280-313 | two texts given as common, leaked and lost characters agree after trimming if and only if nothing visible leaks or is lost and line breaks balance in between |
| `WordText.LeaksExactly` | internal/application/ai/docparser.go:290-302 | characters after some pieces are taken for text if and only if a self-closing run with attributes stands among them with no run after it, or a run was open before and none follows |
| `PdfText.ExtractParenthesesText` | internal/application/ai/docparser.go:176-206 | the loop over the runes computes the scan that the laws below speak about |
| `PdfText.RoundTripExactly` | internal/application/ai/docparser.go:174-206 | the literal strings of a line, each character bare or escaped, come back, a blank between them, trimmed, if and only if none has a parenthesis without a backslash |
| `PdfText.EscapedRoundTrip` | internal/application/ai/docparser.go:174-206 | so any strings written with their special characters escaped come back |
| `PdfText.NestedParenthesesCut` | internal/application/ai/docparser.go:190-200 | text after an unescaped inner pair of parentheses is lost |
| `RateLimiting.RateLimiter.Allow` | internal/pkg/middleware/common.go:139-150 | admits iff a token is there, and takes it |
| `RateLimiting.RateLimiter.Refill` | internal/pkg/middleware/common.go:130-136 | a tick adds a token unless the bucket is full |
| `RateLimiting.WindowBounded` | internal/pkg/middleware/common.go:120-151 | any window admits at most rps + its ticks |
| `RateLimiting.AdmitsExactlyConforming` | internal/pkg/middleware/common.go:120-151 | nothing is turned away if and only if no window asks for more than rps + its ticks |
| `WorkerPool.AlwaysAccounted` | cmd/loadtest/main.go:102-137 | in every interleaving the counter equals results + requests in flight + stopped workers, with at most `total` requests issued |
| `WorkerPool.ExactTotal` | cmd/loadtest/main.go:102-137 | a finished run has exactly `total` results (none for a negative total) and the counter stands at that plus the number of workers |
| `WorkerPool.RunLength` | cmd/loadtest/main.go:102-137 | every run ends: a schedule of workers that can step has at most 2 * total + workers steps, and exactly that many iff all have stopped |

## Left out

- Text that is not valid UTF-8: a code point is always 1 to 4 bytes.
- BatchRefinesLoop: repeated document ids in one batch, and a service without any database, are not covered.
- SameVectorsExactly: embedders that fail or look at several texts together are not covered.
- Errors when old rows are deleted, errors of the vector store, token estimates and model names on rows.
- InMemoryVectorStore.Search: topK is not negative; the code fails on a negative one.
- Rounding and overflow of floating-point numbers: all scores are reals.
- 64-bit overflow of `topK*4`, of the fusion constant plus rank, of ChunkSize minus a huge negative Overlap, and of workflow token counts.
- PgVectorStore, MilvusStore, the PostgreSQL full-text query, LLM and embedding providers and the API reranker: external services; the heuristic reranker is the one behind the search.
- The inside of `heuristicScore`, `tokenize`, `calculateScore` and the FNV hash: any functions.
- The JSON round trip of cached documents is taken as the identity; `SearchAsContext` only formats.
- AnswersStayInKb: of the full-text query only its choice of knowledge base is used; the vector store is the in-memory one.
- RagSearch.Search: the corpus does not change during a run; after re-indexing, stale answers live until they expire.
- `PurchaseHandler.Receive`, which moves an order to received without stock, log or history; runs do not contain it.
- The from-status in `PurchaseStatusLog`, prices, logistics fields, numbers made from the clock, and request validation beyond quantity, event, warehouse and SKU.
- Races between handlers: each is one atomic transaction; stock rows are unique by warehouse and SKU.
- Seed data: runs start without orders, movements and receipts, with any stock.
- AlertService.CheckAndTrigger: titles, texts and prices of orders and messages, and the lookup of the default supplier, creator and users, are inputs; messages are never deleted.
- Handling of stock alerts after they are raised, quotes and inquiry sheets.
- WalkAndExecute: the extra fields parsed out of a JSON output, cancellation of the context, and persistence of runs; values are what `%v` prints of them.
- What each workflow node does inside.
- WordText: ZIP and XML entities; in the round trip, tags with a line break instead of a blank after their name,
  paragraphs inside paragraphs, runs outside them, and tags inside a run.
- PdfText: octal and line-break escapes, the line loop around it with its later replacements (which drop literal backslashes), compressed streams.
- RateLimiter: the ticker's real-time rate; a rate of zero or less, with which the code fails.
- WorkerPool: runs limited by duration, latency percentiles.
- HTTP, routing, JWT, tracing, metrics, logging, configuration, migrations, dashboards, plain list endpoints and the web client.
