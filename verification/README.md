# Verified model of KimiX's retrieval, memory, scheduling and prompt core

This project restates the algorithms and protocols at the centre of the KimiX workspace in Dafny and proves what they
promise. `dafny verify dfyconfig.toml` checks all of it. Objects whose methods update their fields are classes with a
`Valid()` predicate; protocols of several processes or tasks are state machines over atomic steps; loops are methods
proved against specification functions whose own properties are proved as lemmas.

- **Retrieval** (`TermOrder`, `InvertedIndex`, `Scorer`, `ScoringLaws`, `Ranking`, `Searcher`, `Diversity`, `Hybrid`,
  `Mmr`, `Recall`). The inverted index, updated in place, always equals the index of the latest tokens per document.
  Term scores are the literal BM25 numbers of the documents, with the laws that fix what length, frequency and rarity
  do, and respect the bound that pruning relies on; pruned search returns exactly the top k of a complete stable
  ranking, ties included. Diversity reranking is greedy and a permutation. Recall spends one budget over three tiers,
  and every eligible turn it leaves out is accounted for.
- **Scheduling** (`TaskGraph`, `Kahn`, `Scheduler`). Layering succeeds exactly on acyclic graphs and puts each task at
  its depth; a run obeys edges and the parallelism limit at every event of its trace, and with distinct ids the edges
  are the dependencies.
- **Memory index and protocols** (`ChunkIds`, `MemoryIndex`, `ReindexProtocol`, `Texts`, `Chunker`, `ChunkRanges`,
  `Dream`, `DreamRun`, `SyncRun`). Rows and full-text table stay in agreement, and embeddings in sync exactly under a stated
  condition; the timed claim shared by processes is exclusive exactly under its timing condition; no reported path is
  forgotten, and a quiet index shows what was read after the last report; chunking loses white space only, for every
  overlap; consolidation deletes only what it has read, as long as it answers in time.
- **Sessions and streams** (`MemorySession`, `SessionStore`, `LineReader`, `LineStream`). A turn tree with compaction,
  its round trip through relational rows, and a producer, bounded channel and consumer that deliver a byte stream whole
  or report its failure, and always come to an end.
- **Prompt and beliefs** (`Prompt`, `Fingerprint`, `ModelRouter`). The lasting conversation only grows at the tail,
  each placeholder is final, savings are accounted once; the content fingerprint separates one-byte changes; the
  running mean and variance are exact.

`Prelude` holds the shared vocabulary.

## Reading the model

- Floats are reals. `ln`, `exp`, the chunk hash, embeddings, tokenizers, token estimators and text formatting are
  function-valued parameters, with only the assumptions the statement names (the chunk hash is injective on texts).
- Clocks, process ids, file-system faults, the iteration order of hash maps, fresh identifiers and task outcomes are
  parameters or nondeterministic choices. Fresh turn and checkpoint ids are required to be new.
- A value borrowed read-only is a datatype (`Index`), the object behind it a class (`InvertedIndex`), tied by
  `View()`.
- Ghost results (`picks`, `kept`, `picked`) name the witnesses of a method's contract.

## Where code and documentation differ

The model follows the code.

- `content_fingerprint` is documented as FNV-1a with 64 bits, but its multiplier is 2^44 + 0x1b3 instead of the 2^40 +
  0x1b3 of section 2 of draft-eastlake-fnv. It is odd all the same, so every step stays a bijection, which is what
  `Fingerprints` proves.
- The prompt builder documents its stable prefix as never rewritten. A turn strips old reminders, which the first turn
  put right behind the system prompt, and pruning does not look at positions: `Prompts.PrefixesOfTurn` gives the exact
  condition for every prefix and `Prompts.ReminderInPrefix` a prompt whose stable prefix is rewritten.
- The chunker documents a split on second-level headers; the code splits at every header level, the first included. It
  documents an overlap for every continuation chunk; the code gives one only after a split at a blank line
  (`Chunkers.NextDraft`).
- A chunk documents its start and end line. `ChunkRanges.RangesExactly` says exactly when a chunk's text is that of its
  range: a line over the maximum that follows only empty lines gets a range that ends before it
  (`ChunkRanges.LongLineBehindEmpty`). In the index, a chunk whose text is unchanged keeps its old line numbers when it
  moves (`MemoryIndexes.LineNumbersExactly`).
- `execute_dream` documents a rollback of the lock's time stamp on failure. `Dreams.DreamDir.ExecuteDream` says
  exactly when the stamp is restored: not for a response without anything to consolidate, and not after losing to a
  rival write.
- The clean-up documents a guard of 300 s against deleting sessions still being written. The guard compares with the
  time of the clean-up, not of the reading: when the model's answer takes 300 s or more, a file rewritten after it was
  read is deleted unread (`Dreams.PromptedExactly`, `DreamRuns.UnreadTextIsLost`).
- A search embeds missing chunks between collecting them and storing the results, and files can be deleted or
  rewritten meanwhile. `MemoryIndexes.MemoryIndex.EmbedMissing` says exactly when embeddings stay in sync and
  `MemoryIndexes.DeletedWhileEmbedding` shows a chunk left with a stale embedding that no later phase collects.
- Tasks are looked up by id, so with repeated ids one task runs in place of another (`Scheduling.OwnTaskExactly`) and
  may start before its dependencies have finished (`Scheduling.TaskOrderExactly`, `Scheduling.RepeatedIdStartsEarly`).
- A branch named `main` overwrites the main turns in the store; `SessionStores.RoundTrip` says exactly when a session
  survives saving.
- Releasing the reindex claim does not look whose claim it is; `ReindexProtocol.MutualExclusion` gives the exact
  timing condition and `ReindexProtocol.LateReleaseReachable` a run that violates it.

## Model

| member | source | states |
|---|---|---|
| `InvertedIndexes.UpsertCorrect` | crates/kimix-core/src/index.rs:34-49 | Inserting or updating a posting keeps the list strictly sorted by document and changes the frequency of that document only |
| `InvertedIndexes.RemovePostingCorrect` | crates/kimix-core/src/index.rs:93-106 | Removing a document from a sorted list leaves exactly the other documents with their frequencies |
| `InvertedIndexes.InvertedIndex.AddDocument` | crates/kimix-core/src/index.rs:77-131 | For a new, re-added or skipped id the object stays the exact index of the latest tokens of every document: sorted postings, frequency equal to multiplicity, no empty lists, total length the sum of the lengths |
| `InvertedIndexes.InvertedIndex.RemoveOldPostings` | crates/kimix-core/src/index.rs:93-106 | The terms of the replaced document lose exactly its postings, and lists that become empty are dropped |
| `InvertedIndexes.InvertedIndex.InsertPostings` | crates/kimix-core/src/index.rs:124-130 | Every distinct token gets one posting whose frequency is its multiplicity, whatever order the counts are visited in |
| `InvertedIndexes.InvertedIndex.Clear` | crates/kimix-core/src/index.rs:196-203 | Clearing gives the index of no documents |
| `InvertedIndexes.CountTerms` | crates/kimix-core/src/index.rs:78-82 | The counting loop maps every token to its number of occurrences |
| `InvertedIndexes.IndexDetermined` | crates/kimix-core/src/index.rs:77-131 | Two indexes of the same documents are equal, so the result of any sequence of updates depends on the latest tokens only |
| `InvertedIndexes.CountCommon` | crates/kimix-core/src/index.rs:173-186 | The two-cursor walk over sorted term lists counts exactly the common terms |
| `InvertedIndexes.Index.JaccardSimilarity` | crates/kimix-core/src/index.rs:164-193 | The similarity read off the sorted term lists is the set similarity, with the special cases for equal, unknown and empty documents |
| `InvertedIndexes.JaccardOfDocuments` | crates/kimix-core/src/index.rs:164-193 | For distinct documents of a correct index it is intersection over union of their token sets |
| `InvertedIndexes.SetJaccardBounds` | crates/kimix-core/src/index.rs:164-193 | The similarity lies between 0 and 1 |
| `TermOrder.LessMeans` | crates/kimix-core/src/index.rs:115-116 | Terms are sorted as in a dictionary: the smaller one ends first or has the smaller character where they part |
| `Scorers.Scorer.ScoreTermBound` | crates/kimix-core/src/scorer.rs:30-80 | A term contributes at least 0 and at most the bound that pruning relies on, times its occurrences in the query |
| `Scorers.Scorer.ScoreTermLinear` | crates/kimix-core/src/scorer.rs:44-80 | Scoring a term for its query frequency is the frequency times the score of one occurrence |
| `Scorers.Scorer.Score` | crates/kimix-core/src/scorer.rs:98-150 | The accumulating loop computes the sum over query occurrences, although it walks distinct terms in any order. What each term of the sum is, in the documents' own terms, is ScoringLaws.ScoreTermLiteral |
| `ScoringLaws.ScoreTermLiteral` | crates/kimix-core/src/scorer.rs:44-92 | With tf occurrences of a term in a document of len tokens, the score times tf * avg + k1 * ((1 - b) * avg + b * len), which is positive, is q * tf * (k1 + 1) * avg * idf; idf is ln(1 + (N - n + 0.5) / (n + 0.5)) cut off at 0, avg the mean length and n the number of documents with the term, all read off the documents and not off the index |
| `ScoringLaws.ScoreTermAbsent` | crates/kimix-core/src/scorer.rs:52-73 | A term that the document does not contain adds nothing |
| `ScoringLaws.Bm25Sum` | crates/kimix-core/src/scorer.rs:98-150 | One more query token adds its own score, repeated tokens again |
| `ScoringLaws.DocFreqCounts` | crates/kimix-core/src/index.rs:149-151 | The document frequency read off the postings is the number of documents that contain the term |
| `ScoringLaws.LengthIgnored` | crates/kimix-core/src/scorer.rs:77-79 | With b = 0 the length of the document does not matter |
| `ScoringLaws.OnlyDensity` | crates/kimix-core/src/scorer.rs:77-79 | With b = 1 documents in which the term has the same density score the same |
| `ScoringLaws.MoreOccurrences` | crates/kimix-core/src/scorer.rs:77-79 | For k1 > 0, strictly more for more occurrences at the same length |
| `ScoringLaws.LongerIsLess` | crates/kimix-core/src/scorer.rs:77-79 | For k1, b > 0, strictly less for a longer document with as many occurrences |
| `ScoringLaws.RarerWeighsMore` | crates/kimix-core/src/scorer.rs:84-92 | For an increasing ln, of two terms that occur equally often in a document the one that fewer documents contain scores strictly more |
| `Searchers.FullRankingCharacterised` | crates/kimix-core/src/searcher.rs:107-130 | The reference ranking holds exactly the documents with positive score, best first, ties by id |
| `Searchers.FullRankingUnique` | crates/kimix-core/src/searcher.rs:107-130 | It is the only list of that kind |
| `Searchers.Searcher.SearchWand` | crates/kimix-core/src/searcher.rs:145-235 | Pruned search returns exactly the first k entries of the reference ranking, ids, true scores and tie order, although pruned documents carry partial scores; the scores are those ScoringLaws speaks of |
| `Searchers.RecordPruned` | crates/kimix-core/src/searcher.rs:214-225 | Recording the partial score of a pruned document leaves the first k results the same as recording its true score |
| `Searchers.RecordExact` | crates/kimix-core/src/searcher.rs:222-225 | Recording a true score on both sides keeps the first k results equal |
| `Searchers.PartialRemainder` | crates/kimix-core/src/searcher.rs:208-220 | What the terms not yet scored can still add to a document is at most the sum of their bounds |
| `Searchers.CandidatesSuffice` | crates/kimix-core/src/searcher.rs:180-194 | Documents without a posting for any query term have no positive score, so visiting the ascending candidates loses nothing |
| `Searchers.Searcher.TermBounds` | crates/kimix-core/src/searcher.rs:156-172 | The distinct query terms with a positive bound, each once, largest bound first |
| `Searchers.Searcher.ScoreCandidate` | crates/kimix-core/src/searcher.rs:204-226 | One candidate is scored fully, or abandoned only when even all remaining bounds keep it below the threshold |
| `Searchers.Searcher.SearchFull` | crates/kimix-core/src/searcher.rs:107-141 | The complete scan returns the reference ranking when it is short and otherwise a greedy diverse choice from its first 2k entries |
| `Searchers.Searcher.Search` | crates/kimix-core/src/searcher.rs:98-103 | Small collections take the complete scan, large ones the pruned search |
| `Searchers.Rerank` | crates/kimix-core/src/searcher.rs:32-74 | min(k, n) distinct picks, each maximising relevance against similarity to the earlier picks over everything unpicked, with swap removal |
| `Hybrid.MmrRerank` | crates/kimix-core/src/hybrid.rs:227-266 | The same greedy choice with order-keeping removal |
| `Diversity.FullSelection` | crates/codegen/kimix-agent-memory/src/mmr.rs:81-107 | A greedy selection of full length is a permutation of the candidates |
| `Diversity.PoolSwapRemove` | crates/kimix-core/src/searcher.rs:67-70 | Swap removal takes out exactly the picked candidate |
| `Diversity.PickPrefers` | crates/kimix-core/src/searcher.rs:44-66 | For lambda < 1 what a pick was preferred to is not less similar to the earlier picks if it is as relevant, and for lambda > 0 not more relevant if it is as similar |
| `Diversity.MaxSimMeans` | crates/kimix-core/src/searcher.rs:50-58 | The similarity that counts against a candidate is the largest to any earlier pick, if that is above 0 |
| `Mmr.MmrRerank` | crates/codegen/kimix-agent-memory/src/mmr.rs:58-116 | In place: no change when disabled, for lambda 1 or fewer than two results; otherwise a greedy permutation whose first result is a most relevant one for every lambda of at least 0 |
| `Mmr.FirstMostRelevant` | crates/codegen/kimix-agent-memory/src/mmr.rs:84-107 | Lambda 0 included, because equal scores are broken by relevance |
| `Mmr.SelectedMultiset` | crates/codegen/kimix-agent-memory/src/mmr.rs:109-113 | Reordering by distinct picks is a permutation of the results |
| `Mmr.NormalizedOrder` | crates/codegen/kimix-agent-memory/src/mmr.rs:76-89 | Normalised relevance lies in 0..1 and orders results as relevance does |
| `Mmr.NormalizedMeans` | crates/codegen/kimix-agent-memory/src/mmr.rs:76-89 | Normalised relevance times the distance between the smallest and the largest, or 2^-52 if that is larger, is the distance from the smallest |
| `Mmr.JaccardIsOverlap` | crates/codegen/kimix-agent-memory/src/mmr.rs:32-47 | The similarity is intersection over union of the word sets |
| `Mmr.BestPosition` | crates/codegen/kimix-agent-memory/src/mmr.rs:84-104 | The scan finds a candidate of maximal marginal score, the most relevant one among equals |
| `TaskGraphs.FromTasks` | crates/kimix-core/src/agent_scheduler.rs:110-140 | For every task list: only the last entry of an id has edges, one for each time any entry of that id names a known id; unknown dependencies are skipped. With distinct ids the edges are the known dependencies, each as often as it is named |
| `TaskGraphs.LayerIsDepth` | crates/kimix-core/src/agent_scheduler.rs:161-219 | In a layering every node sits in the layer numbered by its longest dependency chain |
| `TaskGraphs.LayeredAcyclic` | crates/kimix-core/src/agent_scheduler.rs:214-218 | A graph whose nodes all fit in a layering has no cycle |
| `TaskGraphs.StuckCyclic` | crates/kimix-core/src/agent_scheduler.rs:210-216 | Nodes that each wait for another of them contain a cycle |
| `TaskGraphs.KahnOrderUnique` | crates/kimix-core/src/agent_scheduler.rs:178-208 | The order in which nodes are reached, with ties by id, is determined by the graph, not by map iteration |
| `Kahn.TopoLayers` | crates/kimix-core/src/agent_scheduler.rs:161-219 | Ok exactly for acyclic graphs, parallel edges included; then every task appears once, in the layer of its longest chain, and the loop terminates |
| `Kahn.LayeringUnique` | crates/kimix-core/src/agent_scheduler.rs:161-219 | The returned layers, order inside layers included, are the only ones that meet the contract |
| `Kahn.DryMeansCycle` | crates/kimix-core/src/agent_scheduler.rs:210-216 | A queue that runs dry before all nodes were processed proves a cycle |
| `Kahn.RunNode` | crates/kimix-core/src/agent_scheduler.rs:186-206 | Processing a node lowers the in-degrees of its successors once per parallel edge and enqueues each successor at most once |
| `Scheduling.Scheduler.Run` | crates/kimix-core/src/agent_scheduler.rs:257-307 | Each entry starts at most once, only after the entries with an edge to it finished (with distinct ids: its known dependencies), with at most max_parallel in flight; Ok exactly for acyclic graphs within the depth limit, with outcomes in layer order; a cycle runs nothing. The trace is layer after layer and chunk after chunk: every chunk but a layer's last starts exactly max_parallel entries before the first of them finishes |
| `Scheduling.TaskOrderExactly` | crates/kimix-core/src/agent_scheduler.rs:161-219 | Every task that is run has its known dependencies in earlier layers if and only if no id that is repeated has a known dependency in its last task |
| `Scheduling.StartedAfterDependencies` | crates/kimix-core/src/agent_scheduler.rs:291-301 | In every legal run a task so placed starts only after all its known dependencies have finished |
| `Scheduling.RepeatedIdStartsEarly` | crates/kimix-core/src/agent_scheduler.rs:110-140 | A task list with a repeated id, its layers, and a legal run in which a task starts before its dependency has finished |
| `Scheduling.OwnTaskExactly` | crates/kimix-core/src/agent_scheduler.rs:153-156 | Looking tasks up by id runs each entry's own task, and none twice, if and only if the ids are distinct |
| `Scheduling.DepthLimitRuns` | crates/kimix-core/src/agent_scheduler.rs:277-288 | When the depth limit is exceeded exactly the tasks of depth up to the limit have run |
| `Scheduling.Scheduler.RunChunk` | crates/kimix-core/src/agent_scheduler.rs:292-301 | All entries of a chunk are started, in order, before the first of them finishes, and each finishes once before the next chunk |
| `Scheduling.NextChunk` | crates/kimix-core/src/agent_scheduler.rs:292-301 | Chunks of max_parallel entries, and of what is left at the end, make up a layer's part of the trace |
| `ChunkIds.ChunkIdInjective` | crates/codegen/kimix-agent-memory/src/index.rs:253-256 | Different paths or chunk numbers never share a chunk id, even when paths contain colons and digits |
| `ChunkIds.DecimalMeans` | crates/codegen/kimix-agent-memory/src/index.rs:253-256 | Chunk numbers are in decimal, without leading zeros |
| `MemoryIndexes.MemoryIndex.ReindexFile` | crates/codegen/kimix-agent-memory/src/index.rs:222-350 | The chunks of the content become the rows of the path: the new state is fixed up to unread files, unchanged hashes, changed and new chunks, stale chunks and other paths; rows and full-text table stay in agreement, embeddings that were in sync stay so; the counts are those of new and of changed chunks, and rows = old + added - removed |
| `MemoryIndexes.VectorAfter` | crates/codegen/kimix-agent-memory/src/index.rs:294-344 | Exactly which embeddings are in sync afterwards, from any state: those of rewritten or removed chunks are dropped, those of unchanged chunks keep their state, and an orphan gets right only if a new chunk happens to match it |
| `MemoryIndexes.ReindexedText` | crates/codegen/kimix-agent-memory/src/index.rs:222-350 | Afterwards the rows of the path are exactly its chunk list, with the current text |
| `MemoryIndexes.ReindexedFields` | crates/codegen/kimix-agent-memory/src/index.rs:253-327 | Field by field: a new row has a new number, the chunk's text, hash and lines, and the current time; a changed one takes these over and keeps number, path, source, creation time and access fields; one with unchanged text stays as it was |
| `MemoryIndexes.LineNumbersExactly` | crates/codegen/kimix-agent-memory/src/index.rs:258-276 | A row carries its chunk's line numbers if and only if it is not the case that its text was there already under other line numbers: a chunk that only moved keeps its old ones |
| `MemoryIndexes.OtherPathsKept` | crates/codegen/kimix-agent-memory/src/index.rs:222-350 | Rows of other paths are untouched |
| `MemoryIndexes.ReindexTwice` | crates/codegen/kimix-agent-memory/src/index.rs:258-261 | Reindexing the same chunk list again changes nothing, whatever the clock and the source label |
| `MemoryIndexes.MemoryIndex.ReindexFileTwice` | crates/codegen/kimix-agent-memory/src/index.rs:222-350 | Reindexing a file with the same content again reports nothing and changes nothing |
| `MemoryIndexes.MemoryIndex.DeletePath` | crates/codegen/kimix-agent-memory/src/index.rs:631-662 | No row of the path is left, other paths, the agreement and embeddings in sync are kept, and the count of removed rows is returned |
| `MemoryIndexes.MemoryIndex.UpsertEmbedding` | crates/codegen/kimix-agent-memory/src/index.rs:536-550 | Stores the embedding without looking at the chunks: embeddings in sync stay so exactly when the chunk is live and this one was made from its current text |
| `MemoryIndexes.MemoryIndex.ChunksWithoutEmbeddings` | crates/codegen/kimix-agent-memory/src/index.rs:518-533 | Exactly the live chunks without a vector, with their current text, and none without vector support |
| `MemoryIndexes.MemoryIndex.EmbedMissing` | crates/codegen/kimix-agent-memory/src/backend.rs:312-345 | Whatever happened to the chunks since they were collected, rows and full-text table stay in agreement, and embeddings that were in sync stay so if and only if every text embedded now still belongs to a chunk with that embedding |
| `MemoryIndexes.EmbeddedInSync` | crates/codegen/kimix-agent-memory/src/backend.rs:338-341 | The same of the tables alone: storing keeps every embedding in sync exactly when each collected text is still current |
| `MemoryIndexes.MemoryIndex.EmbedUndisturbed` | crates/codegen/kimix-agent-memory/src/backend.rs:310-342 | When nothing happens in between, every chunk ends up with the embedding of its current text, save those whose batch failed |
| `MemoryIndexes.DeletedWhileEmbedding` | crates/codegen/kimix-agent-memory/src/backend.rs:310-342 | A run with a deletion during the await: an embedding without a chunk remains, and when the file comes back with another text the chunk keeps the old embedding and is never collected again |
| `MemoryIndexes.MemoryIndex.RecordAccess` | crates/codegen/kimix-agent-memory/src/index.rs:501-511 | Only the access fields of one row change |
| `ReindexProtocol.ClaimBreaksExclusion` | crates/codegen/kimix-agent-memory/src/index.rs:586-608 | A claim breaks mutual exclusion if and only if some holder has kept its claim longer than the stale threshold |
| `ReindexProtocol.OtherStepsKeep` | crates/codegen/kimix-agent-memory/src/index.rs:611-615 | No other step, release, drop and crash included, adds a holder or disturbs a holder's claim while holders are exclusive |
| `ReindexProtocol.MutualExclusion` | crates/codegen/kimix-agent-memory/src/backend.rs:287-345 | Over whole runs of any number of processes: at most one holder throughout if and only if nobody claims past an overdue holder; then the cell always names the holder |
| `ReindexProtocol.LateReleaseReachable` | crates/codegen/kimix-agent-memory/src/index.rs:611-615 | Without timing an overtaken holder's release empties the claim under the new holder |
| `ReindexProtocol.NothingForgotten` | crates/codegen/kimix-agent-memory/src/watcher.rs:54-63 | A reported path is at every later point still waiting, or taken by a later swap and in work or handled, unless its process crashed |
| `ReindexProtocol.QuietMeansHandled` | crates/codegen/kimix-agent-memory/src/backend.rs:289-309 | Once nothing waits and nothing is in work, every report of a living process was handed to reindex or delete after it was made |
| `ReindexProtocol.TrapExactly` | crates/codegen/kimix-agent-memory/src/watcher.rs:101-105 | A step leaves waiting paths behind a lowered flag exactly when it lowers the flag after an insert that followed the swap |
| `ReindexProtocol.NeverTrappedExactly` | crates/codegen/kimix-agent-memory/src/watcher.rs:46-63 | Over whole runs: no path of a process is ever left behind a lowered flag if and only if its flag is never lowered when some report came after the last take and every report has raised its flag already; told by the actions alone |
| `ReindexProtocol.WaitingExactly` | crates/codegen/kimix-agent-memory/src/watcher.rs:101-105 | A path waits exactly when it was reported and nothing was taken since |
| `ReindexProtocol.TrapReachable` | crates/codegen/kimix-agent-memory/src/watcher.rs:101-105 | Such a state is reachable with every search idle |
| `ReindexProtocol.ServesWhatWaits` | crates/codegen/kimix-agent-memory/src/backend.rs:287-345 | From any state with the flag up and the claim to be had, an idle search can go on until everything that waited was handled; then nothing waits, the flag is down, the claim free and the search idle |
| `SyncRuns.HandlePath` | crates/codegen/kimix-agent-memory/src/backend.rs:294-306 | Handling a path is reindexing its file if it is there and dropping its rows otherwise |
| `SyncRuns.ShowsLastReading` | crates/codegen/kimix-agent-memory/src/backend.rs:294-306 | Over runs with the tables: the rows of a path are exactly the chunks of its last reading, or none if the file was gone, whatever happened to other paths since |
| `SyncRuns.QuietIndexIsFresh` | crates/codegen/kimix-agent-memory/src/backend.rs:289-309 | Once nothing waits and nothing is in work, the rows of a path that a living process reported come from a reading made after the report, unless that reading failed |
| `Texts.LinesConserve` | crates/codegen/kimix-agent-memory/src/chunker.rs:43-43 | Splitting into lines loses white space only |
| `Texts.LinesMean` | crates/codegen/kimix-agent-memory/src/chunker.rs:43-43 | The text is its lines, each followed by its line end, with or without a carriage return; only the last line may lack one |
| `Texts.SqueezeTrim` | crates/codegen/kimix-agent-memory/src/chunker.rs:151-156 | Trimming loses white space only |
| `Texts.TrimMeans` | crates/codegen/kimix-agent-memory/src/chunker.rs:151-156 | Trimming takes away white space at both ends, and what is left neither starts nor ends with any |
| `Texts.TrimUnique` | crates/codegen/kimix-agent-memory/src/chunker.rs:151-156 | Only one text is like that |
| `Chunkers.ChunkMarkdown` | crates/codegen/kimix-agent-memory/src/chunker.rs:37-80 | The chunk list is a function of content and configuration. Content that fits is one chunk; otherwise every chunk lies in one section, its text is its body behind the label of the enclosing headers, stated from the lines; ranges are ordered and disjoint, bodies are small, and for every overlap each body adds its own text after the tail of the body before it or after nothing, and what the bodies add is the content, save white space |
| `Chunkers.ChunksOfContent` | crates/codegen/kimix-agent-memory/src/chunker.rs:37-80 | The same of the function |
| `Chunkers.ContextIsLabel` | crates/codegen/kimix-agent-memory/src/chunker.rs:226-245 | What stands before the body is empty when at most one header encloses the section; otherwise it is the trimmed enclosing headers except the innermost, outermost first, between the fixed words |
| `Chunkers.OpenLinesExactly` | crates/codegen/kimix-agent-memory/src/chunker.rs:111-115 | The enclosing headers are exactly the header lines that no later header of the same or a higher level closes, in order |
| `ChunkRanges.RangesExactly` | crates/codegen/kimix-agent-memory/src/chunker.rs:135-207 | Every chunk of a section adds exactly the lines of its range, save white space, if and only if the section fits in one chunk or no line over the maximum is flushed behind nothing but empty lines |
| `ChunkRanges.LongLineBehindEmpty` | crates/codegen/kimix-agent-memory/src/chunker.rs:181-191 | An empty line and then one too long for a chunk: the chunk of line 1 claims line 0 |
| `Chunkers.ConservedWithoutOverlap` | crates/codegen/kimix-agent-memory/src/chunker.rs:37-80 | With overlap 0 the bodies themselves are the content, save white space |
| `Chunkers.SplitByHeaders` | crates/codegen/kimix-agent-memory/src/chunker.rs:93-130 | The sections are a function of the lines; they tile them, have a header at most at their start, and are labelled with exactly the enclosing headers |
| `Chunkers.HeaderLine` | crates/codegen/kimix-agent-memory/src/chunker.rs:111-115 | A header closes exactly the headers of the same or a deeper level among those that enclose the text |
| `Chunkers.PushHeader` | crates/codegen/kimix-agent-memory/src/chunker.rs:111-115 | The pop loop on the header stack removes exactly the headers of the same or a deeper level |
| `Chunkers.SplitSectionByParagraphs` | crates/codegen/kimix-agent-memory/src/chunker.rs:135-207 | The loop computes the specified chunks of a large section |
| `Chunkers.ParagraphsSplit` | crates/codegen/kimix-agent-memory/src/chunker.rs:135-207 | They are in ordered ranges inside the section, every body is at most the maximum or the previous overlap plus at most one line, and for every overlap nothing but white space is lost |
| `Chunkers.ConservedAlways` | crates/codegen/kimix-agent-memory/src/chunker.rs:145-195 | Line by line: what the finished bodies add together with the new part of the collected text is everything read so far, save white space |
| `Chunkers.SizedAlways` | crates/codegen/kimix-agent-memory/src/chunker.rs:145-195 | Line by line: bodies and collected text are at most the maximum, or the previous overlap and one line |
| `Chunkers.AddLine` | crates/codegen/kimix-agent-memory/src/chunker.rs:145-195 | A line ends a paragraph, goes to the next chunk, or extends the text; splitting the text with the line at its last newline is the same as keeping the text without it |
| `Chunkers.SplitUndoesExtend` | crates/codegen/kimix-agent-memory/src/chunker.rs:181-191 | Splitting at the last newline takes exactly the line just added off again |
| `Chunkers.HeaderLevelMeans` | crates/codegen/kimix-agent-memory/src/chunker.rs:210-223 | A line has level n if and only if, after leading white space, it starts with exactly n hash signs, at least one, and then a space or its end |
| `LineReaders.ReadLineCapped` | crates/codegen/kimix-acp-lib/src/line_reader.rs:139-176 | The loop returns one line, or the unterminated rest, or reports a line over the cap; bytes read plus bytes left are the source, and the buffer exceeds the cap by at most one piece |
| `LineReaders.ReadRoundConserves` | crates/codegen/kimix-acp-lib/src/line_reader.rs:144-172 | One fill-and-consume round neither loses nor invents bytes, for every splitting of the source |
| `LineReaders.ReadRoundBound` | crates/codegen/kimix-acp-lib/src/line_reader.rs:144-172 | The line buffer outgrows the cap by at most one piece |
| `LineReaders.LineBufferedRead.PollRead` | crates/codegen/kimix-acp-lib/src/line_reader.rs:95-131 | Reading into the caller's buffer does what the specification step says and writes nothing beyond the bytes returned |
| `LineStreams.ExecuteInv` | crates/codegen/kimix-acp-lib/src/line_reader.rs:61-91 | The invariant of producer, bounded channel and consumer holds after every schedule |
| `LineStreams.StreamGuarantees` | crates/codegen/kimix-acp-lib/src/line_reader.rs:95-131 | In terms of what the polls of any schedule answer, for every source splitting, capacity and read size: an end that no error came before means that the source is sound and all of it was delivered; the error is answered at most once, only for an I/O error or an over-long line, after every line before it, and then only the end is answered; Pending comes only at a line boundary |
| `LineStreams.ExecuteReported` | crates/codegen/kimix-acp-lib/src/line_reader.rs:61-91 | After every schedule a failure is with the producer, last in the queue, or answered, and nothing else is |
| `LineStreams.PollServes` | crates/codegen/kimix-acp-lib/src/line_reader.rs:103-123 | A poll answers with as much of the line in hand as there is room for, and the rest stays in hand |
| `LineStreams.PollWaits` | crates/codegen/kimix-acp-lib/src/line_reader.rs:115-130 | With no line in hand it answers the error exactly when that comes next, the end exactly when the channel is closed and empty, and otherwise waits |
| `LineStreams.StepsBounded` | crates/codegen/kimix-acp-lib/src/line_reader.rs:61-131 | In every schedule only boundedly many steps change anything, the bound depending on the source alone |
| `LineStreams.StreamEnds` | crates/codegen/kimix-acp-lib/src/line_reader.rs:61-131 | Where nothing can happen any more the next poll answers the end, after the error or with all of a sound source delivered: the stream cannot get stuck |
| `LineStreams.FailureOnlyFromSource` | crates/codegen/kimix-acp-lib/src/line_reader.rs:67-84 | For a source that never fails, of any total length: the stream fails only over a stretch of the source that starts at a line boundary and is a single line longer than the cap |
| `LineStreams.ShortLinesNeverFail` | crates/codegen/kimix-acp-lib/src/line_reader.rs:67-84 | So a source without over-long lines never fails and no poll answers an error, however long it is in all |
| `MemorySessions.MemorySession.AddTurn` | crates/codegen/kimix-agent-memory/src/memory_session.rs:132-148 | Appends a turn under the last one with the next number; invariant, index and homes are kept |
| `MemorySessions.MemorySession.AddTurnUnder` | crates/codegen/kimix-agent-memory/src/memory_session.rs:151-167 | The same under any parent string, known or not |
| `MemorySessions.MemorySession.Fork` | crates/codegen/kimix-agent-memory/src/memory_session.rs:171-195 | A branch of copies up to the turn: role, content and time stamp of each original, a fresh id, numbers from 1, the original's parent except for the first, not ephemeral; an unknown turn changes nothing |
| `MemorySessions.MemorySession.CreateCheckpoint` | crates/codegen/kimix-agent-memory/src/memory_session.rs:215-240 | A checkpoint of the last turn, none for an empty session |
| `MemorySessions.MemorySession.ReplaceWithSummary` | crates/codegen/kimix-agent-memory/src/memory_session.rs:404-436 | All but the newest turns become one summary, and the rebuilt index is exactly that of the new turns |
| `MemorySessions.SummaryOk` | crates/codegen/kimix-agent-memory/src/memory_session.rs:404-436 | Numbers stay strictly increasing through repeated compaction, although every summary is numbered 0 |
| `MemorySessions.AppendOk` | crates/codegen/kimix-agent-memory/src/memory_session.rs:132-148 | Appending keeps ids distinct, numbers increasing and every parent older than its child |
| `MemorySessions.ForkOk` | crates/codegen/kimix-agent-memory/src/memory_session.rs:171-195 | So does forking, whose copies keep their originals' parents |
| `MemorySessions.MemorySession.GetTurnById` | crates/codegen/kimix-agent-memory/src/memory_session.rs:100-110 | Finds the turn wherever it lives, whatever order branches are searched in |
| `MemorySessions.SameIdSameTurn` | crates/codegen/kimix-agent-memory/src/memory_session.rs:100-110 | No two turns of a session share an id |
| `MemorySessions.MemorySession.TurnLineage` | crates/codegen/kimix-agent-memory/src/memory_session.rs:113-129 | Terminates and lists consecutive parents and children, root first, ending in the turn asked for; empty exactly for an unknown id |
| `MemorySessions.ParentCloser` | crates/codegen/kimix-agent-memory/src/memory_session.rs:113-129 | Walking to a parent strictly decreases the creation rank |
| `MemorySessions.MemorySession.IndexTurns` | crates/codegen/kimix-agent-memory/src/memory_session.rs:423-432 | Clearing and re-adding gives the index of the current turns |
| `MemorySessions.MemorySession.AddTurnRaw` | crates/codegen/kimix-agent-memory/src/memory_session.rs:280-285 | Loading a turn extends turns and index together |
| `SessionStores.SessionStore.SaveSession` | crates/codegen/kimix-agent-memory/src/memory_store.rs:79-131 | Into a compatible store a save succeeds, stores the session exactly, keeps the store compatible, and never touches other sessions |
| `SessionStores.SessionStore.LoadSession` | crates/codegen/kimix-agent-memory/src/memory_store.rs:155-263 | None exactly for an unknown session; otherwise every group of rows in key order and an index of the loaded turns; what was saved in order without a branch called main satisfies the session invariant again, so every operation can go on with it |
| `SessionStores.LoadedOk` | crates/codegen/kimix-agent-memory/src/memory_store.rs:155-263 | The same of the rows alone, for any checkpoint times; the loaded session can be saved in place of the old one |
| `SessionStores.SessionStore.SaveThenLoad` | crates/codegen/kimix-agent-memory/src/memory_store.rs:79-263 | Saving and loading in one: exact return, with increasing checkpoint times, if and only if there is no branch called main, and then the result can be continued and saved again |
| `SessionStores.RoundTrip` | crates/codegen/kimix-agent-memory/src/memory_store.rs:79-263 | With checkpoints at increasing times a saved session loads back exactly if and only if it has no branch called main; in every case it says what comes back |
| `SessionStores.ReplaceRows` | crates/codegen/kimix-agent-memory/src/memory_store.rs:100-150 | Delete and re-insert succeeds if and only if ids are distinct and no row outside the group has one of them; other rows are untouched |
| `SessionStores.SelectRows` | crates/codegen/kimix-agent-memory/src/memory_store.rs:172-193 | Exactly the rows of the group in weak key order |
| `SessionStores.OrderDetermined` | crates/codegen/kimix-agent-memory/src/memory_store.rs:172-193 | A strictly ordered listing is the only weakly ordered one of its values |
| `SessionStores.CompatibleGrows` | crates/codegen/kimix-agent-memory/src/memory_store.rs:79-131 | Any growth of a session with ids new to the store keeps it ready to be saved, so earlier saves never matter |
| `SessionStores.GroupSaves` | crates/codegen/kimix-agent-memory/src/memory_store.rs:90-109 | No group of a reachable session can hit a primary-key conflict |
| `Prompts.AgentPrompt.BeginTurn` | crates/kimix-prompt/src/lib.rs:387-461 | Lasting messages are kept in place and order, exactly the consumed tool results become placeholders, and a reminder for each capped injection, the nudge exactly when the tokens are past the soft ratio of the smaller window and at most four fifths of it, and the user message follow; savings stay balanced; every prefix that survives, and no other, is named |
| `Prompts.AgentPrompt.SoftNudgeMeans` | crates/kimix-prompt/src/lib.rs:45-56 | The ratio test and the choice of the window, free of division |
| `Prompts.AgentPrompt.PruneConsumedEphemera` | crates/kimix-prompt/src/lib.rs:555-607 | Both branches replace exactly the ephemeral messages with at least the configured number of newer ones and count each original once |
| `Prompts.NewestStay` | crates/kimix-prompt/src/lib.rs:587-602 | The ephemeral messages left are exactly the newest ones, at most the configured number |
| `Prompts.ConsumedExactly` | crates/kimix-prompt/src/lib.rs:558-593 | The index arithmetic picks exactly those with enough newer ones |
| `Prompts.EvolvesTransitive` | crates/kimix-prompt/src/lib.rs:609-632 | Over any sequence of operations a message is replaced at most once and otherwise only the tail grows |
| `Prompts.PrefixesOfTurn` | crates/kimix-prompt/src/lib.rs:387-461 | For every length, the first messages are the same before and after a turn if and only if none of them is a reminder and none is consumed by pruning; where the length reaches past all lasting messages, the rest must reappear as the new messages of the turn |
| `Prompts.StablePrefixExact` | crates/kimix-prompt/src/lib.rs:519-531 | Behind a system prompt the stable prefix survives a turn if and only if it ends at the same place and holds no reminder and no consumed message, and what of it lies past the lasting messages reappears; position alone protects nothing |
| `Prompts.ReminderInPrefix` | crates/kimix-prompt/src/lib.rs:519-531 | Two turns of a fresh prompt that rewrite its stable prefix: the reminder of the first turn stands right behind the system prompt and the second turn strips it |
| `Prompts.AgentPrompt.SetSystemPrompt` | crates/kimix-prompt/src/lib.rs:360-373 | Afterwards one system message stands first and every other message is as it was, in the old order |
| `Prompts.WithoutSystemKeeps` | crates/kimix-prompt/src/lib.rs:371-371 | Removing the system messages keeps the message at every other position, in order |
| `Prompts.AgentPrompt.RecordToolResult` | crates/kimix-prompt/src/lib.rs:468-473 | Appends one ephemeral message, the payload or its stub, and rewrites nothing |
| `Prompts.AgentPrompt.ApplyContentDedup` | crates/kimix-prompt/src/lib.rs:476-493 | The counters grow by exactly the omitted estimate of a duplicate |
| `Prompts.ContentHashDeduper.Admit` | crates/kimix-prompt/src/lib.rs:76-94 | A payload is stubbed if and only if it is long and an earlier one that passed has its fingerprint |
| `Prompts.StubIdentifies` | crates/kimix-prompt/src/lib.rs:86-91 | A stub determines the fingerprint it stands for and the tokens it names |
| `Prompts.AgentPrompt.CapInjections` | crates/kimix-prompt/src/lib.rs:635-652 | The greedy choice of injections within count and token budget |
| `Prompts.AgentPrompt.PlaceholderMessage` | crates/kimix-prompt/src/lib.rs:615-632 | Only the one message changes: its role stays, its content becomes the stated placeholder, and it stops being ephemeral |
| `Prompts.PlaceholderMeans` | crates/kimix-prompt/src/lib.rs:615-632 | The placeholder is empty for an empty content, otherwise names its length and shows its first ephemeral_preview_chars characters, unless none are wanted or they are sensitive |
| `Prompts.PlaceholderShowsNoMore` | crates/kimix-prompt/src/lib.rs:609-632 | Contents of the same length that agree in these characters, or in both of which they are sensitive, have the same placeholder: it shows nothing else |
| `Prompts.LooksSensitiveMeans` | crates/kimix-prompt/src/lib.rs:702-719 | A text is sensitive exactly when one of the markers begins somewhere in it, upper and lower case aside |
| `Prompts.AgentPrompt.RecordResponse` | crates/kimix-prompt/src/lib.rs:502-504 | Appends at the tail |
| `Fingerprints.OneByteApart` | crates/kimix-prompt/src/lib.rs:723-732 | Texts of equal length that differ in exactly one byte never share a fingerprint |
| `Fingerprints.MixInjective` | crates/kimix-prompt/src/lib.rs:728-729 | A step is injective in the state for a fixed byte and in the byte for a fixed state |
| `Fingerprints.MultiplyInjective` | crates/kimix-prompt/src/lib.rs:729-729 | Multiplying by the constant modulo 2^64 loses nothing |
| `Fingerprints.ContentFingerprint` | crates/kimix-prompt/src/lib.rs:723-732 | The loop computes the fold over the bytes |
| `Fingerprints.FingerprintSnoc` | crates/kimix-prompt/src/lib.rs:723-732 | One more byte is exclusive or into the low eight bits and then multiplication modulo 2^64; the empty text has the offset basis |
| `Fingerprints.XorBits` | crates/kimix-prompt/src/lib.rs:728-728 | Exclusive or, digit by digit |
| `ModelRouters.Belief.Update` | crates/kimix-core/src/model_router.rs:114-135 | Mean is exactly the average and n times the variance is 6.25 plus the sum of squared distances to it, until the floor fires, which happens exactly below the threshold |
| `ModelRouters.WelfordStep` | crates/kimix-core/src/model_router.rs:121-129 | One update adds delta times delta2 to the sum of squared distances from the mean |
| `ModelRouters.FloorFree` | crates/kimix-core/src/model_router.rs:132-133 | The floor cannot fire for up to 62500 observations |
| `ModelRouters.FloorFreeIsTight` | crates/kimix-core/src/model_router.rs:132-133 | With one observation more, equal observations make it fire |
| `ModelRouters.MeanBetween` | crates/kimix-core/src/model_router.rs:121-122 | The mean lies between any bounds of the observations |
| `ModelRouters.Router.Learn` | crates/kimix-core/src/model_router.rs:392-409 | Only the named model's belief changes; unknown models change nothing |
| `Recalls.RecallEngine.Recall` | crates/kimix-core/src/recall.rs:193-403 | Every fresh hit that meets the conditions of a tier is picked, or as many others as the tier may take meet them and are no worse, or it did not fit what was left of the budget when its turn came; a pick is answered unless as many others that are no worse fill the answer. What is answered are results of fresh hits with the turn's own data, the hit's score, boosted as stated for recency, and its decayed score; distinct, within count and budget, best first. The dedup set never exceeds 50, and recalls without eviction or reset never repeat a turn; shorter queries than 10 bytes answer nothing |
| `Recalls.QualifyMeans` | crates/kimix-core/src/recall.rs:262-352 | A hit qualifies exactly when its turn is unused and, with score, boost and exponential decay written out, meets the conditions of the tier |
| `Recalls.ExplainTier` | crates/kimix-core/src/recall.rs:260-372 | One pass keeps the account of why each eligible hit so far was not picked, and adds its own tier to it |
| `Recalls.FittingSkips` | crates/kimix-core/src/recall.rs:243-251 | An item the budget did not cover: what was spent before it went to items no worse, and was too much, and what came after is no better |
| `Recalls.TierSound` | crates/kimix-core/src/recall.rs:260-298 | A tier adds only distinct results of unused hits that meet its conditions, within what is left of the budget |
| `Recalls.RecallEngine.Tier` | crates/kimix-core/src/recall.rs:260-372 | A pass is the greedy choice from its best candidates |
| `Recalls.RecallEngine.Track` | crates/kimix-core/src/recall.rs:387-400 | Up to 50 everything is remembered, beyond that any 30 |
| `Recalls.FinishRecall` | crates/kimix-core/src/recall.rs:374-385 | Sorting and truncating leave the best picks, as many as allowed, best first, within the budget |
| `Recalls.SearchDistinct` | crates/kimix-core/src/recall.rs:205-222 | The text search returns every turn at most once, as recall needs |
| `Dreams.DreamDir.ExecuteDream` | crates/codegen/kimix-agent-memory/src/dream.rs:393-463 | With t the response without surrounding white space: a pass is skipped exactly when a live holder kept it out or a rival wrote the lock; otherwise it completes if and only if t is non-empty, no refusal and has a heading, and the write works. Then the memory is the start of t of length min(|t|, 16000), that length is reported, and exactly the processed, five minutes old, deletable files are removed. In no other case does a file or the memory change; the last consolidation time is restored if and only if the pass was kept out, or the write failed and the rollback worked |
| `Dreams.ProcessMeans` | crates/codegen/kimix-agent-memory/src/dream.rs:272-315 | The response is accepted exactly then, and what is written is that start of it |
| `Dreams.HeldMeans` | crates/codegen/kimix-agent-memory/src/dream_lock.rs:92-101 | A holder keeps a pass out exactly when its process lives and it wrote the lock less than the stale time ago |
| `Dreams.DreamDir.BuildDreamUserMessage` | crates/codegen/kimix-agent-memory/src/dream.rs:180-252 | Processed stems are the readable non-blank ones up to the first point the buffer reaches the cap in bytes, and the whole text of each is in the prompt |
| `Dreams.ExistingMemoryMeans` | crates/codegen/kimix-agent-memory/src/dream.rs:188-210 | The prompt starts with the trimmed memory or its longest start within 16000 bytes, unless that is blank or still the initial template |
| `Dreams.PromptedExactly` | crates/codegen/kimix-agent-memory/src/dream.rs:335-379 | Whatever other processes write after the reading, the clean-up removes prompted text only, if and only if it comes less than the 300 s guard after the reading |
| `Dreams.RewrittenIsLost` | crates/codegen/kimix-agent-memory/src/dream.rs:335-379 | For any message, a file rewritten right after it was read is removed unread once the guard has passed |
| `DreamRuns.RemovedOnlyByItsReader` | crates/codegen/kimix-agent-memory/src/dream.rs:393-463 | Over whole runs of many passes and writers: a session file disappears only in a completed pass that read it earlier in the run, whose message holds its text as read |
| `DreamRuns.PromptPassesLoseNothing` | crates/codegen/kimix-agent-memory/src/dream.rs:335-379 | So a pass executed within the guard's time of its reading removes no text that was not in its message |
| `DreamRuns.UnreadTextIsLost` | crates/codegen/kimix-agent-memory/src/dream.rs:335-379 | A legal run, one pass and one writer, in which text is removed that was never in a message |
| `DreamRuns.PassesAlwaysOk` | crates/codegen/kimix-agent-memory/src/dream.rs:180-252 | At every point of every run what is on disk is what a pass in flight read or was written since |
| `Dreams.DreamDir.CleanProcessedSessions` | crates/codegen/kimix-agent-memory/src/dream.rs:335-379 | Removes exactly the listed, old enough, deletable files and reports exactly those |
| `Dreams.DreamDir.CheckDreamGates` | crates/codegen/kimix-agent-memory/src/dream.rs:39-77 | Disabled, too soon (with the whole hours passed), too few sessions (with their number) or open, each exactly when its gate decides; an open gate lists the eligible sessions in order |
| `Dreams.DreamDir.SessionsSince` | crates/codegen/kimix-agent-memory/src/dream_lock.rs:154-192 | The sorted list of exactly the eligible stems |
| `Dreams.DreamDir.TryAcquire` | crates/codegen/kimix-agent-memory/src/dream_lock.rs:85-120 | A live, fresh holder keeps the lock; otherwise the lock carries the new time stamp whoever wrote last, and the attempt succeeds, returning the previous stamp, exactly when no other process wrote it |
| `Dreams.DreamDir.Rollback` | crates/codegen/kimix-agent-memory/src/dream_lock.rs:123-140 | Afterwards the last consolidation time is the one given |
| `Dreams.LeftoversAfterPass` | crates/codegen/kimix-agent-memory/src/dream.rs:226-234 | Sessions past the point where the input cap was reached survive a completed pass unchanged, and count as eligible afterwards if and only if modified after it |
| `Dreams.AppendedContains` | crates/codegen/kimix-agent-memory/src/dream.rs:212-232 | Every appended session is in the buffer as a whole |

## Left out

- Floating-point rounding, `NaN`, integer overflow of counters, and the standard deviation itself: its square is modelled.
- Query parsing, stop words, stemming and Unicode segmentation: tokenizers and estimators are parameters.
- Score fusion of text and vector results, vector search, query expansion and search-result decay: arithmetic over opaque scores.
- SQLite itself: transactions are atomic, full-text ranking, foreign-key cascades and I/O errors are absent, and RFC 3339 time stamps are taken to survive formatting and parsing.
- Opening one memory database with vector support and later without it: the setting is fixed for an index.
- JSON persistence of sessions, the compaction prompt, plan mode, sub-agents, the gateway and message plumbing.
- Logging, the cached token estimate of a message, and usage counters other than saved tokens.
- Dropping the line reader while its producer still runs, and waker bookkeeping: a poll is a function of the channel's state.
- Recalls.RecallEngine.Recall: the token estimate is a parameter, and the hits of the text or hybrid search are a parameter with at most one hit per turn, which SearchDistinct proves of the text search.
- Scheduling.Scheduler.Run: a panic in the executor and cancellation of the run are absent.
- Dreams.DreamDir.TryAcquire: it is best effort by design, so no exclusion is claimed; one rival write between writing and verifying is a parameter, and I/O errors while acquiring are absent.
- Dreams.DreamDir.ExecuteDream: whether a response is a refusal, which takes Unicode lower-casing, is a parameter; a rollback that fails keeps the new lock contents, where the code may already have removed the process id and written a later time stamp; the old stamp is restored in neither.
- DreamRuns.RemovedOnlyByItsReader: a pass reads all its files, and executes, in one atomic step each.
- Prompts.AgentPrompt.BeginTurn: savings are gross, as in the code: the placeholder's own tokens are not subtracted, and a stub may refer to content that was pruned since.
- Prompts.AgentPrompt.RecordToolResult: how a long tool output is truncated is a parameter.
- Mmr.MmrRerank: splitting snippets into words is a parameter.
- ModelRouters.Router.Learn: registration, routing and the exploration bonus are not modelled.
- SessionStores.RoundTrip: with equal checkpoint times the database may return either order, so equality is claimed for increasing times and shown to need weakly increasing ones.
- ReindexProtocol.MutualExclusion: all processes read one clock, and one database row is updated atomically.
- SyncRuns.QuietIndexIsFresh: handling a path is one atomic step, and only searches write the tables; reindexing by other parts of the program is not part of the run.
