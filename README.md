# Hypergraph document store: the construction pipeline in Dafny

This project models the part of `hypergraph-document-store` that turns a news corpus into a
hypergraph and projects that hypergraph onto pairwise edges. It covers these stages:

- **Term extraction** (`TermGenerator.py`).
  - Stopword filtering in `add_token`.
  - Grouping the entity annotations of a sentence by `(doc_id, sen_id)`.
  - The token walk of `process_document`, which replaces the tokens covered by an entity with the entity's text.
  - The numbering of the distinct terms in `postprocessing`.
  - Text truncation in `push_terms` and the document limit of the constructor.
- **Hyperedge construction** (`HyperedgeGenerator.py`). Every anchor sentence `(d, s)` gives one hyperedge.
  - The hyperedge holds the `(term_id, pos)` pairs of the occurrences in document `d` whose sentence lies in `[s - w, s + w]`, with `pos = sentence_id - s`.
  - It also holds the `(document, sentence, pos)` triples of the sentences in that window, and the anchor's document.
  - Hyperedges are buffered in three correlated lists.
  - At each flush they are numbered from a running counter and handed to three tables by one bulk insert each. A flush happens every fifth of the anchors and once more at the end.
- **Schema helpers** (`GenerateNewSchema.py`): `str2bool`, the table names of a window, and the creation of missing tables.
- **Dyadic projection**, in two forms.
  - `GenerateDyadicGraph.py` does it in Python: sort a hyperedge's terms, emit every pair in both directions, and group consecutive table rows by edge id, batch by batch.
  - `GenerateDyadicSQL.py` does it in the database as a self-join.
- **Two small helpers**.
  - The date-column rewrite and CSV output of `Neo4j/lib/query_helper.py`.
  - The storage totals of `SSDBM_figures/window_size_vs_storage/get_postgres_sizes.py`.

The databases (PostgreSQL and MongoDB) are replaced by values.

- **Read-only tables.** The occurrence, term and sentence tables are sequences, held in a `Corpus`.
- **Hyperedge tables.** The three hyperedge tables are sets of rows. A bulk insert behaves like the repository's `insert_into_table`: a duplicate key anywhere in the batch rejects the whole batch with result 0; otherwise the rows are added with result 1.
- **Existing tables.** Table existence is membership in a set of names.
- **Tokenizer output.** Tokenised sentences arrive as `(idx, text)` tokens.
- **Stopwords.** The stopword lists are a parameter.

The stateful parts are classes whose methods update fields:

- `HyperedgeGeneration.HyperedgeGenerator`;
- `TermGeneration.TermGenerator`;
- `Schema.SchemaCreator`.

Each of their methods is proved against a value-level specification, kept in `Window`, `TermSpec` and the pure functions of each module. Loops stay loops. The properties of the whole run are lemmas about those functions.

Behaviours of the code that are easy to miss:

- **First edge id on resume.** The first new edge id is `max(1, COUNT(DISTINCT edge_id))`. On a table numbered `1..n` that is `n`, an id the table already holds. See `HyperedgeGeneration.StartIdOnResume`.
- **Flush points.** Flushes happen before every anchor whose index is a positive multiple of `n / 5`, not after a configurable batch size.
- **Term set of a hyperedge.** The term part is the set of `(term_id, pos)` pairs. A term found at two offsets appears twice.
- **Batch boundaries in the dyadic projection.** The Python projection does split hyperedges across batches and does drop groups. See Findings.

## Model

| member | source | states |
|---|---|---|
| `Text.Lower` | GenerateNewSchema.py:17-19 | `v.lower()` on ASCII: keeps the length, maps each of `A`-`Z` to its lower-case letter and every other character to itself, and leaves no upper-case ASCII letter |
| `Text.LowerIdempotent` | GenerateNewSchema.py:17-19 | lower-casing twice is lower-casing once |
| `Text.Split` | GenerateDyadicSQL.py:25 | `s.split(sep)` gives at least one field and no field contains the separator |
| `Text.JoinSplit` | GenerateDyadicSQL.py:25-28 | joining the `_`-fields of a name gives the name back |
| `Text.SplitJoin` | GenerateDyadicSQL.py:25-28 | splitting fields joined by a separator they do not contain gives the fields back |
| `Text.ReplaceChar` | Neo4j/lib/query_helper.py:24 | `str.replace` of one character: same length; each character is swapped exactly when it is the replaced one |
| `Text.NatToString` | GenerateNewSchema.py:66 | `str(n)` of a natural number is a non-empty run of decimal digits |
| `Text.IntToString` | GenerateNewSchema.py:66 | `str(i)` is all digits for `i >= 0` and never contains `_` |
| `Text.NatToStringValue` | GenerateDyadicSQL.py:25 | reading the decimal rendering of `n` back gives `n` |
| `Text.NatToStringInjective` | GenerateDyadicSQL.py:25-28 | two window sizes with the same rendering are equal, so table names of different windows differ |
| `Text.PyPrefix` | TermGenerator.py:420 | Python's `s[:n]` is a prefix of `s`, of length `min(n, len)` for `n >= 0`; a negative `n` drops that many from the end |
| `Text.NoDupAppend` | HyperedgeGenerator.py:232-241 | two lists without repetitions and without a common element concatenate to a list without repetitions |
| `Text.DistinctElems` | TermGenerator.py:311-312 | a list without repetitions has as many distinct elements as entries |
| `Window.OccurrenceQueryMembership` | HyperedgeGenerator.py:166-183 | a row is in the occurrence query's result iff some occurrence of the anchor's document in the window, joined with an entity term when `entities_only`, has that term and offset |
| `Window.WindowTermsMembership` | HyperedgeGenerator.py:166-185 | `(t, pos)` is in the hyperedge of `(d, s)` iff an occurrence `(d, s', t)` has `s - w <= s' <= s + w` and `pos = s' - s`; no other document contributes |
| `Window.WindowTermsBounded` | HyperedgeGenerator.py:166-185 | every offset of a hyperedge satisfies `-w <= pos <= w` |
| `Window.EntitiesOnlyRestricts` | HyperedgeGenerator.py:174-182 | the entities-only hyperedge is the unfiltered one restricted to entity terms, hence a subset of it |
| `Window.Distinct` | HyperedgeGenerator.py:188 | `SELECT DISTINCT` keeps exactly the same elements and repeats none |
| `Window.SentenceQueryMembership` | HyperedgeGenerator.py:188-195 | a triple is in the sentence query iff it is a sentence of the anchor's document in the window, with its offset |
| `Window.WindowSentencesMembership` | HyperedgeGenerator.py:188-197 | the sentence rows of a hyperedge are distinct and are exactly the window's sentences with their offsets |
| `Window.TagSentences` | HyperedgeGenerator.py:238 | every sentence triple becomes one row carrying the edge id, in order |
| `Window.TagDocuments` | HyperedgeGenerator.py:237 | the document of edge `i` of a batch becomes `(start + i, doc)` |
| `Window.TagDocumentsSplit` | HyperedgeGenerator.py:232-241 | numbering a batch `a + b` from `start` equals numbering `a` from `start` and then `b` from `start + len(a)` |
| `Window.TaggedTermSetSplit` | HyperedgeGenerator.py:232-241 | the term rows do not depend on where the batches are cut |
| `Window.TaggedSentenceRowsSplit` | HyperedgeGenerator.py:232-241 | the sentence rows do not depend on where the batches are cut |
| `Window.TaggedTermSetMembership` | HyperedgeGenerator.py:235 | a term row is produced iff it carries the id of the edge whose window holds its pair |
| `Window.TaggedTermSetRange` | HyperedgeGenerator.py:232-241 | the term rows of a batch numbered from `start` carry ids `start .. start + len - 1` |
| `Window.TagDocumentsRange` | HyperedgeGenerator.py:237 | the document rows of a batch repeat nothing and carry ids `start .. start + len - 1` |
| `Window.TagSentencesRange` | HyperedgeGenerator.py:238 | a window listing no sentence twice gives sentence rows without repetitions, all of its edge |
| `Window.TaggedSentenceRowsRange` | HyperedgeGenerator.py:232-241 | the sentence rows of a batch of such windows repeat nothing and carry ids `start .. start + len - 1` |
| `HyperedgeGeneration.IdRange` | HyperedgeGenerator.py:108-110 | the ids `1..n` are exactly `n` ids |
| `HyperedgeGeneration.StartIdOnResume` | HyperedgeGenerator.py:108-110 | the first id is 1 on an empty table; on a table numbered `1..n`, it is `n`, which the table already holds |
| `HyperedgeGeneration.TagEdge` | HyperedgeGenerator.py:235 | the rows of one edge are its pairs tagged with the edge id, each once, as many as pairs |
| `HyperedgeGeneration.TermRowsNoDup` | HyperedgeGenerator.py:232-236 | the rows of edge `start + i` repeat nothing and share no row with those of the earlier edges of the batch |
| `HyperedgeGeneration.FlushSizesSplit` | HyperedgeGenerator.py:124-135 | with `c >= 1` flush points, the log is `c` batches of exactly `k` edges and a last one of 1 to `k`, summing to `n` |
| `HyperedgeGeneration.FlushSizesShape` | HyperedgeGenerator.py:124-135 | from empty buffers and `n >= 5` anchors, every flush but the last carries exactly `n / 5` edges, the last between 1 and `n / 5`, and together they carry all `n` |
| `HyperedgeGeneration.InLoopFlushes` | HyperedgeGenerator.py:124-128 | the `c` flushes made inside the loop: one per flush point passed |
| `HyperedgeGeneration.FlushPoint` | HyperedgeGenerator.py:126 | between two flush points, `i % k == 0` holds exactly at the next multiple of `k` |
| `HyperedgeGeneration.CheckBounds` | HyperedgeGenerator.py:126-128 | the flush test fires exactly at the end of the current batch of `k` anchors |
| `HyperedgeGeneration.FinalFlush` | HyperedgeGenerator.py:132-135 | after the loop, `(n - 1) / k` flush points have passed and the final flush carries the rest |
| `HyperedgeGeneration.FlushLogStep` | HyperedgeGenerator.py:126-128 | a flush at the end of batch `c` carries what was buffered since the previous one, and extends the log to `InLoopFlushes` of `c + 1` batches |
| `HyperedgeGeneration.TagBuffers` | HyperedgeGenerator.py:232-241 | buffered edge `i` gets id `start + i` in all three buffers; the collected term and sentence rows are those of the batch in edge order |
| `HyperedgeGeneration.TermLedgerFlush` | HyperedgeGenerator.py:243-246 | a flush hands the term table the rows of every pending edge, so the ledger covers the whole run |
| `HyperedgeGeneration.DocumentLedgerFlush` | HyperedgeGenerator.py:248-250 | the same for the document rows |
| `HyperedgeGeneration.SentenceLedgerFlush` | HyperedgeGenerator.py:252-254 | the same for the sentence rows |
| `HyperedgeGeneration.LedgersGrow` | HyperedgeGenerator.py:185-200 | buffering another window leaves the rows already handed to the tables unchanged |
| `HyperedgeGeneration.PendingGrow` | HyperedgeGenerator.py:185-200 | buffering a window appends exactly one pending entry to each of the three buffers |
| `HyperedgeGeneration.FlushedIntro` | HyperedgeGenerator.py:202-227 | numbering from the counter, one bulk insert per table and emptying the buffers make up one flush; from a fresh state each table gains exactly the rows handed to it, and the state stays fresh |
| `HyperedgeGeneration.FlushStored` | HyperedgeGenerator.py:243-254 | from a fresh state no bulk insert is rejected: each table gains exactly the rows handed to it, and the new state is fresh |
| `HyperedgeGeneration.StoredTrans` | HyperedgeGenerator.py:124-135 | "every handed row was stored" composes over consecutive stretches of a run |
| `HyperedgeGeneration.StoredAppend` | HyperedgeGenerator.py:185-200 | buffering a window that lists no sentence twice keeps the state fresh and the tables as they were |
| `HyperedgeGeneration.InProgressStart` | HyperedgeGenerator.py:112-135 | at the start of a run, every buffered edge is pending and nothing has been handed over |
| `HyperedgeGeneration.InProgressFlush` | HyperedgeGenerator.py:124-135 | a flush mid-run hands over every pending edge with consecutive ids and logs their number |
| `HyperedgeGeneration.InProgressGrow` | HyperedgeGenerator.py:124-130 | buffering one more window extends the run by exactly that edge |
| `HyperedgeGeneration.CoveredStart` | HyperedgeGenerator.py:112-123 | before the first anchor, the run holds exactly what was already buffered |
| `HyperedgeGeneration.CoveredStep` | HyperedgeGenerator.py:124-130 | each anchor adds its own window, its sentences and its document to the run |
| `HyperedgeGeneration.CoveredAll` | HyperedgeGenerator.py:124-130 | after the loop, the run's edges are the initially buffered ones followed by one window per anchor, in anchor order |
| `HyperedgeGeneration.RunStart` | HyperedgeGenerator.py:112-123 | before the first anchor, nothing has been flushed and the log is unchanged |
| `HyperedgeGeneration.RunFlush` | HyperedgeGenerator.py:126-128 | with the tables present, a flush point completes the current batch and logs the size `InLoopFlushes` gives |
| `HyperedgeGeneration.RunGrow` | HyperedgeGenerator.py:130 | buffering a window keeps the run's flush history |
| `HyperedgeGeneration.RunPending` | HyperedgeGenerator.py:132-133 | after the last anchor something is still buffered, so the final flush runs |
| `HyperedgeGeneration.RunFinish` | HyperedgeGenerator.py:132-135 | after the final flush every edge of the run has been handed over, and the flush log is `FlushSizes` |
| `HyperedgeGeneration.LoopStart` | HyperedgeGenerator.py:112-123 | before the first anchor the loop state holds, with no flush point passed |
| `HyperedgeGeneration.LoopStep` | HyperedgeGenerator.py:124-130 | one iteration of the loop (checkpoint, then buffering one window) keeps the loop state |
| `HyperedgeGeneration.LoopEnd` | HyperedgeGenerator.py:124-135 | without the tables a run hands nothing over; with them something is left for the final flush |
| `HyperedgeGeneration.CreatedEdgesIntro` | HyperedgeGenerator.py:132-135 | once every edge of the corpus is handed over in flushes of the sizes `FlushSizes` gives, the buffers are empty and the run is complete |
| `HyperedgeGeneration.RunStored` | HyperedgeGenerator.py:112-135 | a complete run whose inserts all succeeded leaves each table holding its old rows plus the rows of every edge of the run, numbered from the first id |
| `HyperedgeGeneration.LoopClose` | HyperedgeGenerator.py:132-135 | the final flush completes the run: every edge is numbered and handed over |
| `HyperedgeGeneration.HyperedgeGenerator.constructor` | HyperedgeGenerator.py:96-110 | empty buffers, empty logs, and the counter set to `max(1, distinct edge ids)` |
| `HyperedgeGeneration.HyperedgeGenerator.GenerateEverythingFromSentence` | HyperedgeGenerator.py:158-200 | appends exactly one entry to each buffer: the anchor's window terms, window sentences and document |
| `HyperedgeGeneration.HyperedgeGenerator.PrepareData` | HyperedgeGenerator.py:232-241 | buffered edge `i` is tagged with `start + i` everywhere; the counter moves past the batch; no row is dropped or reordered |
| `HyperedgeGeneration.HyperedgeGenerator.InsertData` | HyperedgeGenerator.py:243-254 | one bulk insert per table: each table becomes the result of inserting the rows handed to it, and those rows are added to the table's log of handed rows |
| `HyperedgeGeneration.HyperedgeGenerator.InsertEdgesNaively` | HyperedgeGenerator.py:202-230 | with a table missing nothing changes; otherwise one complete flush happens and the five buffers are empty; from a fresh state every handed row is stored |
| `HyperedgeGeneration.HyperedgeGenerator.Flush` | HyperedgeGenerator.py:217-227 | tagging, inserting and clearing make one flush of the buffered edges |
| `HyperedgeGeneration.HyperedgeGenerator.ResetBuffers` | HyperedgeGenerator.py:222-227 | all five buffers are emptied |
| `HyperedgeGeneration.HyperedgeGenerator.CheckpointFlush` | HyperedgeGenerator.py:126-128 | at a positive multiple of `k`, with the tables present, exactly one flush happens; otherwise nothing changes; a fresh run stays fresh with every handed row stored |
| `HyperedgeGeneration.HyperedgeGenerator.Visit` | HyperedgeGenerator.py:124-130 | one pass of the loop: the flush at a checkpoint, then the anchor's window is buffered |
| `HyperedgeGeneration.HyperedgeGenerator.BatchAnchors` | HyperedgeGenerator.py:124-130 | the loop over all anchors establishes the loop state for the whole corpus |
| `HyperedgeGeneration.HyperedgeGenerator.CreateEdgesNaively` | HyperedgeGenerator.py:112-138 | 0 anchors: unbound loop index if something is pending. 1 to 4 anchors: division by zero. Otherwise every window is numbered consecutively and inserted in flushes of the sizes `FlushSizes` gives, or nothing changes if a table is missing. From a fresh state with the tables present, each table ends up holding its old rows plus the rows of every edge of the run (`FilledTables`) |
| `DyadicGraph.Insert` | GenerateDyadicGraph.py:119 | insertion keeps the elements with their multiplicities and adds one |
| `DyadicGraph.InsertSorted` | GenerateDyadicGraph.py:119 | inserting into a sorted list keeps it sorted |
| `DyadicGraph.Sort` | GenerateDyadicGraph.py:119 | `sorted`: ascending, and a permutation of its input |
| `DyadicGraph.Row` | GenerateDyadicGraph.py:124-125 | the pairs of `h[i]` with every later term, in index order |
| `DyadicGraph.ExplodeHyperedge` | GenerateDyadicGraph.py:109-130 | the edge set is every pair `(h[i], h[j])`, `i < j`, of the sorted terms in loop order; the table rows are each pair followed by its mirror |
| `DyadicGraph.PairWithLater` | GenerateDyadicGraph.py:124-128 | the inner loop appends `h[i]`'s pairs, each with its two table rows |
| `DyadicGraph.PairsCount` | GenerateDyadicGraph.py:123-125 | `k` terms give `k(k - 1)/2 = gaus(k - 1)` pairs |
| `DyadicGraph.SortedPairsCount` | GenerateDyadicGraph.py:92 | the pairs of the sorted group number `gaus(len - 1)`, the increment of `expected_size` |
| `DyadicGraph.GausClosedForm` | GenerateDyadicGraph.py:167-168 | `2 * gaus(k - 1) = k(k - 1)` for every `k >= 0`, and `gaus(-1) = 0` |
| `DyadicGraph.MirroredShape` | GenerateDyadicGraph.py:126-128 | each `(id, a, b)` row is immediately followed by `(id, b, a)`; twice as many rows as pairs |
| `DyadicGraph.ExplodeCounts` | GenerateDyadicGraph.py:119-130 | `k(k - 1)/2` pairs and exactly twice as many table rows |
| `DyadicGraph.PairsMembers` | GenerateDyadicGraph.py:123-125 | a pair is produced iff it takes an element and a later one |
| `DyadicGraph.ExplodeOrdered` | GenerateDyadicGraph.py:117-125 | because the terms are sorted first, every pair `(a, b)` has `a <= b` |
| `DyadicGraph.ExplodeDistinct` | GenerateDyadicGraph.py:122-125 | with distinct terms there is no self-pair and each unordered pair appears exactly once, as `(smaller, larger)` |
| `DyadicGraph.SortSameElements` | GenerateDyadicGraph.py:119 | sorting keeps exactly the same terms |
| `DyadicGraph.SortKeepsDistinct` | GenerateDyadicGraph.py:119 | sorting distinct terms keeps them distinct |
| `DyadicGraph.Runs` | GenerateDyadicGraph.py:84-99 | the runs of a non-empty row list are non-empty and the last one carries the last row's id |
| `DyadicGraph.Step` | GenerateDyadicGraph.py:84-99 | a row joins the last run when it carries that run's id, else opens a run; either way the last run carries its id |
| `DyadicGraph.RunsPartition` | GenerateDyadicGraph.py:84-99 | the runs partition the rows: their terms read in order are the rows' terms, no run is empty, and neighbouring runs have different ids |
| `DyadicGraph.RunsAppend` | GenerateDyadicGraph.py:84-99 | cutting the rows where the edge id changes cuts the runs there too |
| `DyadicGraph.CloseGroup` | GenerateDyadicGraph.py:87-95 | a row with a new id explodes the current group and starts a group of its own |
| `DyadicGraph.ExtendGroup` | GenerateDyadicGraph.py:97-99 | a row with the current id joins the current group |
| `DyadicGraph.HandleBatch` | GenerateDyadicGraph.py:73-106 | as written: the edges and rows are those of every run but the last; the ValueError never fires; the returned id is the last row's id |
| `DyadicGraph.HandleRow` | GenerateDyadicGraph.py:84-99 | one pass of the loop keeps "every run before the current group is exploded" and adds `gaus(len - 1)` to the expected size exactly when it adds that many pairs |
| `DyadicGraph.CloseRow` | GenerateDyadicGraph.py:87-95 | the new-id branch appends the exploded group and adds its pair count to `expected_size` |
| `DyadicGraph.HandleBatchFixed` | GenerateDyadicGraph.py:73-106 | with the final group exploded too, the edges and rows are those of every run of the batch |
| `DyadicGraph.FinalGroupDropped` | GenerateDyadicGraph.py:84-106 | the batch `[(1, 10), (1, 11)]` yields no pair as written, and `(10, 11)` when the final group is exploded |
| `DyadicGraph.ExtendBoundary` | GenerateDyadicGraph.py:58-65 | returns `ScanFrom` of its start: the scan as written stops at the first position where column 1 changes, or reads past the end exactly when column 1 never changes |
| `DyadicGraph.ScanFromMeaning` | GenerateDyadicGraph.py:59-65 | where the scan stops, column 1 is constant from the start up to that row and changes at the next; it finds no stop exactly when column 1 never changes to the end of the list |
| `DyadicGraph.ScanStopFound` | GenerateDyadicGraph.py:59-65 | the scan's stop is unique: any row where column 1 first changes is the one the scan returns |
| `DyadicGraph.ScanSplitsEdge` | GenerateDyadicGraph.py:61 | rows `[(1, 10), (1, 20), (2, 30)]` with batch size 1: the scan stops at once, inside edge 1 |
| `DyadicGraph.ScanReadsPastEnd` | GenerateDyadicGraph.py:59-65 | rows `[(1, 5), (2, 7), (3, 7)]` from boundary 1: the scan reaches the last row and reads past it |
| `DyadicGraph.BatchStopMeaning` | GenerateDyadicGraph.py:57-65 | a batch from `start` ends where the scan from `start + size` stops, or at the end of the list when `start + size` is past it; it has no end exactly when that scan reads past the last row |
| `DyadicGraph.ScanBoundary` | GenerateDyadicGraph.py:57-65 | the guarded scan at the head of a pass: fails exactly when `BatchStop` has no end, and otherwise returns an `end_ind` at least `start + size` that, cut to the list, is `BatchStop` |
| `DyadicGraph.Pass` | GenerateDyadicGraph.py:55-68 | one pass: fails exactly when the scan fails; otherwise the batch is the slice from `start` to the scan's end (cut to the list) and the rows handed on are `handle_batch`'s for it |
| `DyadicGraph.BatchEndsSnoc` | GenerateDyadicGraph.py:66-68 | a batch that starts where the earlier ones end and stops at its `BatchStop` keeps every batch ending at its `BatchStop` |
| `DyadicGraph.PassProgress` | GenerateDyadicGraph.py:53-70 | a pass that finds its end keeps the loop's progress: the batches so far are the rows before `start_ind`, in order, none empty, each ending at its `BatchStop`, and the handed rows are theirs |
| `DyadicGraph.GenerateDyadicEdges` | GenerateDyadicGraph.py:30-70 | as written: the batches are non-empty consecutive slices of a prefix of the rows, the whole list when the run completes; each batch ends where the scan from its start plus the batch size stops, or at the end of the list; the run raises IndexError exactly when the next scan has no end, that is (by `BatchStopMeaning`) when column 1 never changes from the next boundary on; batch size 0 means one batch of everything; the dyadic rows are those `handle_batch` hands on for each batch |
| `DyadicGraph.ExtendBoundaryFixed` | GenerateDyadicGraph.py:58-65 | the corrected scan moves the boundary forward to the first change of edge id or to the end of the list |
| `DyadicGraph.FixedBatchStep` | GenerateDyadicGraph.py:53-70 | a batch that starts where the edge id changes adds exactly its own runs |
| `DyadicGraph.GenerateDyadicEdgesFixed` | GenerateDyadicGraph.py:30-70 | corrected: the batches cover the rows, and the dyadic rows are those of every hyperedge of the list, whatever the batch size |
| `DyadicSql.EntityFields` | GenerateDyadicSQL.py:25 | the first `_`-field of `entity_...` is `entity` |
| `DyadicSql.IsEntityHyperedgeTable` | GenerateDyadicSQL.py:25 | the filter (starts with `entity_`, second `_`-field all ASCII digits, ends with `hyperedges`): a selected name has at least two fields, the first one `entity` |
| `DyadicSql.WindowTableFields` | GenerateDyadicSQL.py:25-28 | `entity_{w}_{suffix}` splits into exactly those three fields |
| `DyadicSql.WindowTableSelected` | GenerateDyadicSQL.py:25-28 | `entity_{w}_hyperedges` is selected and its dyadic table is `entity_{w}_dyadic` |
| `DyadicSql.WindowSideTablesSkipped` | GenerateDyadicSQL.py:25 | the document and sentence tables of a window are not selected |
| `DyadicSql.FullTablesSkipped` | GenerateDyadicSQL.py:24-26 | no `full_` table is selected |
| `DyadicSql.SelfJoinNoLoops` | GenerateDyadicSQL.py:29-34 | no row joins a term to itself, and every distance is non-negative |
| `DyadicSql.SelfJoinSymmetric` | GenerateDyadicSQL.py:30-34 | `(e, a, b, p)` is in the result iff `(e, b, a, p)` is |
| `DyadicSql.EdgeTermsMembers` | GenerateDyadicSQL.py:32-33 | a term belongs to edge `e` iff some row of the table says so |
| `DyadicSql.MirroredMembers` | GenerateDyadicGraph.py:126-128 | a table row of `explode_hyperedge` is a pair of the edge in one direction or the other |
| `DyadicSql.MirroredDistinct` | GenerateDyadicGraph.py:126-128 | distinct ordered pairs give distinct table rows |
| `DyadicSql.ProjectedMembers` | GenerateDyadicSQL.py:29-34 | a row of edge `e` is in the self-join iff it joins two different terms of `e` |
| `DyadicSql.ExplodedMembers` | GenerateDyadicGraph.py:119-128 | with distinct terms, `explode_hyperedge`'s rows are the ordered pairs of different terms |
| `DyadicSql.ExplodedRowsCount` | GenerateDyadicGraph.py:119-128 | with `k` distinct terms those rows are `k(k - 1)` different rows |
| `DyadicSql.SelfJoinIsExploded` | GenerateDyadicSQL.py:1-3 | with distinct terms the self-join's `(edge, source, target)` rows of an edge are exactly `explode_hyperedge`'s rows |
| `DyadicSql.SelfJoinMatchesExplode` | GenerateDyadicSQL.py:29-34 | the same equality, with `k(k - 1)` rows for `k` terms |
| `DyadicSql.IndexNameInjective` | GenerateDyadicSQL.py:36-37 | two dyadic tables with the same index name are the same table |
| `DyadicSql.TableAlreadyThere` | GenerateDyadicSQL.py:38-46 | a dyadic table found among the relations was created earlier by the loop, together with its index |
| `DyadicSql.IndexFollowsTable` | GenerateDyadicSQL.py:38-46 | the loop never leaves an index without its dyadic table |
| `DyadicSql.SelectedOutcome` | GenerateDyadicSQL.py:20-46 | a selected table's dyadic table exists afterwards iff it existed before or its index name was free; one the loop created comes with its index |
| `DyadicSql.NamesApart` | GenerateDyadicSQL.py:36-37 | a dyadic table name never clashes with an index name |
| `DyadicSql.TableStep` | GenerateDyadicSQL.py:38-46 | one pass of the loop: a selected table whose dyadic and index names are both free gets both. A `DuplicateTable` from `CREATE TABLE` adds nothing. One from `CREATE INDEX` aborts the pass's transaction and rolls back its `CREATE TABLE`, so that pass adds nothing either |
| `DyadicSql.CreateDyadicTables` | GenerateDyadicSQL.py:20-46 | afterwards the database holds its old relations plus, for each selected table whose dyadic and index names were both free at the start, that dyadic table and its index |
| `TermSpec.AddAllSnoc` | TermGenerator.py:351-372 | a run of `add_token` calls is the calls one after the other |
| `TermSpec.AddAllAppend` | TermGenerator.py:351-372 | two runs of calls compose |
| `TermSpec.Kept` | TermGenerator.py:363-365 | the kept emissions are among the emitted ones and none is a removed stopword |
| `TermSpec.AddAllTerms` | TermGenerator.py:363-367 | the kept texts are appended to `terms` in order; each removed one adds 1 to `removed_counter` |
| `TermSpec.AddAllOccurrences` | TermGenerator.py:372 | every kept text is recorded as occurring in the sentence, and nothing else is |
| `TermSpec.AddAllFlagKeys` | TermGenerator.py:369 | the flag keys grow by the kept texts; flags of other texts stay as they were |
| `TermSpec.AddAllFlagDomain` | TermGenerator.py:369 | the flag keys grow by exactly the kept texts |
| `TermSpec.AddAllFlagsUntouched` | TermGenerator.py:369 | texts not kept keep their earlier flags |
| `TermSpec.LastFlagsSnoc` | TermGenerator.py:369 | the flag of the newest text is the one just written |
| `TermSpec.AddAllLastFlag` | TermGenerator.py:369 | the flag of each kept text is that of its last kept emission: the last write wins |
| `TermSpec.TokenStep` | TermGenerator.py:272-292 | one pass of the token loop never moves past the last sorted entity |
| `TermSpec.Walk` | TermGenerator.py:270-300 | the walk over the first `i` tokens always points at one of the sorted entities |
| `TermSpec.InsertByStart` | TermGenerator.py:261 | insertion keeps the entities with their multiplicities and adds one |
| `TermSpec.InsertByStartSorted` | TermGenerator.py:261 | inserting into a list sorted by start keeps it sorted |
| `TermSpec.SortByStart` | TermGenerator.py:261 | `sorted(key=start_sen)`: ordered by start, and a permutation of its input |
| `TermSpec.StepKeepsInvariant` | TermGenerator.py:270-300 | one pass of the token loop keeps the entity emissions equal to the entities consumed so far |
| `TermSpec.EmitStepEntities` | TermGenerator.py:282-292 | the closing pass emits the current entity and the token: one more entity consumed |
| `TermSpec.WalkEntities` | TermGenerator.py:261-300 | entities are emitted in ascending start order, each at most once: the emitted entities are the first consumed ones of the sorted list |
| `TermSpec.StepConsumes` | TermGenerator.py:282-300 | a pass emits at most one entity, the current one, at a token at or past both ends of its span |
| `TermSpec.WalkEmitsAfterSpan` | TermGenerator.py:276-292 | every emitted entity was emitted at a token lying at or past its span |
| `TermSpec.WalkAfterEnd` | TermGenerator.py:273-274 | once every entity is consumed, each later token is added as a plain token |
| `TermSpec.WalkBeforeFirst` | TermGenerator.py:273-274 | tokens before the first entity's start are added as plain tokens |
| `TermSpec.EntitiesAtMembers` | TermGenerator.py:213-217 | a key's list holds exactly the entities of that key; a key has an entry iff some entity carries it |
| `TermGeneration.LimitDocuments` | TermGenerator.py:110-113 | a prefix of the ids: all of them for 0, the first `n` for `n > 0` |
| `TermGeneration.AddAllConsistent` | TermGenerator.py:363-372 | `add_token` keeps flags for exactly the terms, and occurrences naming terms |
| `TermGeneration.ReplacedWithoutEntities` | TermGenerator.py:239-245 | sentences without entity entries are processed exactly as in `process_unreplaced` |
| `TermGeneration.GroupsNonEmpty` | TermGenerator.py:212-217 | after grouping, every list of the dictionary is non-empty, as `process_document` needs |
| `TermGeneration.SentencesAddedStep` | TermGenerator.py:230-245 | processing one more sentence applies its emissions to the state after the earlier sentences |
| `TermGeneration.SentencesConsistent` | TermGenerator.py:224-245 | processing sentences keeps the term records consistent |
| `TermGeneration.TermIdsBijection` | TermGenerator.py:311-312 | `term_id` is a bijection from the distinct terms onto `0 .. n-1` |
| `TermGeneration.EntityRowsExact` | TermGenerator.py:315 | `entities` holds a term's id iff its last recorded flag is true, with that flag's type |
| `TermGeneration.RemapExact` | TermGenerator.py:318 | the remapping keeps `(doc, sen)` and loses nothing: an occurrence is present iff its remapped row is |
| `TermGeneration.RemapMembers` | TermGenerator.py:318 | every remapped row comes from an occurrence of a term with that id |
| `TermGeneration.PushTermRows` | TermGenerator.py:415-420 | no rows when there are no terms; otherwise a row with the truncated text and the flag for every term |
| `TermGeneration.PushedTextsTruncated` | TermGenerator.py:420 | every pushed text is a prefix of its term, at most `max_term_length` long |
| `TermGeneration.TermGenerator.constructor` | TermGenerator.py:97-172 | the document limit, empty term records, and the stopwords: library ones plus custom ones |
| `TermGeneration.TermGenerator.AddToken` | TermGenerator.py:351-372 | a removed stopword only counts; any other text is appended, its flag overwritten and its occurrence recorded |
| `TermGeneration.TermGenerator.ReplaceProcedure` | TermGenerator.py:194-217 | the dictionary's keys become the fetched `(doc_id, sen_id)` pairs, each with all its entities in original order |
| `TermGeneration.TermGenerator.GroupByKey` | TermGenerator.py:212-217 | the keys grow by exactly the entities' `(doc_id, sen_id)` pairs; each such key maps to all its entities in original order; other keys keep their lists |
| `TermGeneration.TermGenerator.AddPlainTokens` | TermGenerator.py:227-228 | every token is added as a plain token |
| `TermGeneration.TermGenerator.ProcessDocument` | TermGenerator.py:247-300 | the records grow by the walk's emissions over the sentence's entities sorted by start |
| `TermGeneration.TermGenerator.AdvanceWalk` | TermGenerator.py:270-300 | one token further, the walk and the records stay in step |
| `TermGeneration.TermGenerator.WalkToken` | TermGenerator.py:272-300 | the three branches of the token loop are one step of the walk |
| `TermGeneration.TermGenerator.AddEntityAndToken` | TermGenerator.py:284-292 | adds the entity's text (`normalized` for `DAT`, else `normalized_label`) with its class, then the token |
| `TermGeneration.TermGenerator.ProcessReplaced` | TermGenerator.py:230-245 | sentences with entities go through the walk; the `KeyError` fallback adds the others token by token |
| `TermGeneration.TermGenerator.ProcessUnreplaced` | TermGenerator.py:219-228 | every token of every sentence is added as a plain token |
| `TermGeneration.TermGenerator.Postprocessing` | TermGenerator.py:302-318 | the distinct terms are numbered bijectively; `entities` and the occurrences are remapped through the numbering |
| `Schema.Str2Bool` | GenerateNewSchema.py:16-22 | true iff the lowered value is a true spelling, false iff a false spelling, `ArgumentTypeError` otherwise |
| `Schema.WordSetsDisjoint` | GenerateNewSchema.py:17-20 | no spelling is both true and false |
| `Schema.Str2BoolIgnoresCase` | GenerateNewSchema.py:16-20 | a value parses as its lower-cased form does |
| `Schema.SchemaPrefix` | GenerateNewSchema.py:66 | the prefix is `prefix + "_" + str(window_size)` |
| `Schema.GetNames` | GenerateNewSchema.py:73-79 | three different names, in the order `_hyperedges`, `_hyperedge_document`, `_hyperedge_sentences` |
| `Schema.EntityNamesFeedDyadicConversion` | GenerateNewSchema.py:66-79 | of a window's three tables, only the hyperedge table is picked up by the dyadic conversion, as `entity_{w}_dyadic` |
| `Schema.SchemaCreator.constructor` | GenerateNewSchema.py:47-71 | the prefix and the three names are derived from the window size |
| `Schema.SchemaCreator.Create` | GenerateNewSchema.py:81-124 | each table is created only if missing; afterwards all three exist; the generator gets them as hyperedge, document and sentence tables |
| `QueryHelper.Position` | Neo4j/lib/query_helper.py:23 | Python's `row[index]` position, negative indices counting from the end |
| `QueryHelper.FormatCell` | Neo4j/lib/query_helper.py:23-24 | NULL stays NULL; a value keeps its length and non-space characters and has no space left |
| `QueryHelper.FormatCellIdempotent` | Neo4j/lib/query_helper.py:24 | formatting a cell twice is formatting it once |
| `QueryHelper.FormatRow` | Neo4j/lib/query_helper.py:22-24 | the row keeps its length and every column but `index` |
| `QueryHelper.FormatTimeDate` | Neo4j/lib/query_helper.py:19-25 | an IndexError iff some row lacks column `index`; otherwise the same rows and lengths, only column `index` formatted |
| `QueryHelper.FormatRowsIdempotent` | Neo4j/lib/query_helper.py:19-25 | formatting a result twice is formatting it once |
| `QueryHelper.RowLines` | Neo4j/lib/query_helper.py:42 | one CSV line per row, in order |
| `QueryHelper.RowLinesAppend` | Neo4j/lib/query_helper.py:54 | the lines of two batches are the lines of their concatenation |
| `QueryHelper.BatchStep` | Neo4j/lib/query_helper.py:50-54 | writing the next batch extends the file to the rows fetched so far |
| `QueryHelper.QueryAndWrite` | Neo4j/lib/query_helper.py:27-54 | without a date column the file is header plus rows. With one: an IndexError for a missing column (no file) or an empty result (empty file); an AssertionError on a header-length mismatch (empty file); otherwise header plus formatted rows |
| `QueryHelper.CopyInBatches` | Neo4j/lib/query_helper.py:46-54 | the batches of 65536 rows write the header followed by every row |
| `PostgresSizes.SumOverRemove` | SSDBM_figures/window_size_vs_storage/get_postgres_sizes.py:99-101 | the total does not depend on which table is taken first |
| `PostgresSizes.SumOverUnion` | SSDBM_figures/window_size_vs_storage/get_postgres_sizes.py:97-102 | totals over disjoint table sets add |
| `PostgresSizes.SumOverMonotone` | SSDBM_figures/window_size_vs_storage/get_postgres_sizes.py:97-102 | with non-negative sizes, more tables never total less |
| `PostgresSizes.SumOverNonNegative` | SSDBM_figures/window_size_vs_storage/get_postgres_sizes.py:97-102 | with non-negative sizes, the total is non-negative |
| `PostgresSizes.SubsetStep` | SSDBM_figures/window_size_vs_storage/get_postgres_sizes.py:99-101 | one step of the loop adds the table's size exactly when it is in the subset |
| `PostgresSizes.SumSize` | SSDBM_figures/window_size_vs_storage/get_postgres_sizes.py:97-102 | the sum of the sizes of the subset's tables that the database has, in whatever order the dictionary holds them |
| `PostgresSizes.SubsetSizeOnlyPresent` | SSDBM_figures/window_size_vs_storage/get_postgres_sizes.py:99-102 | the empty subset gives 0, and names the database lacks add nothing |
| `PostgresSizes.SubsetSizeAdditive` | SSDBM_figures/window_size_vs_storage/get_postgres_sizes.py:97-102 | `sum_size` is additive over disjoint subsets |
| `PostgresSizes.ExplicitTables` | SSDBM_figures/window_size_vs_storage/get_postgres_sizes.py:46-49 | the shared tables plus the three `full_{w}` tables the schema module names |
| `PostgresSizes.ExplicitEntityTables` | SSDBM_figures/window_size_vs_storage/get_postgres_sizes.py:50-53 | the shared tables plus the three `entity_{w}` tables the schema module names |
| `PostgresSizes.EntityNameNotShared` | SSDBM_figures/window_size_vs_storage/get_postgres_sizes.py:45-57 | no `entity_` table is one of the tables every model shares |
| `PostgresSizes.EntityAndDyadicDiffer` | SSDBM_figures/window_size_vs_storage/get_postgres_sizes.py:50-57 | the entity and dyadic sets differ only in `entity_{w}_hyperedges` versus `entity_{w}_dyadic` |
| `PostgresSizes.EntityVersusDyadicSize` | SSDBM_figures/window_size_vs_storage/get_postgres_sizes.py:50-57 | the dyadic total plus the hyperedge table's size equals the entity total plus the dyadic table's size |
| `PostgresSizes.SingleSize` | SSDBM_figures/window_size_vs_storage/get_postgres_sizes.py:97-102 | a one-table subset totals that table's size |
| `PostgresSizes.Recorded` | SSDBM_figures/window_size_vs_storage/get_postgres_sizes.py:59-64 | `implicit` and `explicit_entity` always, `dyadic_entity` iff `w <= 10`, `explicit` iff `w <= 5`, so `explicit` implies `dyadic_entity` |
| `PostgresSizes.WriteRecord` | SSDBM_figures/window_size_vs_storage/get_postgres_sizes.py:59-64 | the recorded entries get the four totals, gated by the window; every other entry is unchanged |
| `PostgresSizes.ModelSizes` | SSDBM_figures/window_size_vs_storage/get_postgres_sizes.py:45-57 | each of the four totals is `sum_size` over its model's tables |
| `PostgresSizes.GetSizes` | SSDBM_figures/window_size_vs_storage/get_postgres_sizes.py:12-66 | a KeyError for a missing record of a plain dictionary; otherwise only the window's record changes, written as above |

## Left out

- **Database access.** Connections, cursors, `check_table_existence`, `execute_values`, logging and timing are left out. The stub `insert_into_table` (`utils.py`) is a set insert that rejects a batch with any duplicate key. `PostgresConnector.py` and `MongoConnector.py` are not part of this model.
- **Row order of queries.** `get_sentences` has no `ORDER BY`, so the anchors are the corpus's sentence table, in its given order. Likewise a `SELECT DISTINCT` without `ORDER BY` returns its rows in an order PostgreSQL leaves open; `Window.Distinct` fixes first-occurrence order, and what the model states about the tables depends only on which rows it returns. The case where `get_sentences` returns 0 for a missing sentence table is left out.
- **Set iteration order.** Python's set order is arbitrary, so it is not modelled.
  - `HyperedgeGeneration.TagEdge`: states the rows of an edge as a set without repetitions, not as a sequence.
  - `TermGeneration.TermGenerator.Postprocessing`: takes the iteration order of `set(terms)` as a parameter.
  - `PostgresSizes.SumSize`: walks the dictionary in an arbitrary order.
- **Generator options and side tables.** `limit_edges` is unused by the source and left out. `clear_table` and `clear_all_tables` (both classes) are left out, and so is the progress logging of `create_edges_naively`.
- `HyperedgeGeneration.HyperedgeGenerator.constructor`: requires the hyperedge table to exist. The source's `__init__` returns 0 when it does not, which Python rejects with a TypeError, so no generator exists in that case.
- **Term extraction inputs and outputs.**
  - Tokenisation, spaCy, and the spaCy and NLTK stopword lists are inputs, not models: tokens are `(idx, text)` pairs and the library stopwords a set.
  - The MongoDB queries of `get_relevant_documents_and_entities` and `replace_procedure` are left out. `ReplaceProcedure` receives the fetched entities.
  - `parse` is left out.
  - The `analyze` counters are left out.
  - The reshaping of sentences into lists in `postprocessing` (TermGenerator.py:321) is left out.
  - `push_sentences`, `push_term_occurrences` and `push_entities` are left out. Of `push_terms`, only the rows and their truncation are modelled.
- `TermGeneration.TermGenerator.ProcessDocument`: requires the sentence's key in the entity dictionary. A missing key falls back to plain tokens in `ProcessReplaced`. `Valid()` keeps every list of the dictionary non-empty, as `replace_procedure` builds them (`GroupsNonEmpty`).
- **`gaus` arithmetic.** `gaus` divides with Python's `/`, which gives a float. `n * (n + 1)` is always even, so the float is exact for the sizes involved; the model uses integer division. PostgreSQL's 32-bit `integer` columns are not modelled, and ids are unbounded.
- **Dyadic projection I/O.**
  - `load_hyperedges`, `insert_edges`, `check_table` and `append_edges` are left out. `append_edges` is never called, and `insert_edges` uses a module-level connector. The rows handed to `insert_edges` are returned instead.
  - The emptying of the output file and the `__main__` block are left out.
- **Dyadic SQL loop.** The loop over ports and the `information_schema` query are left out; the table names are a parameter.
- `DyadicSql.SelfJoin`: read as a set. `CREATE TABLE … AS` keeps duplicate rows, which arise when one term occurs at several offsets of one edge.
- **Schema command line.** `get_parser` (argparse) and the `__main__` block of `GenerateNewSchema.py` are left out. `Schema.SchemaCreator.Create` returns the generator's configuration instead of running it.
- **CSV details.** `connect_to_db`, `getCursor` and the CSV quoting of `csv.writer` are left out. A file is a list of header and row lines, and a cell holds the `str()` of its value.
- **Storage totals I/O.**
  - The size query of `get_sizes` is left out; the database is a dictionary from table name to size.
  - `create_remaining_indexes` only creates indexes and is left out.
  - The JSON loop of the `__main__` block over windows 0, 1, 2, 5, 10 and 20 is left out.
  - `SSDBM_figures/document_vs_storage/get_postgres_sizes.py` repeats `sum_size`, so it is not modelled separately.
- `Text.Lower`: lower-cases ASCII letters only; Python's `str.lower` also lowers other scripts. `str2bool` is unaffected. Among the non-ASCII characters, only the Kelvin sign lowers to a lone ASCII letter (`k`), and no true or false spelling contains `k`. So a value with a non-ASCII character matches no spelling either way.
- `DyadicSql.IsEntityHyperedgeTable`: accepts ASCII digits only, where Python's `str.isdigit` also accepts other Unicode digits (such as `²` or Arabic-Indic digits). A window field written in such digits is not selected by the model.
- `HyperedgeGeneration.HyperedgeGenerator.InsertData`: treats the three bulk inserts as independent. In PostgreSQL the first rejected insert aborts the transaction. Every later statement then raises `InFailedSqlTransaction`, which `insert_into_table` does not catch. This is not modelled. From a fresh state no insert is rejected (`FlushStored`).
- `HyperedgeGeneration.HyperedgeGenerator.CreateEdgesNaively`: the effect of a rejected insert is not modelled. All flushes of a run share the connection's one transaction, so after one rejection the run stops with an exception and none of its inserts is committed. `FilledTables` is therefore stated from a fresh state, where no insert is rejected.
- **Files not modelled.** The plotting, analysis, export and runtime-evaluation scripts of the repository, `DocumentGenerator.py`, `CreateAllTables.py` and the tests are not part of this model. The `str2bool` of `CreateAllTables.py` is a copy of the one modelled here.

## Findings

| source | as written | input that shows it | evidently intended | confidence | as-written member | corrected member |
|---|---|---|---|---|---|---|
| GenerateDyadicGraph.py:84-106 | `handle_batch` explodes a group only when a row with another edge id follows, so the last group of every batch is never exploded | the batch `[(1, 10, 0), (1, 11, 0)]` yields no pair instead of `(10, 11)` | explode the final group after the loop | high; not executed | `DyadicGraph.HandleBatch`, `DyadicGraph.FinalGroupDropped` | `DyadicGraph.HandleBatchFixed` |
| GenerateDyadicGraph.py:61 | the boundary scan compares column 1 (`term_id`) of rows `end_ind` and `end_ind + 1`, not the edge id | rows `[(1, 10, 0), (1, 20, 0), (2, 30, 0)]` with batch size 1: the first batch ends inside edge 1 | extend the boundary while the edge id of the rows before and at it agree | high; not executed | `DyadicGraph.ExtendBoundary`, `DyadicGraph.ScanSplitsEdge` | `DyadicGraph.ExtendBoundaryFixed`, `DyadicGraph.GenerateDyadicEdgesFixed` |
| GenerateDyadicGraph.py:59-65 | the guard `end_ind == len(hyperedges)` is tested only after reading `hyperedges[end_ind + 1]`, so a scan that reaches the last row raises IndexError | rows `[(1, 5, 0), (2, 7, 0), (3, 7, 0)]` with boundary 1 read index 3 of a 3-row list | stop the scan at the end of the list | high; not executed | `DyadicGraph.GenerateDyadicEdges`, `DyadicGraph.ScanReadsPastEnd` | `DyadicGraph.ExtendBoundaryFixed` |
