# Vector store, chunker and string helpers — a verified Dafny model

This project models three parts of a Go retrieval toolkit, each with proofs:

- **The in-memory vector table** (`internal/tools/vector_storage/vector_storage.go`).
  `VectorDatabase` keeps an embedding matrix with one row per item and a parallel slice of metadata records. It supports:
  - appending one vector or a batch;
  - updating or deleting a vector by id;
  - cosine ranking of every row against a query;
  - a bounded, score-sorted list of neighbour links per record, kept up to date by `updateConnections`;
  - a depth-first walk of those links (`GetConnectedChunks`) and a search that merges top hits with their neighbourhoods (`SemanticSearch`).
- **The text chunker** (`internal/tools/chunker/chunker.go`). It covers:
  - fixed-size slicing and greedy sentence packing (`ChunkByMaxChunkSize`);
  - paragraph chunks (`ChunkByParagraphs`);
  - chunk statistics (`createChunkInfo`);
  - the neighbour window of sentences (`combineSentences`);
  - the toy ten-entry embedding (`convertToVector`).
- **The string helpers** (`shared/utils/utils.go`): `TruncateText`, `Slugify`, `ContainsAny`, `RemoveHTMLTags` and `ExtractDomain`.

Files:

| file | module | contents |
|---|---|---|
| `wrappers.dfy` | `Wrappers` | `Option` and `Result` |
| `sorting.dfy` | `Sorting` | descending insertion sort as a function, proved sorted and a permutation; "best `n` of a list" (`IsTopN`, `TakeBest`) |
| `similarity.dfy` | `Similarity` | `cosineSimilarity` and `normalizeVector`, as accumulator loops proved against functions |
| `connections.dfy` | `Connections` | the record values, the ranking that `TopCosineSimilarity` computes, and what `updateConnections` writes, as functions with their lemmas |
| `vector_database.dfy` | `VectorStorage` | the `VectorDatabase` class: the source's loops and state changes, proved to compute the `Connections` functions |
| `go_strings.dfy` | `GoStrings` | `strings.TrimSpace` and `strings.Fields` over ASCII white space |
| `chunker.dfy` | `Chunker` | the chunker |
| `string_utils.dfy` | `StringUtils` | the string helpers |

Model conventions:

- **Table.** The matrix is a `seq<seq<real>>` and the records are a `seq<Record>`. A record is a map from string to a `Value` datatype that mirrors the dynamic values the source stores. The class invariant `Valid()` states three things:
  - there are as many rows as records;
  - row `i` pairs with record `i`;
  - all rows share one positive width.
- **Connection lists.** There are two kinds of list, and the model keeps them apart because the source tells them apart at run time:
  - a fresh record's empty `[]interface{}` list (`Items`);
  - the `[]map[string]interface{}` lists that `updateConnections` writes (`Links`).
- **Environment as parameters.** The id generator becomes a `freshId` parameter. The regular-expression splitters of the chunker become given sequences of sentences or paragraphs.

## Model

| member | source | states |
|---|---|---|
| VectorStorage.IndexOf | internal/tools/vector_storage/vector_storage.go:258-268 | the result is -1 exactly when no record has the id; otherwise it is the first record with that id |
| VectorStorage.VectorDatabase.FindIndex | internal/tools/vector_storage/vector_storage.go:258-264 | the scan loop returns the index of the first record whose id equals the string id, or -1 |
| VectorStorage.VectorDatabase.constructor | internal/tools/vector_storage/vector_storage.go:38-49 | a new table has no rows and no records, and keeps the semantic-connections flag |
| VectorStorage.Prepared | internal/tools/vector_storage/vector_storage.go:164-167 | the stored embedding (normalized if asked) has the input's length |
| VectorStorage.VectorDatabase.AppendRow | internal/tools/vector_storage/vector_storage.go:174-184 | appending a row of the table's width (or any positive width to an empty table) adds exactly that row and that record, and keeps rows paired with records |
| VectorStorage.VectorDatabase.AddVector | internal/tools/vector_storage/vector_storage.go:160-213 | the result is the fresh id and exactly one row is appended. The one record appended holds the id, `chunk_text`, the stored embedding, the caller's metadata and an empty `connections` list. Earlier rows and records are untouched, except that with semantic connections on the records are relinked by `updateConnections` for the new index |
| VectorStorage.VectorDatabase.AddVectorsBatch | internal/tools/vector_storage/vector_storage.go:216-251 | one row per input record, in input order. Each stored record is the input minus `embedding`, plus an empty `connections`, with no generated id. With semantic connections on, every new index is relinked in turn. Apart from connection lists, old and new records keep their content |
| VectorStorage.VectorDatabase.AppendBatch | internal/tools/vector_storage/vector_storage.go:220-244 | the append loop adds `BatchRows(records)` to the matrix and `BatchRecords(records)` to the records |
| VectorStorage.BatchRecordsAt | internal/tools/vector_storage/vector_storage.go:236-243 | the batch record at position `i` is input record `i` without `embedding` and with an empty `connections` |
| VectorStorage.VectorDatabase.ReconnectRows | internal/tools/vector_storage/vector_storage.go:246-250 | the loop calls `updateConnections` on each index from `lo` to the end, in order |
| Connections.ReconnectRangeKeepsContent | internal/tools/vector_storage/vector_storage.go:246-250 | a run of `updateConnections` calls changes nothing in any record but its `connections` |
| VectorStorage.VectorDatabase.UpdateVector | internal/tools/vector_storage/vector_storage.go:254-285 | an unknown id gives a not-found error and changes nothing. Otherwise only row `index` is replaced, and record `index` gets exactly the keys of `newMetadata` overwritten or added; other records are untouched before the relinking of `index` |
| VectorStorage.VectorDatabase.DeleteVector | internal/tools/vector_storage/vector_storage.go:288-319 | an unknown id gives a not-found error and changes nothing. Otherwise exactly row and record `index` are removed, the rest keep their order and their pairing, and with semantic connections on every remaining index is relinked in turn |
| VectorStorage.VectorDatabase.TopCosineSimilarity | internal/tools/vector_storage/vector_storage.go:409-467 | the loop, skip and cut compute `Top` of the table, the query and `topN` |
| Connections.TopRanked | internal/tools/vector_storage/vector_storage.go:420-466 | an empty table ranks to the empty list. The result has at most `min(topN, rows)` entries, is a best-`topN` choice among the rows with a defined score, and so is in non-increasing score order |
| Connections.CandidatesSound | internal/tools/vector_storage/vector_storage.go:437-453 | every scored entry is some row's record with that row's defined similarity |
| Connections.CandidatesComplete | internal/tools/vector_storage/vector_storage.go:437-453 | every row whose similarity is defined is among the scored entries |
| Connections.TopWrongWidth | internal/tools/vector_storage/vector_storage.go:442-446 | a query whose width matches no row ranks to the empty list |
| Connections.CandidatesWrongWidth | internal/tools/vector_storage/vector_storage.go:442-446 | with no row of the query's width, no row is scored |
| VectorStorage.TopInTable | internal/tools/vector_storage/vector_storage.go:449-452 | every ranked entry carries a record of the table, which the id scan finds |
| Similarity.CosineSimilarity | internal/tools/vector_storage/vector_storage.go:469-486 | the accumulator loop computes `Cosine` |
| Similarity.CosineDefined | internal/tools/vector_storage/vector_storage.go:469-486 | the similarity is defined exactly when the lengths agree and neither vector is zero |
| Similarity.CosineSymmetric | internal/tools/vector_storage/vector_storage.go:469-486 | the similarity of `a` to `b` is that of `b` to `a` |
| Similarity.CosineSelf | internal/tools/vector_storage/vector_storage.go:469-486 | a non-zero vector has similarity 1 to itself |
| Similarity.CosineDiv | internal/tools/vector_storage/vector_storage.go:593-613 | dividing a vector by a positive number changes none of its similarities |
| Similarity.NormalizeVector | internal/tools/vector_storage/vector_storage.go:593-613 | the norm loop and the division loop compute `Normalized` |
| Similarity.NormalizedRanksAlike | internal/tools/vector_storage/vector_storage.go:593-613 | normalizing keeps the length and returns a zero vector unchanged. A non-zero vector stays non-zero and keeps every similarity, so normalized embeddings rank as the originals |
| Sorting.SortDescSorted | internal/tools/vector_storage/vector_storage.go:456-458 | the descending sort yields non-increasing keys |
| Sorting.SortDescPermutes | internal/tools/vector_storage/vector_storage.go:456-458 | the descending sort is a permutation of its input |
| Sorting.TakeBestIsTopN | internal/tools/vector_storage/vector_storage.go:574-579 | sorting and cutting after `n` gives at most `n` elements of the input, sorted, and no element left out beats one kept |
| VectorStorage.VectorDatabase.UpdateConnections | internal/tools/vector_storage/vector_storage.go:488-590 | the method's loops compute `Reconnected` of the old table; rows are not touched |
| Connections.ReconnectedKeepsContent | internal/tools/vector_storage/vector_storage.go:504-515 | below two rows nothing changes; in every case only `connections` lists change |
| Connections.ReconnectedWellLinked | internal/tools/vector_storage/vector_storage.go:534-587 | record `index` gets a list in non-increasing score order with at most `max(k, 1)` links and never its own id. Every other record gets a list in non-increasing score order with at most `k` links |
| VectorStorage.OwnLinksOf | internal/tools/vector_storage/vector_storage.go:534-545 | the loop with its early exit builds `OwnLinks` of the ranking |
| Connections.OwnLinksIsPrefix | internal/tools/vector_storage/vector_storage.go:534-545 | the own list is the first `max(k, 1)` entries of the ranking that are not the record itself |
| Connections.OwnLinksFacts | internal/tools/vector_storage/vector_storage.go:534-545 | from a sorted ranking, the own list never holds the record's own id, has at most `max(k, 1)` links, and keeps the ranking's order. Each link is a ranked record's id with its score |
| Connections.NonSelfJustified | internal/tools/vector_storage/vector_storage.go:535-541 | every link kept from the ranking is a ranked entry's id and score, other than the record's own id |
| Connections.NonSelfSorted | internal/tools/vector_storage/vector_storage.go:535-541 | dropping the record's own entries from a sorted ranking keeps it sorted |
| VectorStorage.AppendBackLink | internal/tools/vector_storage/vector_storage.go:565-571 | the inner loop appends the back link to the existing list, or nothing |
| Connections.BackScoreFirst | internal/tools/vector_storage/vector_storage.go:565-571 | the back link exists exactly when the ranking holds the record's id, and carries the score of the first such entry |
| Connections.RelinkedFacts | internal/tools/vector_storage/vector_storage.go:554-587 | another record keeps everything but `connections`. Its new list is a sorted best-`k` choice of its old links plus the back link, with no de-duplication |
| VectorStorage.VectorDatabase.Dfs | internal/tools/vector_storage/vector_storage.go:342-365 | the recursive walk computes `Walk`: a visited id or one past `depth` adds nothing; otherwise the id is marked, its record (if any) is appended, and its links are walked in order one level deeper. It only adds to `visited` and `result`, and keeps the ids in `result` unique and visited |
| VectorStorage.VectorDatabase.GetConnectedChunks | internal/tools/vector_storage/vector_storage.go:322-368 | disabled connections and an unknown id are errors. Otherwise the result is exactly `Reach` of the id and depth, the records the walk from the id visits, in visiting order. They are table records with unique ids, with the seed first; depth 0 gives only the seed and a negative depth gives nothing |
| VectorStorage.MergeChunks | internal/tools/vector_storage/vector_storage.go:390-395 | the inner loop keeps every existing entry, adds each chunk under its id when the id is new, and adds nothing that is not a chunk |
| VectorStorage.ExpandStep | internal/tools/vector_storage/vector_storage.go:381-396 | one round of the outer loop, storing the hit under its id and then merging its walk, extends to one more hit the facts that `Expand` states |
| VectorStorage.VectorDatabase.Expand | internal/tools/vector_storage/vector_storage.go:381-396 | each key maps to a table record with that id. Every hit's id is a key, and so is the id of every record the walk from a hit reaches. Every key is a hit's id or the id of a record the walk from a hit reaches |
| VectorStorage.Values | internal/tools/vector_storage/vector_storage.go:398-401 | the listed values are the map's values, one per key |
| VectorStorage.VectorDatabase.Gather | internal/tools/vector_storage/vector_storage.go:381-401 | the listed records are table records with unique ids. Their ids are exactly the hits' ids and the ids of the records the walks from the hits reach: every such id is listed, and nothing else is |
| VectorStorage.VectorDatabase.SemanticSearch | internal/tools/vector_storage/vector_storage.go:371-405 | disabled connections are an error. Otherwise the result holds table records with unique ids: every top-`topK` hit, every record the walk from a hit reaches within `depth` links, and nothing outside those neighbourhoods |
| VectorStorage.NewRecordAsserted | internal/tools/vector_storage/vector_storage.go:187-193 | a fresh record's list passes that assertion, as an empty list |
| VectorStorage.ReconnectedFailsAssertion | internal/tools/vector_storage/vector_storage.go:355 | after `updateConnections` on a table of two or more rows, every record's list fails that assertion |
| Chunker.CreateChunkInfoCounts | internal/tools/chunker/chunker.go:140-146 | a chunk keeps its text, counts its length in characters, and counts as words the places where a non-space character starts the text or follows a space |
| GoStrings.FieldsCount | internal/tools/chunker/chunker.go:144 | the number of fields is the number of word starts |
| GoStrings.FieldsTotalLength | internal/tools/chunker/chunker.go:171-173 | the fields' lengths add up to the number of non-space characters |
| GoStrings.TrimSpace | internal/tools/chunker/chunker.go:90 | the trimmed text is empty exactly when the input is all white space, and otherwise neither starts nor ends with white space |
| GoStrings.TrimSpaceSplit | internal/tools/chunker/chunker.go:90 | the trimmed text is a slice of the input with only white space cut on either side |
| GoStrings.TrimSpaceIdempotent | internal/tools/chunker/chunker.go:90 | trimming twice is trimming once |
| Chunker.ChunkByMaxChunkSize | internal/tools/chunker/chunker.go:26-66 | `NumChunks` is the chunk count and each chunk's counts are those of its text. In sentence mode, the chunks are the packed groups of the sentences in order, and the grouping is the greedy one. In fixed mode, the chunks concatenate to the text, are non-empty and at most `maxChunkSize` long, and all but the last are exactly `maxChunkSize` long |
| Chunker.PackSentences | internal/tools/chunker/chunker.go:29-51 | the packing loop splits the sentences, in order, into groups. Each chunk is its group joined with spaces and trimmed, and is within `maxChunkSize` unless it is a single sentence emitted as it is. The grouping is greedy (`Greedy`): each sentence joins its group only if the text so far plus the sentence fits, a sentence longer than the limit stands alone, and each group after the first starts with a sentence that would not have fitted into the one before |
| Chunker.PackedChunkBound | internal/tools/chunker/chunker.go:33-50 | every packed chunk is at most `maxChunkSize` long, or is one of the input sentences that is longer |
| Chunker.FixedLoop | internal/tools/chunker/chunker.go:53-59 | the fixed-size loop as written, run for a bounded number of rounds: it appends at most one chunk per round, and one per round for as long as it has not left the loop |
| Chunker.ZeroSizeNeverEnds | internal/tools/chunker/chunker.go:53-59 | with `maxChunkSize` 0 and a non-empty text, every round appends an empty chunk and the loop is never left |
| Chunker.PositiveSizeEnds | internal/tools/chunker/chunker.go:53-59 | with a positive `maxChunkSize` the loop is left within one round per character of the text |
| Chunker.SliceFixed | internal/tools/chunker/chunker.go:52-60 | fixed-size slices concatenate to the text, with all but the last exactly `maxChunkSize` long |
| Chunker.ChunkByParagraphs | internal/tools/chunker/chunker.go:85-100 | the chunks are the trimmed non-blank paragraphs in order, and `NumChunks` is their count |
| Chunker.NonBlankTrimmedAreTrimmed | internal/tools/chunker/chunker.go:89-94 | no paragraph chunk is empty or has white space at either end |
| Chunker.NonBlankTrimmedFromInput | internal/tools/chunker/chunker.go:89-94 | every paragraph chunk is the trim of an input paragraph |
| Chunker.NonBlankTrimmedKeeps | internal/tools/chunker/chunker.go:89-94 | every paragraph that is not blank gives a chunk |
| Chunker.CombineSentences | internal/tools/chunker/chunker.go:152-163 | same length as the input. An inner entry is its sentence between its two neighbours, and the last entry is the last two sentences. Entry 0 is a space and sentence 1, and a single sentence gives the empty string |
| Chunker.IntendedWindowHoldsSentence | internal/tools/chunker/chunker.go:152-163 | the corrected window always contains its own sentence, and for inner entries equals what the source computes |
| Chunker.ConvertToVector | internal/tools/chunker/chunker.go:165-177 | one vector per sentence, each with exactly 10 entries. Entry `d` adds the lengths of the words at positions `d`, `d+10`, …, and the entries sum to the number of non-space characters of the sentence |
| Chunker.BucketsAddUp | internal/tools/chunker/chunker.go:170-173 | the ten buckets of a word list add up to the total length of its words |
| StringUtils.TruncateText | shared/utils/utils.go:40-45 | text within the limit is returned unchanged. Longer text gives exactly `maxLength` characters: its first `maxLength-3` followed by "..." |
| StringUtils.TruncateTextIdempotent | shared/utils/utils.go:40-45 | the result is within the limit, so truncating again changes nothing |
| StringUtils.Slugify | shared/utils/utils.go:64-81 | the slug holds only `a-z`, `0-9` and `-`, has no `--`, and neither starts nor ends with `-` |
| StringUtils.TrimHyphensShape | shared/utils/utils.go:80 | trimming hyphens from a text of slug characters without `--` gives a slug |
| StringUtils.SlugifyFixesSlugs | shared/utils/utils.go:64-81 | a text that is already a slug is its own slug |
| StringUtils.SlugifyIdempotent | shared/utils/utils.go:64-81 | slugifying twice is slugifying once |
| StringUtils.SlugifyKeepsAlnums | shared/utils/utils.go:64-81 | the slug keeps every lower-case letter and digit of the lower-cased text, in order |
| StringUtils.ContainsAny | shared/utils/utils.go:84-93 | true exactly when some slice element equals some given element, hence false when either list is empty |
| StringUtils.RemoveHTMLTags | shared/utils/utils.go:58-61 | the output is a subsequence of the input, and input without `<` is returned unchanged |
| StringUtils.RemoveHTMLTagsLeavesNoTag | shared/utils/utils.go:58-61 | in the output no `<` is followed later by a `>` |
| StringUtils.TagFreeUnchanged | shared/utils/utils.go:58-61 | text with no complete tag is returned unchanged |
| StringUtils.RemoveHTMLTagsIdempotent | shared/utils/utils.go:58-61 | removing tags twice is removing them once |
| StringUtils.ExtractDomain | shared/utils/utils.go:48-55 | the domain never contains `:`, `/` or a newline. It is empty for empty input and non-empty when the input starts with a host character |
| StringUtils.ExtractDomainIsMaximalRun | shared/utils/utils.go:49-54 | the domain is a slice of the URL that runs to the end or up to a `:`, `/` or newline |
| StringUtils.ExtractDomainOfHost | shared/utils/utils.go:49-54 | for any URL without `@` made of an optional `http://` or `https://`, an optional `www.`, a non-empty host and then nothing or a `:`, `/` or newline, the domain is the host (when `www.` is absent, the host must not itself begin with `www.`, which the pattern would strip) |
| StringUtils.ExtractDomainExample | shared/utils/utils.go:49-54 | the scheme and `www.` are stripped: `https://www.ab.io/x` gives `ab.io` |

## Left out

- Locking: the `sync.RWMutex` calls are not modelled, and every operation is one sequential step. With semantic connections on, `AddVectorsBatch`, `UpdateVector` and `DeleteVector` call `updateConnections` while holding the write lock, and its read lock then blocks. The model states the sequential effect those calls evidently intend.
- Tracing (`fmt.Println`/`Printf`) is not modelled.
- Disk persistence, the pickle stubs and the folder creation in `NewVectorDatabase` are file I/O and are not modelled.
- `uuid.New()` is not modelled: `AddVector` takes the new id as a parameter, and the caller guarantees it is not in use.
- Floating point is not modelled: scores are exact reals.
- Similarity.Cosine: returns `dot·|dot| / (normA·normB)`, the cosine times its absolute value, instead of `dot / (sqrt(normA)·sqrt(normB))`. The two are defined on the same inputs and order every pair of scores the same way, and the store only compares scores. Exact score values are not modelled.
- Similarity.Root: four Newton steps stand in for `math.Sqrt`. Only its sign matters, because dividing by any positive number changes no score (`CosineDiv`). The Cauchy–Schwarz bound `|cos| <= 1` is not proved.
- gonum `mat.Dense` is a sequence of rows. Reallocation, views and its panics are not modelled. Where gonum panics, the model specifies the intended append or compaction instead:
  - a width mismatch in `SetRow` in `AddVectorsBatch` and `UpdateVector`, which both require the table's width;
  - `Dims` on the nil matrix of a new table in `AddVectorsBatch`;
  - `DeleteVector` copying an empty range of rows: gonum's `Slice` refuses an empty range, so line 306 panics when the first row is deleted and line 307 when the last one is, and deleting the only row asks for a zero-row matrix;
  - an empty embedding, which gonum's `NewDense` refuses in `AddVector` and `AddVectorsBatch`; both require a positive width.
- VectorStorage.VectorDatabase.AddVector: requires the embedding to have the table's width. The source does not panic on a mismatch. It builds the new matrix with the new embedding's width, and `Copy` then cuts the earlier rows short or pads them with zeros (vector_storage.go:181-183). That reshaping of the existing rows is not modelled.
- VectorStorage.VectorDatabase.UpdateVector: on a one-row table built by `AddVector`, the matrix was made with `mat.NewDense(1, n, embedding)` (line 178), so its row shares storage with the record's `embedding` slice, and `SetRow` at line 274 rewrites that slice too. The model leaves the record's `embedding` unchanged; this aliasing is not modelled.
- VectorStorage.VectorDatabase.TopCosineSimilarity: requires `topN >= 0` on a non-empty table, because `similarities[:topN]` (line 466) panics for a negative `topN`. VectorStorage.VectorDatabase.SemanticSearch passes the same requirement on to `topK`.
- Chunker.SliceFixed: requires a positive `maxChunkSize` for a non-empty text, and Chunker.ChunkByMaxChunkSize requires the same in fixed mode. With 0 the loop never ends (see Findings); a negative size makes `text[i:end]` panic at line 58.
- StringUtils.TruncateText: requires `maxLength >= 3` whenever the text is longer than `maxLength`, because `text[:maxLength-3]` panics below that.
- VectorStorage.VectorDatabase.AddVectorsBatch: requires every input record to hold a `[]float64` `embedding` of the table's width. The source's type assertion panics otherwise.
- VectorStorage.VectorDatabase.AddVector: content preservation is shown by `Connections.ReconnectedKeepsContent` about the `Reconnected` term in its ensures, not by an ensures of its own.
- `updateConnections` is called with its default `k = 5` everywhere, as every caller in the source does. Its lemmas hold for any `k`.
- Connections.Top: `sort.Slice` is not stable. The model sorts with one fixed insertion sort and proves only what holds for any order among equal scores: sorted, a permutation, and a best-`topN` choice. Which of several equal-score entries is kept is not modelled.
- Maps are values, so the aliasing between the records in `metadata` and the records held by ranking results is not modelled. The source mutates records in place, and the model replaces them.
- Comparisons of ids: `meta["id"] == id` on interface values is modelled as equality of `Value`s. The run-time panic Go raises when comparing uncomparable dynamic types is not modelled.
- VectorStorage.VectorDatabase.Dfs: reads a `connections` list that `updateConnections` wrote, which is the corrected behaviour (see Findings). A link whose id is not a string is skipped, where the source's `.(string)` assertion panics.
- VectorStorage.VectorDatabase.SemanticSearch: requires the top hits to carry string ids, which the source's `.(string)` assertion demands. The order of the result is the Go map's iteration order, which the model leaves open.
- `ChunkBySentences` (the `prose` library), `ChunkBySemantics` and `calculateCosineSimilarities` (float percentile thresholds) are not modelled.
- The chunker's regular-expression splitters are not modelled: sentences and paragraphs are given sequences.
- `strings.Fields` and `strings.TrimSpace` are modelled over ASCII white space only. UTF-8 decoding is not modelled: lengths are counted in characters.
- StringUtils.Slugify: lower-cases ASCII letters only; the Unicode case mapping of `strings.ToLower` is not modelled.
- StringUtils.ExtractDomain and StringUtils.RemoveHTMLTags are written as the scans their regular expressions perform. The regexp engine itself is not modelled.
- `LoadJSONFile` and `SaveJSONFile`, the document loader, the LLM clients and the example program are I/O and not modelled.

## Findings

| source | as written | input that shows it | evidently intended | confidence | as-written member | corrected member |
|---|---|---|---|---|---|---|
| internal/tools/chunker/chunker.go:152-163 | entry 0 of `combineSentences` is only `" " + sentences[1]`. The `i > 0` branch that writes the sentence itself never runs for `i = 0`, so the first window lacks its own sentence | `["A", "B"]` gives entry 0 `" B"`, with no `A` | each window holds its own sentence with its neighbours: entry 0 is `"A B"` | high, not executed | Chunker.CombineSentences | Chunker.IntendedWindowHoldsSentence |
| internal/tools/vector_storage/vector_storage.go:355 | `GetConnectedChunks` asserts `meta["connections"].([]interface{})`. `updateConnections` stores `[]map[string]interface{}` (lines 534-550 and 583), so the assertion panics on every list it wrote | a table with semantic connections on, two `AddVector` calls, then `GetConnectedChunks` on either id with depth 0 | walk the neighbour links that `updateConnections` stored | high, not executed | VectorStorage.ReconnectedFailsAssertion | VectorStorage.VectorDatabase.GetConnectedChunks |
| internal/tools/chunker/chunker.go:53-59 | the fixed-size loop steps by `maxChunkSize` whatever its value. With 0 the offset never moves, so on a non-empty text the loop appends empty chunks forever | `ChunkByMaxChunkSize("a", 0, false)` | reject a non-positive size, or step by at least one character | medium, not executed | Chunker.ZeroSizeNeverEnds | Chunker.SliceFixed |
