# pycats: a verified reference model

pycats stores time series and free-text documents in Cassandra.

- **Time series.** `TimeSeriesCassandraDao` writes data points (source id, data name, timestamp, value) into the column family `HourlyTimestampedData`, with the columns of a row ordered by timestamp. It reads back a closed time range in ascending order.
- **Free text.** A text is stored as a blob under a fresh blob row key in `BlobData`. An inverted index `BlobDataIndex` is written beside it. The index is keyed by (source id, data name, term), and each timestamp column names the blob.
- **Phrases.** `StringIndexer` normalises text with `strip_and_lower`. It cuts the result into phrases of one to a few consecutive words with `_build_substrings`, and turns each phrase into one index record with `build_indexes_from_timstamped_dto`.
- **Search.** A search normalises the query the same way, reads the row of that exact term and resolves each entry's blob. A multi-name search merges the per-name hits by timestamp.

The implementation module `pycats.pycats` is not part of this model. What its behaviour must be is fixed by the assertions of `pycats/tests.py`. This project is a reference model of that behaviour. The outcomes the tests assert are proved for any texts and queries; which query matches which text is stated through `Matches`.

## Modules

- `Dto`: the data-transfer records `TimestampedData` and `BlobIndex`, and `Option` / `Result`.
- `Columns`: a Cassandra row under a `timestamp` comparator. A strictly increasing sequence of (timestamp, value) columns with a map view `ColumnsOf`. It provides `Insert` (insert or overwrite) and `Slice` (the closed interval).
- `StringIndexer`: the pure tokenizer and phrase builder. `StripAndLower`, `BuildSubstrings` and `BuildIndexes` come with the lemmas that characterise them.
- `IndexerExamples`: the StringIndexer unit tests as lemmas.
- `TimeSeries`: the hourly store as a value. It covers `Put`, `PutAll` and `RangeQuery`, and what a range query returns after a batch of writes.
- `FreeTextIndex`: the inverted index as a value (`IndexPut`, `IndexAll`, `IndexDocs`), blob resolution (`Resolve`, `Search`) and the merged multi-name search (`Merge`, `MultiSearch`). It also holds the main search theorem `SearchAfterIndexing`.
- `Dao`: the class `TimeSeriesCassandraDao`. Its fields are the three column families and the blob-key counter. Each DAO call is a method proved equal to the value-level operation.
- `DaoScenarios`: the integration tests as methods. Each drives a `TimeSeriesCassandraDao` through the test's calls and ensures the outcome the test asserts, for any texts and queries, with the matching stated through `Matches`. The test helper `__insert_range_of_metrics` is a method with its `while` loop.

## Modelling decisions

- **Timestamps** are integer seconds. The hour bucket is floor division by 3600.
- **Hour rows.** The model keys a row of `HourlyTimestampedData` by (source id, data name, hour). This bucketing is a choice of the model, not something the tests pin down: a range query returns the same points as it would from one row per (source id, data name).
- **Characters.** Word characters are ASCII letters and digits, the Latin-1 letters, and every code point from U+0100 up outside the general punctuation and symbol blocks U+2000–U+2BFF and U+3000–U+303F. Only ASCII and Latin-1 capitals are lowered. White space (`IsSpace`) is the ASCII set only: space, tab, line feed, carriage return, vertical tab and form feed. Python's `str.split()` also splits on other Unicode spaces, such as U+0085, U+00A0 and U+2000–U+200A; texts holding those are split differently by the model.
- **`strip_and_lower`** keeps the words (maximal runs of word characters) of the lower-cased text, joined by single spaces. **`_build_substrings(text, depth)`** is the set of phrases of 1..depth consecutive white-space separated words of `text`.
- **Indexing depth.** Texts are indexed to depth 4 (`IndexDepth`). This is the smallest depth under which the four-word query of pycats/tests.py:187 hits.
- **Blob row keys** come from a counter held by the DAO, so each key is fresh.
- **`insert_blob_data` also writes the data point into its hour row.** The Arabic-text test (pycats/tests.py:262-277) stores its point only through `insert_blob_data`, yet expects the range query to return it.
- **Missing blobs.** A search whose index row names a missing blob fails with `CorruptIndex(timestamp, key)`, naming the first such entry. A term without entries gives an empty hit list, not an error.
- **Multi-name search.** Each data name is searched in order and merged, with a stable two-way merge, into the hits gathered so far. The first failing search fails the whole call.
- **Test literals.** The scenarios take the test's documents and queries as parameters. Which query matches which document is stated with `FreeTextIndex.Matches`, which `FreeTextIndex.MatchesByWords` reduces to words.
- **Unused asserts in the source.** The single-insert full-range test (pycats/tests.py:105-121) comments that the first and last values are missed, but it asserts the full length and never checks index 0. `DaoScenarios.FullRangeScenario` proves that every point, index 0 included, comes back.

## Model

| member | source | states |
|---|---|---|
| StringIndexer.Lower | pycats/tests.py:349-355 | lowering leaves no capital, changes only capitals, and keeps word characters word characters |
| StringIndexer.StripAndLowerSpec | pycats/tests.py:334-356 | the result's words are exactly the lower-cased words of the text; splitting it on white space gives those words; joining them gives the result back (single spaces, none at either end); it holds only spaces and lower-case word characters |
| StringIndexer.StripAndLowerIdempotent | pycats/tests.py:162-164 | normalising a normalised text changes nothing, so a query that is already a stored term looks up that term |
| StringIndexer.StripAndLowerByWords | pycats/tests.py:187-197 | two texts with the same lower-cased words normalise to the same string, whatever their separators and capitals |
| StringIndexer.WordsOfLower | pycats/tests.py:349-355 | the words of the lower-cased text are the lower-cased words of the text |
| StringIndexer.StripAndLowerOfWeave | pycats/tests.py:346-356 | a text made of separator runs and words normalises to the lower-cased words joined by single spaces |
| StringIndexer.TokensOfJoin | pycats/tests.py:359-405 | splitting words joined by single spaces gives the words back |
| StringIndexer.TokensSplit | pycats/tests.py:334-356 | tokenising splits at a separator boundary: tokens of a + b are the tokens of a followed by those of b |
| StringIndexer.TokensOfWeave | pycats/tests.py:346-356 | the words of a text interleaving separator runs and words are exactly those words |
| StringIndexer.WindowsSpec | pycats/tests.py:359-405 | the phrase list holds exactly the joins of 1..depth consecutive words |
| StringIndexer.BuildSubstrings | pycats/tests.py:359-405 | a phrase is in the set iff it is the join of 1..depth consecutive white-space separated words of the text |
| StringIndexer.PhraseMatch | pycats/tests.py:187-191 | a normalised phrase is in the set iff it has 1..depth words and they occur consecutively in the text |
| StringIndexer.BuildSubstringsMonotone | pycats/tests.py:359-381 | a larger depth gives a superset of phrases |
| StringIndexer.BuildSubstringsClamped | pycats/tests.py:383-393 | a depth above the word count gives the same set as the word count: clamped, not an error |
| StringIndexer.Dedup | pycats/tests.py:368 | the term list holds the same phrases without repeats, as the set the source builds does |
| StringIndexer.BuildIndexes | pycats/tests.py:419-431 | one record per distinct phrase of the normalised text at depth IndexDepth, each carrying the document's source id, data name, timestamp and the given blob row key |
| IndexerExamples.SeaExample | pycats/tests.py:334-344 | "sea." normalises to "sea" |
| IndexerExamples.ComplexSampleExample | pycats/tests.py:346-356 | the mixed sample normalises to "1921 bg three cäts left hôme early in two cars" |
| IndexerExamples.AccentedTermExample | pycats/tests.py:266-282 | the query "árabic" normalises to itself, so it reads the row of the hand-written term |
| IndexerExamples.HelloFields | pycats/tests.py:362 | "hello indexed words" splits into its three words |
| IndexerExamples.FiveWordFields | pycats/tests.py:398 | "hello indexed words of yore" splits into its five words |
| IndexerExamples.ThreeWordWindows | pycats/tests.py:359-393 | the phrase lists of three words at depth 1, 2 and any depth from 3 |
| IndexerExamples.FiveWordWindows | pycats/tests.py:395-405 | the phrase list of five words at depth 3 |
| IndexerExamples.DepthOneExample | pycats/tests.py:359-369 | depth 1 on "hello indexed words" gives the three words |
| IndexerExamples.DepthTwoExample | pycats/tests.py:371-381 | depth 2 adds "hello indexed" and "indexed words" and nothing else |
| IndexerExamples.DepthFiveExample | pycats/tests.py:383-393 | depth 5 on three words gives exactly the six phrases |
| IndexerExamples.DepthThreeExample | pycats/tests.py:395-405 | depth 3 on five words gives exactly the twelve phrases |
| Columns.ColumnsOfSpec | pycats/tests.py:22-24 | a key is in the row's view iff some column has it, and a sorted row's view maps each column's key to its value |
| Columns.Insert | pycats/tests.py:22-24 | writing a column keeps the row sorted and sets that key's value, overwriting an earlier one and leaving every other column |
| Columns.Slice | pycats/tests.py:22-24 | the slice is sorted and holds exactly the row's columns with keys in the closed interval |
| Columns.SliceKeepsAll | pycats/tests.py:96-103 | a slice whose bounds cover every key is the whole row |
| Columns.SliceDropsEnds | pycats/tests.py:131-140 | a slice whose bounds exclude just the first and last keys is the row without its two ends |
| Columns.SortedUnique | pycats/tests.py:22-24 | two sorted rows with the same view are the same row |
| Columns.AppendRows | pycats/tests.py:90-96 | two sorted rows with separated keys concatenate into a sorted row whose view is the union |
| TimeSeries.Put | pycats/tests.py:73-75 | writing a point keeps every hour row sorted and within its hour; afterwards that series reads the point's value at its time and nothing else changes |
| TimeSeries.PutAllValue | pycats/tests.py:82-84 | after a batch of writes, each time reads the value of the last point written there, or its old value |
| TimeSeries.SliceOfBucket | pycats/tests.py:22 | the slice of one hour row holds the series' points of that hour inside the interval |
| TimeSeries.JoinBuckets | pycats/tests.py:90-96 | one hour's slice followed by the later hours' slices is sorted and holds the points of those hours inside the interval |
| TimeSeries.RangeFromSpec | pycats/tests.py:90-96 | walking the hour rows from a given hour yields, sorted, exactly the series' points in the interval from that hour on |
| TimeSeries.RangeQuerySpec | pycats/tests.py:96-103 | the range is strictly ascending and holds exactly the series' points in the closed interval, with their values |
| TimeSeries.RangeUnique | pycats/tests.py:96-103 | that description fixes the range: two lists meeting it are equal |
| TimeSeries.PointsOf | pycats/tests.py:101-103 | the (timestamp, value) pairs of the points, in order |
| TimeSeries.ColumnsOfPoints | pycats/tests.py:101-103 | ascending points of one series form a sorted row that reads the last value written at each time |
| TimeSeries.RangeAfterInserts | pycats/tests.py:93-103 | after writing ascending points into an empty stretch of a series, the range is the inserted points inside the interval, in order |
| TimeSeries.FullRangeAfterInserts | pycats/tests.py:96-121 | when every inserted point lies in the interval, the range has as many entries as were inserted and the i-th is the i-th point |
| TimeSeries.InnerRangeAfterInserts | pycats/tests.py:129-140 | when the interval excludes only the first and last inserted points, the range has two fewer entries and the i-th is the (i+1)-th point |
| FreeTextIndex.IndexPut | pycats/tests.py:267-269 | writing an entry keeps every index row sorted; afterwards that row names the entry's blob at its time and nothing else changes |
| FreeTextIndex.IndexAllView | pycats/tests.py:269 | after a batch of entries, each index column names the blob of the last entry written to it, or what it named before |
| FreeTextIndex.SameDocumentEntries | pycats/tests.py:419-431 | entries of one document name its blob exactly at its own time, in the rows of their terms |
| FreeTextIndex.DocumentEntries | pycats/tests.py:152 | indexing one document names its blob in row (source, name, term) at its time exactly when the term is a phrase of its text |
| FreeTextIndex.LastDocHit | pycats/tests.py:224-231 | the blob of the last indexed document hitting a column is that of a document hitting it; none means no document hits it |
| FreeTextIndex.IndexDocsView | pycats/tests.py:224-231 | after indexing several documents, each column names the blob of the last document that hits it |
| FreeTextIndex.Resolve | pycats/tests.py:164-168 | resolution succeeds iff every entry's blob is stored; then it lists each entry's time with its blob's text, in row order; otherwise it names the first missing entry |
| FreeTextIndex.SearchAscending | pycats/tests.py:238-240 | search hits come in strictly ascending timestamp order |
| FreeTextIndex.MatchesByWords | pycats/tests.py:181-197 | a query matches a text iff its lower-cased words, one to four of them, occur consecutively among the text's lower-cased words |
| FreeTextIndex.SearchAfterIndexing | pycats/tests.py:204-248 | after indexing documents whose blobs hold their texts, a search succeeds, is strictly ascending, and holds a document of the series iff the query matches it, and nothing else |
| FreeTextIndex.RowEntryDoc | pycats/tests.py:224-240 | every entry of the query's row comes from an indexed document that hits it |
| FreeTextIndex.HitDocInRow | pycats/tests.py:224-240 | every document that hits the query's row, alone at its time, has its entry in that row |
| FreeTextIndex.Merge | pycats/tests.py:311-319 | the merge holds exactly the hits of both lists, counted with multiplicity |
| FreeTextIndex.MergeAscending | pycats/tests.py:311-319 | merging two ascending lists gives an ascending list |
| FreeTextIndex.MultiSearchSucceeds | pycats/tests.py:311 | the multi-name search succeeds iff the search of every data name does |
| FreeTextIndex.MultiSearchHits | pycats/tests.py:311-319 | a successful multi-name search is ascending and holds exactly the hits of all the per-name searches |
| Dao.TimeSeriesCassandraDao.constructor | pycats/tests.py:54 | a DAO over an empty keyspace, its invariant established |
| Dao.TimeSeriesCassandraDao.InsertTimestampedData | pycats/tests.py:75 | the hour rows become Put of the point; blobs, index and counter unchanged |
| Dao.TimeSeriesCassandraDao.BatchInsertTimestampedData | pycats/tests.py:84 | the hour rows become those of writing the points one by one, in order |
| Dao.TimeSeriesCassandraDao.InsertBlobData | pycats/tests.py:262 | returns a key never used before, stores the text under it, advances the counter and writes the point into its hour row |
| Dao.TimeSeriesCassandraDao.BatchInsertIndexes | pycats/tests.py:269 | the index becomes that of writing the given entries in order; nothing else changes |
| Dao.TimeSeriesCassandraDao.InsertIndexableTextAsBlobDataAndInsertIndex | pycats/tests.py:152 | stores the text under a fresh key and writes the document's records under that key |
| Dao.TimeSeriesCassandraDao.GetTimestampedDataRange | pycats/tests.py:96 | the hour-row walk returns the range query: ascending, exactly the series' points in the closed interval |
| Dao.TimeSeriesCassandraDao.GetBlobsByFreeTextIndex | pycats/tests.py:164 | the resolving loop returns the search of the normalised query, stopping at the first missing blob; hits ascend strictly |
| Dao.TimeSeriesCassandraDao.GetBlobsMultiDataByFreeTextIndex | pycats/tests.py:311 | the merging loop returns the multi-name search: ascending, holding the hits of every name |
| Dao.FirstMissing | pycats/tests.py:164 | the first entry without a blob is the one a failed search reports |
| Dao.FailureSticks | pycats/tests.py:311 | once the searches of a prefix of the names fail, the whole multi-name search fails with that error |
| DaoScenarios.NatToString | pycats/tests.py:73 | the decimal text of the counter: non-empty, all digits |
| DaoScenarios.NatToStringValue | pycats/tests.py:73 | reading the text back as a decimal number (`DigitsValue`) gives the counter, as `str(value)` does |
| DaoScenarios.NatToStringInjective | pycats/tests.py:73 | distinct counters are written as distinct texts |
| DaoScenarios.Ramp | pycats/tests.py:71-80 | the i-th point of the helper's ramp is at start plus i times ten minutes and holds the text of i |
| DaoScenarios.TestRampLength | pycats/tests.py:90-91 | the tests' ramp has 175 points and spans 29 hour boundaries |
| DaoScenarios.RampAscending | pycats/tests.py:71-80 | the ramp's points are in one series, strictly ascending |
| DaoScenarios.RampBounds | pycats/tests.py:71 | every ramp point lies in [start, end] |
| DaoScenarios.RampReachesEnd | pycats/tests.py:71-78 | when end is a whole number of steps after start, the last point is at end |
| DaoScenarios.InsertRangeOfMetrics | pycats/tests.py:58-85 | the helper's loop returns the ramp and, with or without batch insert, leaves the hour rows as writing the ramp in order; blobs, index and blob-key counter are unchanged |
| DaoScenarios.FullRangeScenario | pycats/tests.py:87-121 | the full range returns as many points as were inserted, the i-th equal to the i-th inserted, for single and batch insert |
| DaoScenarios.PartialRangeScenario | pycats/tests.py:123-140 | the range narrowed by a minute at each end returns n-2 points, the i-th equal to the (i+1)-th inserted |
| DaoScenarios.InnerRampBounds | pycats/tests.py:131-140 | the ramp ascends, and only its first and last points fall outside the range narrowed by one minute at each end |
| DaoScenarios.RampStop | pycats/tests.py:71-80 | the helper's loop stops after the last step at or before the end, so it makes RampLength steps |
| DaoScenarios.InnerRangeOfRamp | pycats/tests.py:131-140 | over ten-minute spaced points the narrowed range is all but the first and last |
| DaoScenarios.SinglePointRange | pycats/tests.py:155-160 | a range whose interval holds one point of the series is that point alone |
| DaoScenarios.SameHitsSameList | pycats/tests.py:238-240 | two ascending hit lists with the same members are equal |
| DaoScenarios.HitsWhereMembers | pycats/tests.py:238-240 | the hits of a document list hold exactly the (timestamp, text) pairs of the selected documents, whatever their order |
| DaoScenarios.HitsWhereSpec | pycats/tests.py:238-240 | the hits of documents listed in ascending time are strictly ascending and hold exactly the selected documents |
| DaoScenarios.SearchHitsExactly | pycats/tests.py:204-248 | after indexing, the search succeeds, ascends strictly, and holds a pair iff it is that of a selected document of the series |
| DaoScenarios.SameHitsList | pycats/tests.py:238-240 | a strictly ascending hit list holding exactly the selected documents' hits is the hit list of those documents listed in ascending time |
| DaoScenarios.SearchIsHitsWhere | pycats/tests.py:204-248 | the search after indexing equals the matching documents of the series listed in ascending time |
| DaoScenarios.IndexedTextScenario | pycats/tests.py:143-202 | after writing and indexing one text, the one-minute range returns exactly it, and a search returns it iff the query matches, and otherwise an empty list |
| DaoScenarios.OneDocumentSearch | pycats/tests.py:162-202 | searching after indexing one document finds it iff the query matches it |
| DaoScenarios.OutOfOrderScenario | pycats/tests.py:204-248 | after writing four texts out of time order, each search returns the matching texts in ascending time |
| DaoScenarios.IndexEach | pycats/tests.py:224-231 | writing and indexing documents one by one adds them, in order and each with its blob key, to those indexed; every blob holds its document's text |
| DaoScenarios.StoreAndIndex | pycats/tests.py:224-231 | one write-and-index step adds the document, with the next blob key, to those indexed, its text stored under that key |
| DaoScenarios.IndexText | pycats/tests.py:303-308 | storing and indexing one text adds it, with the next blob key, to the documents indexed |
| DaoScenarios.FourDocumentSearch | pycats/tests.py:233-248 | the search over the four indexed texts is their matching ones in the order d1, d3, d2, d4 |
| DaoScenarios.HitsWhereFour | pycats/tests.py:238-240 | the hits of four documents are each one's hit, in order |
| DaoScenarios.ThreeOfFour | pycats/tests.py:233-240 | when the first three of four ascending documents match and the last does not, the hits are those three, ascending |
| DaoScenarios.OnlyThirdOfFour | pycats/tests.py:245-248 | when only one document matches, it is the one hit |
| DaoScenarios.ManualIndexScenario | pycats/tests.py:250-286 | after storing a blob and two hand-written index entries, the one-minute range returns the point and the search for the first term returns exactly it |
| DaoScenarios.ManualRow | pycats/tests.py:265-269 | two hand-written entries for one blob leave the first term's empty row holding that blob alone |
| DaoScenarios.ResolveOne | pycats/tests.py:279-286 | a row naming one stored blob resolves to that blob's text |
| DaoScenarios.MultiNameScenario | pycats/tests.py:288-320 | three texts under three data names, all matching, come back from the multi-name search as the three, in ascending time |
| DaoScenarios.ThreeNameSearch | pycats/tests.py:310-320 | the multi-name search over the three indexed texts is the three, ascending |
| DaoScenarios.OneOfThree | pycats/tests.py:310-311 | the search of one of the three names finds its text alone |
| DaoScenarios.OneNameSearch | pycats/tests.py:310-311 | with every other document under another data name, the search of a matching document's name finds it alone |
| DaoScenarios.MultiSearchThree | pycats/tests.py:311 | the multi-name search over three names merges their hits name by name, in order |
| DaoScenarios.MergeInOrder | pycats/tests.py:311-320 | single hits merged in ascending time come out in that order |
| DaoScenarios.MergeThree | pycats/tests.py:311-320 | merging three single hits in ascending time gives them in that order |

## Left out

- Cassandra itself (hosts, keyspaces, Thrift, column-family creation, pycats/tests.py:7-30) is replaced by in-memory maps. Latency, replication, concurrency and partial failures of the store are not modelled.
- The YAML settings file and other file I/O in `setUp` (pycats/tests.py:43-46) are not modelled.
- The optional cache collaborator (pycats/tests.py:51-54) affects only latency and is not modelled.
- UTF-8 byte encoding of terms and of Python 2 byte strings (pycats/tests.py:266-268, 355) is not modelled. Text is a sequence of characters.
- Unicode letter classification and case mapping are approximated by the fixed ranges above. Capitals beyond Latin-1 are not lowered.
- Blob row-key generation from clocks or randomness is replaced by a counter.
- `datetime` arithmetic is replaced by integer seconds. Time zones and calendars play no part.
- The print-only and empty tests (pycats/tests.py:407-417, 419-437) assert nothing beyond what `StringIndexer.BuildIndexes` states, and have no scenario of their own.
- The scenarios' literal texts and queries (the Woe/Notice/Hans strings, "sea", "árabic") are parameters. Whether a query matches is stated through `Matches`, because normalising long literal strings inside proofs is beyond the verifier's budget here.
- IndexerExamples.DepthOneExample: stated for any text whose white-space words are "hello", "indexed", "words" rather than for the literal string; `IndexerExamples.HelloFields` shows the literal has those words.
- IndexerExamples.DepthTwoExample: stated for any text with those three words, as above.
- IndexerExamples.DepthFiveExample: stated for any text with those three words, as above.
- IndexerExamples.DepthThreeExample: stated for any text with the words "hello indexed words of yore"; `IndexerExamples.FiveWordFields` shows the literal has them.
- IndexerExamples.ComplexSampleExample: the sample is written as its separator runs woven with its words, not as one string literal.
- FreeTextIndex.Merge: its contract states the multiset of hits. Which of two equal-timestamp hits comes first is fixed by its definition (the earlier name first), not stated as a contract.
- DaoScenarios.OutOfOrderScenario: ensures the general hit list for both searches. The concrete lists the test expects ("Notice" finds three, "Hans-Smiths-MacBook" finds one) are the separate lemmas `DaoScenarios.ThreeOfFour` and `DaoScenarios.OnlyThirdOfFour`.
- DaoScenarios.InsertRangeOfMetrics: models the helper with the flag `insert_the_test_range_into_live_db` on, as `setUp` sets it (pycats/tests.py:55); with the flag off the helper would write and return nothing.
- DaoScenarios.IndexEach: does not state the hour rows and the blob-key counter it leaves; the search scenarios that use it read only the index and the blobs.
- DaoScenarios.FullRangeScenario: assumes the series holds no earlier point in the range, as in a fresh keyspace. A re-run over old data of the same ramp is not covered.
- DaoScenarios.PartialRangeScenario: assumes a fresh range, as above, and an end a whole number of ten-minute steps after the start, as in the test.
- DaoScenarios.IndexedTextScenario: assumes the index row of the query's term is empty before the write, as in a fresh keyspace.
- DaoScenarios.MultiNameScenario: assumes the three data names are distinct and their rows of the query's term are empty, as in a fresh keyspace.
